/** read_ofp_msg and the loop around it: messages are put together again from reads of any
    size. A header (section 7.1 of the OpenFlow Switch Specification 1.3) is 8 bytes, its
    length field is bytes 2 and 3 and counts the whole message. */
module Framing {
  import opened Bytes

  const HEADER: nat := 8

  // The result of a read of n bytes with avail bytes to come, when the system offers chunk:
  // negative is an error, 0 the end of the stream.
  function Rc(chunk: int, n: nat, avail: nat): (rc: int)
    ensures rc < 0 <==> chunk < 0
    ensures chunk < 0 ==> rc == chunk
    ensures rc <= n && rc <= avail
    ensures rc == 0 ==> n == 0 || avail == 0
  {
    if chunk < 0 then chunk
    else
      var most := if n < avail then n else avail;
      if chunk <= most then (if chunk == 0 && most > 0 then 1 else chunk) else most
  }

  /** A connected socket: the bytes the peer ever sends, and what the system offers at each
      call of read. */
  class Socket {
    const data: seq<byte>
    const offer: nat -> int
    var pos: nat
    var calls: nat

    ghost predicate Valid()
      reads this
    {
      pos <= |data|
    }

    constructor (data: seq<byte>, offer: nat -> int)
      ensures Valid() && this.data == data && this.offer == offer && pos == 0 && calls == 0
    {
      this.data, this.offer := data, offer;
      pos, calls := 0, 0;
    }

    ghost function Rest(): seq<byte>
      reads this
      requires Valid()
    {
      data[pos..]
    }

    method Read(buf: array<byte>, at: nat, n: nat) returns (rc: int)
      requires Valid() && 0 < n && at + n <= buf.Length
      modifies this, buf
      ensures Valid() && calls == old(calls) + 1 && rc == Rc(offer(old(calls)), n, |old(Rest())|)
      ensures rc < 0 ==> pos == old(pos) && buf[..] == old(buf[..])
      ensures rc >= 0 ==>
                && rc <= n && rc <= |old(Rest())| && pos == old(pos) + rc && Rest() == old(Rest())[rc..]
                && buf[..] == Overlay(old(buf[..]), at, old(Rest())[..rc])
    {
      var avail := |data| - pos;
      rc := Rc(offer(calls), n, avail);
      calls := calls + 1;
      if rc > 0 {
        CopyIn(buf, at, rc);
        pos := pos + rc;
      }
    }

    // The bytes themselves.
    method CopyIn(buf: array<byte>, at: nat, n: nat)
      requires pos + n <= |data| && at + n <= buf.Length
      modifies buf
      ensures buf[..] == Overlay(old(buf[..]), at, data[pos..][..n])
    {
      ghost var was := buf[..];
      for i := 0 to n
        invariant buf[..at] == was[..at] && buf[at + i..] == was[at + i..]
        invariant buf[at..at + i] == data[pos..][..i]
      {
        buf[at + i] := data[pos + i];
      }
      assert buf[..] == buf[..at] + buf[at..at + n] + buf[at + n..];
    }
  }

  // ----- What a stream holds.

  // The stream starts with a whole message, with a header whose length is no length of a
  // message, or with neither.
  predicate Whole(s: seq<byte>) {
    HEADER <= |s| && HEADER <= Be16(s, 2) <= |s|
  }

  predicate Bad(s: seq<byte>) {
    HEADER <= |s| && Be16(s, 2) < HEADER
  }

  predicate Cut(s: seq<byte>) {
    !Whole(s) && !Bad(s)
  }

  // The size of the read that completes need bytes, from the k-th call on.
  function LastRead(offer: nat -> int, k: nat, need: nat): (rc: int)
    ensures need > 0 ==> rc <= need && rc != 0
    decreases need
  {
    var rc := Rc(offer(k), need, need);
    if rc < 0 || rc == need then rc else LastRead(offer, k + 1, need - rc)
  }

  predicate NoError(offer: nat -> int, from: nat, to: nat) {
    forall k | from <= k < to :: offer(k) >= 0
  }

  // ----- One message.

  // The cursor of the loop: got bytes of rest are in the buffer, and something is missing.
  ghost predicate Pending(rest: seq<byte>, got: nat) {
    && got <= |rest|
    && (got < HEADER || (got == HEADER && Bad(rest)) || (HEADER <= got < Be16(rest, 2)))
  }

  // The n bytes a read adds to the got bytes already in the buffer.
  lemma {:induction false} ReadOn(was: seq<byte>, rest: seq<byte>, got: nat, n: nat)
    requires got + n <= |rest| && got + n <= |was|
    ensures Overlay(Overlay(was, 0, rest[..got]), got, rest[got..][..n]) == Overlay(was, 0, rest[..got + n])
    ensures rest[got..][n..] == rest[got + n..]
  {
    assert rest[..got] + rest[got..][..n] == rest[..got + n];
    OverlayJoin(was, 0, rest[..got], rest[got..][..n]);
  }

  lemma {:induction false} NothingRead(was: seq<byte>, rest: seq<byte>)
    ensures Overlay(was, 0, rest[..0]) == was
  {
  }

  lemma {:induction false} LengthInBuffer(was: seq<byte>, rest: seq<byte>, got: nat)
    requires HEADER <= got <= |rest| && got <= |was|
    ensures Be16(Overlay(was, 0, rest[..got]), 2) == Be16(rest, 2)
  {
  }

  lemma {:induction false} LastReadStep(offer: nat -> int, k: nat, need: nat, avail: nat)
    requires 0 < need <= avail && Rc(offer(k), need, avail) > 0
    ensures var rc := Rc(offer(k), need, avail);
            LastRead(offer, k, need) == if rc == need then rc else LastRead(offer, k + 1, need - rc)
  {
  }

  // One read, behind the got bytes of rest that are in the buffer.
  method ReadPiece(sock: Socket, buf: array<byte>, got: nat, n: nat, ghost rest: seq<byte>, ghost was: seq<byte>)
    returns (rc: int)
    requires sock.Valid() && 0 < n && got <= |rest| && got + n <= buf.Length == |was|
    requires sock.Rest() == rest[got..] && buf[..] == Overlay(was, 0, rest[..got])
    modifies sock, buf
    ensures sock.Valid() && sock.calls == old(sock.calls) + 1
    ensures rc == Rc(sock.offer(old(sock.calls)), n, |rest| - got)
    ensures rc >= 0 ==>
              got + rc <= |rest| && sock.Rest() == rest[got + rc..] && buf[..] == Overlay(was, 0, rest[..got + rc])
  {
    hide Rc;
    rc := sock.Read(buf, got, n);
    if rc >= 0 {
      ReadOn(was, rest, got, rc);
    }
  }

  /** Reads one message into the buffer. Whatever the sizes of the reads, a whole message at
      the start of the stream is returned alone and complete; a stream that is cut short ends
      the connection. Only a header that claims less than its own size lets the size of the
      last read show. */
  method ReadOfpMsg(sock: Socket, buf: array<byte>) returns (r: int)
    requires sock.Valid() && 65536 <= buf.Length
    modifies sock, buf
    ensures sock.Valid() && sock.calls > old(sock.calls)
    ensures r < 0 ==> sock.offer(sock.calls - 1) == r
    ensures r >= 0 ==> NoError(sock.offer, old(sock.calls), sock.calls)
    ensures r >= 0 && Whole(old(sock.Rest())) ==>
              && r == Be16(old(sock.Rest()), 2) && sock.Rest() == old(sock.Rest())[r..]
              && buf[..] == Overlay(old(buf[..]), 0, old(sock.Rest())[..r])
    ensures r >= 0 && Cut(old(sock.Rest())) ==> r == 0 && sock.Rest() == []
    ensures r >= 0 && Bad(old(sock.Rest())) ==>
              && r == LastRead(sock.offer, old(sock.calls), HEADER) && sock.Rest() == old(sock.Rest())[HEADER..]
              && buf[..] == Overlay(old(buf[..]), 0, old(sock.Rest())[..HEADER])
  {
    hide LastRead;
    hide Rc;
    hide Overlay;
    ghost var rest, was, from := sock.Rest(), buf[..], sock.calls;
    assert Overlay(was, 0, rest[..0]) == was by {
      NothingRead(was, rest);
    }
    var pending, got := true, 0;
    r := 0;
    while pending
      invariant sock.Valid() && from <= sock.calls && NoError(sock.offer, from, sock.calls)
      invariant got <= |rest| && got <= |was| == buf.Length && 65536 <= buf.Length
      invariant sock.Rest() == rest[got..] && buf[..] == Overlay(was, 0, rest[..got])
      invariant if pending then Pending(rest, got) else Whole(rest) && got == Be16(rest, 2)
      invariant got > 0 ==> sock.calls > from
      invariant got < HEADER <= |rest| ==>
                  LastRead(sock.offer, from, HEADER) == LastRead(sock.offer, sock.calls, HEADER - got)
      invariant got == HEADER && Bad(rest) ==> r == LastRead(sock.offer, from, HEADER)
      decreases pending, if got < HEADER then 65544 - got else Be16(rest, 2) - got
    {
      if got >= HEADER {
        LengthInBuffer(was, rest, got);
      }
      var msgLen := if got < HEADER then HEADER else LoadBe16(buf, 2);
      if msgLen < HEADER {
        return;
      }
      r := ReadPiece(sock, buf, got, msgLen - got, rest, was);
      if r <= 0 {
        return;
      }
      if got < HEADER <= |rest| {
        LastReadStep(sock.offer, sock.calls - 1, HEADER - got, |rest| - got);
      }
      got := got + r;
      if got >= HEADER {
        LengthInBuffer(was, rest, got);
        pending := LoadBe16(buf, 2) != got;
      }
    }
    r := got;
  }

  // ----- The whole stream.

  // The stream s delivers msgs one after another and then has left to come. A bad header is
  // delivered as well, as the bytes of the read that completed it counted from its start.
  ghost predicate Delivers(s: seq<byte>, msgs: seq<seq<byte>>, left: seq<byte>)
    decreases |msgs|
  {
    if msgs == [] then s == left
    else if Whole(s) then msgs[0] == s[..Be16(s, 2)] && Delivers(s[Be16(s, 2)..], msgs[1..], left)
    else Bad(s) && 0 < |msgs[0]| <= HEADER && msgs[0] == s[..|msgs[0]|] && Delivers(s[HEADER..], msgs[1..], left)
  }

  lemma {:induction false} DeliversMore(s: seq<byte>, msgs: seq<seq<byte>>, left: seq<byte>, m: seq<byte>, next: seq<byte>)
    requires Delivers(s, msgs, left) && Delivers(left, [m], next)
    ensures Delivers(s, msgs + [m], next)
    decreases |msgs|
  {
    if msgs == [] {
      assert msgs + [m] == [m];
    } else {
      assert (msgs + [m])[1..] == msgs[1..] + [m];
      DeliversMore(if Whole(s) then s[Be16(s, 2)..] else s[HEADER..], msgs[1..], left, m, next);
    }
  }

  // ----- Streams that are a sequence of messages.

  predicate WellFramed(m: seq<byte>) {
    HEADER <= |m| < 65536 && Be16(m, 2) == |m|
  }

  function Stream(ms: seq<seq<byte>>): seq<byte> {
    if ms == [] then [] else ms[0] + Stream(ms[1..])
  }

  // The stream is well-framed messages and then a part of a further one or nothing.
  ghost predicate SentAs(s: seq<byte>, ms: seq<seq<byte>>, tail: seq<byte>) {
    s == Stream(ms) + tail && Cut(tail) && forall i | 0 <= i < |ms| :: WellFramed(ms[i])
  }

  lemma {:induction false} StartsWhole(s: seq<byte>, ms: seq<seq<byte>>, tail: seq<byte>)
    requires SentAs(s, ms, tail) && ms != []
    ensures Whole(s) && Be16(s, 2) == |ms[0]| && s[..|ms[0]|] == ms[0] && SentAs(s[|ms[0]|..], ms[1..], tail)
  {
    assert s == ms[0] + (Stream(ms[1..]) + tail);
    assert s[|ms[0]|..] == Stream(ms[1..]) + tail;
    assert Be16(s, 2) == Be16(ms[0], 2);
  }

  /** Whatever such a stream has delivered so far is its first messages, in order, and what is
      left to come is the others. */
  lemma {:induction false} FramingIsInOrder(s: seq<byte>, ms: seq<seq<byte>>, tail: seq<byte>,
                                            msgs: seq<seq<byte>>, left: seq<byte>)
    requires SentAs(s, ms, tail) && Delivers(s, msgs, left)
    ensures msgs <= ms && SentAs(left, ms[|msgs|..], tail)
    decreases |ms|
  {
    if ms == [] {
      assert s == tail;
    } else if msgs != [] {
      StartsWhole(s, ms, tail);
      FramingIsInOrder(s[|ms[0]|..], ms[1..], tail, msgs[1..], left);
      assert ms == [ms[0]] + ms[1..] && msgs == [msgs[0]] + msgs[1..];
    }
  }

  /** Whatever a stream of well-framed messages, cut off somewhere in a further one, delivers
      before it ends is exactly those messages, in order, with the cut one left over. */
  lemma {:induction false} FramingIsExact(s: seq<byte>, ms: seq<seq<byte>>, tail: seq<byte>,
                                          msgs: seq<seq<byte>>, left: seq<byte>)
    requires SentAs(s, ms, tail) && Delivers(s, msgs, left) && Cut(left)
    ensures msgs == ms && left == tail
  {
    FramingIsInOrder(s, ms, tail, msgs, left);
    if |msgs| < |ms| {
      StartsWhole(left, ms[|msgs|..], tail);
    }
  }

  // Both, for a stream of any kind.
  lemma {:induction false} SoFar(s: seq<byte>, ms: seq<seq<byte>>, tail: seq<byte>,
                                 msgs: seq<seq<byte>>, left: seq<byte>)
    requires Delivers(s, msgs, left)
    ensures SentAs(s, ms, tail) ==> msgs <= ms && SentAs(left, ms[|msgs|..], tail)
    ensures SentAs(s, ms, tail) && Cut(left) ==> msgs == ms && left == tail
  {
    hide Delivers;
    hide Cut;
    hide SentAs;
    if SentAs(s, ms, tail) {
      FramingIsInOrder(s, ms, tail, msgs, left);
      if Cut(left) {
        FramingIsExact(s, ms, tail, msgs, left);
      }
    }
  }

  /** read_client and read_server: every message goes on to the schedule, here to msgs. If the
      peer sent ms, well framed, and then a part of a further message or nothing, then ms is
      what goes on; if a read fails, then what has gone on by then is the first of ms. */
  method ReadAll(sock: Socket, buf: array<byte>, ghost ms: seq<seq<byte>>, ghost tail: seq<byte>)
    returns (msgs: seq<seq<byte>>, end: int, ghost left: seq<byte>)
    requires sock.Valid() && 65536 <= buf.Length
    modifies sock, buf
    ensures end <= 0 && Delivers(old(sock.Rest()), msgs, left)
    ensures end < 0 ==> sock.calls > 0 && sock.offer(sock.calls - 1) == end
    ensures SentAs(old(sock.Rest()), ms, tail) ==> msgs <= ms && SentAs(left, ms[|msgs|..], tail)
    ensures end == 0 && SentAs(old(sock.Rest()), ms, tail) ==> msgs == ms && left == tail
    ensures end == 0 ==> Cut(left) && NoError(sock.offer, old(sock.calls), sock.calls)
  {
    hide SentAs;
    hide Stream;
    hide LastRead;
    hide Rc;
    msgs := [];
    left := sock.Rest();
    ghost var all, from := sock.Rest(), sock.calls;
    while true
      invariant sock.Valid() && from <= sock.calls && NoError(sock.offer, from, sock.calls)
      invariant left == sock.Rest() && Delivers(all, msgs, left)
      decreases |sock.Rest()|
    {
      end := ReadOfpMsg(sock, buf);
      if end <= 0 {
        SoFar(all, ms, tail, msgs, left);
        return;
      }
      DeliversMore(all, msgs, left, buf[..end], sock.Rest());
      msgs := msgs + [buf[..end]];
      left := sock.Rest();
    }
  }

  /** With a bad header the pieces do show. */
  lemma {:induction false} BadHeaderShowsThePieces(k: nat)
    ensures LastRead(_ => 8, k, HEADER) == 8 && LastRead(_ => 1, k, HEADER) == 1
  {
    BytewiseRead(k, HEADER);
  }

  lemma {:induction false} BytewiseRead(k: nat, need: nat)
    requires need > 0
    ensures LastRead(_ => 1, k, need) == 1
    decreases need
  {
    if need > 1 {
      BytewiseRead(k + 1, need - 1);
    }
  }
}
