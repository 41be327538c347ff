/** pack_mathch_except_type: the OXM fields of a match without the tagged ones are packed
    into the scratch buffer, with a new length and new padding. */
module MatchFilter {
  import opened Bytes
  import opened Formats

  const TAG_CLASS: u16 := 0x8000
  const TAG_FIELD: byte := 0x36
  const TAG_VALUE: byte := 0x7F

  predicate Tagged(o: Oxm) {
    o.cls == TAG_CLASS && o.field == TAG_FIELD && o.payload[0] == TAG_VALUE
  }

  function Untagged(os: seq<Oxm>): seq<Oxm> {
    if os == [] then []
    else if Tagged(os[0]) then Untagged(os[1..])
    else [os[0]] + Untagged(os[1..])
  }

  function FilterMatch(m: Match): Match {
    Match(m.typ, Untagged(m.oxms))
  }

  /** What the length arithmetic leaves out of the count of removed bytes: the old padding,
      when there was some and the new length needs none. */
  function Residue(oldLen: nat, newLen: nat): nat {
    if oldLen % 8 != 0 && newLen % 8 == 0 then Pad8(oldLen) else 0
  }

  lemma {:induction false} UntaggedAppend(a: seq<Oxm>, b: seq<Oxm>)
    ensures Untagged(a + b) == Untagged(a) + Untagged(b)
  {
    if a == [] {
      assert a + b == b;
    } else {
      UntaggedAppend(a[1..], b);
      assert (a + b)[0] == a[0] && (a + b)[1..] == a[1..] + b;
      Assoc([a[0]], Untagged(a[1..]), Untagged(b));
    }
  }

  /** The filter drops exactly the fields of class 0x8000 with field byte 0x36 (IPV6_DST, no
      mask) whose value starts with 0x7F, and keeps every other as often as it occurs. */
  lemma {:induction false} UntaggedSplits(os: seq<Oxm>, o: Oxm)
    ensures multiset(Untagged(os))[o] == if Tagged(o) then 0 else multiset(os)[o]
    ensures multiset(Untagged(os))[o]
            == if o.cls == 0x8000 && o.field == 0x36 && o.payload[0] == 0x7F then 0 else multiset(os)[o]
  {
    if os != [] {
      UntaggedSplits(os[1..], o);
      assert os == [os[0]] + os[1..];
    }
  }

  /** Filtering a filtered match removes nothing. */
  lemma {:induction false} UntaggedIsIdempotent(os: seq<Oxm>)
    ensures Untagged(Untagged(os)) == Untagged(os)
  {
    if os != [] {
      UntaggedIsIdempotent(os[1..]);
      if !Tagged(os[0]) {
        assert Untagged(os)[1..] == Untagged(os[1..]);
      }
    }
  }

  // ----- Cursors of the walk, on values.

  ghost function Offset(os: seq<Oxm>, i: nat): nat
    requires i <= |os|
  {
    |OxmsBytes(os[..i])|
  }

  ghost function KeptLen(os: seq<Oxm>, i: nat): nat
    requires i <= |os|
  {
    |OxmsBytes(Untagged(os[..i]))|
  }

  lemma {:induction false} BytesOfOne(o: Oxm)
    ensures OxmsBytes([o]) == OxmBytes(o)
  {
    assert [o][1..] == [];
  }

  lemma {:induction false} OffsetStep(os: seq<Oxm>, i: nat)
    requires i < |os|
    ensures OxmsBytes(os[..i + 1]) == OxmsBytes(os[..i]) + OxmBytes(os[i])
    ensures Offset(os, i + 1) == Offset(os, i) + |OxmBytes(os[i])| <= |OxmsBytes(os)|
  {
    assert os[..i + 1] == os[..i] + [os[i]];
    OxmsBytesAppend(os[..i], [os[i]]);
    BytesOfOne(os[i]);
    assert os == os[..i + 1] + os[i + 1..];
    OxmsBytesAppend(os[..i + 1], os[i + 1..]);
  }

  lemma {:induction false} KeptStep(os: seq<Oxm>, i: nat)
    requires i < |os|
    ensures Tagged(os[i]) ==> Untagged(os[..i + 1]) == Untagged(os[..i])
    ensures !Tagged(os[i]) ==> OxmsBytes(Untagged(os[..i + 1])) == OxmsBytes(Untagged(os[..i])) + OxmBytes(os[i])
  {
    assert os[..i + 1] == os[..i] + [os[i]];
    UntaggedAppend(os[..i], [os[i]]);
    assert [os[i]][1..] == [];
    if !Tagged(os[i]) {
      assert Untagged([os[i]]) == [os[i]];
      BytesOfOne(os[i]);
      OxmsBytesAppend(Untagged(os[..i]), [os[i]]);
    }
  }

  lemma {:induction false} KeptPrefix(os: seq<Oxm>, i: nat)
    requires i <= |os|
    ensures KeptLen(os, i) <= KeptLen(os, |os|)
    ensures KeptLen(os, i) <= Offset(os, i)
  {
    assert os == os[..i] + os[i..] && os[..|os|] == os;
    UntaggedAppend(os[..i], os[i..]);
    OxmsBytesAppend(Untagged(os[..i]), Untagged(os[i..]));
    UntaggedShorter(os[..i]);
  }

  lemma {:induction false} UntaggedShorter(os: seq<Oxm>)
    ensures |OxmsBytes(Untagged(os))| <= |OxmsBytes(os)|
  {
    if os != [] {
      UntaggedShorter(os[1..]);
      if !Tagged(os[0]) {
        assert Untagged(os)[1..] == Untagged(os[1..]);
      }
    }
  }

  // The match m is the bytes of msg from at on.
  ghost predicate MatchAt(msg: seq<byte>, at: nat, m: Match) {
    WfMatch(m) && at + |MatchBytes(m)| <= |msg| && msg[at..at + |MatchBytes(m)|] == MatchBytes(m)
  }

  lemma {:induction false} MatchHeader(msg: seq<byte>, at: nat, m: Match)
    requires MatchAt(msg, at, m)
    ensures at + 8 <= |msg| && Be16(msg, at) == m.typ && Be16(msg, at + 2) == MatchLen(m)
  {
    var b := MatchBytes(m);
    assert msg[at] == b[0] && msg[at + 1] == b[1] && msg[at + 2] == b[2] && msg[at + 3] == b[3];
    assert Be16(b, 0) == Be16(PutBe16(m.typ), 0) && Be16(b, 2) == Be16(PutBe16(MatchLen(m)), 0);
  }

  // The three parts of a match behind its header: the fields and the padding.
  lemma {:induction false} FieldsAt(msg: seq<byte>, at: nat, m: Match)
    requires MatchAt(msg, at, m)
    ensures var n := MatchLen(m);
            at + Round8(n) <= |msg| && msg[at + 4..at + n] == OxmsBytes(m.oxms)
            && msg[at + n..at + Round8(n)] == Zeros(Pad8(n))
  {
    var h, o, z := PutBe16(m.typ) + PutBe16(MatchLen(m)), OxmsBytes(m.oxms), Zeros(Pad8(MatchLen(m)));
    MiddleOf(msg, at, |MatchBytes(m)|, h, o, z);
    assert h + o + z == (h + o) + z + [];
    MiddleOf(msg, at, |MatchBytes(m)|, h + o, z, []);
  }

  lemma {:induction false} OxmAt(msg: seq<byte>, at: nat, m: Match, i: nat)
    requires MatchAt(msg, at, m) && i < |m.oxms|
    ensures var p, b := at + 4 + Offset(m.oxms, i), OxmBytes(m.oxms[i]);
            p + |b| <= at + MatchLen(m) <= |msg| && msg[p..p + |b|] == b
  {
    hide OxmsBytes;
    hide OxmBytes;
    hide MatchBytes;
    var os := m.oxms;
    FieldsAt(msg, at, m);
    OffsetStep(os, i);
    var x, b, y := OxmsBytes(os[..i]), OxmBytes(os[i]), OxmsBytes(os[i + 1..]);
    assert os == os[..i + 1] + os[i + 1..];
    OxmsBytesAppend(os[..i + 1], os[i + 1..]);
    MiddleOf(msg, at + 4, |OxmsBytes(os)|, x, b, y);
  }

  lemma {:induction false} OxmHeader(s: seq<byte>, p: nat, o: Oxm)
    requires p + |OxmBytes(o)| <= |s| && s[p..p + |OxmBytes(o)|] == OxmBytes(o)
    ensures p + 5 <= |s| && Be16(s, p) == o.cls && s[p + 2] == o.field
    ensures 4 + s[p + 3] as int == |OxmBytes(o)| && s[p + 4] == o.payload[0]
  {
    var b := OxmBytes(o);
    assert s[p] == b[0] && s[p + 1] == b[1] && s[p + 2] == b[2] && s[p + 3] == b[3] && s[p + 4] == b[4];
    assert Be16(b, 0) == Be16(PutBe16(o.cls), 0);
  }

  // The padding, where there are more than four bytes of it, reads as an empty field of
  // class 0.
  lemma {:induction false} PadAt(msg: seq<byte>, at: nat, m: Match)
    requires MatchAt(msg, at, m) && Pad8(MatchLen(m)) > 4
    ensures var p := at + MatchLen(m);
            p + 4 <= |msg| && msg[p..p + 4] == Zeros(4) && Be16(msg, p) == 0 && msg[p + 3] == 0
  {
    FieldsAt(msg, at, m);
    var p, n := at + MatchLen(m), Pad8(MatchLen(m));
    var z := msg[p..p + n];
    assert z[..4] == Zeros(4);
    assert msg[p..p + 4] == z[..4];
    assert msg[p] == z[0] && msg[p + 1] == z[1] && msg[p + 3] == z[3];
  }

  // The scratch buffer, once was, after the first i fields.
  ghost function Scratch(was: seq<byte>, os: seq<Oxm>, i: nat): seq<byte>
    requires i <= |os| && 4 + KeptLen(os, i) <= |was|
  {
    Overlay(was, 4, OxmsBytes(Untagged(os[..i])))
  }

  lemma {:induction false} ScratchStep(was: seq<byte>, os: seq<Oxm>, i: nat)
    requires i < |os| && 4 + |OxmsBytes(os)| <= |was|
    ensures 4 + KeptLen(os, i) <= 4 + KeptLen(os, i + 1) <= |was|
    ensures Tagged(os[i]) ==> KeptLen(os, i + 1) == KeptLen(os, i) && Scratch(was, os, i + 1) == Scratch(was, os, i)
    ensures !Tagged(os[i]) ==>
              && KeptLen(os, i + 1) == KeptLen(os, i) + |OxmBytes(os[i])|
              && Scratch(was, os, i + 1) == Overlay(Scratch(was, os, i), 4 + KeptLen(os, i), OxmBytes(os[i]))
  {
    KeptStep(os, i);
    KeptPrefix(os, i + 1);
    OffsetStep(os, i);
    if !Tagged(os[i]) {
      OverlayJoin(was, 4, OxmsBytes(Untagged(os[..i])), OxmBytes(os[i]));
    }
  }

  // Zeros written over zeros behind the packed fields change nothing.
  lemma {:induction false} ZerosOverZeros(was: seq<byte>, x: seq<byte>, total: nat)
    requires 4 + |x| + 4 <= total <= |was| && was[..total] == Zeros(total)
    ensures Overlay(Overlay(was, 4, x), 4 + |x|, Zeros(4)) == Overlay(was, 4, x)
  {
    var s := Overlay(was, 4, x);
    assert forall k | 4 + |x| <= k < 4 + |x| + 4 :: s[k] == was[k] && was[k] == was[..total][k];
  }

  // Header, packed fields and zeros: the packed match.
  lemma {:induction false} HeaderOverScratch(was: seq<byte>, h: seq<byte>, x: seq<byte>, total: nat, n: nat)
    requires |h| == 4 && 4 + |x| + n <= total <= |was| && was[..total] == Zeros(total)
    ensures Overlay(Overlay(was, 4, x), 0, h) == Overlay(was, 0, h + x + Zeros(n))
  {
    assert forall k | 0 <= k < total :: was[k] == was[..total][k];
  }

  /** The cursors of the walk over m after i fields: pos in the match, n in the scratch
      buffer, tick bytes dropped. The walk may take one turn extra, over the padding. */
  ghost predicate Cursors(m: Match, i: nat, extra: bool, pos: nat, n: nat, tick: nat) {
    && WfMatch(m) && i <= |m.oxms| && (extra ==> i == |m.oxms|)
    && pos == 4 + Offset(m.oxms, i) + (if extra then 4 else 0)
    && n == 4 + KeptLen(m.oxms, i) + (if extra then 4 else 0)
    && tick + KeptLen(m.oxms, i) == Offset(m.oxms, i)
  }

  // Where the loop condition leaves the walk: inside the fields, or before five bytes or
  // more of padding, or at the end.
  lemma {:induction false} CursorsGuard(m: Match, i: nat, extra: bool, pos: nat, n: nat, tick: nat)
    requires Cursors(m, i, extra, pos, n, tick)
    ensures pos + 4 < Round8(MatchLen(m)) <==>
              i < |m.oxms| || (i == |m.oxms| && !extra && Pad8(MatchLen(m)) > 4)
    ensures i < |m.oxms| ==> pos + |OxmBytes(m.oxms[i])| <= MatchLen(m)
  {
    var os := m.oxms;
    if i < |os| {
      OffsetStep(os, i);
    } else {
      assert os[..i] == os;
    }
  }

  // The next field, or what the padding reads as.
  method ReadOxm(msg: array<byte>, at: nat, pos: nat, ghost m: Match, ghost i: nat)
    returns (tagged: bool, itemLen: nat)
    requires MatchAt(msg[..], at, m) && i <= |m.oxms| && pos == 4 + Offset(m.oxms, i)
    requires i == |m.oxms| ==> Pad8(MatchLen(m)) > 4
    ensures i < |m.oxms| ==> tagged == Tagged(m.oxms[i]) && itemLen == |OxmBytes(m.oxms[i])|
    ensures i == |m.oxms| ==> !tagged && itemLen == 4
  {
    hide OxmsBytes;
    hide OxmBytes;
    hide MatchBytes;
    if i < |m.oxms| {
      OxmAt(msg[..], at, m, i);
      OxmHeader(msg[..], at + pos, m.oxms[i]);
    } else {
      assert m.oxms[..i] == m.oxms;
      PadAt(msg[..], at, m);
    }
    var p := at + pos;
    itemLen := 4 + msg[p + 3] as int;
    tagged := LoadBe16(msg, p) == TAG_CLASS && msg[p + 2] == TAG_FIELD && msg[p + 4] == TAG_VALUE;
  }

  // Copies a kept field byte after byte: class, field, length and value.
  method KeepOxm(msg: array<byte>, at: nat, pos: nat, itemLen: nat, buf: array<byte>, n: nat,
                 ghost m: Match, ghost i: nat, ghost was: seq<byte>)
    requires msg != buf && MatchAt(msg[..], at, m) && i <= |m.oxms| && pos == 4 + Offset(m.oxms, i)
    requires Round8(MatchLen(m)) <= |was| == buf.Length && was[..Round8(MatchLen(m))] == Zeros(Round8(MatchLen(m)))
    requires n == 4 + KeptLen(m.oxms, i) <= |was| && buf[..] == Scratch(was, m.oxms, i)
    requires i < |m.oxms| ==> !Tagged(m.oxms[i]) && itemLen == |OxmBytes(m.oxms[i])|
    requires i == |m.oxms| ==> Pad8(MatchLen(m)) > 4 && itemLen == 4
    modifies buf
    ensures i < |m.oxms| ==> 4 + KeptLen(m.oxms, i + 1) <= |was| && buf[..] == Scratch(was, m.oxms, i + 1)
    ensures i == |m.oxms| ==> buf[..] == Scratch(was, m.oxms, i)
  {
    hide OxmsBytes;
    hide Untagged;
    hide MatchBytes;
    hide OxmBytes;
    ghost var item := ItemFits(msg[..], at, m, i, was);
    CopyBytes(buf, n, msg, at + pos, itemLen, item);
  }

  lemma {:induction false} ItemFits(msg: seq<byte>, at: nat, m: Match, i: nat, was: seq<byte>)
    returns (item: seq<byte>)
    requires MatchAt(msg, at, m) && i <= |m.oxms|
    requires Round8(MatchLen(m)) <= |was| && was[..Round8(MatchLen(m))] == Zeros(Round8(MatchLen(m)))
    requires 4 + KeptLen(m.oxms, i) <= |was|
    requires i < |m.oxms| ==> !Tagged(m.oxms[i])
    requires i == |m.oxms| ==> Pad8(MatchLen(m)) > 4
    ensures item == if i < |m.oxms| then OxmBytes(m.oxms[i]) else Zeros(4)
    ensures var p := at + 4 + Offset(m.oxms, i); p + |item| <= |msg| && msg[p..p + |item|] == item
    ensures 4 + KeptLen(m.oxms, i) + |item| <= |was|
    ensures var next := Overlay(Scratch(was, m.oxms, i), 4 + KeptLen(m.oxms, i), item);
            if i < |m.oxms| then 4 + KeptLen(m.oxms, i + 1) <= |was| && next == Scratch(was, m.oxms, i + 1)
            else next == Scratch(was, m.oxms, i)
  {
    hide OxmsBytes;
    hide Untagged;
    hide MatchBytes;
    hide OxmBytes;
    KeptPrefix(m.oxms, i);
    item := if i < |m.oxms| then OxmBytes(m.oxms[i]) else Zeros(4);
    if i < |m.oxms| {
      OxmAt(msg, at, m, i);
      ScratchStep(was, m.oxms, i);
    } else {
      assert m.oxms[..i] == m.oxms;
      PadAt(msg, at, m);
      ZerosOverZeros(was, OxmsBytes(Untagged(m.oxms)), Round8(MatchLen(m)));
    }
  }

  // The body of the loop: one field is dropped and counted, or copied.
  method MatchItem(msg: array<byte>, at: nat, buf: array<byte>, pos: nat, n0: nat, tick0: u16,
                   ghost m: Match, ghost i: nat, ghost was: seq<byte>)
    returns (itemLen: nat, n: nat, tick: u16, ghost j: nat, ghost extra: bool)
    requires msg != buf && MatchAt(msg[..], at, m)
    requires Round8(MatchLen(m)) <= |was| == buf.Length && was[..Round8(MatchLen(m))] == Zeros(Round8(MatchLen(m)))
    requires Cursors(m, i, false, pos, n0, tick0) && pos + 4 < Round8(MatchLen(m))
    requires n0 <= |was| && buf[..] == Scratch(was, m.oxms, i)
    modifies buf
    ensures 0 < itemLen && Cursors(m, j, extra, pos + itemLen, n, tick)
    ensures 4 + KeptLen(m.oxms, j) <= |was| && buf[..] == Scratch(was, m.oxms, j)
  {
    n, tick, j, extra := n0, tick0, if i < |m.oxms| then i + 1 else i, i == |m.oxms|;
    CursorsGuard(m, i, false, pos, n0, tick0);
    if i < |m.oxms| {
      ScratchStep(was, m.oxms, i);
      OffsetStep(m.oxms, i);
    }
    var tagged;
    tagged, itemLen := ReadOxm(msg, at, pos, m, i);
    if tagged {
      tick := U16(tick + itemLen);
    } else {
      KeepOxm(msg, at, pos, itemLen, buf, n, m, i, was);
      n := n + itemLen;
    }
  }

  lemma {:induction false} Round8Monotone(a: nat, b: nat)
    requires a <= b
    ensures Round8(a) <= Round8(b)
  {
  }

  // The new length, rounded up, and the number of bytes the code takes to be removed.
  method NewLengths(oldLen: u16, total: u16, tick0: u16) returns (length: u16, newLen: u16, exceptLen: u16)
    requires total == Round8(oldLen) && tick0 <= oldLen
    ensures length == oldLen - tick0 && newLen == Round8(length) <= total
    ensures exceptLen + newLen + Residue(oldLen, length) == total
  {
    var tick := tick0;
    var pad, oldPad := oldLen % 8, 0;
    newLen := U16(total - tick);
    if pad != 0 {
      newLen := U16(newLen - (8 - pad));
      oldPad := 8 - pad;
    }
    length := newLen;
    Round8Monotone(length, oldLen);
    pad := newLen % 8;
    if pad != 0 {
      newLen := U16(newLen + (8 - pad));
      tick := U16(tick - ((8 - pad) - oldPad));
    }
    exceptLen := tick;
  }

  // The length of the match rounded up to a multiple of 8 (getMatchLenth, and inline in
  // both rewriters).
  method PaddedLength(msg: array<byte>, at: nat, ghost m: Match) returns (oldLen: u16, total: u16)
    requires MatchAt(msg[..], at, m)
    ensures oldLen == MatchLen(m) && total == Round8(MatchLen(m))
  {
    MatchHeader(msg[..], at, m);
    oldLen := LoadBe16(msg, at + 2);
    total := oldLen;
    var pad := oldLen % 8;
    if pad != 0 {
      total := U16(total + (8 - pad));
    }
  }

  // The walk itself: the kept fields end up in the scratch buffer, tick counts the rest.
  method PackFields(msg: array<byte>, at: nat, total: u16, buf: array<byte>, ghost m: Match) returns (tick: u16)
    requires msg != buf && MatchAt(msg[..], at, m) && total == Round8(MatchLen(m))
    requires total <= buf.Length && buf[..][..total] == Zeros(total)
    modifies buf
    ensures WfMatch(FilterMatch(m)) && |MatchBytes(FilterMatch(m))| <= total
    ensures tick + MatchLen(FilterMatch(m)) == MatchLen(m)
    ensures buf[..] == Overlay(old(buf[..]), 4, OxmsBytes(Untagged(m.oxms)))
  {
    var pos: nat, n: nat := 4, 4;
    tick := 0;
    ghost var i: nat, extra, was := 0, false, buf[..];
    while pos < total - 4
      invariant Cursors(m, i, extra, pos, n, tick)
      invariant 4 + KeptLen(m.oxms, i) <= |was| == buf.Length && buf[..] == Scratch(was, m.oxms, i)
      decreases Round8(MatchLen(m)) + 8 - pos
    {
      CursorsGuard(m, i, extra, pos, n, tick);
      var itemLen;
      itemLen, n, tick, i, extra := MatchItem(msg, at, buf, pos, n, tick, m, i, was);
      pos := pos + itemLen;
    }
    CursorsAtEnd(m, i, extra, pos, n, tick);
  }

  /** The scratch buffer is zero wherever the match can go, as its caller has just cleared
      it. */
  method PackMatchExceptType(msg: array<byte>, at: nat, buf: array<byte>, ghost m: Match)
    returns (newLen: u16, exceptLen: u16)
    requires msg != buf && MatchAt(msg[..], at, m)
    requires Round8(MatchLen(m)) <= buf.Length && buf[..][..Round8(MatchLen(m))] == Zeros(Round8(MatchLen(m)))
    modifies buf
    ensures WfMatch(FilterMatch(m)) && newLen == |MatchBytes(FilterMatch(m))| <= Round8(MatchLen(m))
    ensures buf[..] == Overlay(old(buf[..]), 0, MatchBytes(FilterMatch(m)))
    ensures exceptLen + newLen + Residue(MatchLen(m), MatchLen(FilterMatch(m))) == Round8(MatchLen(m))
  {
    ghost var was := buf[..];
    var oldLen, total := PaddedLength(msg, at, m);
    var tick := PackFields(msg, at, total, buf, m);
    var length;
    length, newLen, exceptLen := NewLengths(oldLen, total, tick);
    StoreHeader(msg, at, buf, length, m);
    PackedMatch(was, m);
  }

  lemma {:induction false} CursorsAtEnd(m: Match, i: nat, extra: bool, pos: nat, n: nat, tick: nat)
    requires Cursors(m, i, extra, pos, n, tick) && pos + 4 >= Round8(MatchLen(m))
    ensures i == |m.oxms| && m.oxms[..i] == m.oxms
    ensures tick + MatchLen(FilterMatch(m)) == MatchLen(m)
    ensures WfMatch(FilterMatch(m)) && |MatchBytes(FilterMatch(m))| <= Round8(MatchLen(m))
  {
    CursorsGuard(m, i, extra, pos, n, tick);
    assert m.oxms[..i] == m.oxms;
    Round8Monotone(MatchLen(FilterMatch(m)), MatchLen(m));
  }

  lemma {:induction false} PackedMatch(was: seq<byte>, m: Match)
    requires WfMatch(m) && WfMatch(FilterMatch(m)) && |MatchBytes(FilterMatch(m))| <= Round8(MatchLen(m)) <= |was|
    requires was[..Round8(MatchLen(m))] == Zeros(Round8(MatchLen(m)))
    ensures var f := FilterMatch(m);
            Overlay(Overlay(was, 4, OxmsBytes(f.oxms)), 0, PutBe16(m.typ) + PutBe16(MatchLen(f)))
            == Overlay(was, 0, MatchBytes(f))
  {
    var f := FilterMatch(m);
    HeaderOverScratch(was, PutBe16(m.typ) + PutBe16(MatchLen(f)), OxmsBytes(f.oxms), Round8(MatchLen(m)),
                      Pad8(MatchLen(f)));
  }

  // The type of the match is copied, its length is the new one.
  method StoreHeader(msg: array<byte>, at: nat, buf: array<byte>, length: u16, ghost m: Match)
    requires msg != buf && MatchAt(msg[..], at, m) && 4 <= buf.Length
    modifies buf
    ensures buf[..] == Overlay(old(buf[..]), 0, PutBe16(m.typ) + PutBe16(length))
  {
    MatchHeader(msg[..], at, m);
    PutOfBe16(msg[..], at);
    ghost var was := buf[..];
    CopyBytes(buf, 0, msg, at, 2, PutBe16(m.typ));
    StoreBe16(buf, 2, length);
    OverlayJoin(was, 0, PutBe16(m.typ), PutBe16(length));
  }
}
