/** copy_valid_action_to_buf: an action list is walked once, its SET_FIELD actions are
    booked as charges and dropped, the others are copied to the scratch buffer. */
module ActionFilter {
  import opened Bytes
  import opened Formats
  import opened Splits
  import opened Priority

  // 25 in network byte order, read raw.
  const RAW_SET_FIELD: u16 := 0x1900

  type SetField = a: Action | a.typ == SET_FIELD witness Action(SET_FIELD, [0, 0, 0, 0, 0, 0, 0, 0, 0, 0, 0, 0])

  // What the proxy remembers of the last SET_FIELD action it dropped.
  datatype UepMsg = UepMsg(uep: Uep, window: u16, number: u16)

  const NO_UEP: UepMsg := UepMsg(Uep(0, 0), 0, 1)

  // What the rewriting of a message decides about it: its queue, the bytes of its 64-bit
  // identity, its sender and its max_wait_time. None is left unset.
  datatype MsgArg = MsgArg(qid: Option<nat>, identify: Option<seq<byte>>, uep: Uep, wait: nat)

  const IMPORTANT_QUEUE_ID: nat := 0

  function Kept(acts: seq<Action>): seq<Action> {
    if acts == [] then []
    else if acts[0].typ == SET_FIELD then Kept(acts[1..])
    else [acts[0]] + Kept(acts[1..])
  }

  function SetFields(acts: seq<Action>): seq<SetField> {
    if acts == [] then []
    else if acts[0].typ == SET_FIELD then [acts[0]] + SetFields(acts[1..])
    else SetFields(acts[1..])
  }

  // The UEP_Msg a SET_FIELD action carries as the value of its OXM, in host byte order.
  function UepOf(a: SetField): Uep {
    Uep(a.body[5], a.body[4])
  }

  function NumberOf(a: SetField): u16 {
    Le16(a.body, 8)
  }

  function ChargesFor(fields: seq<SetField>, windows: seq<nat>): (cs: seq<Charge>)
    requires |fields| == |windows|
    ensures |cs| == |fields|
  {
    if fields == [] then []
    else
      var k := |fields| - 1;
      ChargesFor(fields[..k], windows[..k]) + [Charge(windows[k], UepOf(fields[k]), NumberOf(fields[k]))]
  }

  function LastUep(fields: seq<SetField>, clock: seq<u16>): UepMsg
    requires |fields| <= |clock|
  {
    if fields == [] then NO_UEP
    else
      var k := |fields| - 1;
      UepMsg(UepOf(fields[k]), clock[k], NumberOf(fields[k]))
  }

  // ----- The filter on lists.

  /** The filter splits the list: nothing is lost, added or changed. */
  lemma {:induction false} FilterSplits(acts: seq<Action>)
    ensures multiset(acts) == multiset(Kept(acts)) + multiset(SetFields(acts))
  {
    if acts != [] {
      FilterSplits(acts[1..]);
      assert acts == [acts[0]] + acts[1..];
    }
  }

  /** What is removed are exactly the actions of type 25, and every other is kept as often as it
      occurs. */
  lemma {:induction false} FilterIsByType(acts: seq<Action>, a: Action)
    ensures multiset(Kept(acts))[a] == if a.typ == 25 then 0 else multiset(acts)[a]
    ensures forall i | 0 <= i < |SetFields(acts)| :: SetFields(acts)[i].typ == 25
  {
    if acts != [] {
      FilterIsByType(acts[1..], a);
      assert acts == [acts[0]] + acts[1..];
    }
  }

  /** Each removed action is charged once, in order, to the sender its bytes name: eid and uid
      are bytes 5 and 4 of its body, the number the two bytes from 8 on, low byte first. */
  lemma {:induction false} ChargeAt(fields: seq<SetField>, windows: seq<nat>, k: nat)
    requires |fields| == |windows| && k < |fields|
    ensures var b, c := fields[k].body, ChargesFor(fields, windows)[k];
            c.window == windows[k] && c.uep.eid == b[5] && c.uep.uid == b[4] && c.number == b[8] as int + 256 * b[9] as int
  {
    var n := |fields| - 1;
    if k < n {
      ChargeAt(fields[..n], windows[..n], k);
    }
  }

  /** The sender of a message is that of the last removed action, in the window of its clock
      reading; without one it is 0, 0 in window 0. */
  lemma {:induction false} SenderIsTheLast(fields: seq<SetField>, clock: seq<u16>)
    requires |fields| == |clock|
    ensures fields == [] ==> LastUep(fields, clock).uep == Uep(0, 0) && LastUep(fields, clock).window == 0
    ensures fields != [] ==>
              var b, u := fields[|fields| - 1].body, LastUep(fields, clock);
              u.uep.eid == b[5] && u.uep.uid == b[4] && u.window == clock[|clock| - 1]
  {
  }

  /** The kept part has no SET_FIELD action. */
  lemma {:induction false} KeptIsFree(acts: seq<Action>)
    ensures forall i | 0 <= i < |Kept(acts)| :: Kept(acts)[i].typ != SET_FIELD
  {
    if acts != [] {
      KeptIsFree(acts[1..]);
    }
  }

  lemma {:induction false} KeptAppend(a: seq<Action>, b: seq<Action>)
    ensures Kept(a + b) == Kept(a) + Kept(b)
  {
    if a == [] {
      assert a + b == b;
    } else {
      KeptAppend(a[1..], b);
      assert (a + b)[0] == a[0] && (a + b)[1..] == a[1..] + b;
      Assoc([a[0]], Kept(a[1..]), Kept(b));
    }
  }

  lemma {:induction false} SetFieldsAppend(a: seq<Action>, b: seq<Action>)
    ensures SetFields(a + b) == SetFields(a) + SetFields(b)
  {
    if a == [] {
      assert a + b == b;
    } else {
      SetFieldsAppend(a[1..], b);
      assert (a + b)[0] == a[0] && (a + b)[1..] == a[1..] + b;
      Assoc(if a[0].typ == SET_FIELD then [a[0]] else [], SetFields(a[1..]), SetFields(b));
    }
  }

  /** Filtering a filtered list removes nothing. */
  lemma {:induction false} FilterIsIdempotent(acts: seq<Action>)
    ensures Kept(Kept(acts)) == Kept(acts) && SetFields(Kept(acts)) == []
  {
    if acts != [] {
      FilterIsIdempotent(acts[1..]);
      if acts[0].typ != SET_FIELD {
        assert Kept(acts)[1..] == Kept(acts[1..]);
      }
    }
  }

  // A list is kept as it is exactly if none of its actions is dropped.
  lemma {:induction false} NothingDropped(acts: seq<Action>)
    ensures SetFields(acts) == [] <==> Kept(acts) == acts
    ensures |Kept(acts)| <= |acts|
  {
    if acts != [] {
      NothingDropped(acts[1..]);
      assert acts == [acts[0]] + acts[1..];
    }
  }

  // What the first i + 1 actions give on either side, from what the first i give.
  lemma {:induction false} FilterStep(acts: seq<Action>, i: nat)
    requires i < |acts|
    ensures acts[i].typ == SET_FIELD ==>
              Kept(acts[..i + 1]) == Kept(acts[..i]) && SetFields(acts[..i + 1]) == SetFields(acts[..i]) + [acts[i]]
    ensures acts[i].typ != SET_FIELD ==>
              Kept(acts[..i + 1]) == Kept(acts[..i]) + [acts[i]] && SetFields(acts[..i + 1]) == SetFields(acts[..i])
  {
    assert acts[..i + 1] == acts[..i] + [acts[i]];
    KeptAppend(acts[..i], [acts[i]]);
    SetFieldsAppend(acts[..i], [acts[i]]);
    assert [acts[i]][1..] == [];
  }

  // A prefix of the list never gives more than the whole.
  lemma {:induction false} FilterPrefix(acts: seq<Action>, i: nat)
    requires i <= |acts|
    ensures |ActionsBytes(Kept(acts[..i]))| <= |ActionsBytes(Kept(acts))|
    ensures |SetFields(acts[..i])| <= |SetFields(acts)|
  {
    assert acts == acts[..i] + acts[i..];
    KeptAppend(acts[..i], acts[i..]);
    SetFieldsAppend(acts[..i], acts[i..]);
    ActionsBytesAppend(Kept(acts[..i]), Kept(acts[i..]));
  }

  // ----- One turn of the loop, on values.

  // Where in the list the i-th action starts.
  ghost function Offset(acts: seq<Action>, i: nat): nat
    requires i <= |acts|
  {
    |ActionsBytes(acts[..i])|
  }

  // The actions acts are the len bytes of msg from start on.
  ghost predicate ListAt(msg: seq<byte>, start: nat, len: nat, acts: seq<Action>) {
    start + len <= |msg| && msg[start..start + len] == ActionsBytes(acts)
  }

  lemma {:induction false} BytesOfOne(a: Action)
    ensures ActionsBytes([a]) == ActionBytes(a)
  {
    assert [a][1..] == [];
  }

  lemma {:induction false} OffsetStep(acts: seq<Action>, i: nat)
    requires i < |acts|
    ensures ActionsBytes(acts[..i + 1]) == ActionsBytes(acts[..i]) + ActionBytes(acts[i])
    ensures Offset(acts, i + 1) == Offset(acts, i) + |ActionBytes(acts[i])|
  {
    assert acts[..i + 1] == acts[..i] + [acts[i]];
    ActionsBytesAppend(acts[..i], [acts[i]]);
    BytesOfOne(acts[i]);
  }

  // The walk is at the end exactly when it has passed the last action.
  lemma {:induction false} OffsetEnds(acts: seq<Action>, i: nat)
    requires i <= |acts|
    ensures Offset(acts, i) <= |ActionsBytes(acts)|
    ensures Offset(acts, i) == |ActionsBytes(acts)| <==> i == |acts|
  {
    assert acts == acts[..i] + acts[i..];
    ActionsBytesAppend(acts[..i], acts[i..]);
  }

  lemma {:induction false} ItemAt(msg: seq<byte>, start: nat, len: nat, acts: seq<Action>, i: nat)
    requires ListAt(msg, start, len, acts) && i < |acts|
    ensures var at, b := start + Offset(acts, i), ActionBytes(acts[i]);
            at + |b| <= start + len && msg[at..at + |b|] == b
  {
    hide ActionsBytes;
    hide ActionBytes;
    OffsetStep(acts, i);
    OffsetEnds(acts, i + 1);
    var x, b, y := ActionsBytes(acts[..i]), ActionBytes(acts[i]), ActionsBytes(acts[i + 1..]);
    assert acts == acts[..i + 1] + acts[i + 1..];
    ActionsBytesAppend(acts[..i + 1], acts[i + 1..]);
    MiddleOf(msg, start, len, x, b, y);
  }

  lemma {:induction false} ActionHeader(s: seq<byte>, q: nat, a: Action)
    requires q + |ActionBytes(a)| <= |s| && s[q..q + |ActionBytes(a)|] == ActionBytes(a)
    ensures Be16(s, q + 2) == |ActionBytes(a)|
    ensures a.typ == SET_FIELD <==> Le16(s, q) == RAW_SET_FIELD
  {
    var b := ActionBytes(a);
    assert s[q] == b[0] && s[q + 1] == b[1] && s[q + 2] == b[2] && s[q + 3] == b[3];
    assert Be16(b, 0) == Be16(PutBe16(a.typ), 0) && Be16(b, 2) == Be16(PutBe16(|b|), 0);
  }

  lemma {:induction false} SetFieldBytes(s: seq<byte>, at: nat, a: SetField)
    requires at + |ActionBytes(a)| <= |s| && s[at..at + |ActionBytes(a)|] == ActionBytes(a)
    ensures at + 14 <= |s| && Uep(s[at + 9], s[at + 8]) == UepOf(a) && Le16(s, at + 12) == NumberOf(a)
  {
    var b := ActionBytes(a);
    assert s[at + 8] == b[8] && s[at + 9] == b[9] && s[at + 12] == b[12] && s[at + 13] == b[13];
  }

  // The scratch buffer, once was, after the first i actions.
  ghost function Scratch(was: seq<byte>, acts: seq<Action>, i: nat): seq<byte>
    requires i <= |acts| && |ActionsBytes(Kept(acts[..i]))| <= |was|
  {
    Overlay(was, 0, ActionsBytes(Kept(acts[..i])))
  }

  ghost function KeptLen(acts: seq<Action>, i: nat): nat
    requires i <= |acts|
  {
    |ActionsBytes(Kept(acts[..i]))|
  }

  lemma {:induction false} ScratchStep(was: seq<byte>, acts: seq<Action>, i: nat)
    requires i < |acts| && KeptLen(acts, |acts|) <= |was|
    ensures KeptLen(acts, i) <= KeptLen(acts, i + 1) <= |was|
    ensures acts[i].typ == SET_FIELD ==>
              KeptLen(acts, i + 1) == KeptLen(acts, i) && Scratch(was, acts, i + 1) == Scratch(was, acts, i)
    ensures acts[i].typ != SET_FIELD ==>
              && KeptLen(acts, i + 1) == KeptLen(acts, i) + |ActionBytes(acts[i])|
              && Scratch(was, acts, i + 1) == Overlay(Scratch(was, acts, i), KeptLen(acts, i), ActionBytes(acts[i]))
  {
    assert acts[..|acts|] == acts;
    FilterStep(acts, i);
    FilterPrefix(acts, i + 1);
    if acts[i].typ != SET_FIELD {
      BytesOfOne(acts[i]);
      ActionsBytesAppend(Kept(acts[..i]), [acts[i]]);
      OverlayJoin(was, 0, ActionsBytes(Kept(acts[..i])), ActionBytes(acts[i]));
    }
  }

  // The accounts, once log0 and p0, after the k charges of the first i actions.
  ghost predicate Booked(log0: seq<Charge>, p0: Pointers, log: seq<Charge>, p: Pointers, ws: nat,
                         clock: seq<u16>, acts: seq<Action>, i: nat, k: nat, uep: UepMsg)
    requires i <= |acts|
  {
    && k == |SetFields(acts[..i])| <= |clock|
    && uep == LastUep(SetFields(acts[..i]), clock)
    && log == log0 + ChargesFor(SetFields(acts[..i]), BookedWindows(p0, ws, clock[..k]))
    && p == AdvanceAll(p0, ws, clock[..k]) && p.tail <= p0.tail + k + 65536
  }

  lemma {:induction false} BookNext(log0: seq<Charge>, p0: Pointers, log: seq<Charge>, p: Pointers, ws: nat,
                                    clock: seq<u16>, acts: seq<Action>, i: nat, k: nat, uep: UepMsg)
    requires i < |acts| && acts[i].typ == SET_FIELD && k < |clock|
    requires Booked(log0, p0, log, p, ws, clock, acts, i, k, uep)
    ensures var a: SetField := acts[i];
            Booked(log0, p0, log + [Charge(BookedWindow(p, clock[k]), UepOf(a), NumberOf(a))],
                   Advance(p, ws, clock[k]), ws, clock, acts, i + 1, k + 1, UepMsg(UepOf(a), clock[k], NumberOf(a)))
  {
    FilterStep(acts, i);
    var a: SetField := acts[i];
    var fields, next, ids := SetFields(acts[..i]), SetFields(acts[..i + 1]), clock[..k + 1];
    assert next[..k] == fields && ids[..k] == clock[..k] && ids[k] == clock[k];
    var windows := BookedWindows(p0, ws, ids);
    assert windows[..k] == BookedWindows(p0, ws, clock[..k]);
    Assoc(log0, ChargesFor(fields, windows[..k]), [Charge(windows[k], UepOf(a), NumberOf(a))]);
  }

  lemma {:induction false} FreeNext(log0: seq<Charge>, p0: Pointers, log: seq<Charge>, p: Pointers, ws: nat,
                                    clock: seq<u16>, acts: seq<Action>, i: nat, k: nat, uep: UepMsg)
    requires i < |acts| && acts[i].typ != SET_FIELD
    requires Booked(log0, p0, log, p, ws, clock, acts, i, k, uep)
    ensures Booked(log0, p0, log, p, ws, clock, acts, i + 1, k, uep)
  {
    FilterStep(acts, i);
  }

  // What one turn does to the cursors and to the scratch buffer.
  lemma {:induction false} Turn(was: seq<byte>, acts: seq<Action>, i: nat)
    requires i <= |acts| && Offset(acts, i) < |ActionsBytes(acts)| && |ActionsBytes(Kept(acts))| <= |was|
    ensures i < |acts|
    ensures Offset(acts, i + 1) == Offset(acts, i) + |ActionBytes(acts[i])| <= |ActionsBytes(acts)|
    ensures KeptLen(acts, i) <= KeptLen(acts, i + 1) <= |was|
    ensures acts[i].typ == SET_FIELD ==>
              && KeptLen(acts, i + 1) == KeptLen(acts, i) && Scratch(was, acts, i + 1) == Scratch(was, acts, i)
              && |SetFields(acts[..i])| < |SetFields(acts)|
    ensures acts[i].typ != SET_FIELD ==>
              && KeptLen(acts, i + 1) == KeptLen(acts, i) + |ActionBytes(acts[i])|
              && Scratch(was, acts, i + 1) == Overlay(Scratch(was, acts, i), KeptLen(acts, i), ActionBytes(acts[i]))
  {
    OffsetEnds(acts, i);
    OffsetStep(acts, i);
    OffsetEnds(acts, i + 1);
    assert acts[..|acts|] == acts;
    ScratchStep(was, acts, i);
    FilterStep(acts, i);
    FilterPrefix(acts, i + 1);
  }

  // ----- The loop.

  // The action header under the cursor: its raw type and its length.
  method ReadHeader(list: array<byte>, start: nat, len: nat, q: nat, ghost acts: seq<Action>, ghost i: nat)
    returns (rawType: u16, itemLen: u16)
    requires ListAt(list[..], start, len, acts) && i < |acts| && q == Offset(acts, i)
    ensures itemLen == |ActionBytes(acts[i])| && (rawType == RAW_SET_FIELD <==> acts[i].typ == SET_FIELD)
  {
    ItemAt(list[..], start, len, acts, i);
    ActionHeader(list[..], start + q, acts[i]);
    rawType := LoadLe16(list, start + q);
    itemLen := LoadBe16(list, start + q + 2);
  }

  // Books the (k+1)-st charge, for the i-th action: its UEP_Msg sits eight bytes into it.
  method DropAction(list: array<byte>, start: nat, len: nat, q: nat, pm: PriorityManager, clock: seq<u16>, k: nat,
                    ghost log0: seq<Charge>, ghost p0: Pointers, ghost acts: seq<Action>, ghost i: nat,
                    ghost before: UepMsg)
    returns (uep: UepMsg)
    requires pm.Valid() && p0.tail + |clock| + 65536 < TWO_32 && k < |clock|
    requires ListAt(list[..], start, len, acts) && i < |acts| && q == Offset(acts, i)
    requires acts[i].typ == SET_FIELD
    requires Booked(log0, p0, pm.log, pm.Ptrs(), pm.windowSize, clock, acts, i, k, before)
    modifies pm, pm.windowBuffer, pm.windowBuffer.buffer
    ensures pm.Valid()
    ensures Booked(log0, p0, pm.log, pm.Ptrs(), pm.windowSize, clock, acts, i + 1, k + 1, uep)
  {
    var at, now := start + q, clock[k];
    ItemAt(list[..], start, len, acts, i);
    SetFieldBytes(list[..], at, acts[i]);
    uep := UepMsg(Uep(list[at + 9], list[at + 8]), now, LoadLe16(list, at + 12));
    BookNext(log0, p0, pm.log, pm.Ptrs(), pm.windowSize, clock, acts, i, k, before);
    pm.UpdateSplitOfUEP(now, uep.uep, uep.number);
  }

  // Copies one kept action byte after byte: type, length and body.
  method KeepAction(list: array<byte>, start: nat, len: nat, q: nat, itemLen: u16, buf: array<byte>, n: nat,
                    ghost acts: seq<Action>, ghost i: nat)
    requires list != buf && n + itemLen <= buf.Length
    requires ListAt(list[..], start, len, acts) && i < |acts| && q == Offset(acts, i)
    requires itemLen == |ActionBytes(acts[i])|
    modifies buf
    ensures buf[..] == Overlay(old(buf[..]), n, ActionBytes(acts[i]))
  {
    ItemAt(list[..], start, len, acts, i);
    CopyBytes(buf, n, list, start + q, itemLen, ActionBytes(acts[i]));
  }

  // The cursors after i actions: q in the list, n in the scratch buffer.
  ghost predicate Cursors(acts: seq<Action>, i: nat, q: nat, n: nat, filterLens: nat) {
    && i <= |acts| && q == Offset(acts, i) <= |ActionsBytes(acts)|
    && n == KeptLen(acts, i) && n + filterLens == q
  }

  // Before the first turn.
  lemma {:induction false} NothingBooked(log: seq<Charge>, p: Pointers, ws: nat, clock: seq<u16>, acts: seq<Action>,
                                         was: seq<byte>)
    ensures Cursors(acts, 0, 0, 0, 0) && Booked(log, p, log, p, ws, clock, acts, 0, 0, NO_UEP)
    ensures log == log + ChargesFor([], BookedWindows(p, ws, [])) && p == AdvanceAll(p, ws, [])
    ensures Scratch(was, acts, 0) == was
  {
    assert acts[..0] == [] && clock[..0] == [];
  }

  // The body of the loop: one action is booked and skipped, or copied.
  method FilterItem(list: array<byte>, start: nat, len: u16, buf: array<byte>, pm: PriorityManager, clock: seq<u16>,
                    q: nat, n0: nat, filterLens0: u16, k0: nat, uep0: UepMsg,
                    ghost acts: seq<Action>, ghost i: nat, ghost was: seq<byte>,
                    ghost log0: seq<Charge>, ghost p0: Pointers)
    returns (itemLen: u16, n: nat, filterLens: u16, k: nat, uep: UepMsg)
    requires list != buf && ListAt(list[..], start, len, acts) && |ActionsBytes(acts)| == len
    requires |ActionsBytes(Kept(acts))| <= |was| == buf.Length && |SetFields(acts)| == |clock|
    requires p0.tail + |clock| + 65536 < TWO_32
    requires Cursors(acts, i, q, n0, filterLens0) && q < len && n0 <= |was| && buf[..] == Scratch(was, acts, i)
    requires pm.Valid() && Booked(log0, p0, pm.log, pm.Ptrs(), pm.windowSize, clock, acts, i, k0, uep0)
    modifies buf, pm, pm.windowBuffer, pm.windowBuffer.buffer
    ensures 0 < itemLen && Cursors(acts, i + 1, q + itemLen, n, filterLens) && n <= |was|
    ensures buf[..] == Scratch(was, acts, i + 1)
    ensures pm.Valid() && Booked(log0, p0, pm.log, pm.Ptrs(), pm.windowSize, clock, acts, i + 1, k, uep)
  {
    hide ActionsBytes;
    hide Kept;
    hide SetFields;
    n, filterLens, k, uep := n0, filterLens0, k0, uep0;
    Turn(was, acts, i);
    var rawType;
    rawType, itemLen := ReadHeader(list, start, len, q, acts, i);
    if rawType == RAW_SET_FIELD {
      uep := DropAction(list, start, len, q, pm, clock, k, log0, p0, acts, i, uep);
      filterLens := U16(filterLens + itemLen);
      k := k + 1;
    } else {
      KeepAction(list, start, len, q, itemLen, buf, n, acts, i);
      FreeNext(log0, p0, pm.log, pm.Ptrs(), pm.windowSize, clock, acts, i, k, uep);
      n := n + itemLen;
    }
    ghost var valid, booked := pm.Valid(), Booked(log0, p0, pm.log, pm.Ptrs(), pm.windowSize, clock, acts, i + 1, k, uep);
    assert valid && booked;
  }

  /** clock gives the results of the successive getNowWindowId calls, one for each action
      dropped. The scratch buffer has to have room for the actions kept. */
  method CopyValidActionToBuf(list: array<byte>, start: nat, len: u16, buf: array<byte>,
                              pm: PriorityManager, clock: seq<u16>, ghost acts: seq<Action>)
    returns (newLen: u16, kickLen: u16, uep: UepMsg)
    requires list != buf && ListAt(list[..], start, len, acts)
    requires |ActionsBytes(Kept(acts))| <= buf.Length
    requires |SetFields(acts)| == |clock|
    requires pm.Valid() && pm.Ptrs().tail + |clock| + 65536 < TWO_32
    modifies buf, pm, pm.windowBuffer, pm.windowBuffer.buffer
    ensures buf[..] == Overlay(old(buf[..]), 0, ActionsBytes(Kept(acts)))
    ensures newLen == |ActionsBytes(Kept(acts))| && newLen + kickLen == len
    ensures uep == LastUep(SetFields(acts), clock)
    ensures pm.Valid() && pm.Ptrs() == AdvanceAll(old(pm.Ptrs()), pm.windowSize, clock)
    ensures pm.log == old(pm.log) + ChargesFor(SetFields(acts), BookedWindows(old(pm.Ptrs()), pm.windowSize, clock))
  {
    hide ActionsBytes;
    hide Kept;
    hide SetFields;
    hide Holds;
    var q: nat, n: nat, filterLens: u16, k: nat := 0, 0, 0, 0;
    uep := NO_UEP;
    ghost var i, was, log0, p0 := 0, buf[..], pm.log, pm.Ptrs();
    OffsetEnds(acts, 0);
    NothingBooked(log0, p0, pm.windowSize, clock, acts, was);
    while q < len
      invariant Cursors(acts, i, q, n, filterLens) && n <= |was|
      invariant buf[..] == Scratch(was, acts, i)
      invariant pm.Valid() && Booked(log0, p0, pm.log, pm.Ptrs(), pm.windowSize, clock, acts, i, k, uep)
      decreases len - q
    {
      var itemLen;
      itemLen, n, filterLens, k, uep :=
        FilterItem(list, start, len, buf, pm, clock, q, n, filterLens, k, uep, acts, i, was, log0, p0);
      q := q + itemLen;
      i := i + 1;
    }
    OffsetEnds(acts, i);
    assert acts[..i] == acts && clock[..k] == clock;
    newLen := U16(len - filterLens);
    kickLen := filterLens;
  }
}
