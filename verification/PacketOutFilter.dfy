/** do_ofp_packetout_processed: the SET_FIELD actions of a PACKET_OUT are removed, the frame
    behind them slides up, and the message is sorted into a queue. */
module PacketOutFilter {
  import opened Bytes
  import opened Formats
  import opened Splits
  import opened Priority
  import opened ActionFilter
  import opened InstFilter

  const LLDP_QUEUE_ID: nat := 0
  const PO_QUEUE_1_ID: nat := 2
  const PO_QUEUE_2_ID: nat := 8
  const LLDP_TYPE: u16 := 0x88cc

  /** What the rewriting is for. */
  function FilterPacketOut(p: PacketOut): PacketOut {
    PacketOut(p.version, p.fixed, p.pad, Kept(p.acts), p.frame)
  }

  ghost predicate PacketOutAt(s: seq<byte>, p: PacketOut) {
    WfPacketOut(p) && PacketOutLen(p) <= |s| && s[..PacketOutLen(p)] == PacketOutBytes(p)
  }

  // The first 24 bytes, with given lengths.
  function Head(p: PacketOut, length: u16, listLen: u16): (r: seq<byte>)
    requires WfPacketOut(p)
    ensures |r| == 24
  {
    [p.version, PACKET_OUT] + PutBe16(length) + p.fixed + PutBe16(listLen) + p.pad
  }

  // The message in its three parts.
  lemma {:induction false} PartsOf(s: seq<byte>, p: PacketOut)
    requires PacketOutAt(s, p)
    ensures var n := |ActionsBytes(p.acts)|;
            && s[..24] == Head(p, PacketOutLen(p), n) && ListAt(s, 24, n, p.acts)
            && s[24 + n..24 + n + |p.frame|] == p.frame
  {
    var n, b := |ActionsBytes(p.acts)|, ActionsBytes(p.acts);
    var h := Head(p, PacketOutLen(p), n);
    Assoc(h, b, p.frame);
    TwoParts(s, 0, h, b + p.frame);
    TwoParts(s, 24, b, p.frame);
  }

  lemma {:induction false} Assemble(s: seq<byte>, p: PacketOut)
    requires WfPacketOut(p) && PacketOutLen(p) <= |s|
    requires s[..24] == Head(p, PacketOutLen(p), |ActionsBytes(p.acts)|)
    requires s[24..PacketOutLen(p)] == ActionsBytes(p.acts) + p.frame
    ensures PacketOutAt(s, p)
  {
    Assoc(s[..24], ActionsBytes(p.acts), p.frame);
    JoinSlices(s, 0, 24, PacketOutLen(p));
  }

  // The two lengths and the transaction id in place.
  lemma {:induction false} HeadFields(s: seq<byte>, p: PacketOut, length: u16, listLen: u16)
    requires WfPacketOut(p) && 24 <= |s| && s[..24] == Head(p, length, listLen)
    ensures Be16(s, 2) == length && Be16(s, 16) == listLen && s[4..8] == p.fixed[..4]
  {
    var h := s[..24];
    assert Be16(s, 2) == Be16(h, 2) == Be16(PutBe16(length), 0);
    assert Be16(s, 16) == Be16(h, 16) == Be16(PutBe16(listLen), 0);
    assert s[4..8] == h[4..8] == p.fixed[..4];
  }

  lemma {:induction false} HeadLengths(s: seq<byte>, p: PacketOut, length: u16, listLen: u16, next: u16, nextList: u16)
    requires WfPacketOut(p) && 24 <= |s| && s[..24] == Head(p, length, listLen)
    ensures var t := Overlay(Overlay(s, 2, PutBe16(next)), 16, PutBe16(nextList));
            t[..24] == Head(p, next, nextList) && t[24..] == s[24..]
  {
    var s1 := Overlay(s, 2, PutBe16(next));
    var a, b, c := [p.version, PACKET_OUT], p.fixed, p.pad;
    var l, k := PutBe16(length), PutBe16(listLen);
    OverlayPrefix(s, 2, PutBe16(next), 24);
    assert a + l + b + k + c == a + l + (b + k + c);
    OverlayMiddle(a, l, b + k + c, PutBe16(next));
    OverlayPrefix(s1, 16, PutBe16(nextList), 24);
    assert a + PutBe16(next) + (b + k + c) == (a + PutBe16(next) + b) + k + c;
    OverlayMiddle(a + PutBe16(next) + b, k, c, PutBe16(nextList));
  }

  // The kept actions written over the list, and the frame behind them: one overlay.
  lemma {:induction false} Slid(s: seq<byte>, k: seq<byte>, frame: seq<byte>, from: nat)
    requires 24 + |k| <= from && from + |frame| <= |s| && s[from..from + |frame|] == frame
    ensures Overlay(s, 24, k)[from..from + |frame|] == frame
    ensures Overlay(Overlay(s, 24, k), 24 + |k|, frame) == Overlay(s, 24, k + frame)
  {
    OverlaySlice(s, 24, k, from, from + |frame|);
    OverlayJoin(s, 24, k, frame);
  }

  // The rewritten message: the filtered one from the start on, and behind its end all that
  // was in the buffer before.
  ghost predicate RewrittenTo(s: seq<byte>, was: seq<byte>, out: PacketOut) {
    PacketOutAt(s, out) && |s| == |was| && s[PacketOutLen(out)..] == was[PacketOutLen(out)..]
  }

  lemma {:induction false} Finished(was: seq<byte>, p: PacketOut, out: PacketOut) returns (s: seq<byte>)
    requires PacketOutAt(was, p) && out == FilterPacketOut(p)
    ensures WfPacketOut(out) && PacketOutLen(out) <= PacketOutLen(p)
    ensures s == Overlay(Overlay(Overlay(was, 24, ActionsBytes(out.acts) + p.frame), 2, PutBe16(PacketOutLen(out))),
                         16, PutBe16(|ActionsBytes(out.acts)|))
    ensures RewrittenTo(s, was, out)
  {
    hide ActionsBytes;
    hide Kept;
    hide PacketOutBytes;
    hide Overlay;
    KeptBytes(p.acts);
    var k, n, m := |ActionsBytes(out.acts)|, |ActionsBytes(p.acts)|, PacketOutLen(out);
    var tail := ActionsBytes(out.acts) + p.frame;
    PartsOf(was, p);
    var s1 := Overlay(was, 24, tail);
    OverlaySlice(was, 24, tail, 0, 24);
    OverlaySlice(was, 24, tail, 24, m);
    OverlayTail(was, 24, tail, m);
    HeadLengths(s1, p, PacketOutLen(p), n, m, k);
    s := Overlay(Overlay(s1, 2, PutBe16(m)), 16, PutBe16(k));
    SameBehind(s, s1, 24, m);
    assert Head(out, m, k) == Head(p, m, k);
    Assemble(s, out);
  }

  // A message no action is dropped from is what it should become.
  lemma {:induction false} NothingToDo(was: seq<byte>, p: PacketOut)
    requires PacketOutAt(was, p) && |ActionsBytes(Kept(p.acts))| == |ActionsBytes(p.acts)|
    ensures RewrittenTo(was, was, FilterPacketOut(p)) && SetFields(p.acts) == []
  {
    KeptBytes(p.acts);
    NothingDropped(p.acts);
  }

  // ----- The rewriting.

  method MoveParts(msg: array<byte>, fb: array<byte>, newListLen: u16, listLen: u16, frameLen: u16, ghost p: PacketOut)
    requires msg != fb && PacketOutAt(msg[..], p)
    requires listLen == |ActionsBytes(p.acts)| && frameLen == |p.frame|
    requires newListLen == |ActionsBytes(Kept(p.acts))| <= listLen && newListLen <= fb.Length
    requires fb[..][..newListLen] == ActionsBytes(Kept(p.acts))
    modifies msg
    ensures 24 + |ActionsBytes(Kept(p.acts)) + p.frame| <= msg.Length
    ensures msg[..] == Overlay(old(msg[..]), 24, ActionsBytes(Kept(p.acts)) + p.frame)
  {
    hide ActionsBytes;
    hide Kept;
    hide PacketOutBytes;
    hide Head;
    ghost var k := ActionsBytes(Kept(p.acts));
    PartsOf(msg[..], p);
    Slid(msg[..], k, p.frame, 24 + listLen);
    CopyBytes(msg, 24, fb, 0, newListLen, k);
    SlideLeft(msg, 24 + newListLen as int, 24 + listLen as int, frameLen, p.frame);
  }

  method Rewrite(msg: array<byte>, fb: array<byte>, newListLen: u16, listLen: u16, frameLen: u16, filterLen: u16,
                 ghost p: PacketOut)
    requires msg != fb && PacketOutAt(msg[..], p)
    requires listLen == |ActionsBytes(p.acts)| && frameLen == |p.frame| && newListLen + filterLen == listLen
    requires newListLen == |ActionsBytes(Kept(p.acts))| <= fb.Length
    requires fb[..][..newListLen] == ActionsBytes(Kept(p.acts))
    modifies msg
    ensures RewrittenTo(msg[..], old(msg[..]), FilterPacketOut(p))
  {
    hide ActionsBytes;
    hide Kept;
    hide PacketOutBytes;
    hide Overlay;
    ghost var was := msg[..];
    ghost var s := Finished(was, p, FilterPacketOut(p));
    PartsOf(was, p);
    MoveParts(msg, fb, newListLen, listLen, frameLen, p);
    OverlaySlice(was, 24, ActionsBytes(Kept(p.acts)) + p.frame, 0, 24);
    HeadFields(msg[..], p, PacketOutLen(p), listLen);
    StoreBe16(msg, 2, U16(LoadBe16(msg, 2) - filterLen));
    StoreBe16(msg, 16, newListLen);
    assert msg[..] == s;
  }

  // The lengths the code works with.
  method Lengths(msg: array<byte>, ghost p: PacketOut) returns (listLen: u16, frameLen: u16)
    requires PacketOutAt(msg[..], p)
    ensures listLen == |ActionsBytes(p.acts)| && frameLen == |p.frame|
  {
    PartsOf(msg[..], p);
    HeadFields(msg[..], p, PacketOutLen(p), |ActionsBytes(p.acts)|);
    listLen := LoadBe16(msg, 16);
    frameLen := U16(LoadBe16(msg, 2) - listLen - 24);
  }

  // The scratch buffer is cleared and filled, and the message rewritten from it.
  method FilterActions(msg: array<byte>, fb: array<byte>, pm: PriorityManager, clock: seq<u16>, ghost p: PacketOut)
    returns (filterLen: u16, uep: UepMsg)
    requires msg != fb && PacketOutAt(msg[..], p)
    requires 500 <= fb.Length && |ActionsBytes(Kept(p.acts))| <= fb.Length
    requires |SetFields(p.acts)| == |clock|
    requires pm.Valid() && pm.Ptrs().tail + |clock| + 65536 < TWO_32
    modifies msg, fb, pm, pm.windowBuffer, pm.windowBuffer.buffer
    ensures RewrittenTo(msg[..], old(msg[..]), FilterPacketOut(p))
    ensures filterLen > 0 <==> SetFields(p.acts) != []
    ensures uep == LastUep(SetFields(p.acts), clock)
    ensures pm.Valid() && pm.Ptrs() == AdvanceAll(old(pm.Ptrs()), pm.windowSize, clock)
    ensures pm.log == old(pm.log) + ChargesFor(SetFields(p.acts), BookedWindows(old(pm.Ptrs()), pm.windowSize, clock))
  {
    hide ActionsBytes;
    hide Kept;
    hide SetFields;
    hide PacketOutBytes;
    ghost var was, k := msg[..], ActionsBytes(Kept(p.acts));
    var listLen, frameLen := Lengths(msg, p);
    PartsOf(was, p);
    FillZero(fb, 500);
    ghost var clear := fb[..];
    var newListLen;
    newListLen, filterLen, uep := CopyValidActionToBuf(msg, 24, listLen, fb, pm, clock, p.acts);
    ghost var valid := pm.Valid();
    assert valid;
    KeptBytes(p.acts);
    if filterLen > 0 {
      OverlaySlice(clear, 0, k, 0, |k|);
      Rewrite(msg, fb, newListLen, listLen, frameLen, filterLen, p);
    } else {
      NothingToDo(was, p);
    }
    assert valid == pm.Valid();
  }

  lemma {:induction false} TransactionId(s: seq<byte>, p: PacketOut)
    requires PacketOutAt(s, p)
    ensures 8 <= |s| && s[4..8] == p.fixed[..4]
  {
    PartsOf(s, p);
    HeadFields(s, p, PacketOutLen(p), |ActionsBytes(p.acts)|);
  }

  // The 16 bits the code takes for the frame's EtherType.
  ghost function TypeRead(s: seq<byte>, out: PacketOut): u16
    requires 38 + |ActionsBytes(out.acts)| <= |s|
  {
    Be16(s, 36 + |ActionsBytes(out.acts)|)
  }

  // What is decided about a message, from the state of the accounts after its charges and
  // the type read behind its actions.
  ghost function PacketOutArg(p: PacketOut, clock: seq<u16>, slots: seq<Split>, windowSize: u32, ln2: real,
                              etherType: u16): (arg: MsgArg)
    requires WfPacketOut(p) && slots != [] && |SetFields(p.acts)| <= |clock|
    ensures arg.qid.Some? && arg.qid.value in if etherType == 0x88cc || SetFields(p.acts) == [] then {0} else {2, 8}
    ensures etherType == 0x88cc ==> arg.identify == Some(p.fixed[..4] + Zeros(4)) && arg.wait == 0
    ensures etherType != 0x88cc ==> arg.identify == None && arg.wait == 1
    ensures SetFields(p.acts) == [] ==> arg.uep == Uep(0, 0)
    ensures SetFields(p.acts) != [] ==>
              var b := SetFields(p.acts)[|SetFields(p.acts)| - 1].body; arg.uep == Uep(b[5], b[4])
  {
    var uep := LastUep(SetFields(p.acts), clock);
    var demoted := IsDangerous(SlotRatio(slots, windowSize, uep.window, uep.uep), ln2);
    if etherType == LLDP_TYPE then MsgArg(Some(LLDP_QUEUE_ID), Some(p.fixed[..4] + Zeros(4)), uep.uep, 0)
    else if SetFields(p.acts) == [] then MsgArg(Some(IMPORTANT_QUEUE_ID), None, uep.uep, 1)
    else MsgArg(Some(if demoted then PO_QUEUE_2_ID else PO_QUEUE_1_ID), None, uep.uep, 1)
  }

  /** The buffer must reach to the end of the two bytes taken for an EtherType, which a short
      frame does not have. */
  method DoPacketOutProcessed(msg: array<byte>, fb: array<byte>, pm: PriorityManager, clock: seq<u16>, ln2: real,
                              ghost p: PacketOut)
    returns (arg: MsgArg)
    requires msg != fb && PacketOutAt(msg[..], p) && 38 + |ActionsBytes(Kept(p.acts))| <= msg.Length
    requires 500 <= fb.Length && |ActionsBytes(Kept(p.acts))| <= fb.Length
    requires |SetFields(p.acts)| == |clock|
    requires pm.Valid() && pm.Ptrs().tail + |clock| + 65536 < TWO_32
    modifies msg, fb, pm, pm.windowBuffer, pm.windowBuffer.buffer
    ensures pm.Valid() && pm.Ptrs() == AdvanceAll(old(pm.Ptrs()), pm.windowSize, clock)
    ensures pm.log == old(pm.log) + ChargesFor(SetFields(p.acts), BookedWindows(old(pm.Ptrs()), pm.windowSize, clock))
    ensures RewrittenTo(msg[..], old(msg[..]), FilterPacketOut(p))
    ensures 8 <= msg.Length && p.fixed[..4] == old(msg[..])[4..8]
    ensures arg == PacketOutArg(p, clock, pm.Slots(), pm.windowSize, ln2, TypeRead(msg[..], FilterPacketOut(p)))
  {
    hide ActionsBytes;
    hide Kept;
    hide SetFields;
    hide PacketOutBytes;
    hide LastUep;
    ghost var was, out := msg[..], FilterPacketOut(p);
    TransactionId(was, p);
    var filterLen, uep := FilterActions(msg, fb, pm, clock, p);
    var qid := IMPORTANT_QUEUE_ID;
    if filterLen > 0 {
      var ratio := pm.GetUEPRatioOfSplitK(uep.window, uep.uep);
      qid := if IsDangerous(ratio, ln2) then PO_QUEUE_2_ID else PO_QUEUE_1_ID;
    }
    PartsOf(msg[..], out);
    HeadFields(msg[..], out, PacketOutLen(out), |ActionsBytes(out.acts)|);
    var at := 24 + LoadBe16(msg, 16) as int;
    if LoadBe16(msg, at + 12) == LLDP_TYPE {
      arg := MsgArg(Some(LLDP_QUEUE_ID), Some(msg[..][4..8] + Zeros(4)), uep.uep, 0);
    } else {
      arg := MsgArg(Some(qid), None, uep.uep, 1);
    }
  }

  // ----- What the rewriting means.

  /** The first header.length bytes of the rewritten buffer are the filtered message, for
      every message: the PACKET_OUT lengths have no residue. */
  lemma {:induction false} RewriteKeepsMeaning(s: seq<byte>, was: seq<byte>, p: PacketOut)
    requires PacketOutAt(was, p) && RewrittenTo(s, was, FilterPacketOut(p))
    ensures var out := FilterPacketOut(p);
            Be16(s, 2) == PacketOutLen(out) <= PacketOutLen(p) && ParsePacketOut(s[..Be16(s, 2)]) == Some(out)
    ensures PacketOutLen(p) - Be16(s, 2) == |ActionsBytes(p.acts)| - |ActionsBytes(Kept(p.acts))|
    ensures var out := FilterPacketOut(p); out.(acts := p.acts) == p
    ensures forall a: Action :: multiset(FilterPacketOut(p).acts)[a] == if a.typ == 25 then 0 else multiset(p.acts)[a]
  {
    hide ActionsBytes;
    hide ParsePacketOut;
    var out := FilterPacketOut(p);
    PartsOf(s, out);
    HeadFields(s, out, PacketOutLen(out), |ActionsBytes(out.acts)|);
    PacketOutParseBack(out);
    KeptBytes(p.acts);
    forall a: Action
      ensures multiset(out.acts)[a] == if a.typ == 25 then 0 else multiset(p.acts)[a]
    {
      FilterIsByType(p.acts, a);
    }
  }

  /** The LLDP test gives the answer of the original frame, as the frame moved as a whole. A
      frame too short to have an EtherType is judged by what the buffer held at that place
      before, in full or for the second byte. */
  lemma {:induction false} TypeIsTheFrames(s: seq<byte>, was: seq<byte>, p: PacketOut)
    requires RewrittenTo(s, was, FilterPacketOut(p)) && 38 + |ActionsBytes(Kept(p.acts))| <= |s|
    ensures |p.frame| >= 14 ==> TypeRead(s, FilterPacketOut(p)) == Be16(p.frame, 12)
    ensures |p.frame| == 13 ==>
              TypeRead(s, FilterPacketOut(p))
              == p.frame[12] as int * 256 + was[37 + |ActionsBytes(Kept(p.acts))|] as int
    ensures |p.frame| <= 12 ==> TypeRead(s, FilterPacketOut(p)) == Be16(was, 36 + |ActionsBytes(Kept(p.acts))|)
  {
    hide ActionsBytes;
    hide PacketOutBytes;
    var out := FilterPacketOut(p);
    var at, m := 24 + |ActionsBytes(out.acts)|, PacketOutLen(out);
    PartsOf(s, out);
    if |p.frame| >= 13 {
      var f := s[at..at + |p.frame|];
      assert s[at + 12] == f[12] && (|p.frame| >= 14 ==> s[at + 13] == f[13]);
    }
    if |p.frame| <= 13 {
      SameAt(s, was, m, at + 13);
      if |p.frame| <= 12 {
        SameAt(s, was, m, at + 12);
      }
    }
  }

  lemma {:induction false} SameAt(s: seq<byte>, was: seq<byte>, m: nat, k: nat)
    requires m <= k < |s| == |was| && s[m..] == was[m..]
    ensures s[k] == was[k]
  {
    assert s[k] == s[m..][k - m] && was[k] == was[m..][k - m];
  }

  /** A PACKET_OUT without a frame, whose only action is removed, goes to the LLDP queue: the
      two bytes taken for its EtherType are the number its own tag carried. */
  lemma {:induction false} NoFrameIsLldp() returns (p: PacketOut, was: seq<byte>)
    ensures PacketOutAt(was, p) && p.frame == [] && |p.acts| == 1 && SetFields(p.acts) == p.acts
    ensures forall s | RewrittenTo(s, was, FilterPacketOut(p)) ::
              38 <= |s| && FilterPacketOut(p).acts == [] && TypeRead(s, FilterPacketOut(p)) == LLDP_TYPE
    ensures forall clock, slots, windowSize, ln2 | |clock| >= 1 && slots != [] ::
              PacketOutArg(p, clock, slots, windowSize, ln2, LLDP_TYPE).qid == Some(LLDP_QUEUE_ID)
  {
    var a: Action := Action(SET_FIELD, Zeros(8) + [0x88, 0xcc] + Zeros(2));
    p := PacketOut(4, Zeros(12), Zeros(6), [a], []);
    ActionFilter.BytesOfOne(a);
    OneTag(a);
    was := PacketOutBytes(p);
    PartsOf(was, p);
    var b := was[24..24 + |ActionBytes(a)|];
    assert was[36] == b[12] && was[37] == b[13] && b[12] == a.body[8] && b[13] == a.body[9];
    forall s | RewrittenTo(s, was, FilterPacketOut(p))
      ensures 38 <= |s| && FilterPacketOut(p).acts == [] && TypeRead(s, FilterPacketOut(p)) == LLDP_TYPE
    {
      TypeIsTheFrames(s, was, p);
    }
  }

  lemma {:induction false} OneTag(a: Action)
    requires a.typ == SET_FIELD
    ensures Kept([a]) == [] && SetFields([a]) == [a]
  {
    assert [a][1..] == [];
  }

  /** What the rewriting asks of a received message is exactly that it parses. */
  lemma {:induction false} ParsedIsAt(s: seq<byte>, p: PacketOut)
    ensures PacketOutAt(s, p) <==> 4 <= |s| && Be16(s, 2) <= |s| && ParsePacketOut(s[..Be16(s, 2)]) == Some(p)
  {
    hide ParsePacketOut;
    hide ActionsBytes;
    if PacketOutAt(s, p) {
      PartsOf(s, p);
      HeadFields(s, p, PacketOutLen(p), |ActionsBytes(p.acts)|);
      PacketOutParseBack(p);
    } else if 4 <= |s| && Be16(s, 2) <= |s| && ParsePacketOut(s[..Be16(s, 2)]) == Some(p) {
      PacketOutPrintBack(s[..Be16(s, 2)]);
    }
  }

  /** A second pass leaves the message as it is. */
  lemma {:induction false} RewriteIsIdempotent(p: PacketOut)
    ensures FilterPacketOut(FilterPacketOut(p)) == FilterPacketOut(p)
  {
    FilterIsIdempotent(p.acts);
  }
}
