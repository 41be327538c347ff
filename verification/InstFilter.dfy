/** pack_Inst_except_type: an APPLY_ACTIONS instruction loses its SET_FIELD actions, every
    other instruction is left alone. */
module InstFilter {
  import opened Bytes
  import opened Formats
  import opened Priority
  import opened ActionFilter

  // 4 in network byte order, read raw. Of the switch over instruction types only the branch
  // of this type can be reached.
  const RAW_APPLY_ACTIONS: u16 := 0x0400

  lemma {:induction false} Aligned(acts: seq<Action>)
    ensures |ActionsBytes(acts)| % 8 == 0
  {
    if acts != [] {
      Aligned(acts[1..]);
      EightsAdd(|ActionBytes(acts[0])|, |ActionsBytes(acts[1..])|);
    }
  }

  lemma {:induction false} KeptShrinks(acts: seq<Action>)
    ensures |ActionsBytes(Kept(acts))| + (if SetFields(acts) == [] then 0 else 16) <= |ActionsBytes(acts)|
  {
    if acts != [] {
      KeptShrinks(acts[1..]);
      if acts[0].typ != SET_FIELD {
        assert Kept(acts)[1..] == Kept(acts[1..]);
      }
    }
  }

  lemma {:induction false} KeptBytes(acts: seq<Action>)
    ensures |ActionsBytes(Kept(acts))| % 8 == 0 && |ActionsBytes(Kept(acts))| <= |ActionsBytes(acts)|
    ensures SetFields(acts) != [] ==> |ActionsBytes(Kept(acts))| + 16 <= |ActionsBytes(acts)|
    ensures SetFields(acts) == [] ==> Kept(acts) == acts
  {
    Aligned(Kept(acts));
    KeptShrinks(acts);
    NothingDropped(acts);
  }

  // An instruction without its SET_FIELD actions is one.
  lemma {:induction false} KeptFits(pad: seq<byte>, acts: seq<Action>)
    requires WfInst(Apply(pad, acts))
    ensures WfInst(Apply(pad, Kept(acts)))
  {
    hide ActionsBytes;
    hide Kept;
    hide SetFields;
    KeptBytes(acts);
    EightsAdd(8, |ActionsBytes(Kept(acts))|);
  }

  function FilterInst(i: Instruction): Instruction {
    match i
    case Apply(pad, acts) =>
      KeptFits(pad, acts);
      Apply(pad, Kept(acts))
    case Other(_, _) => i
  }

  function Dropped(i: Instruction): seq<SetField> {
    if i.Apply? then SetFields(i.acts) else []
  }

  ghost predicate InstAt(msg: seq<byte>, at: nat, i: Instruction) {
    at + InstLen(i) <= |msg| && msg[at..at + InstLen(i)] == InstBytes(i)
  }

  /** On the wire the first instruction that loses anything is the one whose type is 4, and it
      loses its actions of type 25. Its padding stays. */
  lemma {:induction false} FilterIsByBytes(i: Instruction, a: Action)
    ensures i.Apply? <==> InstBytes(i)[..2] == [0, 4]
    ensures !i.Apply? ==> FilterInst(i) == i && Dropped(i) == []
    ensures i.Apply? ==>
              && FilterInst(i).Apply? && FilterInst(i).pad == i.pad && Dropped(i) == SetFields(i.acts)
              && multiset(FilterInst(i).acts)[a] == if a.typ == 25 then 0 else multiset(i.acts)[a]
  {
    var b, typ := InstBytes(i), if i.Apply? then APPLY_ACTIONS else i.typ;
    assert b[..2] == PutBe16(typ);
    if i.Apply? {
      FilterIsByType(i.acts, a);
    }
  }

  lemma {:induction false} InstHeader(msg: seq<byte>, at: nat, i: Instruction)
    requires InstAt(msg, at, i)
    ensures at + 8 <= |msg| && Be16(msg, at + 2) == InstLen(i)
    ensures i.Apply? <==> Le16(msg, at) == RAW_APPLY_ACTIONS
  {
    var b, typ := InstBytes(i), if i.Apply? then APPLY_ACTIONS else i.typ;
    assert msg[at] == b[0] && msg[at + 1] == b[1] && msg[at + 2] == b[2] && msg[at + 3] == b[3];
    assert Be16(b, 0) == Be16(PutBe16(typ), 0) && Be16(b, 2) == Be16(PutBe16(InstLen(i)), 0);
  }

  lemma {:induction false} InstParts(msg: seq<byte>, at: nat, i: Instruction)
    requires InstAt(msg, at, i) && i.Apply?
    ensures msg[at..at + 2] == PutBe16(APPLY_ACTIONS) && msg[at + 4..at + 8] == i.pad
    ensures ListAt(msg, at + 8, InstLen(i) - 8, i.acts)
  {
    var t, l, p, a := PutBe16(APPLY_ACTIONS), PutBe16(InstLen(i)), i.pad, ActionsBytes(i.acts);
    assert t + l + p + a == [] + t + (l + p + a) == (t + l) + p + a == (t + l + p) + a + [];
    MiddleOf(msg, at, InstLen(i), [], t, l + p + a);
    MiddleOf(msg, at, InstLen(i), t + l, p, a);
    MiddleOf(msg, at, InstLen(i), t + l + p, a, []);
  }

  /** Leaves the kept actions in the scratch buffer and the new length in the instruction. */
  method PackInstExceptType(msg: array<byte>, at: nat, buf: array<byte>, pm: PriorityManager, clock: seq<u16>,
                            ghost i: Instruction)
    returns (newLen: u16, kickLen: u16, uep: UepMsg)
    requires msg != buf && InstAt(msg[..], at, i) && InstLen(FilterInst(i)) <= buf.Length
    requires |Dropped(i)| == |clock|
    requires pm.Valid() && pm.Ptrs().tail + |clock| + 65536 < TWO_32
    modifies msg, buf, pm, pm.windowBuffer, pm.windowBuffer.buffer
    ensures newLen == InstLen(FilterInst(i)) && kickLen + newLen == InstLen(i)
    ensures msg[..] == Overlay(old(msg[..]), at + 2, PutBe16(newLen))
    ensures buf[..] == Overlay(old(buf[..]), 0, if i.Apply? then ActionsBytes(Kept(i.acts)) else [])
    ensures uep == LastUep(Dropped(i), clock)
    ensures pm.Valid() && pm.Ptrs() == AdvanceAll(old(pm.Ptrs()), pm.windowSize, clock)
    ensures pm.log == old(pm.log) + ChargesFor(Dropped(i), BookedWindows(old(pm.Ptrs()), pm.windowSize, clock))
  {
    hide ActionsBytes;
    hide Kept;
    hide SetFields;
    hide Holds;
    hide InstBytes;
    hide ChargesFor;
    hide BookedWindows;
    hide AdvanceAll;
    InstHeader(msg[..], at, i);
    newLen, kickLen, uep := LoadBe16(msg, at + 2), 0, NO_UEP;
    if LoadLe16(msg, at) != RAW_APPLY_ACTIONS {
      OverlaySame(msg[..], at + 2, newLen);
      NothingBooked(pm.log, pm.Ptrs(), pm.windowSize, clock, [], buf[..]);
      assert clock == [];
      return;
    }
    InstParts(msg[..], at, i);
    KeptBytes(i.acts);
    var listLen;
    listLen, kickLen, uep := CopyValidActionToBuf(msg, at + 8, newLen - 8, buf, pm, clock, i.acts);
    newLen := U16(newLen - kickLen);
    StoreBe16(msg, at + 2, newLen);
  }

  // Storing the value a field already has.
  lemma {:induction false} OverlaySame(s: seq<byte>, at: nat, v: u16)
    requires at + 2 <= |s| && Be16(s, at) == v
    ensures Overlay(s, at, PutBe16(v)) == s
  {
    PutOfBe16(s, at);
  }
}
