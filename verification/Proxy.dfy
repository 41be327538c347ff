/** Schedule::putMessage as a whole, for the two kinds of message that are rewritten: the
    bytes received are filtered in place, charged, sorted and queued. */
module Proxy {
  import opened Bytes
  import opened Formats
  import opened Splits
  import opened Priority
  import opened ActionFilter
  import opened Demotion
  import F = FlowModFilter
  import P = PacketOutFilter
  import opened Messages
  import opened Steps
  import opened Schedules

  // A 64-bit identity from its bytes in memory.
  function Identity(bytes: seq<byte>): nat {
    if bytes == [] then 0 else bytes[0] as int + 256 * Identity(bytes[1..])
  }

  // The event that a decision about a message amounts to. An identity that was not decided
  // is whatever happened to be in its place.
  function PutOf(arg: MsgArg, typ: byte, payload: seq<byte>, leftOver: nat): Event
    requires arg.qid.Some? && arg.qid.value < QUEUES
  {
    Put(arg.qid.value, typ, if arg.identify.Some? then Identity(arg.identify.value) else leftOver, arg.uep.uid,
        arg.wait == 0, payload)
  }

  /** The identity is the little-endian number in eight bytes. */
  lemma {:induction false} IdentityOfEight(b: seq<byte>)
    requires |b| == 8
    ensures Identity(b)
            == b[0] as int + 0x100 * b[1] as int + 0x1_0000 * b[2] as int + 0x100_0000 * b[3] as int
               + 0x1_0000_0000 * b[4] as int + 0x100_0000_0000 * b[5] as int
               + 0x1_0000_0000_0000 * b[6] as int + 0x100_0000_0000_0000 * b[7] as int
  {
    assert Identity(b) == b[0] as int + 256 * Identity(b[1..]);
    assert Identity(b[1..]) == b[1] as int + 256 * Identity(b[2..]) by { assert b[1..][1..] == b[2..]; }
    assert Identity(b[2..]) == b[2] as int + 256 * Identity(b[3..]) by { assert b[2..][1..] == b[3..]; }
    assert Identity(b[3..]) == b[3] as int + 256 * Identity(b[4..]) by { assert b[3..][1..] == b[4..]; }
    assert Identity(b[4..]) == b[4] as int + 256 * Identity(b[5..]) by { assert b[4..][1..] == b[5..]; }
    assert Identity(b[5..]) == b[5] as int + 256 * Identity(b[6..]) by { assert b[5..][1..] == b[6..]; }
    assert Identity(b[6..]) == b[6] as int + 256 * Identity(b[7..]) by { assert b[6..][1..] == b[7..]; }
    assert Identity(b[7..]) == b[7] as int by { assert b[7..][1..] == []; }
  }

  /** That of an LLDP message is its transaction id. */
  lemma {:induction false} IdentityOfFour(b: seq<byte>)
    requires |b| == 4
    ensures Identity(b + Zeros(4)) == Identity(b)
            == b[0] as int + 0x100 * b[1] as int + 0x1_0000 * b[2] as int + 0x100_0000 * b[3] as int
  {
    IdentityOfEight(b + Zeros(4));
    assert Identity(b) == b[0] as int + 256 * Identity(b[1..]);
    assert Identity(b[1..]) == b[1] as int + 256 * Identity(b[2..]) by { assert b[1..][1..] == b[2..]; }
    assert Identity(b[2..]) == b[2] as int + 256 * Identity(b[3..]) by { assert b[2..][1..] == b[3..]; }
    assert Identity(b[3..]) == b[3] as int by { assert b[3..][1..] == []; }
  }

  /** A message has come to the end of lane q, unsent, and no other lane has changed. */
  ghost predicate Arrived(was: seq<Lane>, lanes: seq<Lane>, q: nat, typ: byte, identity: nat, uid: byte, wait: int,
                          payload: seq<byte>)
  {
    && |was| == 10 == |lanes| && q < 10
    && (forall p: QueueId | p != q :: lanes[p] == was[p])
    && var m := Msg(|was[q].put|, typ, identity, uid, wait, 1.0, payload, false, false);
       lanes[q].put == was[q].put + [m] && lanes[q].msgs == was[q].msgs + [m]
  }

  // A copy of the message goes into the queue decided on.
  method Enqueue(schedule: Schedule, msg: array<byte>, arg: MsgArg, leftOver: nat)
    requires schedule.Coupled() && arg.qid.Some? && arg.qid.value < QUEUES
    requires 4 <= msg.Length && Be16(msg[..], 2) <= msg.Length
    modifies schedule`st, schedule`trace, schedule.queues
    ensures schedule.Coupled()
    ensures schedule.st == Step(old(schedule.st), PutOf(arg, msg[1], msg[..][..Be16(msg[..], 2)], leftOver))
    ensures Arrived(old(schedule.st).lanes, schedule.st.lanes, arg.qid.value, msg[1],
                    if arg.identify.Some? then Identity(arg.identify.value) else leftOver, arg.uep.uid,
                    if arg.wait == 0 then 0 else 1, msg[..][..Be16(msg[..], 2)])
    ensures |schedule.queues| == 10
    ensures schedule.queues[arg.qid.value].interval == if arg.qid.value < 5 then -1 else 2 * arg.qid.value
  {
    hide Shows;
    hide Step;
    hide Identity;
    var identity := if arg.identify.Some? then Identity(arg.identify.value) else leftOver;
    schedule.PutMessage(arg.qid.value, msg[1], identity, arg.uep.uid, arg.wait == 0, msg[..][..LoadBe16(msg, 2)]);
    schedule.IntervalOf(arg.qid.value);
  }

  /** The queue of an ADD with removed actions, by what is logged once they are charged: 7 if
      its sender is heavy in the current window, else 1. */
  ghost function AddQueue(f: FlowMod, clock: seq<u16>, log: seq<Charge>, ln2: real): (q: nat)
    requires |F.DroppedFields(f)| == |clock|
    ensures clock != [] ==>
              var b := F.DroppedFields(f)[|clock| - 1].body;
              q == if Heavy(log, clock[|clock| - 1], Uep(b[5], b[4]), ln2) then 7 else 1
  {
    var uep := LastUep(F.DroppedFields(f), clock);
    if Heavy(log, uep.window, uep.uep, ln2) then F.FLOW_MOD_QUEUE_2_ID else F.FLOW_MOD_QUEUE_1_ID
  }

  /** The same for a PACKET_OUT: LLDP goes to 0, else 8 if its sender is heavy, else 2. */
  ghost function PacketOutQueue(m: PacketOut, clock: seq<u16>, log: seq<Charge>, ln2: real, etherType: u16): (q: nat)
    requires |SetFields(m.acts)| == |clock|
    ensures clock != [] ==>
              var b := SetFields(m.acts)[|clock| - 1].body;
              q == if etherType == 0x88cc then 0
                   else if Heavy(log, clock[|clock| - 1], Uep(b[5], b[4]), ln2) then 8 else 2
  {
    var uep := LastUep(SetFields(m.acts), clock);
    if etherType == P.LLDP_TYPE then P.LLDP_QUEUE_ID
    else if Heavy(log, uep.window, uep.uep, ln2) then P.PO_QUEUE_2_ID else P.PO_QUEUE_1_ID
  }

  /** The queue of any ADD, by the window whose charges stand in the slot that is read, in a ring
      of n slots: for an ADD without removed actions that is slot 0, and its sender 0, 0. */
  ghost function AddSlotQueue(f: FlowMod, clock: seq<u16>, log: seq<Charge>, n: nat, ln2: real): nat
    requires |F.DroppedFields(f)| == |clock| && n > 0
  {
    var uep := LastUep(F.DroppedFields(f), clock);
    if HeavyAt(log, n, uep.window, uep.uep, ln2) then F.FLOW_MOD_QUEUE_2_ID else F.FLOW_MOD_QUEUE_1_ID
  }

  /** The same for any PACKET_OUT. */
  ghost function PacketOutSlotQueue(m: PacketOut, clock: seq<u16>, log: seq<Charge>, n: nat, ln2: real,
                                    etherType: u16): nat
    requires |SetFields(m.acts)| == |clock| && n > 0
  {
    var uep := LastUep(SetFields(m.acts), clock);
    if etherType == P.LLDP_TYPE then P.LLDP_QUEUE_ID
    else if SetFields(m.acts) == [] then IMPORTANT_QUEUE_ID
    else if HeavyAt(log, n, uep.window, uep.uep, ln2) then P.PO_QUEUE_2_ID else P.PO_QUEUE_1_ID
  }

  // An ADD with removed actions goes to queue 7 exactly if its sender is heavy.
  lemma {:induction false} AddGoesByShare(f: FlowMod, log: seq<Charge>, p: Pointers, after: seq<Charge>,
                                          slots: seq<Split>, q: Pointers, ws: nat, clock: seq<u16>, ln2: real)
    requires WfFlowMod(f) && |F.DroppedFields(f)| == |clock| && 1 <= ws && p.head <= p.tail <= p.head + ws
    requires after == log + ChargesFor(F.DroppedFields(f), BookedWindows(p, ws, clock))
    requires q == AdvanceAll(p, ws, clock) && Holds(after, slots, q, ws) && Exact(p, ws, clock, after)
    ensures F.AddArg(f, clock, slots, ws, ln2).qid == Some(AddQueue(f, clock, after, ln2))
  {
    hide Holds;
    hide F.AddArg;
    hide F.DroppedFields;
    InOrderIsExact(p, ws, clock);
    AddIsDemoted(f, log, p, slots, q, clock, ln2);
  }

  // And a PACKET_OUT to queue 8, unless it is LLDP.
  lemma {:induction false} PacketOutGoesByShare(m: PacketOut, log: seq<Charge>, p: Pointers, after: seq<Charge>,
                                                slots: seq<Split>, q: Pointers, ws: nat, clock: seq<u16>, ln2: real,
                                                etherType: u16)
    requires WfPacketOut(m) && |SetFields(m.acts)| == |clock| && 1 <= ws && p.head <= p.tail <= p.head + ws
    requires after == log + ChargesFor(SetFields(m.acts), BookedWindows(p, ws, clock))
    requires q == AdvanceAll(p, ws, clock) && Holds(after, slots, q, ws) && Exact(p, ws, clock, after)
    ensures P.PacketOutArg(m, clock, slots, ws, ln2, etherType).qid
            == Some(PacketOutQueue(m, clock, after, ln2, etherType))
  {
    hide Holds;
    hide P.PacketOutArg;
    hide SetFields;
    InOrderIsExact(p, ws, clock);
    PacketOutIsDemoted(m, log, p, slots, q, clock, ln2, etherType);
  }

  lemma {:induction false} AddGoesBySlot(f: FlowMod, log: seq<Charge>, slots: seq<Split>, p: Pointers, ws: nat,
                                         clock: seq<u16>, ln2: real)
    requires WfFlowMod(f) && f.insts != [] && |F.DroppedFields(f)| == |clock| && Holds(log, slots, p, ws)
    requires SlotExact(log, |slots|, ws, LastUep(F.DroppedFields(f), clock).window, ln2)
    ensures F.AddArg(f, clock, slots, ws, ln2).qid == Some(AddSlotQueue(f, clock, log, |slots|, ln2))
  {
    AddIsJudgedByItsSlot(f, log, slots, p, clock, ln2);
  }

  lemma {:induction false} PacketOutGoesBySlot(m: PacketOut, log: seq<Charge>, slots: seq<Split>, p: Pointers, ws: nat,
                                               clock: seq<u16>, ln2: real, etherType: u16)
    requires WfPacketOut(m) && |SetFields(m.acts)| == |clock| && Holds(log, slots, p, ws)
    requires SlotExact(log, |slots|, ws, LastUep(SetFields(m.acts), clock).window, ln2)
    ensures P.PacketOutArg(m, clock, slots, ws, ln2, etherType).qid
            == Some(PacketOutSlotQueue(m, clock, log, |slots|, ln2, etherType))
  {
    PacketOutIsJudgedByItsSlot(m, log, slots, p, clock, ln2, etherType);
  }

  lemma {:induction false} PointersAreNear(log: seq<Charge>, slots: seq<Split>, p: Pointers, ws: nat)
    requires Holds(log, slots, p, ws)
    ensures 1 <= ws && p.head <= p.tail <= p.head + ws
  {
  }

  lemma {:induction false} TypeOf(s: seq<byte>)
    requires ParsePacketOut(s).Some?
    ensures |s| >= 24 && s[1] == PACKET_OUT
  {
  }

  // getOFPMsgArg for a PACKET_OUT: it is rewritten, charged and sorted.
  method SortPacketOut(msg: array<byte>, fb: array<byte>, pm: PriorityManager, clock: seq<u16>, ln2: real,
                       ghost p: PacketOut)
    returns (arg: MsgArg, ghost payload: seq<byte>)
    requires msg != fb && P.PacketOutAt(msg[..], p) && 38 + |ActionsBytes(Kept(p.acts))| <= msg.Length
    requires 500 <= fb.Length && |ActionsBytes(Kept(p.acts))| <= fb.Length
    requires |SetFields(p.acts)| == |clock|
    requires pm.Valid() && pm.Ptrs().tail + |clock| + 65536 < TWO_32
    modifies msg, fb, pm, pm.windowBuffer, pm.windowBuffer.buffer
    ensures pm.Valid() && pm.Ptrs() == AdvanceAll(old(pm.Ptrs()), pm.windowSize, clock)
    ensures pm.log == old(pm.log) + ChargesFor(SetFields(p.acts), BookedWindows(old(pm.Ptrs()), pm.windowSize, clock))
    ensures arg == P.PacketOutArg(p, clock, pm.Slots(), pm.windowSize, ln2, P.TypeRead(msg[..], P.FilterPacketOut(p)))
    ensures Exact(old(pm.Ptrs()), pm.windowSize, clock, pm.log) ==>
              arg.qid == Some(PacketOutQueue(p, clock, pm.log, ln2, P.TypeRead(msg[..], P.FilterPacketOut(p))))
    ensures SlotExact(pm.log, pm.bufferSize, pm.windowSize, LastUep(SetFields(p.acts), clock).window, ln2) ==>
              arg.qid == Some(PacketOutSlotQueue(p, clock, pm.log, pm.bufferSize, ln2,
                                                 P.TypeRead(msg[..], P.FilterPacketOut(p))))
    ensures 24 <= msg.Length && Be16(msg[..], 2) <= msg.Length && msg[1] == 13
    ensures payload == msg[..][..Be16(msg[..], 2)] && ParsePacketOut(payload) == Some(P.FilterPacketOut(p))
    ensures p.fixed[..4] == old(msg[..])[4..8]
  {
    hide ActionsBytes;
    hide Kept;
    hide SetFields;
    hide PacketOutBytes;
    hide ParsePacketOut;
    hide ChargesFor;
    hide BookedWindows;
    hide AdvanceAll;
    hide Holds;
    hide Exact;
    hide PacketOutQueue;
    hide PacketOutSlotQueue;
    hide SlotExact;
    hide P.PacketOutArg;
    ghost var was, ptrs, log := msg[..], pm.Ptrs(), pm.log;
    PointersAreNear(log, pm.Slots(), ptrs, pm.windowSize);
    arg := P.DoPacketOutProcessed(msg, fb, pm, clock, ln2, p);
    if Exact(ptrs, pm.windowSize, clock, pm.log) {
      PacketOutGoesByShare(p, log, ptrs, pm.log, pm.Slots(), pm.Ptrs(), pm.windowSize, clock, ln2,
                           P.TypeRead(msg[..], P.FilterPacketOut(p)));
    }
    if SlotExact(pm.log, pm.bufferSize, pm.windowSize, LastUep(SetFields(p.acts), clock).window, ln2) {
      PacketOutGoesBySlot(p, pm.log, pm.Slots(), pm.Ptrs(), pm.windowSize, clock, ln2,
                          P.TypeRead(msg[..], P.FilterPacketOut(p)));
    }
    P.RewriteKeepsMeaning(msg[..], was, p);
    payload := msg[..][..Be16(msg[..], 2)];
    TypeOf(payload);
  }

  /** A PACKET_OUT: what is queued is the filtered message, with its sender charged. Where the
      accounts are exact, a message that carried charges is demoted exactly if its sender is
      heavy. */
  method PutPacketOut(schedule: Schedule, msg: array<byte>, fb: array<byte>, pm: PriorityManager, clock: seq<u16>,
                      ln2: real, leftOver: nat, ghost p: PacketOut)
    returns (ghost arg: MsgArg, ghost payload: seq<byte>)
    requires msg != fb && P.PacketOutAt(msg[..], p) && 38 + |ActionsBytes(Kept(p.acts))| <= msg.Length
    requires 500 <= fb.Length && |ActionsBytes(Kept(p.acts))| <= fb.Length
    requires |SetFields(p.acts)| == |clock|
    requires pm.Valid() && pm.Ptrs().tail + |clock| + 65536 < TWO_32
    requires schedule.Coupled()
    modifies msg, fb, pm, pm.windowBuffer, pm.windowBuffer.buffer
    modifies schedule`st, schedule`trace, schedule.queues
    ensures pm.Valid() && schedule.Coupled() && pm.Ptrs() == AdvanceAll(old(pm.Ptrs()), pm.windowSize, clock)
    ensures pm.log == old(pm.log) + ChargesFor(SetFields(p.acts), BookedWindows(old(pm.Ptrs()), pm.windowSize, clock))
    ensures arg == P.PacketOutArg(p, clock, pm.Slots(), pm.windowSize, ln2, P.TypeRead(msg[..], P.FilterPacketOut(p)))
    ensures Exact(old(pm.Ptrs()), pm.windowSize, clock, pm.log) ==>
              arg.qid == Some(PacketOutQueue(p, clock, pm.log, ln2, P.TypeRead(msg[..], P.FilterPacketOut(p))))
    ensures SlotExact(pm.log, pm.bufferSize, pm.windowSize, LastUep(SetFields(p.acts), clock).window, ln2) ==>
              arg.qid == Some(PacketOutSlotQueue(p, clock, pm.log, pm.bufferSize, ln2,
                                                 P.TypeRead(msg[..], P.FilterPacketOut(p))))
    ensures schedule.st == Step(old(schedule.st), PutOf(arg, PACKET_OUT, payload, leftOver))
    ensures arg.qid.value < 10 && 8 <= msg.Length
    ensures var lldp := P.TypeRead(msg[..], P.FilterPacketOut(p)) == 0x88cc;
            var identity := if lldp then Identity(old(msg[..])[4..8]) else leftOver;
            Arrived(old(schedule.st).lanes, schedule.st.lanes, arg.qid.value, 13, identity, arg.uep.uid,
                    if lldp then 0 else 1, payload)
    ensures |schedule.queues| == 10 && schedule.queues[arg.qid.value].interval == if arg.qid == Some(8) then 16 else -1
    ensures ParsePacketOut(payload) == Some(P.FilterPacketOut(p))
  {
    hide ActionsBytes;
    hide Kept;
    hide SetFields;
    hide PacketOutBytes;
    hide ParsePacketOut;
    hide ChargesFor;
    hide BookedWindows;
    hide AdvanceAll;
    hide Holds;
    hide Exact;
    hide Shows;
    hide Step;
    hide PutOf;
    hide Arrived;
    hide Identity;
    hide LastUep;
    hide PacketOutQueue;
    hide PacketOutSlotQueue;
    hide SlotExact;
    hide P.PacketOutArg;
    var decided;
    decided, payload := SortPacketOut(msg, fb, pm, clock, ln2, p);
    ghost var valid := pm.Valid();
    arg := decided;
    IdentityOfFour(p.fixed[..4]);
    Enqueue(schedule, msg, decided, leftOver);
    assert valid && valid == pm.Valid();
  }

  /** What the payload parses to, by what was received. */
  ghost predicate Queued(payload: seq<byte>, was: seq<byte>, f: FlowMod)
    requires F.FlowModAt(was, f)
  {
    if F.Command(f) != F.ADD then ParseFlowMod(payload) == Some(f)
    else
      && (ParseFlowMod(payload) == Some(F.FilterFlowMod(f)) <==> F.Survives(was, f))
      && (F.FlowModResidue(f) > 0 || (|f.insts| >= 2 && F.DroppedFields(f) != []) ==> ParseFlowMod(payload) == None)
  }

  lemma {:induction false} TypeOfFlowMod(s: seq<byte>)
    requires ParseFlowMod(s).Some?
    ensures |s| >= 56 && s[1] == FLOW_MOD
  {
  }

  // What the processed buffer holds, in either case.
  lemma {:induction false} QueuedFlowMod(s: seq<byte>, was: seq<byte>, f: FlowMod, length: u16)
    requires F.FlowModAt(was, f)
    requires if F.Command(f) == F.ADD then F.AddDone(s, was, f, length) else s == was
    ensures 4 <= |s| && Be16(s, 2) <= |s| && s[1] == FLOW_MOD && Queued(s[..Be16(s, 2)], was, f)
  {
    hide ParseFlowMod;
    hide F.FilterFlowMod;
    hide F.Survives;
    hide F.AddDone;
    hide FlowModBytes;
    if F.Command(f) == F.ADD {
      F.DoneLength(s, was, f, length);
      F.AddKeepsMeaning(s, was, f, length);
    } else {
      F.PartsOf(s, f);
      F.FixedFields(s, f, FlowModLen(f), f.mtch);
      FlowModParseBack(f);
      TypeOfFlowMod(s[..FlowModLen(f)]);
    }
  }

  // getOFPMsgArg for a FLOW_MOD.
  method SortFlowMod(msg: array<byte>, fb: array<byte>, pm: PriorityManager, clock: seq<u16>, ln2: real, ghost f: FlowMod)
    returns (arg: MsgArg, ghost payload: seq<byte>)
    requires msg != fb && F.FlowModAt(msg[..], f)
    requires F.Command(f) == F.ADD ==>
               && f.insts != [] && Round8(MatchLen(f.mtch)) + 10 <= fb.Length && InstLen(f.insts[0]) + 10 <= fb.Length
               && |F.DroppedFields(f)| == |clock|
    requires pm.Valid() && pm.Ptrs().tail + |clock| + 65536 < TWO_32
    modifies msg, fb, pm, pm.windowBuffer, pm.windowBuffer.buffer
    ensures pm.Valid()
    ensures F.Command(f) == F.ADD ==>
              && pm.Ptrs() == AdvanceAll(old(pm.Ptrs()), pm.windowSize, clock)
              && pm.log == old(pm.log) + ChargesFor(F.DroppedFields(f), BookedWindows(old(pm.Ptrs()), pm.windowSize, clock))
              && arg == F.AddArg(f, clock, pm.Slots(), pm.windowSize, ln2)
    ensures F.Command(f) == F.ADD && Exact(old(pm.Ptrs()), pm.windowSize, clock, pm.log) ==>
              arg.qid == Some(AddQueue(f, clock, pm.log, ln2))
    ensures F.Command(f) == F.ADD
            && SlotExact(pm.log, pm.bufferSize, pm.windowSize, LastUep(F.DroppedFields(f), clock).window, ln2) ==>
              arg.qid == Some(AddSlotQueue(f, clock, pm.log, pm.bufferSize, ln2))
    ensures F.Command(f) != F.ADD ==>
              pm.log == old(pm.log) && pm.Ptrs() == old(pm.Ptrs()) && arg.qid == Some(0) && arg.uep == Uep(0, 0)
    ensures 26 <= msg.Length && (F.Command(f) == F.ADD <==> old(msg[..])[25] == 0)
    ensures arg.qid.Some? && arg.qid.value in {0, 1, 7} && arg.identify == Some(old(msg[..])[8..16]) && arg.wait == 1
    ensures Be16(msg[..], 2) <= msg.Length && msg[1] == 14
    ensures payload == msg[..][..Be16(msg[..], 2)] && Queued(payload, old(msg[..]), f)
  {
    hide ParseFlowMod;
    hide ChargesFor;
    hide BookedWindows;
    hide AdvanceAll;
    hide Holds;
    hide Exact;
    hide Queued;
    hide AddQueue;
    hide AddSlotQueue;
    hide SlotExact;
    hide F.AddArg;
    hide F.AddDone;
    hide F.FilterFlowMod;
    ghost var was, ptrs, log := msg[..], pm.Ptrs(), pm.log;
    PointersAreNear(log, pm.Slots(), ptrs, pm.windowSize);
    ghost var length;
    arg, length := F.DoFlowModProcessed(msg, fb, pm, clock, ln2, f);
    if F.Command(f) == F.ADD && Exact(ptrs, pm.windowSize, clock, pm.log) {
      AddGoesByShare(f, log, ptrs, pm.log, pm.Slots(), pm.Ptrs(), pm.windowSize, clock, ln2);
    }
    if F.Command(f) == F.ADD
       && SlotExact(pm.log, pm.bufferSize, pm.windowSize, LastUep(F.DroppedFields(f), clock).window, ln2) {
      AddGoesBySlot(f, pm.log, pm.Slots(), pm.Ptrs(), pm.windowSize, clock, ln2);
    }
    QueuedFlowMod(msg[..], was, f, length);
    payload := msg[..][..Be16(msg[..], 2)];
  }

  /** A FLOW_MOD with a queue to go to: what is queued is the message itself or, for an ADD,
      the rewritten one, with its sender charged. It parses to the filtered message exactly
      if the message received meets Survives, and demotion is as for a PACKET_OUT. */
  method PutFlowMod(schedule: Schedule, msg: array<byte>, fb: array<byte>, pm: PriorityManager, clock: seq<u16>,
                    ln2: real, leftOver: nat, ghost f: FlowMod)
    returns (ghost arg: MsgArg, ghost payload: seq<byte>)
    requires msg != fb && F.FlowModAt(msg[..], f)
    requires F.Command(f) == F.ADD ==>
               && f.insts != [] && Round8(MatchLen(f.mtch)) + 10 <= fb.Length && InstLen(f.insts[0]) + 10 <= fb.Length
               && |F.DroppedFields(f)| == |clock|
    requires pm.Valid() && pm.Ptrs().tail + |clock| + 65536 < TWO_32
    requires schedule.Coupled()
    modifies msg, fb, pm, pm.windowBuffer, pm.windowBuffer.buffer
    modifies schedule`st, schedule`trace, schedule.queues
    ensures pm.Valid() && schedule.Coupled() && arg.qid.Some? && arg.qid.value < 10
    ensures 26 <= msg.Length && (F.Command(f) == F.ADD <==> old(msg[..])[25] == 0)
    ensures F.Command(f) == F.ADD ==>
              && pm.Ptrs() == AdvanceAll(old(pm.Ptrs()), pm.windowSize, clock)
              && pm.log == old(pm.log) + ChargesFor(F.DroppedFields(f), BookedWindows(old(pm.Ptrs()), pm.windowSize, clock))
              && arg == F.AddArg(f, clock, pm.Slots(), pm.windowSize, ln2)
    ensures F.Command(f) == F.ADD && Exact(old(pm.Ptrs()), pm.windowSize, clock, pm.log) ==>
              arg.qid == Some(AddQueue(f, clock, pm.log, ln2))
    ensures F.Command(f) == F.ADD
            && SlotExact(pm.log, pm.bufferSize, pm.windowSize, LastUep(F.DroppedFields(f), clock).window, ln2) ==>
              arg.qid == Some(AddSlotQueue(f, clock, pm.log, pm.bufferSize, ln2))
    ensures F.Command(f) != F.ADD ==>
              pm.log == old(pm.log) && pm.Ptrs() == old(pm.Ptrs()) && arg.qid == Some(0)
    ensures schedule.st == Step(old(schedule.st), PutOf(arg, FLOW_MOD, payload, leftOver))
    ensures Arrived(old(schedule.st).lanes, schedule.st.lanes, arg.qid.value, 14, Identity(old(msg[..])[8..16]),
                    arg.uep.uid, 1, payload)
    ensures |schedule.queues| == 10 && schedule.queues[arg.qid.value].interval == if arg.qid == Some(7) then 14 else -1
    ensures Queued(payload, old(msg[..]), f)
  {
    hide ParseFlowMod;
    hide ChargesFor;
    hide BookedWindows;
    hide AdvanceAll;
    hide Holds;
    hide Exact;
    hide Shows;
    hide Step;
    hide PutOf;
    hide Queued;
    hide AddQueue;
    hide AddSlotQueue;
    hide SlotExact;
    hide F.AddArg;
    hide F.AddDone;
    hide F.FilterFlowMod;
    hide Arrived;
    hide Identity;
    hide F.FlowModAt;
    hide LastUep;
    var decided;
    decided, payload := SortFlowMod(msg, fb, pm, clock, ln2, f);
    ghost var valid := pm.Valid();
    arg := decided;
    Enqueue(schedule, msg, decided, leftOver);
    assert valid && valid == pm.Valid();
  }
}
