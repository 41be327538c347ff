/** Which messages are demoted, in terms of the log of charges: from the bytes of a message
    to its queue. */
module Demotion {
  import opened Bytes
  import opened Formats
  import opened Splits
  import opened Priority
  import opened ActionFilter
  import opened FlowModFilter
  import opened PacketOutFilter

  // The share of sender uep in window w is above ln 2 in the log.
  ghost predicate Heavy(log: seq<Charge>, w: nat, uep: Uep, ln2: real) {
    IsDangerous(Ratio(UepSum(log, w, uep), WindowSum(log, w)), ln2)
  }

  /** When the accounts of the current window are exact: at the shipped window size, with
      charges whose window ids never step back, and short of 32-bit overflow. Here p is where
      the pointers were before them and log what is logged after them. */
  ghost predicate Exact(p: Pointers, ws: nat, clock: seq<u16>, log: seq<Charge>) {
    ws == 1 && clock != [] && InOrder(p.head, clock) && WindowSum(log, clock[|clock| - 1]) < TWO_32
  }

  // The sender of the last of some removed actions is charged in the window it was removed in.
  lemma {:induction false} LastIsCharged(log: seq<Charge>, fields: seq<SetField>, clock: seq<nat>)
    requires fields != [] && |fields| == |clock|
    ensures Logged(log + ChargesFor(fields, clock), clock[|clock| - 1])
  {
    var k, after := |fields| - 1, log + ChargesFor(fields, clock);
    assert after[|after| - 1].window == clock[k];
  }

  /** At the shipped window size of 1, with a clock that never steps back and short of 32-bit
      overflow, the ratio a message with removed actions is judged by is the exact share of
      its sender in the current window, its own charges included. */
  lemma {:induction false} JudgedByItsShare(log: seq<Charge>, p: Pointers, slots: seq<Split>, q: Pointers,
                                            fields: seq<SetField>, clock: seq<u16>, ln2: real)
    requires fields != [] && |fields| == |clock| && InOrder(p.head, clock)
    requires Holds(log + ChargesFor(fields, clock), slots, q, 1) && q == AdvanceAll(p, 1, clock)
    requires p.head <= p.tail <= p.head + 1
    requires WindowSum(log + ChargesFor(fields, clock), LastUep(fields, clock).window) < TWO_32
    ensures var uep := LastUep(fields, clock);
            IsDangerous(SlotRatio(slots, 1, uep.window, uep.uep), ln2)
            <==> Heavy(log + ChargesFor(fields, clock), uep.window, uep.uep, ln2)
  {
    var w := clock[|clock| - 1];
    LastIsCharged(log, fields, clock);
    TailIsNear(p, clock);
    RatioIsExact(log + ChargesFor(fields, clock), slots, q, w, LastUep(fields, clock).uep);
  }

  // With a clock in order the tail stays right behind the current window.
  lemma {:induction false} TailIsNear(p: Pointers, ids: seq<nat>)
    requires InOrder(p.head, ids) && p.head <= p.tail <= p.head + 1
    ensures AdvanceAll(p, 1, ids).head <= LastOr(p.head, ids)
    ensures AdvanceAll(p, 1, ids).tail <= LastOr(p.head, ids) + 1
    ensures AdvanceAll(p, 1, ids).head <= AdvanceAll(p, 1, ids).tail
  {
    if ids != [] {
      TailIsNear(p, ids[..|ids| - 1]);
    }
  }

  /** An ADD with removed actions is demoted exactly if its sender is heavy. */
  lemma {:induction false} AddIsDemoted(f: FlowMod, log: seq<Charge>, p: Pointers, slots: seq<Split>, q: Pointers,
                                        clock: seq<u16>, ln2: real)
    requires WfFlowMod(f) && DroppedFields(f) != [] && |DroppedFields(f)| == |clock| && InOrder(p.head, clock)
    requires Holds(log + ChargesFor(DroppedFields(f), clock), slots, q, 1) && q == AdvanceAll(p, 1, clock)
    requires p.head <= p.tail <= p.head + 1
    requires WindowSum(log + ChargesFor(DroppedFields(f), clock), LastUep(DroppedFields(f), clock).window) < TWO_32
    ensures var uep := LastUep(DroppedFields(f), clock);
            AddArg(f, clock, slots, 1, ln2).qid
            == Some(if Heavy(log + ChargesFor(DroppedFields(f), clock), uep.window, uep.uep, ln2)
                    then FLOW_MOD_QUEUE_2_ID else FLOW_MOD_QUEUE_1_ID)
    ensures var k := |clock| - 1;
            var b := DroppedFields(f)[k].body;
            AddArg(f, clock, slots, 1, ln2).qid
            == Some(if Heavy(log + ChargesFor(DroppedFields(f), clock), clock[k], Uep(b[5], b[4]), ln2) then 7 else 1)
  {
    SenderIsTheLast(DroppedFields(f), clock);
    JudgedByItsShare(log, p, slots, q, DroppedFields(f), clock, ln2);
  }

  // The window a slot of a ring of n slots stands for has sums that fit 32 bits.
  ghost predicate Fits(log: seq<Charge>, n: nat, id: nat)
    requires n > 0
  {
    var w := LastWindow(log, n, id % n);
    w >= 0 ==> WindowSum(log, w) < TWO_32
  }

  /** When the slot read for window id shows an exact share: at the shipped window size, and
      short of 32-bit overflow. Nothing is asked of the clock. */
  ghost predicate SlotExact(log: seq<Charge>, n: nat, ws: nat, id: nat, ln2: real) {
    ws == 1 && n > 0 && IsLn2(ln2) && Fits(log, n, id)
  }

  // The sender is heavy in the last window booked on the slot of window id.
  ghost predicate HeavyAt(log: seq<Charge>, n: nat, id: nat, uep: Uep, ln2: real)
    requires n > 0
  {
    var w := LastWindow(log, n, id % n);
    w >= 0 && Heavy(log, w, uep, ln2)
  }

  /** Whatever the clock did: a sender is judged by its exact share in the last window booked
      on the slot that is read. */
  lemma {:induction false} JudgedByItsSlot(log: seq<Charge>, slots: seq<Split>, p: Pointers, id: u32, uep: Uep,
                                           ln2: real)
    requires Holds(log, slots, p, 1) && IsLn2(ln2) && Fits(log, |slots|, id)
    ensures IsDangerous(SlotRatio(slots, 1, id, uep), ln2) <==> HeavyAt(log, |slots|, id, uep, ln2)
  {
    hide Holds;
    hide SlotRatio;
    SlotsFew(log, slots, p);
    var w := LastWindow(log, |slots|, id % |slots|);
    SlotRatioIsExact(log, slots, p, id, uep);
    if w >= 0 {
      UepFits(log, w, uep);
      U32Small(UepSum(log, w, uep));
      U32Small(WindowSum(log, w));
    }
  }

  lemma {:induction false} SlotsFew(log: seq<Charge>, slots: seq<Split>, p: Pointers)
    requires Holds(log, slots, p, 1)
    ensures |slots| > 0
  {
  }

  /** So is every ADD, tagged or not. One that lost no action is taken to come from sender 0, 0
      in window 0, and so judged by whatever stands in slot 0. */
  lemma {:induction false} AddIsJudgedByItsSlot(f: FlowMod, log: seq<Charge>, slots: seq<Split>, p: Pointers,
                                                clock: seq<u16>, ln2: real)
    requires WfFlowMod(f) && f.insts != [] && |DroppedFields(f)| == |clock| && IsLn2(ln2)
    requires Holds(log, slots, p, 1) && Fits(log, |slots|, LastUep(DroppedFields(f), clock).window)
    ensures var uep := LastUep(DroppedFields(f), clock);
            AddArg(f, clock, slots, 1, ln2).qid
            == Some(if HeavyAt(log, |slots|, uep.window, uep.uep, ln2)
                    then FLOW_MOD_QUEUE_2_ID else FLOW_MOD_QUEUE_1_ID)
  {
    var uep := LastUep(DroppedFields(f), clock);
    JudgedByItsSlot(log, slots, p, uep.window, uep.uep, ln2);
  }

  /** So is every PACKET_OUT that lost an action and is not LLDP; one that lost none goes to the
      queue of important messages. */
  lemma {:induction false} PacketOutIsJudgedByItsSlot(m: PacketOut, log: seq<Charge>, slots: seq<Split>, p: Pointers,
                                                      clock: seq<u16>, ln2: real, etherType: u16)
    requires WfPacketOut(m) && |SetFields(m.acts)| == |clock| && IsLn2(ln2)
    requires Holds(log, slots, p, 1) && Fits(log, |slots|, LastUep(SetFields(m.acts), clock).window)
    ensures var uep := LastUep(SetFields(m.acts), clock);
            PacketOutArg(m, clock, slots, 1, ln2, etherType).qid
            == Some(if etherType == LLDP_TYPE then LLDP_QUEUE_ID
                    else if SetFields(m.acts) == [] then IMPORTANT_QUEUE_ID
                    else if HeavyAt(log, |slots|, uep.window, uep.uep, ln2) then PO_QUEUE_2_ID else PO_QUEUE_1_ID)
  {
    var uep := LastUep(SetFields(m.acts), clock);
    JudgedByItsSlot(log, slots, p, uep.window, uep.uep, ln2);
  }

  /** An ADD without removed actions goes to queue 7 exactly if sender 0, 0 is heavy in the last
      window booked on slot 0, else to queue 1. */
  lemma {:induction false} UntaggedAddIsDemoted(f: FlowMod, log: seq<Charge>, slots: seq<Split>, p: Pointers, ln2: real)
    requires WfFlowMod(f) && f.insts != [] && DroppedFields(f) == [] && IsLn2(ln2)
    requires Holds(log, slots, p, 1) && Fits(log, |slots|, 0)
    ensures AddArg(f, [], slots, 1, ln2).qid
            == Some(if HeavyAt(log, |slots|, 0, Uep(0, 0), ln2) then 7 else 1)
  {
    AddIsJudgedByItsSlot(f, log, slots, p, [], ln2);
  }

  /** In particular it goes to queue 1 if nobody has ever charged that sender. */
  lemma {:induction false} UntaggedAddIsFast(f: FlowMod, log: seq<Charge>, p: Pointers, slots: seq<Split>, ws: nat,
                                             windowSize: u32, ln2: real)
    requires WfFlowMod(f) && f.insts != [] && DroppedFields(f) == [] && IsLn2(ln2)
    requires Holds(log, slots, p, ws) && forall i | 0 <= i < |log| :: log[i].uep != Uep(0, 0)
    ensures AddArg(f, [], slots, windowSize, ln2).qid == Some(1)
  {
    UnchargedHasNoShare(log, slots, p, ws, windowSize, 0, Uep(0, 0));
  }

  /** It does happen. In a ring of 20 slots one charge of 12 to sender 0, 0 in window 20 sends
      every ADD without removed actions to queue 7. */
  lemma {:induction false} UntaggedAddIsSlow(f: FlowMod, ln2: real)
    returns (log: seq<Charge>, slots: seq<Split>, p: Pointers)
    requires WfFlowMod(f) && f.insts != [] && DroppedFields(f) == [] && IsLn2(ln2)
    ensures log == [Charge(20, Uep(0, 0), 12)] && |slots| == 20 && p == Advance(Pointers(0, 0), 1, 20)
    ensures Holds(log, slots, p, 1) && AddArg(f, [], slots, 1, ln2).qid == Some(7)
  {
    var c := Charge(20, Uep(0, 0), 12);
    log, p := [c], Pointers(20, 21);
    slots := seq(20, s requires 0 <= s < 20 => SlotSplit(log, 20, s));
    OneChargeIn20(c);
    assert Holds(log, slots, p, 1);
    DangerousFromTwelve(log, 20, c.uep, ln2);
    UntaggedAddIsDemoted(f, log, slots, p, ln2);
  }

  lemma {:induction false} OneChargeIn20(c: Charge)
    requires c.window == 20
    ensures Logged([c], 20) && LastWindow([c], 20, 0) == 20
    ensures UepSum([c], 20, c.uep) == WindowSum([c], 20) == c.number
  {
    assert [c][..0] == [] && [c][0].window == 20;
  }

  /** A PACKET_OUT with removed actions is demoted exactly if its sender is heavy, unless its
      frame is LLDP. */
  lemma {:induction false} PacketOutIsDemoted(m: PacketOut, log: seq<Charge>, p: Pointers, slots: seq<Split>, q: Pointers,
                                              clock: seq<u16>, ln2: real, etherType: u16)
    requires WfPacketOut(m) && SetFields(m.acts) != [] && |SetFields(m.acts)| == |clock| && InOrder(p.head, clock)
    requires Holds(log + ChargesFor(SetFields(m.acts), clock), slots, q, 1) && q == AdvanceAll(p, 1, clock)
    requires p.head <= p.tail <= p.head + 1
    requires WindowSum(log + ChargesFor(SetFields(m.acts), clock), LastUep(SetFields(m.acts), clock).window) < TWO_32
    ensures var uep := LastUep(SetFields(m.acts), clock);
            PacketOutArg(m, clock, slots, 1, ln2, etherType).qid
            == Some(if etherType == LLDP_TYPE then LLDP_QUEUE_ID
                    else if Heavy(log + ChargesFor(SetFields(m.acts), clock), uep.window, uep.uep, ln2)
                    then PO_QUEUE_2_ID else PO_QUEUE_1_ID)
    ensures var k := |clock| - 1;
            var b := SetFields(m.acts)[k].body;
            PacketOutArg(m, clock, slots, 1, ln2, etherType).qid
            == Some(if etherType == 0x88cc then 0
                    else if Heavy(log + ChargesFor(SetFields(m.acts), clock), clock[k], Uep(b[5], b[4]), ln2)
                    then 8 else 2)
  {
    SenderIsTheLast(SetFields(m.acts), clock);
    JudgedByItsShare(log, p, slots, q, SetFields(m.acts), clock, ln2);
  }
}
