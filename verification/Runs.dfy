/** What holds in every run of the scheduler. */
module Runs {
  import opened Messages
  import opened Steps

  // ----- Sums over the queues.

  // Messages sent and not removed, and messages removed.
  ghost function SentAll(ls: seq<Lane>): nat {
    if ls == [] then 0 else SentAll(ls[..|ls| - 1]) + Sent(ls[|ls| - 1].msgs)
  }

  ghost function ErasedAll(ls: seq<Lane>): nat {
    if ls == [] then 0 else ErasedAll(ls[..|ls| - 1]) + |ls[|ls| - 1].erased|
  }

  lemma {:induction false} SumsUpdate(ls: seq<Lane>, q: nat, l: Lane)
    requires q < |ls|
    ensures SentAll(ls[q := l]) == SentAll(ls) + Sent(l.msgs) - Sent(ls[q].msgs)
    ensures ErasedAll(ls[q := l]) == ErasedAll(ls) + |l.erased| - |ls[q].erased|
  {
    var n, next := |ls| - 1, ls[q := l];
    if q < n {
      SumsUpdate(ls[..n], q, l);
      assert next[..n] == ls[..n][q := l];
    } else {
      assert next[..n] == ls[..n];
    }
  }

  // The queues before p, when one of them, or a later one, changes but keeps its count.
  lemma {:induction false} PrefixKeeps(ls: seq<Lane>, q: nat, l: Lane, p: nat)
    requires q < |ls| && p <= |ls| && (q < p ==> Sent(l.msgs) == Sent(ls[q].msgs))
    ensures SentAll(ls[q := l][..p]) == SentAll(ls[..p])
  {
    if q < p {
      SumsUpdate(ls[..p], q, l);
      assert ls[q := l][..p] == ls[..p][q := l];
    } else {
      assert ls[q := l][..p] == ls[..p];
    }
  }

  lemma {:induction false} PrefixStep(ls: seq<Lane>, q: nat)
    requires q < |ls|
    ensures SentAll(ls[..q + 1]) == SentAll(ls[..q]) + Sent(ls[q].msgs)
  {
    assert ls[..q + 1][..q] == ls[..q];
  }

  // ----- The invariant.

  ghost predicate LanesInv(s: State)
    requires |s.lanes| == QUEUES
  {
    forall q: QueueId :: LaneInv(s.lanes[q], q, s.now, BusyOf(s.pc, q))
  }

  /** The budget: what is left of it, what was removed since it was last topped up, and the
      messages sent and not removed make up 12, but for the moment between starting a
      message and paying for it. Towards the controller nothing is paid and removals still
      add to it. */
  ghost predicate Budget(s: State) {
    var removed := if s.pc.Cleaning? then s.pc.count else 0;
    var unpaid := if s.pc.Started? || s.pc.Written? then 1 else 0;
    && (if s.toController then s.credit + removed == BUDGET + ErasedAll(s.lanes)
        else s.credit >= 0 && s.credit + removed + SentAll(s.lanes) == BUDGET + unpaid)
    && (s.pc.Scanning? || Sending(s.pc) ==> s.credit > 0)
    && (s.pc.Cleaning? && s.pc.q <= |s.lanes| ==> SentAll(s.lanes[..s.pc.q]) == s.pc.open)
  }

  // A queue passed over had nothing to send or, from queue 5 on, was asked too early.
  ghost predicate Passed(skips: seq<Skip>) {
    forall j | 0 <= j < |skips| :: skips[j].unsent ==> 5 <= j && skips[j].early
  }

  ghost predicate PassInv(pc: Pc) {
    pc.Scanning? || Sending(pc) ==> |pc.skips| == pc.q && Passed(pc.skips)
  }

  ghost predicate Inv(s: State) {
    Wf(s) && LanesInv(s) && Budget(s) && PassInv(s.pc)
  }

  lemma {:induction false} NothingYet(ls: seq<Lane>)
    requires forall q | 0 <= q < |ls| :: ls[q].msgs == [] && ls[q].erased == []
    ensures SentAll(ls) == 0 && ErasedAll(ls) == 0
  {
    if ls != [] {
      NothingYet(ls[..|ls| - 1]);
    }
  }

  lemma {:induction false} InitialInv(s: State)
    requires Initial(s)
    ensures Inv(s)
  {
    NothingYet(s.lanes);
    forall q: QueueId
      ensures LaneInv(s.lanes[q], q, s.now, BusyOf(s.pc, q))
    {
      var l := s.lanes[q];
      assert multiset(l.put[..0]) == multiset(Bares(l.msgs[..0])) + multiset(Bares(l.erased));
    }
  }

  // ----- One step.

  // The thread goes on, having changed one queue, and is busy with none of the others.
  lemma {:induction false} GotoLanes(s: State, pc: Pc, q: QueueId, l: Lane)
    requires |s.lanes| == QUEUES && LanesInv(s) && LaneInv(l, q, s.now, BusyOf(pc, q))
    requires forall p: QueueId | p != q :: BusyOf(pc, p) == BusyOf(s.pc, p)
    ensures LanesInv(Goto(s, pc, q, l))
  {
    hide LaneInv;
    var r := Goto(s, pc, q, l);
    forall p: QueueId
      ensures LaneInv(r.lanes[p], p, r.now, BusyOf(r.pc, p))
    {
      assert p != q ==> LaneInv(s.lanes[p], p, s.now, BusyOf(s.pc, p));
    }
  }

  // Another thread changes a queue but not what is sent of it.
  lemma {:induction false} OtherThread(s: State, q: QueueId, l: Lane)
    requires Inv(s) && LaneInv(l, q, s.now, BusyOf(s.pc, q))
    requires Sent(l.msgs) == Sent(s.lanes[q].msgs) && l.erased == s.lanes[q].erased && |l.msgs| >= |s.lanes[q].msgs|
    ensures Inv(Goto(s, s.pc, q, l))
  {
    hide LaneInv;
    GotoLanes(s, s.pc, q, l);
    SumsUpdate(s.lanes, q, l);
    if s.pc.Cleaning? {
      PrefixKeeps(s.lanes, q, l, s.pc.q);
    }
  }

  lemma {:induction false} PutInv(s: State, e: Event)
    requires Inv(s) && e.Put?
    ensures Inv(Step(s, e))
  {
    hide LaneInv;
    hide Inv;
    LaneOf(s, e.q);
    var l := s.lanes[e.q];
    PutKeeps(l, e.q, s.now, BusyOf(s.pc, e.q), e.typ, e.identity, e.uid, e.lldp, e.payload);
    var r := PutOn(l, e.typ, e.identity, e.uid, e.lldp, e.payload);
    SentAppend(l.msgs, [r.msgs[|l.msgs|]]);
    OtherThread(s, e.q, r);
  }

  lemma {:induction false} LaneOf(s: State, q: QueueId)
    requires Inv(s)
    ensures Wf(s) && LaneInv(s.lanes[q], q, s.now, BusyOf(s.pc, q))
  {
  }

  lemma {:induction false} AckInv(s: State, e: Event)
    requires Inv(s) && e.Ack?
    ensures Inv(Step(s, e))
  {
    hide LaneInv;
    hide Inv;
    LaneOf(s, e.q);
    var l := s.lanes[e.q];
    AckKeeps(l, e.q, s.now, BusyOf(s.pc, e.q), e.response);
    var p := FirstMatch(l.msgs, e.response);
    if p.Some? {
      SentUpdate(l.msgs, p.value, l.msgs[p.value].(finished := true));
    }
    OtherThread(s, e.q, AckOn(l, e.response));
  }

  lemma {:induction false} TickInv(s: State, d: nat)
    requires Inv(s)
    ensures Inv(s.(now := s.now + d))
  {
    hide LaneInv;
    var later := s.now + d;
    forall q: QueueId
      ensures LaneInv(s.lanes[q], q, later, BusyOf(s.pc, q))
    {
      TickKeeps(s.lanes[q], q, s.now, BusyOf(s.pc, q), d);
    }
  }

  // The thread moves on without touching a queue.
  lemma {:induction false} MoveInv(s: State, r: State)
    requires Inv(s) && r == s.(pc := r.pc, credit := r.credit)
    requires !Sending(s.pc) && !Sending(r.pc) && Wf(r) && Budget(r) && PassInv(r.pc)
    ensures Inv(r)
  {
    hide LaneInv;
    forall q: QueueId
      ensures LaneInv(r.lanes[q], q, r.now, BusyOf(r.pc, q))
    {
      assert LaneInv(s.lanes[q], q, s.now, BusyOf(s.pc, q));
    }
  }

  lemma {:induction false} HeadInv(s: State)
    requires Inv(s) && (s.pc.OuterHead? || s.pc.InnerHead? || ((s.pc.Cleaning? || s.pc.Scanning?) && s.pc.q == QUEUES))
    ensures Inv(RunStep(s))
  {
    hide LaneInv;
    assert s.lanes[..0] == [];
    assert s.lanes[..QUEUES] == s.lanes;
    MoveInv(s, RunStep(s));
  }

  lemma {:induction false} CleanBudget(s: State)
    requires Wf(s) && Budget(s) && s.pc.Cleaning? && s.pc.q < QUEUES
    ensures Budget(RunStep(s))
  {
    hide Remaining;
    hide Removed;
    hide Sent;
    hide Open;
    hide SentAll;
    hide ErasedAll;
    var q, r := s.pc.q, CleanOn(s.lanes[s.pc.q]);
    CleanCounts(s.lanes[q].msgs);
    SumsUpdate(s.lanes, q, r);
    PrefixKeeps(s.lanes, q, r, q);
    PrefixStep(RunStep(s).lanes, q);
  }

  lemma {:induction false} CleanInv(s: State)
    requires Inv(s) && s.pc.Cleaning? && s.pc.q < QUEUES
    ensures Inv(RunStep(s))
  {
    hide LaneInv;
    hide LanesInv;
    hide Budget;
    hide Inv;
    hide CleanOn;
    PartsOfInv(s);
    var q, r := s.pc.q, CleanOn(s.lanes[s.pc.q]);
    LaneOf(s, q);
    CleanKeeps(s.lanes[q], q, s.now);
    GotoLanes(s, RunStep(s).pc, q, r);
    CleanBudget(s);
    PartsOfInv(RunStep(s));
  }

  lemma {:induction false} PartsOfInv(s: State)
    ensures Inv(s) <==> Wf(s) && LanesInv(s) && Budget(s) && PassInv(s.pc)
  {
  }

  lemma {:induction false} ScanBudget(s: State)
    requires Wf(s) && Budget(s) && s.pc.Scanning? && s.pc.q < QUEUES
    ensures Wf(RunStep(s)) && Budget(RunStep(s))
  {
    hide HasUnsent;
    hide Scan;
    hide Sent;
    hide SentAll;
    hide ErasedAll;
    var (r, found) := FetchOn(s.lanes[s.pc.q], s.pc.q, s.now);
    SumsUpdate(s.lanes, s.pc.q, r);
  }

  // A queue passed over had nothing to send, or was asked too early.
  lemma {:induction false} ScanPassed(s: State, q: QueueId)
    requires Wf(s) && PassInv(s.pc) && s.pc.Scanning? && q == s.pc.q && LaneInv(s.lanes[q], q, s.now, Idle)
    ensures PassInv(RunStep(s).pc)
  {
    hide LaneInv;
    hide HasUnsent;
    hide Scan;
    FetchKeeps(s.lanes[q], q, s.now);
    if q < 5 {
      NotEarly(s.lanes[q], q, s.now);
    }
  }

  lemma {:induction false} ScanInv(s: State)
    requires Inv(s) && s.pc.Scanning? && s.pc.q < QUEUES
    ensures Inv(RunStep(s))
  {
    hide LaneInv;
    hide LanesInv;
    hide Budget;
    hide Inv;
    hide HasUnsent;
    hide FetchOn;
    PartsOfInv(s);
    var q := s.pc.q;
    var (r, found) := FetchOn(s.lanes[q], q, s.now);
    LaneOf(s, q);
    FetchKeeps(s.lanes[q], q, s.now);
    GotoLanes(s, RunStep(s).pc, q, r);
    ScanBudget(s);
    ScanPassed(s, q);
    PartsOfInv(RunStep(s));
  }

  // The first five queues have no interval to wait for.
  lemma {:induction false} NotEarly(l: Lane, q: QueueId, now: int)
    requires LaneInv(l, q, now, Idle) && q < 5
    ensures !Early(l, q, now)
  {
  }

  lemma {:induction false} ChosenIsUnsent(l: Lane, q: QueueId, now: int, pos: nat)
    requires LaneInv(l, q, now, Chosen(pos))
    ensures pos < |l.msgs| && !l.msgs[pos].inProcess
  {
    Origin(l, StartedCount(l, Chosen(pos)), pos, pos);
  }

  // The thread goes on with the message it is sending: it is started, written, or done with
  // and paid for.
  predicate GoesOn(from: Pc, to: Pc) {
    match from
    case Fetched(q, pos, skips) => to == Started(q, pos, skips)
    case Started(q, pos, skips) => to == Written(q, pos, skips)
    case Written(_, _, _) => to == OuterHead || to == InnerHead
    case _ => false
  }

  // What it amounts to for the budget.
  lemma {:induction false} SendBudget(s: State, pc: Pc, l: Lane, credit: int)
    requires Wf(s) && Budget(s) && PassInv(s.pc) && GoesOn(s.pc, pc)
    requires |l.msgs| == |s.lanes[s.pc.q].msgs| && l.erased == s.lanes[s.pc.q].erased
    requires Sent(l.msgs) == Sent(s.lanes[s.pc.q].msgs) + if s.pc.Fetched? then 1 else 0
    requires credit == s.credit - if s.pc.Written? && !s.toController then 1 else 0
    ensures var r := Goto(s, pc, s.pc.q, l).(credit := credit); Wf(r) && Budget(r) && PassInv(r.pc)
  {
    hide SentAll;
    hide ErasedAll;
    hide Sent;
    hide Passed;
    SumsUpdate(s.lanes, s.pc.q, l);
  }

  lemma {:induction false} SendInv(s: State, pc: Pc, l: Lane, credit: int)
    requires Inv(s) && GoesOn(s.pc, pc)
    requires LaneInv(l, s.pc.q, s.now, BusyOf(pc, s.pc.q))
    requires |l.msgs| == |s.lanes[s.pc.q].msgs| && l.erased == s.lanes[s.pc.q].erased
    requires Sent(l.msgs) == Sent(s.lanes[s.pc.q].msgs) + if s.pc.Fetched? then 1 else 0
    requires credit == s.credit - if s.pc.Written? && !s.toController then 1 else 0
    ensures Inv(Goto(s, pc, s.pc.q, l).(credit := credit))
  {
    hide LaneInv;
    hide LanesInv;
    hide Budget;
    hide Sent;
    GotoLanes(s, pc, s.pc.q, l);
    SendBudget(s, pc, l, credit);
    Paid(Goto(s, pc, s.pc.q, l), credit);
  }

  lemma {:induction false} Paid(s: State, credit: int)
    requires |s.lanes| == QUEUES && LanesInv(s)
    ensures LanesInv(s.(credit := credit))
  {
    hide LaneInv;
    forall q: QueueId
      ensures LaneInv(s.lanes[q], q, s.now, BusyOf(s.pc, q))
    {
    }
  }

  lemma {:induction false} StartInv(s: State)
    requires Inv(s) && s.pc.Fetched?
    ensures Inv(RunStep(s))
  {
    hide LaneInv;
    var q, pos, l := s.pc.q, s.pc.pos, s.lanes[s.pc.q];
    LaneOf(s, q);
    StartKeeps(l, q, s.now, pos);
    ChosenIsUnsent(l, q, s.now, pos);
    SentUpdate(l.msgs, pos, l.msgs[pos].(inProcess := true));
    SendInv(s, Started(q, pos, s.pc.skips), StartOn(l, pos), s.credit);
  }

  lemma {:induction false} WriteInv(s: State)
    requires Inv(s) && s.pc.Started?
    ensures Inv(RunStep(s))
  {
    hide LaneInv;
    var q, pos, l := s.pc.q, s.pc.pos, s.lanes[s.pc.q];
    LaneOf(s, q);
    WriteKeeps(l, q, s.now, pos);
    SendInv(s, Written(q, pos, s.pc.skips), WriteOn(l, pos, s.now), s.credit);
  }

  lemma {:induction false} FinishInv(s: State)
    requires Inv(s) && s.pc.Written?
    ensures Inv(RunStep(s))
  {
    hide LaneInv;
    var q, pos, l := s.pc.q, s.pc.pos, s.lanes[s.pc.q];
    LaneOf(s, q);
    FinishKeeps(l, q, s.now, pos);
    SentUpdate(l.msgs, pos, l.msgs[pos].(finished := true));
    if s.toController {
      SendInv(s, OuterHead, FinishOn(l, pos), s.credit);
    } else {
      SendInv(s, InnerHead, FinishOn(l, pos), s.credit - 1);
    }
  }

  lemma {:induction false} StepKeepsInv(s: State, e: Event)
    requires Inv(s)
    ensures Inv(Step(s, e))
  {
    hide Inv;
    assert Wf(s) by {
      LaneOf(s, 0);
    }
    match e
    case Put(_, _, _, _, _, _) => PutInv(s, e);
    case Ack(_, _) => AckInv(s, e);
    case Tick(d) => TickInv(s, d);
    case Run =>
      if s.pc.Fetched? {
        StartInv(s);
      } else if s.pc.Started? {
        WriteInv(s);
      } else if s.pc.Written? {
        FinishInv(s);
      } else if s.pc.Scanning? && s.pc.q < QUEUES {
        ScanInv(s);
      } else if s.pc.Cleaning? && s.pc.q < QUEUES {
        CleanInv(s);
      } else {
        HeadInv(s);
      }
  }
}
