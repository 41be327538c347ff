/** The life of one message, step by step: unknown until put, then unsent, in process,
    finished and removed. */
module Lifecycle {
  import opened Bytes
  import opened Messages
  import opened Steps
  import opened Runs

  datatype Stage = Unknown | Unsent | InProcess | Finished | Erased

  predicate NextStage(a: Stage, b: Stage) {
    || a == b
    || (a == Unknown && b == Unsent)
    || (a == Unsent && b == InProcess)
    || (a == InProcess && b == Finished)
    || (a == Finished && b == Erased)
  }

  // The queued message with a number.
  function Lookup(ms: seq<Msg>, id: nat): (r: Option<Msg>)
    ensures r.Some? ==> r.value in ms && r.value.id == id
    ensures r.None? ==> forall k | 0 <= k < |ms| :: ms[k].id != id
  {
    if ms == [] then None
    else if ms[0].id == id then Some(ms[0])
    else Lookup(ms[1..], id)
  }

  function FlagStage(m: Msg): Stage {
    if !m.inProcess then Unsent else if !m.finished then InProcess else Finished
  }

  // The stage of the message with number id of a queue.
  ghost function StageOf(l: Lane, id: nat): Stage {
    if id >= |l.put| then Unknown
    else
      var m := Lookup(l.msgs, id);
      if m.None? then Erased else FlagStage(m.value)
  }

  lemma {:induction false} LookupAt(ms: seq<Msg>, k: nat)
    requires Sorted(ms) && k < |ms|
    ensures Lookup(ms, ms[k].id) == Some(ms[k])
  {
    var m := Lookup(ms, ms[k].id).value;
    var j :| 0 <= j < |ms| && ms[j] == m;
    assert !(j < k) && !(k < j);
  }

  lemma {:induction false} LookupAppend(ms: seq<Msg>, m: Msg, id: nat)
    ensures Lookup(ms + [m], id) == if Lookup(ms, id).Some? then Lookup(ms, id) else if m.id == id then Some(m) else None
  {
    if ms == [] {
      assert ms + [m] == [m];
    } else {
      LookupAppend(ms[1..], m, id);
      assert (ms + [m])[1..] == ms[1..] + [m];
    }
  }

  lemma {:induction false} LookupUpdate(ms: seq<Msg>, k: nat, m: Msg, id: nat)
    requires k < |ms| && m.id == ms[k].id && Sorted(ms)
    ensures Lookup(ms[k := m], id) == if id == m.id then Some(m) else Lookup(ms, id)
  {
    if k == 0 {
      assert ms[0 := m][1..] == ms[1..];
    } else {
      assert ms[0].id < ms[k].id;
      LookupUpdate(ms[1..], k - 1, m, id);
      assert ms[k := m][1..] == ms[1..][k - 1 := m];
    }
  }

  lemma {:induction false} LookupRemaining(ms: seq<Msg>, id: nat)
    requires Sorted(ms)
    ensures Lookup(Remaining(ms), id)
            == if Lookup(ms, id).Some? && Lookup(ms, id).value.Done() then None else Lookup(ms, id)
  {
    if ms != [] {
      LookupRemaining(ms[1..], id);
      CleanStep(ms);
      assert forall k | 0 <= k < |ms| - 1 :: ms[1..][k] == ms[k + 1] && ms[0].id < ms[k + 1].id;
    }
  }

  // ----- What happens to a queue moves its messages on by at most one stage.

  // One queued message gets new flags.
  lemma {:induction false} FlagMoves(l: Lane, k: nat, m: Msg, id: nat)
    requires k < |l.msgs| && m.id == l.msgs[k].id && Sorted(l.msgs) && m.id < |l.put|
    requires NextStage(FlagStage(l.msgs[k]), FlagStage(m))
    ensures NextStage(StageOf(l, id), StageOf(l.(msgs := l.msgs[k := m]), id))
  {
    LookupUpdate(l.msgs, k, m, id);
    LookupAt(l.msgs, k);
  }

  lemma {:induction false} PutMoves(l: Lane, m: Msg, id: nat)
    requires m.id == |l.put| && FlagStage(m) == Unsent && forall k | 0 <= k < |l.msgs| :: l.msgs[k].id < |l.put|
    ensures NextStage(StageOf(l, id), StageOf(l.(msgs := l.msgs + [m], put := l.put + [m]), id))
  {
    LookupAppend(l.msgs, m, id);
  }

  lemma {:induction false} CleanMoves(l: Lane, id: nat)
    requires Sorted(l.msgs)
    ensures NextStage(StageOf(l, id), StageOf(CleanOn(l), id))
  {
    LookupRemaining(l.msgs, id);
  }

  lemma {:induction false} IdsArePut(l: Lane, q: QueueId, now: int, b: Busy)
    requires LaneInv(l, q, now, b)
    ensures Sorted(l.msgs) && forall k | 0 <= k < |l.msgs| :: l.msgs[k].id < |l.put|
  {
    Origins(l, StartedCount(l, b), Front(l, b));
  }

  lemma {:induction false} OthersMove(s: State, e: Event, q: QueueId, id: nat)
    requires Inv(s) && (e.Put? || e.Ack?) && e.q == q
    ensures NextStage(StageOf(s.lanes[q], id), StageOf(Step(s, e).lanes[q], id))
  {
    hide LaneInv;
    hide StageOf;
    var l := s.lanes[q];
    LaneOf(s, q);
    IdsArePut(l, q, s.now, BusyOf(s.pc, q));
    match e
    case Put(_, typ, identity, uid, lldp, payload) =>
      PutMoves(l, PutOn(l, typ, identity, uid, lldp, payload).msgs[|l.msgs|], id);
    case Ack(_, response) =>
      var p := FirstMatch(l.msgs, response);
      if p.Some? {
        FlagMoves(l, p.value, l.msgs[p.value].(finished := true), id);
      }
  }

  lemma {:induction false} RunMoves(s: State, q: QueueId, id: nat)
    requires Inv(s) && !s.pc.OuterHead? && !s.pc.InnerHead? && s.pc.q == q
    ensures NextStage(StageOf(s.lanes[q], id), StageOf(RunStep(s).lanes[q], id))
  {
    hide LaneInv;
    hide NextStage;
    hide Remaining;
    hide Removed;
    hide Scan;
    hide Lookup;
    var l := s.lanes[q];
    LaneOf(s, q);
    IdsArePut(l, q, s.now, BusyOf(s.pc, q));
    Stays(StageOf(l, id));
    match s.pc
    case Cleaning(_, _, _) => CleanMoves(l, id);
    case Scanning(_, _) =>
    case Fetched(_, pos, _) =>
      FetchedStage(l, q, s.now, pos);
      FlagMoves(l, pos, l.msgs[pos].(inProcess := true), id);
    case Started(_, _, _) =>
    case Written(_, pos, _) =>
      WrittenStage(l, q, s.now, pos);
      FlagMoves(l, pos, l.msgs[pos].(finished := true), id);
  }

  lemma {:induction false} Stays(a: Stage)
    ensures NextStage(a, a)
  {
  }

  lemma {:induction false} FetchedStage(l: Lane, q: QueueId, now: int, pos: nat)
    requires LaneInv(l, q, now, Chosen(pos))
    ensures pos < |l.msgs| && NextStage(FlagStage(l.msgs[pos]), FlagStage(l.msgs[pos].(inProcess := true)))
  {
    ChosenIsFresh(l, q, now, pos);
  }

  lemma {:induction false} ChosenIsFresh(l: Lane, q: QueueId, now: int, pos: nat)
    requires LaneInv(l, q, now, Chosen(pos))
    ensures pos < |l.msgs| && !l.msgs[pos].inProcess && !l.msgs[pos].finished
  {
    StartShape(l, StartedCount(l, Chosen(pos)), pos);
  }

  lemma {:induction false} WrittenStage(l: Lane, q: QueueId, now: int, pos: nat)
    requires LaneInv(l, q, now, Gone(pos))
    ensures pos < |l.msgs| && NextStage(FlagStage(l.msgs[pos]), FlagStage(l.msgs[pos].(finished := true)))
  {
  }

  /** Every step moves every message on by at most one stage, and never back. */
  lemma {:induction false} StagesOnlyAdvance(s: State, e: Event, q: QueueId, id: nat)
    requires Inv(s)
    ensures Wf(Step(s, e)) && NextStage(StageOf(s.lanes[q], id), StageOf(Step(s, e).lanes[q], id))
  {
    hide LaneInv;
    hide NextStage;
    StepKeepsInv(s, e);
    Stays(StageOf(s.lanes[q], id));
    if (e.Put? || e.Ack?) && e.q == q {
      OthersMove(s, e, q, id);
    } else if e.Run? && !s.pc.OuterHead? && !s.pc.InnerHead? && s.pc.q == q {
      RunMoves(s, q, id);
    }
  }

  /** What the stages are: a queued message is unsent, in process or finished by its two flags; one
      that was put and is not queued is removed; no other number has been used. */
  lemma {:induction false} StagesAre(s: State, q: QueueId, id: nat)
    requires Inv(s)
    ensures forall k | 0 <= k < |s.lanes[q].msgs| && s.lanes[q].msgs[k].id == id ::
              var m := s.lanes[q].msgs[k];
              StageOf(s.lanes[q], id) == if !m.inProcess then Unsent else if !m.finished then InProcess else Finished
    ensures id >= |s.lanes[q].put| <==> StageOf(s.lanes[q], id) == Unknown
    ensures StageOf(s.lanes[q], id) == Erased ==> forall k | 0 <= k < |s.lanes[q].msgs| :: s.lanes[q].msgs[k].id != id
  {
    hide LaneInv;
    hide Inv;
    LaneOf(s, q);
    var l := s.lanes[q];
    IdsArePut(l, q, s.now, BusyOf(s.pc, q));
    forall k | 0 <= k < |l.msgs| && l.msgs[k].id == id
      ensures Lookup(l.msgs, id) == Some(l.msgs[k])
    {
      LookupAt(l.msgs, k);
    }
  }

  lemma {:induction false} NotAmong(ms: seq<Msg>, m: Msg)
    requires Lookup(ms, m.id).None?
    ensures m !in Bares(ms)
  {
    forall k | 0 <= k < |ms|
      ensures Bares(ms)[k] != m
    {
      assert ms[k].Bare().id == ms[k].id != m.id;
    }
  }

  // The numbers, and where the messages put are.
  lemma {:induction false} WherePut(l: Lane, q: QueueId, now: int, b: Busy, id: nat)
    requires LaneInv(l, q, now, b) && id < |l.put|
    ensures l.put[id].id == id && l.put[id] in Bares(l.msgs) + Bares(l.erased)
  {
    hide Conserved;
    hide Shape;
    hide Waiting;
    hide Settled;
    hide Spaced;
    hide Timed;
    AllConserved(l, StartedCount(l, b), Front(l, b));
    assert l.put[id] in multiset(l.put);
  }

  /** A message that is no longer queued is among the removed ones. */
  lemma {:induction false} ErasedIsRemoved(s: State, q: QueueId, id: nat)
    requires Inv(s) && StageOf(s.lanes[q], id) == Erased
    ensures id < |s.lanes[q].put| && s.lanes[q].put[id] in Bares(s.lanes[q].erased)
  {
    hide LaneInv;
    hide Inv;
    hide Bares;
    hide Lookup;
    LaneOf(s, q);
    var l := s.lanes[q];
    WherePut(l, q, s.now, BusyOf(s.pc, q), id);
    NotAmong(l.msgs, l.put[id]);
  }
}
