/** What the scheduler does when it is left alone: as long as there is budget, the next pass
    sends the oldest unsent message of the first queue that is ready. */
module Progress {
  import opened Messages
  import opened Steps
  import opened Runs
  import opened Guarantees

  // n steps of the scheduler's thread, with nothing else happening.
  ghost function RunFor(s: State, n: nat): (r: State)
    requires Wf(s)
    ensures Wf(r)
    decreases n
  {
    if n == 0 then s
    else
      StepKeepsWf(s, Run);
      RunFor(RunStep(s), n - 1)
  }

  lemma {:induction false} RunOn(s: State, a: nat, b: nat)
    requires Wf(s)
    ensures RunFor(s, a + b) == RunFor(RunFor(s, a), b)
    decreases a
  {
    hide RunStep;
    if a > 0 {
      StepKeepsWf(s, Run);
      RunOn(RunStep(s), a - 1, b);
    }
  }

  // A queue that would give a message now.
  predicate Ready(l: Lane, q: QueueId, now: int) {
    && (exists k | 0 <= k < |l.msgs| :: !l.msgs[k].inProcess)
    && now - l.lastFetch > if q < 5 then -1000 else 2000 * q
  }

  // A queue whose history is as it was; it may have been looked at.
  ghost predicate Untouched(l: Lane, r: Lane) {
    r.msgs == l.msgs && r.put == l.put && r.times == l.times && r.writes == l.writes && r.erased == l.erased
  }

  // Passing over the queues before q, none of which is ready.
  lemma {:induction false} PassOver(s: State, q: nat)
    requires Inv(s) && s.pc.Scanning? && s.pc.q <= q <= QUEUES
    requires forall p: QueueId | s.pc.q <= p < q :: !Ready(s.lanes[p], p, s.now)
    ensures var r := RunFor(s, q - s.pc.q);
            && Inv(r) && r.pc.Scanning? && r.pc.q == q && r.now == s.now && r.credit == s.credit
            && (forall p: QueueId | q <= p :: r.lanes[p] == s.lanes[p])
            && r.toController == s.toController && (forall p: QueueId :: Untouched(s.lanes[p], r.lanes[p]))
    decreases q - s.pc.q
  {
    hide Inv;
    hide Ready;
    assert Wf(s) by {
      LaneOf(s, 0);
    }
    if s.pc.q < q {
      NothingHere(s);
      StepKeepsInv(s, Run);
      PassOver(RunStep(s), q);
    }
  }

  // A queue gives a message exactly if it is ready.
  lemma {:induction false} ReadyGives(l: Lane, q: QueueId, now: int)
    requires LaneInv(l, q, now, Idle)
    ensures FetchOn(l, q, now).1.Some? <==> Ready(l, q, now)
  {
    InMicroseconds(q);
    ScanFinds(l, StartedCount(l, Idle), Front(l, Idle));
  }

  lemma {:induction false} NothingHere(s: State)
    requires Inv(s) && s.pc.Scanning? && s.pc.q < QUEUES && !Ready(s.lanes[s.pc.q], s.pc.q, s.now)
    ensures var r := RunStep(s);
            && r.pc.Scanning? && r.pc.q == s.pc.q + 1 && r.now == s.now && r.credit == s.credit
            && |r.lanes| == QUEUES && (forall p: QueueId | p != s.pc.q :: r.lanes[p] == s.lanes[p])
            && r.toController == s.toController && Untouched(s.lanes[s.pc.q], r.lanes[s.pc.q])
  {
    hide Inv;
    hide LaneInv;
    hide Scan;
    hide Ready;
    hide HasUnsent;
    LaneOf(s, s.pc.q);
    ReadyGives(s.lanes[s.pc.q], s.pc.q, s.now);
  }

  // The message that a ready queue gives is written in three steps: it is the oldest unsent.
  lemma {:induction false} Give(s: State, q: QueueId)
    requires Inv(s) && s.pc.Scanning? && s.pc.q == q && Ready(s.lanes[q], q, s.now)
    ensures var l, r := s.lanes[q], RunFor(s, 3);
            && |r.lanes| == QUEUES && r.pc.Written? && r.pc.q == q && r.pc.pos < |r.lanes[q].msgs|
            && |l.writes| < |l.put| && |r.lanes[q].writes| == |l.writes| + 1
            && r.lanes[q].writes[|l.writes|].msg.Bare() == l.put[|l.writes|]
            && r.lanes[q].writes[|l.writes|].at == s.now
            && Inv(r) && r.toController == s.toController && r.credit == s.credit
            && r.lanes[q].msgs[r.pc.pos].Bare() == l.put[|l.writes|] && !r.lanes[q].msgs[r.pc.pos].finished
  {
    hide Inv;
    hide LaneInv;
    hide Ready;
    LaneOf(s, q);
    var s1 := RunStep(s);
    FoundHere(s);
    StepKeepsInv(s, Run);
    LaneOf(s1, q);
    FirstUnsent(s1.lanes[q], q, s1.now, s1.pc.pos);
    var s2 := RunStep(s1);
    StepKeepsInv(s1, Run);
    LaneOf(s2, q);
    var s3 := RunStep(s2);
    StepKeepsInv(s2, Run);
    LaneOf(s3, q);
    LastWrite(s3, q);
    assert RunFor(s, 3) == RunFor(s1, 2) == RunFor(s2, 1) == RunFor(s3, 0);
  }

  lemma {:induction false} FirstUnsent(l: Lane, q: QueueId, now: int, pos: nat)
    requires LaneInv(l, q, now, Chosen(pos))
    ensures |l.writes| < |l.put| && pos < |l.msgs| && l.msgs[pos] == l.put[|l.writes|] == l.put[|l.writes|].Bare()
  {
    var c := |l.writes|;
    assert l.msgs[pos..][0] == l.put[c..][0] && Fresh(l.put[c]);
  }

  lemma {:induction false} FoundHere(s: State)
    requires Inv(s) && s.pc.Scanning? && s.pc.q < QUEUES && Ready(s.lanes[s.pc.q], s.pc.q, s.now)
    ensures var r := RunStep(s);
            && r.pc.Fetched? && r.pc.q == s.pc.q && r.now == s.now && |r.lanes| == QUEUES
            && r.toController == s.toController && r.credit == s.credit
            && r.lanes[s.pc.q].writes == s.lanes[s.pc.q].writes && r.lanes[s.pc.q].put == s.lanes[s.pc.q].put
  {
    hide Inv;
    hide LaneInv;
    hide Scan;
    hide Ready;
    hide HasUnsent;
    LaneOf(s, s.pc.q);
    ReadyGives(s.lanes[s.pc.q], s.pc.q, s.now);
  }

  lemma {:induction false} LastWrite(s: State, q: QueueId)
    requires Inv(s) && s.lanes[q].writes != []
    ensures var l, k := s.lanes[q], |s.lanes[q].writes| - 1;
            k < |l.put| && l.writes[k].msg.Bare() == l.put[k]
  {
    LaneOf(s, q);
  }

  /** With budget left, and if nothing else happens, the message that comes next is the oldest
      unsent one of the first queue that has one and was last looked at long enough ago, and it is
      written within q + 4 steps. */
  lemma {:induction false} NextPassSends(s: State, q: QueueId)
    requires Inv(s) && s.pc.InnerHead? && s.credit > 0
    requires (exists k | 0 <= k < |s.lanes[q].msgs| :: !s.lanes[q].msgs[k].inProcess)
    requires s.now - s.lanes[q].lastFetch > if q < 5 then -1000 else 2000 * q
    requires forall p: QueueId | p < q ::
               || (forall k | 0 <= k < |s.lanes[p].msgs| :: s.lanes[p].msgs[k].inProcess)
               || s.now - s.lanes[p].lastFetch <= if p < 5 then -1000 else 2000 * p
    ensures var l, r := s.lanes[q], RunFor(s, q + 4);
            && |r.lanes| == QUEUES && r.pc.Written? && r.pc.q == q
            && |l.writes| < |l.put| && |r.lanes[q].writes| == |l.writes| + 1
            && r.lanes[q].writes[|l.writes|].msg.Bare() == l.put[|l.writes|]
            && r.lanes[q].writes[|l.writes|].at == s.now
    ensures var m, r, z := s.lanes[q].put[|s.lanes[q].writes|], RunFor(s, q + 4), RunFor(s, q + 5);
            && r.pc.pos < |z.lanes[q].msgs| && z.lanes[q].msgs[r.pc.pos].Bare() == m
            && (z.lanes[q].msgs[r.pc.pos].finished <==> !(m.typ in {14, 18} && m.identity != 0))
            && z.pc == (if s.toController then OuterHead else InnerHead)
            && z.credit == if s.toController then s.credit else s.credit - 1
  {
    hide Inv;
    hide RunFor;
    hide LaneInv;
    hide RunStep;
    LaneOf(s, q);
    HeadStep(s);
    var s1 := RunStep(s);
    StepKeepsInv(s, Run);
    OneStep(s);
    assert Ready(s1.lanes[q], q, s1.now) && forall p: QueueId | p < q :: !Ready(s1.lanes[p], p, s1.now);
    hide Ready;
    PassOver(s1, q);
    Give(RunFor(s1, q), q);
    RunOn(s, 1, q);
    RunOn(s, 1 + q, 3);
    RunOn(s, q + 4, 1);
    var r := RunFor(s, q + 4);
    OneStep(r);
    LastStep(r, q);
  }

  // What is left to do when a message has been written.
  lemma {:induction false} LastStep(s: State, q: QueueId)
    requires Wf(s) && s.pc.Written? && s.pc.q == q && !s.lanes[q].msgs[s.pc.pos].finished
    ensures var m, r := s.lanes[q].msgs[s.pc.pos], RunStep(s);
            && |r.lanes| == QUEUES && s.pc.pos < |r.lanes[q].msgs| && r.lanes[q].msgs[s.pc.pos].Bare() == m.Bare()
            && (r.lanes[q].msgs[s.pc.pos].finished <==> !(m.typ in {14, 18} && m.identity != 0))
            && r.pc == (if s.toController then OuterHead else InnerHead)
            && r.credit == if s.toController then s.credit else s.credit - 1
  {
  }

  /** With budget left and no queue ready, a pass ends at the outer loop after twelve steps, and
      nothing was sent. */
  lemma {:induction false} EmptyPass(s: State)
    requires Inv(s) && s.pc.InnerHead? && s.credit > 0
    requires forall p: QueueId ::
               || (forall k | 0 <= k < |s.lanes[p].msgs| :: s.lanes[p].msgs[k].inProcess)
               || s.now - s.lanes[p].lastFetch <= if p < 5 then -1000 else 2000 * p
    ensures var r := RunFor(s, 12);
            && |r.lanes| == QUEUES && r.pc == OuterHead && r.credit == s.credit && r.now == s.now
            && forall p: QueueId :: Untouched(s.lanes[p], r.lanes[p])
  {
    hide Inv;
    hide RunFor;
    hide RunStep;
    LaneOf(s, 0);
    HeadStep(s);
    var s1 := RunStep(s);
    StepKeepsInv(s, Run);
    OneStep(s);
    assert forall p: QueueId :: !Ready(s1.lanes[p], p, s1.now);
    hide Ready;
    PassOver(s1, QUEUES);
    RunOn(s, 1, QUEUES);
    RunOn(s, 1 + QUEUES, 1);
    HeadStep(RunFor(s, 1 + QUEUES));
    OneStep(RunFor(s, 1 + QUEUES));
  }

  lemma {:induction false} CleanHere(s: State)
    requires Wf(s) && s.pc.Cleaning? && s.pc.q < QUEUES
    ensures var r := RunStep(s);
            && r.pc.Cleaning? && r.pc.q == s.pc.q + 1 && |r.lanes| == QUEUES && r.toController == s.toController
            && r.lanes[s.pc.q].msgs == Remaining(s.lanes[s.pc.q].msgs)
            && forall p: QueueId | p != s.pc.q :: r.lanes[p] == s.lanes[p]
  {
    hide Remaining;
    hide Removed;
  }

  // Steps that touch no queue.
  lemma {:induction false} HeadStep(s: State)
    requires Wf(s)
    ensures s.pc.OuterHead? && (s.credit <= 1 || s.toController) ==> RunStep(s) == s.(pc := Cleaning(0, 0, 0))
    ensures s.pc.InnerHead? && s.credit > 0 ==> RunStep(s) == s.(pc := Scanning(0, []))
    ensures s.pc.Cleaning? && s.pc.q == QUEUES ==>
              RunStep(s).pc == InnerHead && RunStep(s).lanes == s.lanes && RunStep(s).toController == s.toController
    ensures s.pc.Scanning? && s.pc.q == QUEUES ==> RunStep(s) == s.(pc := OuterHead)
  {
  }

  // The queues from the one cleaned next are cleaned, those before it are left.
  lemma {:induction false} CleanOver(s: State)
    requires Inv(s) && s.pc.Cleaning? && s.pc.q <= QUEUES
    ensures var r := RunFor(s, QUEUES - s.pc.q);
            && Inv(r) && r.pc.Cleaning? && r.pc.q == QUEUES && r.toController == s.toController
            && (forall p: QueueId | s.pc.q <= p :: r.lanes[p].msgs == Remaining(s.lanes[p].msgs))
            && forall p: QueueId | p < s.pc.q :: r.lanes[p] == s.lanes[p]
    decreases QUEUES - s.pc.q
  {
    hide Inv;
    hide Remaining;
    hide RunStep;
    LaneOf(s, 0);
    if s.pc.q < QUEUES {
      CleanHere(s);
      StepKeepsInv(s, Run);
      var s1 := RunStep(s);
      CleanOver(s1);
      var r := RunFor(s1, QUEUES - s1.pc.q);
      assert r == RunFor(s, QUEUES - s.pc.q);
      forall p: QueueId | s.pc.q <= p
        ensures r.lanes[p].msgs == Remaining(s.lanes[p].msgs)
      {
        assert p == s.pc.q ==> r.lanes[p] == s1.lanes[p];
      }
    }
  }

  /** Left alone at the head of the outer loop with a budget below 2, or towards the controller,
      the thread removes every message that is sent and finished, and no other, and twelve steps
      later stands at the inner loop. Towards the switch its budget is then 12 less the messages
      that are sent and still open. */
  lemma {:induction false} CleansUp(s: State)
    requires Inv(s) && s.pc.OuterHead? && (s.credit <= 1 || s.toController)
    ensures var r := RunFor(s, 12);
            && |r.lanes| == QUEUES && r.pc == InnerHead
            && (!s.toController ==> r.credit == 12 - SentAll(r.lanes))
            && forall p: QueueId :: r.lanes[p].msgs == Remaining(s.lanes[p].msgs)
  {
    hide Inv;
    hide RunFor;
    hide RunStep;
    hide Remaining;
    LaneOf(s, 0);
    HeadStep(s);
    var s1 := RunStep(s);
    StepKeepsInv(s, Run);
    OneStep(s);
    CleanOver(s1);
    RunOn(s, 1, QUEUES);
    var s2 := RunFor(s, 1 + QUEUES);
    RunOn(s, 1 + QUEUES, 1);
    LaneOf(s2, 0);
    HeadStep(s2);
    OneStep(s2);
    StepKeepsInv(s2, Run);
    if !s.toController {
      BudgetAfter(RunStep(s2));
    }
  }

  /** In particular no message is left that is sent and finished. */
  lemma {:induction false} NoneFinishedLeft(s: State, q: QueueId, k: nat)
    requires Inv(s) && s.pc.OuterHead? && (s.credit <= 1 || s.toController)
    ensures var r := RunFor(s, 12);
            && |r.lanes| == QUEUES
            && (k < |r.lanes[q].msgs| ==> !(r.lanes[q].msgs[k].inProcess && r.lanes[q].msgs[k].finished))
  {
    hide Inv;
    hide RunFor;
    hide Remaining;
    LaneOf(s, q);
    CleansUp(s);
    CleanSorts(s.lanes[q].msgs);
  }

  lemma {:induction false} BudgetAfter(s: State)
    requires Inv(s) && s.pc == InnerHead && !s.toController
    ensures s.credit == 12 - SentAll(s.lanes)
  {
  }

  /** Otherwise the head of the outer loop leads straight to the inner one, and without budget the
      inner one back. */
  lemma {:induction false} HeadsLeadOn(s: State)
    requires Wf(s)
    ensures s.pc.OuterHead? && s.credit >= 2 && !s.toController ==> RunFor(s, 1) == s.(pc := InnerHead)
    ensures s.pc.InnerHead? && s.credit <= 0 ==> RunFor(s, 1) == s.(pc := OuterHead)
  {
    OneStep(s);
  }

  lemma {:induction false} OneStep(s: State)
    requires Wf(s)
    ensures Wf(RunStep(s)) && RunFor(s, 1) == RunStep(s)
  {
    StepKeepsWf(s, Run);
    assert RunFor(RunStep(s), 0) == RunStep(s);
  }
}
