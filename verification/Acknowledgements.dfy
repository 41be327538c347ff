/** What holds a message in the budget: a FLOW_MOD (type 14) or STATS_REQUEST (type 18) with an
    identity is finished by a response with that identity, and by nothing else. */
module Acknowledgements {
  import opened Bytes
  import opened Messages
  import opened Steps
  import opened Runs
  import opened Guarantees

  // The messages in question, of one identity or, if only is 0, of all.
  predicate Awaits(m: Msg, only: nat) {
    (m.typ == 14 || m.typ == 18) && m.identity != 0 && (only == 0 || m.identity == only)
  }

  // How many of some messages are in question, and how many of these are finished.
  function Awaiting(ms: seq<Msg>, only: nat): nat {
    if ms == [] then 0 else Awaiting(ms[..|ms| - 1], only) + if Awaits(ms[|ms| - 1], only) then 1 else 0
  }

  function Answered(ms: seq<Msg>, only: nat): nat {
    if ms == [] then 0
    else Answered(ms[..|ms| - 1], only) + if Awaits(ms[|ms| - 1], only) && ms[|ms| - 1].finished then 1 else 0
  }

  // How many responses were offered to a queue.
  function Offers(events: seq<Event>, q: QueueId, only: nat): nat {
    if events == [] then 0
    else
      var e := events[|events| - 1];
      Offers(events[..|events| - 1], q, only)
      + if e.Ack? && e.q == q && (only == 0 || e.response == only) then 1 else 0
  }

  // ----- One step.

  // The thread itself finishes no message of the two types with an identity.
  lemma {:induction false} RunKeepsFlags(s: State, q: QueueId, k: nat)
    requires Wf(s) && k < |s.lanes[q].msgs| && !s.pc.Cleaning?
    ensures |RunStep(s).lanes| == QUEUES && k < |RunStep(s).lanes[q].msgs|
    ensures var m, r := s.lanes[q].msgs[k], RunStep(s).lanes[q].msgs[k];
            r.Bare() == m.Bare() && (m.typ in {14, 18} && m.identity != 0 ==> r.finished == m.finished)
  {
    hide Scan;
    hide HasUnsent;
  }

  /** Between clean-ups a message keeps its place. If it is a FLOW_MOD or STATS_REQUEST with an
      identity and a step finishes it, the step is a response with that identity. */
  lemma {:induction false} OnlyItsResponse(s: State, e: Event, q: QueueId, k: nat)
    requires Inv(s) && k < |s.lanes[q].msgs| && !(e.Run? && s.pc.Cleaning?)
    ensures Wf(Step(s, e)) && k < |Step(s, e).lanes[q].msgs|
    ensures Step(s, e).lanes[q].msgs[k].Bare() == s.lanes[q].msgs[k].Bare()
    ensures var m := s.lanes[q].msgs[k];
            m.typ in {14, 18} && m.identity != 0 && !m.finished && Step(s, e).lanes[q].msgs[k].finished ==>
              e == Ack(q, m.identity) && m.inProcess
  {
    hide LaneInv;
    hide Inv;
    hide RunStep;
    hide Marked;
    StepKeepsInv(s, e);
    LaneOf(s, q);
    LaneOf(Step(s, e), q);
    if e.Run? {
      RunKeepsFlags(s, q, k);
    } else if e.Ack? {
      if e.q == q {
        MarkedIsByIdentity(s.lanes[q].msgs, e.response, k);
      }
    }
  }

  // ----- Counting.

  lemma {:induction false} AnsweredAppend(a: seq<Msg>, b: seq<Msg>, only: nat)
    ensures Answered(a + b, only) == Answered(a, only) + Answered(b, only)
    ensures Awaiting(a + b, only) == Awaiting(a, only) + Awaiting(b, only)
  {
    if b == [] {
      assert a + b == a;
    } else {
      AnsweredAppend(a, b[..|b| - 1], only);
      assert (a + b)[..|a + b| - 1] == a + b[..|b| - 1];
    }
  }

  lemma {:induction false} AnsweredOne(m: Msg, only: nat)
    ensures Answered([m], only) == if Awaits(m, only) && m.finished then 1 else 0
    ensures Awaiting([m], only) == if Awaits(m, only) then 1 else 0
  {
    assert [m][..0] == [];
  }

  lemma {:induction false} AnsweredUpdate(ms: seq<Msg>, k: nat, m: Msg, only: nat)
    requires k < |ms|
    ensures Answered(ms[k := m], only)
            == Answered(ms, only) + (if Awaits(m, only) && m.finished then 1 else 0)
               - (if Awaits(ms[k], only) && ms[k].finished then 1 else 0)
  {
    var n := |ms| - 1;
    if k < n {
      AnsweredUpdate(ms[..n], k, m, only);
      assert ms[k := m][..n] == ms[..n][k := m];
    } else {
      assert ms[k := m][..n] == ms[..n];
    }
  }

  lemma {:induction false} AnsweredSplits(ms: seq<Msg>, only: nat)
    ensures Answered(ms, only) == Answered(Remaining(ms), only) + Answered(Removed(ms), only)
  {
    if ms != [] {
      var n := |ms| - 1;
      AnsweredSplits(ms[..n], only);
      RemainingAppend(ms[..n], [ms[n]]);
      assert ms == ms[..n] + [ms[n]] && [ms[n]][1..] == [];
      AnsweredAppend(Remaining(ms[..n]), Remaining([ms[n]]), only);
      AnsweredAppend(Removed(ms[..n]), Removed([ms[n]]), only);
      AnsweredAppend(ms[..n], [ms[n]], only);
    }
  }

  // Messages of a queue that were answered, removed or not.
  function Paid(l: Lane, only: nat): nat {
    Answered(l.msgs, only) + Answered(l.erased, only)
  }

  lemma {:induction false} PutPays(l: Lane, e: Event, only: nat)
    requires e.Put?
    ensures Paid(PutOn(l, e.typ, e.identity, e.uid, e.lldp, e.payload), only) == Paid(l, only)
  {
    var m := PutOn(l, e.typ, e.identity, e.uid, e.lldp, e.payload).msgs[|l.msgs|];
    AnsweredAppend(l.msgs, [m], only);
    AnsweredOne(m, only);
  }

  lemma {:induction false} AckPays(l: Lane, response: nat, only: nat)
    ensures Paid(AckOn(l, response), only) <= Paid(l, only) + if only == 0 || response == only then 1 else 0
  {
    hide Answered;
    var p := FirstMatch(l.msgs, response);
    if p.Some? {
      AnsweredUpdate(l.msgs, p.value, l.msgs[p.value].(finished := true), only);
    }
  }

  lemma {:induction false} CleanPays(l: Lane, only: nat)
    ensures Paid(CleanOn(l), only) == Paid(l, only)
  {
    hide Answered;
    AnsweredSplits(l.msgs, only);
    AnsweredAppend(l.erased, Removed(l.msgs), only);
  }

  lemma {:induction false} StartPays(l: Lane, pos: nat, only: nat)
    requires pos < |l.msgs|
    ensures Paid(StartOn(l, pos), only) == Paid(l, only)
    ensures Paid(FinishOn(l, pos), only) == Paid(l, only)
  {
    hide Answered;
    AnsweredUpdate(l.msgs, pos, l.msgs[pos].(inProcess := true), only);
    AnsweredUpdate(l.msgs, pos, l.msgs[pos].(finished := true), only);
  }

  lemma {:induction false} StepPays(s: State, e: Event, q: QueueId, only: nat)
    requires Wf(s)
    ensures Wf(Step(s, e))
    ensures Paid(Step(s, e).lanes[q], only)
            <= Paid(s.lanes[q], only) + if e.Ack? && e.q == q && (only == 0 || e.response == only) then 1 else 0
  {
    hide Paid;
    hide RunStep;
    StepKeepsWf(s, e);
    if e.Run? {
      RunPays(s, q, only);
    } else if e.Put? && e.q == q {
      PutPays(s.lanes[q], e, only);
    } else if e.Ack? && e.q == q {
      AckPays(s.lanes[q], e.response, only);
    }
  }

  lemma {:induction false} RunPays(s: State, q: QueueId, only: nat)
    requires Wf(s)
    ensures |RunStep(s).lanes| == QUEUES && Paid(RunStep(s).lanes[q], only) == Paid(s.lanes[q], only)
  {
    hide Answered;
    hide Remaining;
    hide Removed;
    hide Scan;
    hide HasUnsent;
    hide StartOn;
    hide FinishOn;
    hide CleanOn;
    if !s.pc.OuterHead? && !s.pc.InnerHead? && s.pc.q == q {
      if s.pc.Cleaning? {
        CleanPays(s.lanes[q], only);
      } else if s.pc.Fetched? || s.pc.Written? {
        StartPays(s.lanes[q], s.pc.pos, only);
      }
    }
  }

  /** Every answer is paid for by a response: of the FLOW_MODs and STATS_REQUESTs of a queue with
      one identity, or of all with any, at most as many are finished, queued or already removed,
      as responses with that identity, or any, were offered to the queue. */
  lemma {:induction false} AnswersArePaid(s0: State, events: seq<Event>, q: QueueId, only: nat)
    requires Initial(s0)
    ensures var l := After(s0, events).lanes[q];
            Answered(l.msgs, only) + Answered(l.erased, only) <= Offers(events, q, only)
  {
    hide Step;
    if events != [] {
      var n := |events| - 1;
      AnswersArePaid(s0, events[..n], q, only);
      StepPays(After(s0, events[..n]), events[n], q, only);
    }
  }

  lemma {:induction false} AnsweredMember(ms: seq<Msg>, k: nat)
    requires k < |ms| && Awaits(ms[k], ms[k].identity) && ms[k].finished
    ensures Answered(ms, ms[k].identity) > 0
  {
    if k < |ms| - 1 {
      AnsweredMember(ms[..|ms| - 1], k);
    }
  }

  lemma {:induction false} OfferMade(events: seq<Event>, q: QueueId, response: nat)
    requires response != 0 && Offers(events, q, response) > 0
    ensures Ack(q, response) in events
  {
    var n := |events| - 1;
    if events[n] != Ack(q, response) {
      OfferMade(events[..n], q, response);
      var i :| 0 <= i < n && events[i] == Ack(q, response);
    }
  }

  /** So a FLOW_MOD or STATS_REQUEST with an identity that is finished, or was removed, has had a
      response with its identity. */
  lemma {:induction false} FinishedWasAnswered(s0: State, events: seq<Event>, q: QueueId, k: nat)
    requires Initial(s0)
    ensures var ms := After(s0, events).lanes[q].msgs;
            k < |ms| && ms[k].typ in {14, 18} && ms[k].identity != 0 && ms[k].finished ==>
              Ack(q, ms[k].identity) in events
    ensures var ms := After(s0, events).lanes[q].erased;
            k < |ms| && ms[k].typ in {14, 18} && ms[k].identity != 0 ==> Ack(q, ms[k].identity) in events
  {
    hide After;
    hide LaneInv;
    hide Inv;
    hide Offers;
    hide Answered;
    var s := After(s0, events);
    var l := s.lanes[q];
    if k < |l.msgs| && l.msgs[k].typ in {14, 18} && l.msgs[k].identity != 0 && l.msgs[k].finished {
      AnsweredMember(l.msgs, k);
      AnswersArePaid(s0, events, q, l.msgs[k].identity);
      OfferMade(events, q, l.msgs[k].identity);
    }
    if k < |l.erased| && l.erased[k].typ in {14, 18} && l.erased[k].identity != 0 {
      WrittenOnceBeforeRemoval(s0, events, q, k, 0);
      AnsweredMember(l.erased, k);
      AnswersArePaid(s0, events, q, l.erased[k].identity);
      OfferMade(events, q, l.erased[k].identity);
    }
  }

  // ----- Flow control.

  lemma {:induction false} AwaitingWithout(ms: seq<Msg>, k: nat, only: nat)
    requires k < |ms|
    ensures Awaiting(ms, only) == Awaiting(ms[..k] + ms[k + 1..], only) + if Awaits(ms[k], only) then 1 else 0
  {
    assert ms == ms[..k] + ([ms[k]] + ms[k + 1..]);
    AnsweredAppend(ms[..k], [ms[k]] + ms[k + 1..], only);
    AnsweredAppend([ms[k]], ms[k + 1..], only);
    AnsweredOne(ms[k], only);
    AnsweredAppend(ms[..k], ms[k + 1..], only);
  }

  lemma {:induction false} WithoutOne(ms: seq<Msg>, k: nat)
    requires k < |ms|
    ensures multiset(ms) == multiset(ms[..k] + ms[k + 1..]) + multiset{ms[k]}
  {
    assert ms == ms[..k] + ([ms[k]] + ms[k + 1..]);
  }

  lemma {:induction false} Cancel(a: multiset<Msg>, b: multiset<Msg>, x: Msg)
    requires a + multiset{x} == b + multiset{x}
    ensures a == b
  {
    forall y: Msg
      ensures a[y] == b[y]
    {
      assert (a + multiset{x})[y] == (b + multiset{x})[y];
    }
  }

  // The count does not depend on the order.
  lemma {:induction false} AwaitingAnyOrder(a: seq<Msg>, b: seq<Msg>, only: nat)
    requires multiset(a) == multiset(b)
    ensures Awaiting(a, only) == Awaiting(b, only)
  {
    hide Awaiting;
    if a == [] {
      assert |multiset(b)| == 0;
    } else {
      var x, rest := a[0], a[..0] + a[1..];
      var k, c := Remove(b, x);
      WithoutOne(a, 0);
      Cancel(multiset(rest), multiset(c), x);
      AwaitingAnyOrder(rest, c, only);
      AwaitingWithout(a, 0, only);
      AwaitingWithout(b, k, only);
    }
  }

  lemma {:induction false} Remove(ms: seq<Msg>, x: Msg) returns (k: nat, rest: seq<Msg>)
    requires x in multiset(ms)
    ensures k < |ms| && ms[k] == x && rest == ms[..k] + ms[k + 1..]
    ensures multiset(ms) == multiset(rest) + multiset{x}
  {
    k :| k < |ms| && ms[k] == x;
    rest := ms[..k] + ms[k + 1..];
    WithoutOne(ms, k);
  }

  lemma {:induction false} AwaitingBares(ms: seq<Msg>, only: nat)
    ensures Awaiting(Bares(ms), only) == Awaiting(ms, only) <= |ms|
  {
    hide Bares;
    if ms == [] {
      BaresAppend([], []);
    } else {
      var n := |ms| - 1;
      AwaitingBares(ms[..n], only);
      assert ms == ms[..n] + [ms[n]];
      BaresAppend(ms[..n], [ms[n]]);
      BareOfOne(ms[n]);
      assert Bares(ms)[..n] == Bares(ms[..n]);
    }
  }

  // What was removed was finished, so what awaited an answer had one.
  lemma {:induction false} ErasedAnswered(ms: seq<Msg>, only: nat)
    requires forall k | 0 <= k < |ms| :: ms[k].finished
    ensures Awaiting(ms, only) == Answered(ms, only)
  {
    if ms != [] {
      ErasedAnswered(ms[..|ms| - 1], only);
    }
  }

  lemma {:induction false} PartOfSent(ls: seq<Lane>, q: nat)
    requires q < |ls|
    ensures Sent(ls[q].msgs) <= SentAll(ls)
  {
    if q < |ls| - 1 {
      PartOfSent(ls[..|ls| - 1], q);
    }
  }

  lemma {:induction false} AllSent(ms: seq<Msg>)
    requires forall k | 0 <= k < |ms| :: ms[k].inProcess
    ensures Sent(ms) == |ms|
  {
    if ms != [] {
      AllSent(ms[1..]);
    }
  }

  // The messages started of one queue: those queued hold budget, those removed were answered.
  lemma {:induction false} StartedOfLane(l: Lane, q: QueueId, now: int, b: Busy)
    requires LaneInv(l, q, now, b)
    ensures |l.writes| <= |l.put|
    ensures Awaiting(l.put[..|l.writes|], 0) <= Sent(l.msgs) + Answered(l.erased, 0)
  {
    hide Sorted;
    hide Waiting;
    hide Spaced;
    hide Timed;
    hide Awaiting;
    hide Answered;
    hide Bares;
    hide Sent;
    var c, n := StartedCount(l, b), Front(l, b);
    var w := |l.writes|;
    assert l.put[..c] == l.put[..w] + l.put[w..c];
    AnsweredAppend(l.put[..w], l.put[w..c], 0);
    AwaitingAnyOrder(l.put[..c], Bares(l.msgs[..n]) + Bares(l.erased), 0);
    AnsweredAppend(Bares(l.msgs[..n]), Bares(l.erased), 0);
    AwaitingBares(l.msgs[..n], 0);
    AwaitingBares(l.erased, 0);
    ErasedAnswered(l.erased, 0);
    AllSent(l.msgs[..n]);
    assert l.msgs == l.msgs[..n] + l.msgs[n..];
    SentAppend(l.msgs[..n], l.msgs[n..]);
  }

  /** Flow control towards the switch: of the FLOW_MODs and STATS_REQUESTs with an identity, a
      queue never writes more than twelve beyond the responses offered to it. */
  lemma {:induction false} FlowIsControlled(s0: State, events: seq<Event>, q: QueueId)
    requires Initial(s0) && !s0.toController
    ensures |After(s0, events).lanes[q].writes| <= |PutsOf(events, q)|
    ensures Awaiting(PutsOf(events, q)[..|After(s0, events).lanes[q].writes|], 0) <= 12 + Offers(events, q, 0)
  {
    hide LaneInv;
    hide Inv;
    hide Awaiting;
    hide Answered;
    hide Offers;
    hide PutsOf;
    hide After;
    var s := After(s0, events);
    RunKeepsInv(s0, events);
    LaneOf(s, q);
    PutsAreTheEvents(s0, events, q);
    StartedOfLane(s.lanes[q], q, s.now, BusyOf(s.pc, q));
    AnswersArePaid(s0, events, q, 0);
    PartOfSent(s.lanes, q);
    SameDirection(s0, events);
    BudgetIsKept(s0, events);
  }

  lemma {:induction false} SameDirection(s0: State, events: seq<Event>)
    requires Initial(s0)
    ensures After(s0, events).toController == s0.toController
  {
    hide Step;
    if events != [] {
      var n := |events| - 1;
      SameDirection(s0, events[..n]);
      StepKeepsDirection(After(s0, events[..n]), events[n]);
    }
  }

  lemma {:induction false} StepKeepsDirection(s: State, e: Event)
    requires Wf(s)
    ensures Step(s, e).toController == s.toController
  {
    hide Scan;
    hide HasUnsent;
    hide Remaining;
    hide Removed;
    hide Marked;
  }
}
