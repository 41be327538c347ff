/** What the scheduler promises, for every run from a fresh start: any interleaving of its own
    steps with messages put, responses delivered and time passing. */
module Guarantees {
  import opened Bytes
  import opened Formats
  import opened Messages
  import opened Steps
  import opened Runs

  ghost function After(s0: State, events: seq<Event>): (s: State)
    requires Initial(s0)
    ensures Wf(s)
  {
    if events == [] then s0
    else
      var n := |events| - 1;
      StepKeepsWf(After(s0, events[..n]), events[n]);
      Step(After(s0, events[..n]), events[n])
  }

  // What has gone out on the connection, message by message.
  ghost function WireOf(s0: State, events: seq<Event>): seq<seq<byte>>
    requires Initial(s0)
  {
    if events == [] then []
    else
      var n := |events| - 1;
      WireOf(s0, events[..n]) + SentBy(After(s0, events[..n]), events[n])
  }

  function SentBy(s: State, e: Event): seq<seq<byte>>
    requires s.pc.Started? ==> s.pc.q < |s.lanes| && s.pc.pos < |s.lanes[s.pc.q].msgs|
  {
    if e.Run? && s.pc.Started? then [s.lanes[s.pc.q].msgs[s.pc.pos].payload] else []
  }

  // One more event.
  lemma {:induction false} AfterOne(s0: State, events: seq<Event>, e: Event)
    requires Initial(s0)
    ensures After(s0, events + [e]) == Step(After(s0, events), e)
    ensures WireOf(s0, events + [e]) == WireOf(s0, events) + SentBy(After(s0, events), e)
  {
    assert (events + [e])[..|events|] == events;
  }

  lemma {:induction false} StepKeepsWf(s: State, e: Event)
    requires Wf(s)
    ensures Wf(Step(s, e))
  {
    hide LaneInv;
    hide Remaining;
    hide Removed;
  }

  /** The invariant holds in every reachable state. */
  lemma {:induction false} RunKeepsInv(s0: State, events: seq<Event>)
    requires Initial(s0)
    ensures Inv(After(s0, events))
  {
    hide Inv;
    if events == [] {
      InitialInv(s0);
    } else {
      var n := |events| - 1;
      RunKeepsInv(s0, events[..n]);
      StepKeepsInv(After(s0, events[..n]), events[n]);
    }
  }

  // ----- The history is what happened.

  // The messages the events put on a queue.
  function PutsOf(events: seq<Event>, q: QueueId): seq<Msg> {
    if events == [] then []
    else
      var before, e := PutsOf(events[..|events| - 1], q), events[|events| - 1];
      if e.Put? && e.q == q
      then before + [Msg(|before|, e.typ, e.identity, e.uid, if e.lldp then 0 else 1, 1.0, e.payload, false, false)]
      else before
  }

  lemma {:induction false} PutsAreTheEvents(s0: State, events: seq<Event>, q: QueueId)
    requires Initial(s0)
    ensures After(s0, events).lanes[q].put == PutsOf(events, q)
  {
    if events != [] {
      PutsAreTheEvents(s0, events[..|events| - 1], q);
      StepPuts(After(s0, events[..|events| - 1]), events[|events| - 1], q);
    }
  }

  lemma {:induction false} StepPuts(s: State, e: Event, q: QueueId)
    requires Wf(s)
    ensures Wf(Step(s, e))
    ensures Step(s, e).lanes[q].put
            == if e.Put? && e.q == q then PutOn(s.lanes[q], e.typ, e.identity, e.uid, e.lldp, e.payload).put
               else s.lanes[q].put
  {
    hide Wf;
    hide RunStep;
    StepKeepsWf(s, e);
    if e.Run? {
      RunPuts(s, q);
    } else {
      assert |s.lanes| == QUEUES by {
        LaneCount(s);
      }
    }
  }

  lemma {:induction false} LaneCount(s: State)
    requires Wf(s)
    ensures |s.lanes| == QUEUES
  {
  }

  lemma {:induction false} RunPuts(s: State, q: QueueId)
    requires Wf(s)
    ensures |s.lanes| == |RunStep(s).lanes| == QUEUES && RunStep(s).lanes[q].put == s.lanes[q].put
  {
    hide Remaining;
    hide Removed;
    hide Scan;
  }

  // ----- The budget.

  /** At most 12 messages are ever sent and not removed, the budget is never overdrawn, and
      at every loop head the two make up 12. Towards the controller every message removed
      adds to a budget that is never used. */
  lemma {:induction false} BudgetIsKept(s0: State, events: seq<Event>)
    requires Initial(s0)
    ensures var s := After(s0, events);
            && (!s.toController ==> s.credit >= 0 && SentAll(s.lanes) <= BUDGET)
            && (!s.toController && (s.pc.OuterHead? || s.pc.InnerHead?) ==> s.credit + SentAll(s.lanes) == BUDGET)
            && (s.toController && (s.pc.OuterHead? || s.pc.InnerHead?) ==> s.credit == BUDGET + ErasedAll(s.lanes))
    ensures BUDGET == 12
  {
    hide LaneInv;
    RunKeepsInv(s0, events);
  }

  /** A clean-up that the budget called for ends with 12 less the sent messages it found
      open. */
  lemma {:induction false} CleanUpSettles(s0: State, events: seq<Event>)
    requires Initial(s0)
    ensures var s := After(s0, events);
            s.pc.Cleaning? && s.pc.q == QUEUES && !s.toController ==> RunStep(s).credit == BUDGET - s.pc.open
    ensures var s := After(s0, events);
            s.pc.Cleaning? && s.pc.q == 10 && !s.toController ==> RunStep(s).credit == 12 - SentAll(s.lanes)
  {
    hide LaneInv;
    RunKeepsInv(s0, events);
    var s := After(s0, events);
    assert s.lanes[..QUEUES] == s.lanes;
  }

  /** Nothing leaks: between sends, every message that holds budget and is not finished is a
      FLOW_MOD or a STATS_REQUEST with an identity, which a response can finish. */
  lemma {:induction false} OpenMessagesAwaitResponses(s0: State, events: seq<Event>, q: QueueId, k: nat)
    requires Initial(s0)
    ensures var s := After(s0, events);
            k < |s.lanes[q].msgs| && s.lanes[q].msgs[k].inProcess && !s.lanes[q].msgs[k].finished && !Sending(s.pc) ==>
              s.lanes[q].msgs[k].typ in {FLOW_MOD, STATS_REQUEST} && s.lanes[q].msgs[k].identity != 0
    ensures FLOW_MOD == 14 && STATS_REQUEST == 18
  {
    RunKeepsInv(s0, events);
    var s := After(s0, events);
    LaneOf(s, q);
    if k < |s.lanes[q].msgs| && s.lanes[q].msgs[k].inProcess && !s.lanes[q].msgs[k].finished && !Sending(s.pc) {
      assert Waiting(s.lanes[q].msgs, Idle);
    }
  }

  // ----- Order and completeness.

  /** Per queue, messages are written in the order in which they were put, whatever their
      users: the k-th write is of the k-th message. */
  lemma {:induction false} WritesAreFifo(s0: State, events: seq<Event>, q: QueueId, k: nat)
    requires Initial(s0)
    ensures var l := After(s0, events).lanes[q];
            |l.writes| <= |PutsOf(events, q)| && (k < |l.writes| ==> l.writes[k].msg.Bare() == PutsOf(events, q)[k])
  {
    RunKeepsInv(s0, events);
    PutsAreTheEvents(s0, events, q);
    LaneOf(After(s0, events), q);
  }

  /** Every message put is unsent, in process or removed, and only one of these, once. */
  lemma {:induction false} NothingIsLost(s0: State, events: seq<Event>, q: QueueId)
    requires Initial(s0)
    ensures var l := After(s0, events).lanes[q];
            multiset(PutsOf(events, q)) == multiset(Bares(l.msgs)) + multiset(Bares(l.erased))
  {
    var s := After(s0, events);
    var l, b := s.lanes[q], BusyOf(s.pc, q);
    RunKeepsInv(s0, events);
    PutsAreTheEvents(s0, events, q);
    LaneOf(s, q);
    AllConserved(l, StartedCount(l, b), Front(l, b));
  }

  /** A message is removed only after it was written, and it is written at most once: the
      write with a message's number is the only one of it. */
  lemma {:induction false} WrittenOnceBeforeRemoval(s0: State, events: seq<Event>, q: QueueId, j: nat, k: nat)
    requires Initial(s0)
    ensures var l := After(s0, events).lanes[q];
            && (k < |l.writes| ==> l.writes[k].msg.id == k)
            && (j < |l.erased| ==> l.erased[j].Done() && l.erased[j].id < |l.writes|)
            && (j < |l.msgs| && !l.msgs[j].inProcess ==> l.msgs[j].id >= |l.writes|)
  {
    var s := After(s0, events);
    var l, b := s.lanes[q], BusyOf(s.pc, q);
    RunKeepsInv(s0, events);
    LaneOf(s, q);
    if j < |l.msgs| {
      Origin(l, StartedCount(l, b), Front(l, b), j);
    }
    if k < |l.writes| {
      assert l.writes[k].msg.Bare() == l.put[k];
    }
  }

  // ----- Time.

  /** The rate limit: between the i-th and the j-th fetch from a queue lie more than j - i of
      its intervals. */
  lemma {:induction false} FetchesAreSpaced(s0: State, events: seq<Event>, q: QueueId, i: nat, j: nat)
    requires Initial(s0)
    ensures var times := After(s0, events).lanes[q].times;
            i < j < |times| ==> times[j] - times[i] > (j - i) * (1000 * Interval(q))
    ensures var times := After(s0, events).lanes[q].times;
            5 <= q && i < j < |times| ==> times[j] - times[i] > (j - i) * (2000 * q)
  {
    InMicroseconds(q);
    RunKeepsInv(s0, events);
    LaneOf(After(s0, events), q);
    SpacedApart(After(s0, events).lanes[q].times, q, i, j);
  }

  lemma {:induction false} InMicroseconds(q: QueueId)
    ensures 1000 * Interval(q) == if q < 5 then -1000 else 2000 * q
  {
  }

  lemma {:induction false} SpacedApart(times: seq<int>, q: QueueId, i: nat, j: nat)
    requires forall k: nat | k < |times| :: Apart(times, k, q)
    ensures i < j < |times| ==> times[j] - times[i] > (j - i) * (1000 * Interval(q))
    decreases j
  {
    if i < j < |times| {
      assert Apart(times, j - 1, q);
      var d := 1000 * Interval(q);
      assert (j - i) * d == (j - 1 - i) * d + d;
      if i < j - 1 {
        SpacedApart(times, q, i, j - 1);
      }
    }
  }

  /** The writes follow their fetches and precede the next ones, so they keep all of the
      distance but one interval. */
  lemma {:induction false} WritesAreSpaced(s0: State, events: seq<Event>, q: QueueId, i: nat, j: nat)
    requires Initial(s0)
    ensures var l := After(s0, events).lanes[q];
            i + 1 < j < |l.writes| ==> l.writes[j].at - l.writes[i].at > (j - (i + 1)) * (1000 * Interval(q))
    ensures var l := After(s0, events).lanes[q];
            5 <= q && i + 1 < j < |l.writes| ==> l.writes[j].at - l.writes[i].at > (j - (i + 1)) * (2000 * q)
  {
    hide Interval;
    InMicroseconds(q);
    var s := After(s0, events);
    RunKeepsInv(s0, events);
    LaneOf(s, q);
    WritesApart(s.lanes[q].times, s.lanes[q].writes, q, s.now, i, j);
  }

  lemma {:induction false} WritesApart(times: seq<int>, writes: seq<Write>, q: QueueId, now: int, i: nat, j: nat)
    requires Timed(times, writes, now) && forall k: nat | k < |times| :: Apart(times, k, q)
    ensures i + 1 < j < |writes| ==> writes[j].at - writes[i].at > (j - (i + 1)) * (1000 * Interval(q))
  {
    hide Interval;
    if i + 1 < j < |writes| {
      assert Prompt(times, writes, i, now) && Prompt(times, writes, j, now);
      SpacedApart(times, q, i + 1, j);
    }
  }

  /** The full distance is kept by the writes of messages i and j if i was not held up longer
      between its fetch and its write than j. */
  lemma {:induction false} EvenWritesAreSpaced(s0: State, events: seq<Event>, q: QueueId, i: nat, j: nat)
    requires Initial(s0)
    ensures var l := After(s0, events).lanes[q];
            |l.writes| <= |l.times|
    ensures var l := After(s0, events).lanes[q];
            i < j < |l.writes| && l.writes[i].at - l.times[i] <= l.writes[j].at - l.times[j] ==>
              l.writes[j].at - l.writes[i].at > (j - i) * (1000 * Interval(q))
    ensures var l := After(s0, events).lanes[q];
            5 <= q && i < j < |l.writes| && l.writes[i].at - l.times[i] <= l.writes[j].at - l.times[j] ==>
              l.writes[j].at - l.writes[i].at > (j - i) * (2000 * q)
  {
    hide Interval;
    InMicroseconds(q);
    var s := After(s0, events);
    RunKeepsInv(s0, events);
    LaneOf(s, q);
    var l := s.lanes[q];
    if l.writes != [] {
      assert Prompt(l.times, l.writes, |l.writes| - 1, s.now);
    }
    FetchesAreSpaced(s0, events, q, i, j);
  }

  // ----- Priority.

  // The state in which the thread took its n-th last step.
  ghost function StepsAgo(s0: State, events: seq<Event>, n: nat): (s: State)
    requires Initial(s0)
    ensures Wf(s)
  {
    if events == [] then s0
    else
      var front := events[..|events| - 1];
      if !events[|events| - 1].Run? then StepsAgo(s0, front, n)
      else if n <= 1 then After(s0, front)
      else StepsAgo(s0, front, n - 1)
  }

  // How many steps behind the scan of queue pc.q the thread is.
  function Phase(pc: Pc): nat {
    match pc
    case Fetched(_, _, _) => 1
    case Started(_, _, _) => 2
    case Written(_, _, _) => 3
    case _ => 0
  }

  // What a pass remembers of the queues before is what was so when it scanned them.
  lemma {:induction false} SkipsAreTrue(s0: State, events: seq<Event>, j: nat)
    requires Initial(s0)
    ensures var s := After(s0, events);
            (s.pc.Scanning? || Sending(s.pc)) && j < s.pc.q ==>
              && |s.pc.skips| == s.pc.q <= QUEUES
              && var b := StepsAgo(s0, events, s.pc.q - j + Phase(s.pc));
                 && b.pc.Scanning? && b.pc.q == j < QUEUES
                 && s.pc.skips[j] == Skip(HasUnsent(b.lanes[j].msgs), Early(b.lanes[j], j, b.now))
  {
    hide Inv;
    hide HasUnsent;
    hide Early;
    hide RunStep;
    hide Step;
    if events != [] {
      var n := |events| - 1;
      var s, e := After(s0, events[..n]), events[n];
      SkipsAreTrue(s0, events[..n], j);
      RunKeepsInv(s0, events[..n]);
      PassOf(s);
      if e.Run? {
        RunSkips(s);
      } else {
        OthersKeepPc(s, e);
      }
    }
  }

  lemma {:induction false} PassOf(s: State)
    requires Inv(s)
    ensures PassInv(s.pc) && Wf(s)
  {
    hide LanesInv;
    hide Budget;
  }

  lemma {:induction false} OthersKeepPc(s: State, e: Event)
    requires Wf(s) && !e.Run?
    ensures Step(s, e).pc == s.pc
  {
  }

  lemma {:induction false} RunSkips(s: State)
    requires Wf(s) && PassInv(s.pc)
    ensures Step(s, Run) == RunStep(s)
    ensures var r := RunStep(s).pc;
            r.Scanning? || Sending(r) ==>
              || (r == Scanning(0, []))
              || (s.pc.Scanning? && s.pc.q < QUEUES && r.Scanning? && r.q == s.pc.q + 1
                  && r.skips == s.pc.skips + [Skip(HasUnsent(s.lanes[s.pc.q].msgs), Early(s.lanes[s.pc.q], s.pc.q, s.now))])
              || ((s.pc.Scanning? || Sending(s.pc)) && s.pc.q < QUEUES && Sending(r) && r.q == s.pc.q
                  && r.skips == s.pc.skips && Phase(r) == Phase(s.pc) + 1)
  {
    hide HasUnsent;
    hide Early;
    hide Scan;
  }

  /** When a message is being sent from queue q, every queue j before it was scanned earlier in
      the same pass, q - j steps before q itself. It then had nothing unsent, or it is one of the
      queues from 5 on and had been scanned no more than 2 j milliseconds before. */
  lemma {:induction false} PriorityIsStrict(s0: State, events: seq<Event>, j: nat)
    requires Initial(s0)
    ensures var s := After(s0, events);
            Sending(s.pc) && j < s.pc.q ==>
              j < |s.pc.skips| && (s.pc.skips[j].unsent ==> 5 <= j && s.pc.skips[j].early)
    ensures var s := After(s0, events);
            Sending(s.pc) && j < s.pc.q ==>
              var b := StepsAgo(s0, events, s.pc.q - j + Phase(s.pc));
              && b.pc.Scanning? && b.pc.q == j < |b.lanes|
              && ((forall k | 0 <= k < |b.lanes[j].msgs| :: b.lanes[j].msgs[k].inProcess)
                  || (5 <= j && b.now - b.lanes[j].lastFetch <= 2000 * j))
  {
    hide LaneInv;
    hide After;
    hide StepsAgo;
    RunKeepsInv(s0, events);
    SkipsAreTrue(s0, events, j);
    if j < QUEUES {
      InMicroseconds(j);
    }
  }

  // ----- The connection.

  // The bytes of some writes, and of those of all queues, in no order.
  ghost function Payloads(ws: seq<Write>): multiset<seq<byte>> {
    if ws == [] then multiset{}
    else Payloads(ws[..|ws| - 1]) + multiset{ws[|ws| - 1].msg.payload}
  }

  ghost function PayloadsAll(ls: seq<Lane>): multiset<seq<byte>> {
    if ls == [] then multiset{}
    else PayloadsAll(ls[..|ls| - 1]) + Payloads(ls[|ls| - 1].writes)
  }

  lemma {:induction false} PayloadsUpdate(ls: seq<Lane>, q: nat, l: Lane, more: multiset<seq<byte>>)
    requires q < |ls| && Payloads(l.writes) == Payloads(ls[q].writes) + more
    ensures PayloadsAll(ls[q := l]) == PayloadsAll(ls) + more
  {
    hide Payloads;
    var n, next := |ls| - 1, ls[q := l];
    if q < n {
      PayloadsUpdate(ls[..n], q, l, more);
      assert next[..n] == ls[..n][q := l];
    } else {
      assert next[..n] == ls[..n];
    }
  }

  // Queue q changes, but not what was written of it.
  lemma {:induction false} NothingMore(ls: seq<Lane>, q: nat, l: Lane)
    requires q < |ls| && l.writes == ls[q].writes
    ensures PayloadsAll(ls[q := l]) == PayloadsAll(ls)
  {
    PayloadsUpdate(ls, q, l, multiset{});
  }

  // What a step writes is what it sends.
  lemma {:induction false} StepSends(s: State, e: Event)
    requires Wf(s)
    ensures PayloadsAll(Step(s, e).lanes) == PayloadsAll(s.lanes) + multiset(SentBy(s, e))
  {
    hide PayloadsAll;
    hide RunStep;
    hide Marked;
    if e.Put? || e.Ack? {
      NothingMore(s.lanes, e.q, Step(s, e).lanes[e.q]);
    } else if e.Run? {
      RunSends(s);
    }
  }

  lemma {:induction false} RunSends(s: State)
    requires Wf(s)
    ensures PayloadsAll(RunStep(s).lanes) == PayloadsAll(s.lanes) + multiset(SentBy(s, Run))
  {
    hide PayloadsAll;
    hide Remaining;
    hide Removed;
    hide Scan;
    hide HasUnsent;
    var lanes, r := s.lanes, RunStep(s).lanes;
    if s.pc.OuterHead? || s.pc.InnerHead? || ((s.pc.Cleaning? || s.pc.Scanning?) && s.pc.q == QUEUES) {
      assert r == lanes;
    } else {
      var q := s.pc.q;
      assert r == lanes[q := r[q]];
      if s.pc.Started? {
        OneMore(lanes, q, s.pc.pos, s.now);
      } else {
        assert r[q].writes == lanes[q].writes;
        NothingMore(lanes, q, r[q]);
      }
    }
  }

  lemma {:induction false} OneMore(ls: seq<Lane>, q: nat, pos: nat, now: int)
    requires q < |ls| && pos < |ls[q].msgs|
    ensures PayloadsAll(ls[q := WriteOn(ls[q], pos, now)]) == PayloadsAll(ls) + multiset{ls[q].msgs[pos].payload}
  {
    var l, r := ls[q], WriteOn(ls[q], pos, now);
    assert r.writes[..|r.writes| - 1] == l.writes;
    PayloadsUpdate(ls, q, r, multiset{l.msgs[pos].payload});
  }

  /** What goes out is what is recorded as written, and each of it once. */
  lemma {:induction false} WireIsTheWrites(s0: State, events: seq<Event>)
    requires Initial(s0)
    ensures multiset(WireOf(s0, events)) == PayloadsAll(After(s0, events).lanes)
  {
    if events == [] {
      NothingWritten(s0.lanes);
    } else {
      var n := |events| - 1;
      WireIsTheWrites(s0, events[..n]);
      StepSends(After(s0, events[..n]), events[n]);
    }
  }

  lemma {:induction false} NothingWritten(ls: seq<Lane>)
    requires forall q | 0 <= q < |ls| :: ls[q].writes == []
    ensures PayloadsAll(ls) == multiset{}
  {
    if ls != [] {
      NothingWritten(ls[..|ls| - 1]);
    }
  }

  // ----- The order on the connection.

  // What went out, with the queue it came from.
  datatype Delivery = Delivery(q: QueueId, payload: seq<byte>)

  ghost function Deliveries(s0: State, events: seq<Event>): seq<Delivery>
    requires Initial(s0)
  {
    if events == [] then []
    else
      var n := |events| - 1;
      var s := After(s0, events[..n]);
      Deliveries(s0, events[..n])
      + if events[n].Run? && s.pc.Started? then [Delivery(s.pc.q, s.lanes[s.pc.q].msgs[s.pc.pos].payload)] else []
  }

  function OnTheWire(sent: seq<Delivery>): seq<seq<byte>> {
    if sent == [] then [] else OnTheWire(sent[..|sent| - 1]) + [sent[|sent| - 1].payload]
  }

  function SentFrom(sent: seq<Delivery>, q: nat): seq<seq<byte>> {
    if sent == [] then []
    else SentFrom(sent[..|sent| - 1], q) + if sent[|sent| - 1].q == q then [sent[|sent| - 1].payload] else []
  }

  function PayloadsOf(writes: seq<Write>): (r: seq<seq<byte>>)
    ensures |r| == |writes| && forall k | 0 <= k < |r| :: r[k] == writes[k].msg.payload
  {
    if writes == [] then [] else PayloadsOf(writes[..|writes| - 1]) + [writes[|writes| - 1].msg.payload]
  }

  lemma {:induction false} OneDelivery(sent: seq<Delivery>, m: Delivery, q: nat)
    ensures OnTheWire(sent + [m]) == OnTheWire(sent) + [m.payload]
    ensures SentFrom(sent + [m], q) == SentFrom(sent, q) + if m.q == q then [m.payload] else []
  {
    assert (sent + [m])[..|sent|] == sent;
  }

  // What a step writes from a queue.
  lemma {:induction false} StepWrites(s: State, e: Event, q: QueueId)
    requires Wf(s)
    ensures Wf(Step(s, e))
    ensures PayloadsOf(Step(s, e).lanes[q].writes)
            == PayloadsOf(s.lanes[q].writes)
               + if e.Run? && s.pc.Started? && s.pc.q == q then [s.lanes[q].msgs[s.pc.pos].payload] else []
  {
    hide PayloadsOf;
    hide Remaining;
    hide Removed;
    hide Scan;
    hide HasUnsent;
    hide Marked;
    StepKeepsWf(s, e);
    if e.Run? && s.pc.Started? && s.pc.q == q {
      OneWritten(s.lanes[q], s.pc.pos, s.now);
    }
  }

  lemma {:induction false} OneWritten(l: Lane, pos: nat, now: int)
    requires pos < |l.msgs|
    ensures PayloadsOf(WriteOn(l, pos, now).writes) == PayloadsOf(l.writes) + [l.msgs[pos].payload]
  {
    assert WriteOn(l, pos, now).writes[..|l.writes|] == l.writes;
  }

  lemma {:induction false} DeliveriesAreTheWrites(s0: State, events: seq<Event>, q: QueueId)
    requires Initial(s0)
    ensures OnTheWire(Deliveries(s0, events)) == WireOf(s0, events)
    ensures SentFrom(Deliveries(s0, events), q) == PayloadsOf(After(s0, events).lanes[q].writes)
  {
    hide Step;
    hide OnTheWire;
    hide SentFrom;
    hide PayloadsOf;
    if events == [] {
      NothingSent(s0, q);
    } else {
      var n := |events| - 1;
      var s, e := After(s0, events[..n]), events[n];
      DeliveriesAreTheWrites(s0, events[..n], q);
      StepWrites(s, e, q);
      if e.Run? && s.pc.Started? {
        OneDelivery(Deliveries(s0, events[..n]), Delivery(s.pc.q, s.lanes[s.pc.q].msgs[s.pc.pos].payload), q);
      } else {
        assert Deliveries(s0, events) == Deliveries(s0, events[..n]) && WireOf(s0, events) == WireOf(s0, events[..n]);
      }
    }
  }

  lemma {:induction false} NothingSent(s0: State, q: QueueId)
    requires Initial(s0)
    ensures OnTheWire([]) == [] && SentFrom([], q) == [] && PayloadsOf(s0.lanes[q].writes) == []
  {
  }

  /** First in, first out on the connection itself: what goes out is an interleaving of what the
      queues send, and the k-th message that goes out from a queue is the k-th one put on it. */
  lemma {:induction false} WireIsFifo(s0: State, events: seq<Event>, q: QueueId)
    requires Initial(s0)
    ensures OnTheWire(Deliveries(s0, events)) == WireOf(s0, events)
    ensures var out, put := SentFrom(Deliveries(s0, events), q), PutsOf(events, q);
            |out| <= |put| && forall k | 0 <= k < |out| :: out[k] == put[k].payload
  {
    hide Deliveries;
    hide WireOf;
    hide After;
    hide PutsOf;
    DeliveriesAreTheWrites(s0, events, q);
    forall k | 0 <= k < |SentFrom(Deliveries(s0, events), q)|
      ensures k < |PutsOf(events, q)| && SentFrom(Deliveries(s0, events), q)[k] == PutsOf(events, q)[k].payload
    {
      WritesAreFifo(s0, events, q, k);
      SameBytes(After(s0, events).lanes[q].writes[k].msg);
    }
    WritesAreFifo(s0, events, q, 0);
  }

  lemma {:induction false} SameBytes(m: Msg)
    ensures m.Bare().payload == m.payload
  {
  }
}
