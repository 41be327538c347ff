/** The rate limit is one on fetches. A run that shows writes closer together than the
    interval of their queue, because the thread is held up between a fetch and its write. */
module CloseWrites {
  import opened Bytes
  import opened Formats
  import opened Messages
  import opened Steps
  import opened Guarantees

  // The queue of PACKET_OUTs with a heavy sender.
  const DEMOTED: QueueId := 8

  // The queues before it are empty, this one is l, and there is budget left.
  ghost predicate Before(s: State, l: Lane) {
    && Wf(s) && !s.toController && s.credit >= 2 && s.lanes[DEMOTED] == l
    && forall q: QueueId | q < DEMOTED :: s.lanes[q].msgs == [] && s.lanes[q].lastFetch <= s.now
  }

  lemma {:induction false} Go(s0: State, events: seq<Event>, e: Event) returns (next: seq<Event>, s: State)
    requires Initial(s0)
    ensures next == events + [e] && Wf(After(s0, events)) && s == Step(After(s0, events), e) == After(s0, next)
  {
    next := events + [e];
    AfterOne(s0, events, e);
    s := After(s0, next);
  }

  // From a loop head to the queue.
  lemma {:induction false} PassToQueue(s0: State, events: seq<Event>, l: Lane) returns (next: seq<Event>, s: State)
    requires Initial(s0) && Before(After(s0, events), l) && After(s0, events).pc.InnerHead?
    ensures s == After(s0, next) && Before(s, l) && s.now == After(s0, events).now
    ensures s.pc.Scanning? && s.pc.q == DEMOTED
    ensures s.credit == After(s0, events).credit
  {
    hide After;
    next, s := Go(s0, events, Run);
    next, s := ScanToQueue(s0, next, l, 0);
  }

  lemma {:induction false} ScanToQueue(s0: State, events: seq<Event>, l: Lane, q: nat)
    returns (next: seq<Event>, s: State)
    requires Initial(s0) && Before(After(s0, events), l)
    requires q <= DEMOTED && After(s0, events).pc.Scanning? && After(s0, events).pc.q == q
    ensures s == After(s0, next) && Before(s, l) && s.now == After(s0, events).now
    ensures s.pc.Scanning? && s.pc.q == DEMOTED
    ensures s.credit == After(s0, events).credit
    decreases DEMOTED - q
  {
    hide After;
    next, s := events, After(s0, events);
    if q < DEMOTED {
      EmptyScan(s, l, q);
      next, s := Go(s0, events, Run);
      next, s := ScanToQueue(s0, next, l, q + 1);
    }
  }

  lemma {:induction false} EmptyScan(s: State, l: Lane, q: QueueId)
    requires Before(s, l) && s.pc.Scanning? && s.pc.q == q < DEMOTED
    ensures var r := RunStep(s);
            Before(r, l) && r.now == s.now && r.pc.Scanning? && r.pc.q == q + 1 && r.credit == s.credit
  {
    assert Scan(s.lanes[q].msgs) == None;
  }

  // Fetches and starts the first message of the queue.
  lemma {:induction false} Take(s0: State, events: seq<Event>, l: Lane) returns (next: seq<Event>, s: State, r: Lane)
    requires Initial(s0) && Before(After(s0, events), l)
    requires After(s0, events).pc.Scanning? && After(s0, events).pc.q == DEMOTED
    requires After(s0, events).now - l.lastFetch > 16000 && Scan(l.msgs).Some?
    ensures var was, pos := After(s0, events), Scan(l.msgs).value;
            && s == After(s0, next) && Before(s, r) && s.now == was.now && s.pc == Started(DEMOTED, pos, was.pc.skips)
            && s.credit == was.credit
            && r == StartOn(l.(lastFetch := was.now, times := l.times + [was.now]), pos)
  {
    hide After;
    hide Scan;
    var pos := Scan(l.msgs).value;
    next, s := Go(s0, events, Run);
    next, s := Go(s0, next, Run);
    r := s.lanes[DEMOTED];
  }

  // Writes the message started on the queue.
  lemma {:induction false} WriteIt(s0: State, events: seq<Event>, l: Lane) returns (next: seq<Event>, s: State)
    requires Initial(s0) && Before(After(s0, events), l)
    requires After(s0, events).pc.Started? && After(s0, events).pc.q == DEMOTED
    ensures var was, pos := After(s0, events), After(s0, events).pc.pos;
            && s == After(s0, next) && Before(s, WriteOn(l, pos, was.now)) && s.now == was.now
            && s.pc == Written(DEMOTED, pos, was.pc.skips) && s.credit == was.credit
  {
    hide After;
    next, s := Go(s0, events, Run);
  }

  // Time passes.
  lemma {:induction false} Wait(s0: State, events: seq<Event>, l: Lane, d: nat) returns (next: seq<Event>, s: State)
    requires Initial(s0) && Before(After(s0, events), l)
    ensures s == After(s0, next) == After(s0, events).(now := After(s0, events).now + d) && Before(s, l)
  {
    hide After;
    next, s := Go(s0, events, Tick(d));
  }

  ghost predicate IsPacketOut(m: Msg) {
    m.typ == PACKET_OUT && ParsePacketOut(m.payload).Some?
  }

  lemma {:induction false} APacketOut() returns (payload: seq<byte>)
    ensures ParsePacketOut(payload).Some?
  {
    var p := PacketOut(4, Zeros(12), Zeros(6), [], Zeros(14));
    payload := PacketOutBytes(p);
    PacketOutParseBack(p);
  }

  // A fresh scheduler that gets two PACKET_OUTs on the queue and enters its loop.
  lemma {:induction false} Begin() returns (s0: State, next: seq<Event>, s: State, l: Lane)
    ensures Initial(s0) && s == After(s0, next) && Before(s, l) && s.pc.InnerHead? && s.now == 20000 && s.credit == 12
    ensures l.lastFetch == 0 && l.times == [] && l.writes == []
    ensures |l.msgs| == 2 && forall k | 0 <= k < 2 :: Fresh(l.msgs[k]) && IsPacketOut(l.msgs[k])
  {
    hide After;
    hide PacketOutBytes;
    hide ParsePacketOut;
    var payload := APacketOut();
    var empty := Lane([], 0, [], [], [], []);
    s0 := State(false, seq(QUEUES, _ => empty), BUDGET, 20000, OuterHead);
    assert After(s0, []) == s0 by {
      NoEvents(s0);
    }
    next, s := Go(s0, [], Put(DEMOTED, PACKET_OUT, 0, 0, false, payload));
    next, s := Go(s0, next, Put(DEMOTED, PACKET_OUT, 0, 0, false, payload));
    next, s := Go(s0, next, Run);
    l := s.lanes[DEMOTED];
  }

  lemma {:induction false} NoEvents(s0: State)
    requires Initial(s0)
    ensures After(s0, []) == s0
  {
  }

  // One message goes all the way, held up for d before it is written.
  lemma {:induction false} SendOne(s0: State, events: seq<Event>, l: Lane, d: nat)
    returns (next: seq<Event>, s: State, r: Lane)
    requires Initial(s0) && Before(After(s0, events), l) && After(s0, events).credit >= 3
    requires After(s0, events).pc.Scanning? && After(s0, events).pc.q == DEMOTED
    requires After(s0, events).now - l.lastFetch > 16000 && Scan(l.msgs).Some?
    ensures var was, pos := After(s0, events), Scan(l.msgs).value;
            && s == After(s0, next) && Before(s, r) && s.pc.InnerHead?
            && s.now == was.now + d && s.credit == was.credit - 1
            && r.lastFetch == was.now && |r.msgs| == |l.msgs| && r.msgs[pos].inProcess
            && r.msgs[pos].Bare() == l.msgs[pos].Bare()
            && (forall k | 0 <= k < |l.msgs| && k != pos :: r.msgs[k] == l.msgs[k])
            && |r.writes| == |l.writes| + 1 && r.writes[..|l.writes|] == l.writes
            && r.writes[|l.writes|].at == was.now + d && r.writes[|l.writes|].msg.Bare() == l.msgs[pos].Bare()
  {
    hide After;
    hide Scan;
    next, s, r := Take(s0, events, l);
    next, s := Wait(s0, next, r, d);
    next, s := WriteIt(s0, next, r);
    next, s := Go(s0, next, Run);
    r := s.lanes[DEMOTED];
  }

  /** Queue 8 has an interval of 16 ms, and two PACKET_OUTs on it are written within 2 ms: the
      first was held up for 15 ms after its fetch. */
  lemma {:induction false} WritesCanBeClose() returns (s0: State, events: seq<Event>)
    ensures Initial(s0)
    ensures var l := After(s0, events).lanes[DEMOTED];
            && |l.writes| == 2 && l.writes[1].at - l.writes[0].at < 2000 < 1000 * Interval(DEMOTED)
            && forall k | 0 <= k < 2 :: IsPacketOut(l.writes[k].msg)
  {
    hide After;
    hide ParsePacketOut;
    var s, l;
    s0, events, s, l := Begin();
    events, s := PassToQueue(s0, events, l);
    ScanIsFifo(l.msgs, 0, 0);
    var one;
    events, s, one := SendOne(s0, events, l, 15000);
    events, s := PassToQueue(s0, events, one);
    events, s := Wait(s0, events, one, 1001);
    ScanIsFifo(one.msgs, 1, 0);
    var two;
    events, s, two := SendOne(s0, events, one, 0);
  }
}
