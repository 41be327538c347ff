/** The scheduler as a state machine. Its thread takes the Run steps, one for each stretch
    between two points where other threads can come in: they put messages and deliver
    responses, and time passes. A run is any sequence of such events. */
module Steps {
  import opened Bytes
  import opened Messages

  const QUEUES: nat := 10
  const BUDGET: nat := 12

  type QueueId = q: nat | q < QUEUES

  // In milliseconds; fetchMsg refuses to look for a message before more than that has passed.
  function Interval(q: QueueId): int {
    if q < 5 then -1 else 2 * q
  }

  datatype Write = Write(msg: Msg, at: int)

  // A queue with its history: all messages ever put, the times at which one was fetched, the
  // writes, and the messages removed. Times are in microseconds.
  datatype Lane = Lane(msgs: seq<Msg>, lastFetch: int,
                       put: seq<Msg>, times: seq<int>, writes: seq<Write>, erased: seq<Msg>)

  // What was true of a queue when a pass found nothing to send in it.
  datatype Skip = Skip(unsent: bool, early: bool)

  // Where the scheduler's thread is. While it cleans: how many messages it has removed, and
  // how many sent ones it has found open. While it sends: the message fetched, by its place.
  datatype Pc =
    | OuterHead
    | Cleaning(q: nat, count: nat, open: nat)
    | InnerHead
    | Scanning(q: nat, skips: seq<Skip>)
    | Fetched(q: nat, pos: nat, skips: seq<Skip>)
    | Started(q: nat, pos: nat, skips: seq<Skip>)
    | Written(q: nat, pos: nat, skips: seq<Skip>)

  datatype State = State(toController: bool, lanes: seq<Lane>, credit: int, now: int, pc: Pc)

  datatype Event =
    | Put(q: QueueId, typ: byte, identity: nat, uid: byte, lldp: bool, payload: seq<byte>)
    | Ack(q: QueueId, response: nat)
    | Tick(d: nat)
    | Run

  predicate Sending(pc: Pc) {
    pc.Fetched? || pc.Started? || pc.Written?
  }

  ghost predicate Wf(s: State) {
    && |s.lanes| == QUEUES
    && (s.pc.Cleaning? || s.pc.Scanning? ==> s.pc.q <= QUEUES)
    && (Sending(s.pc) ==> s.pc.q < QUEUES && s.pc.pos < |s.lanes[s.pc.q].msgs|)
  }

  // ----- What happens to one queue.

  function PutOn(l: Lane, typ: byte, identity: nat, uid: byte, lldp: bool, payload: seq<byte>): Lane {
    var m := Msg(|l.put|, typ, identity, uid, if lldp then 0 else 1, 1.0, payload, false, false);
    l.(msgs := l.msgs + [m], put := l.put + [m])
  }

  function AckOn(l: Lane, response: nat): Lane {
    l.(msgs := Marked(l.msgs, response))
  }

  function CleanOn(l: Lane): Lane {
    l.(msgs := Remaining(l.msgs), erased := l.erased + Removed(l.msgs))
  }

  predicate Early(l: Lane, q: QueueId, now: int) {
    now - l.lastFetch <= 1000 * Interval(q)
  }

  function FetchOn(l: Lane, q: QueueId, now: int): (Lane, Option<nat>) {
    if Early(l, q, now) then (l, None)
    else if Scan(l.msgs).None? then (l.(lastFetch := now), None)
    else (l.(lastFetch := now, times := l.times + [now]), Scan(l.msgs))
  }

  function StartOn(l: Lane, pos: nat): Lane
    requires pos < |l.msgs|
  {
    l.(msgs := l.msgs[pos := l.msgs[pos].(inProcess := true)])
  }

  function WriteOn(l: Lane, pos: nat, now: int): Lane
    requires pos < |l.msgs|
  {
    l.(writes := l.writes + [Write(l.msgs[pos], now)])
  }

  function FinishOn(l: Lane, pos: nat): Lane
    requires pos < |l.msgs|
  {
    if l.msgs[pos].NeedNoTime() then l.(msgs := l.msgs[pos := l.msgs[pos].(finished := true)]) else l
  }

  predicate HasUnsent(ms: seq<Msg>) {
    exists k | 0 <= k < |ms| :: !ms[k].inProcess
  }

  // ----- The steps.

  // The thread goes on to pc, having changed the queue q to l.
  function Goto(s: State, pc: Pc, q: nat, l: Lane): State
    requires q < |s.lanes|
  {
    s.(lanes := s.lanes[q := l], pc := pc)
  }

  function RunStep(s: State): State
    requires Wf(s)
  {
    match s.pc
    case OuterHead =>
      s.(pc := if s.credit < 2 || s.toController then Cleaning(0, 0, 0) else InnerHead)
    case Cleaning(q, count, open) =>
      if q == QUEUES then s.(credit := s.credit + count, pc := InnerHead)
      else
        var l := s.lanes[q];
        Goto(s, Cleaning(q + 1, count + |Removed(l.msgs)|, open + Open(l.msgs)), q, CleanOn(l))
    case InnerHead =>
      s.(pc := if s.credit > 0 then Scanning(0, []) else OuterHead)
    case Scanning(q, skips) =>
      if q == QUEUES then s.(pc := OuterHead)
      else
        var l := s.lanes[q];
        var (next, found) := FetchOn(l, q, s.now);
        if found.Some? then Goto(s, Fetched(q, found.value, skips), q, next)
        else Goto(s, Scanning(q + 1, skips + [Skip(HasUnsent(l.msgs), Early(l, q, s.now))]), q, next)
    case Fetched(q, pos, skips) =>
      Goto(s, Started(q, pos, skips), q, StartOn(s.lanes[q], pos))
    case Started(q, pos, skips) =>
      Goto(s, Written(q, pos, skips), q, WriteOn(s.lanes[q], pos, s.now))
    case Written(q, pos, skips) =>
      var next := Goto(s, if s.toController then OuterHead else InnerHead, q, FinishOn(s.lanes[q], pos));
      if s.toController then next else next.(credit := s.credit - 1)
  }

  function Step(s: State, e: Event): State
    requires Wf(s)
  {
    match e
    case Put(q, typ, identity, uid, lldp, payload) =>
      Goto(s, s.pc, q, PutOn(s.lanes[q], typ, identity, uid, lldp, payload))
    case Ack(q, response) => Goto(s, s.pc, q, AckOn(s.lanes[q], response))
    case Tick(d) => s.(now := s.now + d)
    case Run => RunStep(s)
  }

  ghost predicate Initial(s: State) {
    && |s.lanes| == QUEUES && s.credit == BUDGET && s.pc == OuterHead
    && forall q | 0 <= q < QUEUES ::
         s.lanes[q] == Lane([], s.lanes[q].lastFetch, [], [], [], []) && s.lanes[q].lastFetch <= s.now
  }

  // ----- What every step keeps, for one queue.

  // What the thread is doing with a queue, and with which of its messages.
  datatype Busy = Idle | Chosen(pos: nat) | Going(pos: nat) | Gone(pos: nat)

  function BusyOf(pc: Pc, q: nat): Busy {
    match pc
    case Fetched(p, pos, _) => if p == q then Chosen(pos) else Idle
    case Started(p, pos, _) => if p == q then Going(pos) else Idle
    case Written(p, pos, _) => if p == q then Gone(pos) else Idle
    case _ => Idle
  }

  // How many messages have been started, and how many of those are still queued.
  ghost function StartedCount(l: Lane, b: Busy): nat {
    |l.writes| + if b.Going? then 1 else 0
  }

  ghost function Front(l: Lane, b: Busy): int {
    |l.msgs| - (|l.put| - StartedCount(l, b))
  }

  // The c messages started, of which n are left, come first; the others follow as they were
  // put.
  ghost predicate Shape(msgs: seq<Msg>, put: seq<Msg>, c: nat, n: nat) {
    && c <= |put| && n <= |msgs|
    && msgs[n..] == put[c..]
    && (forall k | 0 <= k < n :: msgs[k].inProcess)
  }

  ghost predicate AsPut(put: seq<Msg>) {
    forall k | 0 <= k < |put| :: put[k].id == k && Fresh(put[k])
  }

  // Each started message is queued or removed, and only one of both.
  ghost predicate Conserved(msgs: seq<Msg>, put: seq<Msg>, erased: seq<Msg>, c: nat, n: nat) {
    && c <= |put| && n <= |msgs|
    && multiset(put[..c]) == multiset(Bares(msgs[..n])) + multiset(Bares(erased))
  }

  // The k-th write is of the k-th message put.
  ghost predicate InPutOrder(writes: seq<Write>, put: seq<Msg>) {
    && |writes| <= |put|
    && forall k | 0 <= k < |writes| :: writes[k].msg.Bare() == put[k]
  }

  // The fetches are more than the queue's interval apart.
  ghost predicate Apart(times: seq<int>, k: nat, q: QueueId) {
    k + 1 < |times| ==> times[k + 1] - times[k] > 1000 * Interval(q)
  }

  ghost predicate Spaced(times: seq<int>, q: QueueId, lastFetch: int) {
    && (forall k: nat | k < |times| :: Apart(times, k, q))
    && (times != [] ==> times[|times| - 1] <= lastFetch)
  }

  // A message is written no earlier than it is fetched and before the next one is.
  ghost predicate Prompt(times: seq<int>, writes: seq<Write>, k: nat, now: int) {
    && k < |writes| && k < |times| && times[k] <= writes[k].at <= now
    && (k + 1 < |times| ==> writes[k].at <= times[k + 1])
  }

  ghost predicate Timed(times: seq<int>, writes: seq<Write>, now: int) {
    forall k: nat | k < |writes| :: Prompt(times, writes, k, now)
  }

  // Whatever is sent and open waits for a response, but for the message being sent.
  ghost predicate Waiting(ms: seq<Msg>, b: Busy) {
    forall k | 0 <= k < |ms| && ms[k].inProcess && !ms[k].finished ::
      !ms[k].NeedNoTime() || ((b.Going? || b.Gone?) && k == b.pos)
  }

  // What was removed had been written and finished.
  ghost predicate Settled(erased: seq<Msg>, written: nat) {
    forall k | 0 <= k < |erased| :: erased[k].id < written && erased[k].Done()
  }

  // The message the thread is busy with is the first unsent or the last sent one.
  ghost predicate Place(b: Busy, n: nat, size: nat) {
    && (b.Chosen? ==> b.pos == n < size)
    && (b.Going? || b.Gone? ==> b.pos + 1 == n)
  }

  ghost predicate LaneInv(l: Lane, q: QueueId, now: int, b: Busy) {
    var c, n := StartedCount(l, b), Front(l, b);
    && 0 <= n && Shape(l.msgs, l.put, c, n) && AsPut(l.put) && Conserved(l.msgs, l.put, l.erased, c, n)
    && Sorted(l.msgs) && Waiting(l.msgs, b) && Place(b, n, |l.msgs|)
    && InPutOrder(l.writes, l.put) && Spaced(l.times, q, l.lastFetch) && Timed(l.times, l.writes, now)
    && |l.times| == (if b.Chosen? then c + 1 else c) && l.lastFetch <= now
    && (b.Going? ==> b.pos < |l.msgs| && l.msgs[b.pos].id == |l.writes|)
    && Settled(l.erased, |l.writes|)
  }

  // A queued message is one that was put, but for its flags.
  lemma {:induction false} Origin(l: Lane, c: nat, n: nat, k: nat)
    requires Shape(l.msgs, l.put, c, n) && AsPut(l.put) && Conserved(l.msgs, l.put, l.erased, c, n) && k < |l.msgs|
    ensures l.msgs[k].id < |l.put| && l.msgs[k].Bare() == l.put[l.msgs[k].id]
    ensures l.msgs[k].inProcess <==> k < n
    ensures l.msgs[k].id < c <==> k < n
  {
    if k < n {
      var bares := Bares(l.msgs[..n]);
      assert bares[k] in multiset(bares) + multiset(Bares(l.erased));
      assert bares[k] in multiset(l.put[..c]);
    } else {
      assert l.msgs[n..][k - n] == l.put[c..][k - n];
    }
  }

  lemma {:induction false} Origins(l: Lane, c: nat, n: nat)
    requires Shape(l.msgs, l.put, c, n) && AsPut(l.put) && Conserved(l.msgs, l.put, l.erased, c, n)
    ensures forall k | 0 <= k < |l.msgs| ::
              l.msgs[k].id < |l.put| && Fresh(l.msgs[k].Bare()) && (l.msgs[k].inProcess <==> k < n)
  {
    forall k | 0 <= k < |l.msgs|
      ensures l.msgs[k].id < |l.put| && Fresh(l.msgs[k].Bare()) && (l.msgs[k].inProcess <==> k < n)
    {
      Origin(l, c, n, k);
    }
  }

  // Put, queued and removed messages, all together.
  lemma {:induction false} AllConserved(l: Lane, c: nat, n: nat)
    requires Shape(l.msgs, l.put, c, n) && AsPut(l.put) && Conserved(l.msgs, l.put, l.erased, c, n)
    ensures multiset(l.put) == multiset(Bares(l.msgs)) + multiset(Bares(l.erased))
  {
    hide Fresh;
    var front, back := l.msgs[..n], l.put[c..];
    assert l.put == l.put[..c] + back;
    assert l.msgs == front + back;
    BaresAppend(front, back);
    assert Bares(back) == back by {
      BaresOfFresh(l.put, c);
    }
  }

  lemma {:induction false} BaresOfFresh(put: seq<Msg>, c: nat)
    requires AsPut(put) && c <= |put|
    ensures Bares(put[c..]) == put[c..]
  {
  }

  // ----- A message is put.

  lemma {:induction false} PutShape(l: Lane, c: nat, n: nat, m: Msg)
    requires Shape(l.msgs, l.put, c, n) && AsPut(l.put) && Conserved(l.msgs, l.put, l.erased, c, n) && Sorted(l.msgs)
    requires m.id == |l.put| && Fresh(m)
    ensures var msgs, put := l.msgs + [m], l.put + [m];
            Shape(msgs, put, c, n) && AsPut(put) && Conserved(msgs, put, l.erased, c, n) && Sorted(msgs)
  {
    hide Fresh;
    var msgs, put := l.msgs + [m], l.put + [m];
    Origins(l, c, n);
    assert msgs[n..] == l.msgs[n..] + [m] && put[c..] == l.put[c..] + [m];
    assert put[..c] == l.put[..c] && msgs[..n] == l.msgs[..n];
  }

  lemma {:induction false} PutRest(l: Lane, m: Msg, b: Busy)
    requires InPutOrder(l.writes, l.put) && Waiting(l.msgs, b) && Fresh(m)
    ensures InPutOrder(l.writes, l.put + [m]) && Waiting(l.msgs + [m], b)
  {
  }

  lemma {:induction false} PutKeeps(l: Lane, q: QueueId, now: int, b: Busy,
                                    typ: byte, identity: nat, uid: byte, lldp: bool, payload: seq<byte>)
    requires LaneInv(l, q, now, b)
    ensures LaneInv(PutOn(l, typ, identity, uid, lldp, payload), q, now, b)
  {
    hide Shape;
    hide Conserved;
    hide AsPut;
    hide Sorted;
    hide InPutOrder;
    hide Waiting;
    hide Spaced;
    hide Timed;
    var r := PutOn(l, typ, identity, uid, lldp, payload);
    PutShape(l, StartedCount(l, b), Front(l, b), r.msgs[|l.msgs|]);
    PutRest(l, r.msgs[|l.msgs|], b);
  }

  // ----- The flags of a message change.

  // Other flags do not show in what was put.
  lemma {:induction false} FlagBares(ms: seq<Msg>, n: nat, p: nat, m: Msg)
    requires p < n <= |ms| && m.Bare() == ms[p].Bare()
    ensures Bares(ms[p := m][..n]) == Bares(ms[..n])
  {
    var before, after := Bares(ms[..n]), Bares(ms[p := m][..n]);
    forall k | 0 <= k < n
      ensures after[k] == before[k]
    {
      assert after[k] == ms[p := m][k].Bare() && before[k] == ms[k].Bare();
    }
  }

  lemma {:induction false} FlagSorted(ms: seq<Msg>, p: nat, m: Msg)
    requires Sorted(ms) && p < |ms| && m.id == ms[p].id
    ensures Sorted(ms[p := m])
  {
  }

  // A started message gets other flags.
  lemma {:induction false} FlagShape(l: Lane, c: nat, n: nat, p: nat, m: Msg)
    requires Shape(l.msgs, l.put, c, n) && Conserved(l.msgs, l.put, l.erased, c, n) && Sorted(l.msgs)
    requires p < n <= |l.msgs| && m.inProcess && m.Bare() == l.msgs[p].Bare()
    ensures var msgs := l.msgs[p := m];
            Shape(msgs, l.put, c, n) && Conserved(msgs, l.put, l.erased, c, n) && Sorted(msgs)
  {
    hide Sorted;
    hide Bares;
    assert l.msgs[p := m][n..] == l.msgs[n..];
    FlagBares(l.msgs, n, p, m);
    assert m.id == m.Bare().id == l.msgs[p].id;
    FlagSorted(l.msgs, p, m);
  }

  lemma {:induction false} AckKeeps(l: Lane, q: QueueId, now: int, b: Busy, response: nat)
    requires LaneInv(l, q, now, b)
    ensures LaneInv(AckOn(l, response), q, now, b)
  {
    hide Shape;
    hide Conserved;
    hide AsPut;
    hide Sorted;
    hide InPutOrder;
    hide Spaced;
    hide Timed;
    var c, n := StartedCount(l, b), Front(l, b);
    if FirstMatch(l.msgs, response).Some? {
      var p := FirstMatch(l.msgs, response).value;
      ShapeBounds(l.msgs, l.put, c, n);
      Origin(l, c, n, p);
      FlagShape(l, c, n, p, l.msgs[p].(finished := true));
    }
  }

  lemma {:induction false} ShapeBounds(msgs: seq<Msg>, put: seq<Msg>, c: nat, n: nat)
    requires Shape(msgs, put, c, n)
    ensures c <= |put| && n <= |msgs|
  {
  }

  lemma {:induction false} TickKeeps(l: Lane, q: QueueId, now: int, b: Busy, d: nat)
    requires LaneInv(l, q, now, b)
    ensures LaneInv(l, q, now + d, b)
  {
    var later := now + d;
    forall k: nat | k < |l.writes|
      ensures Prompt(l.times, l.writes, k, later)
    {
      assert Prompt(l.times, l.writes, k, now);
    }
  }

  // ----- The queue is cleaned.

  lemma {:induction false} CleanShape(l: Lane, c: nat, n: nat)
    requires Shape(l.msgs, l.put, c, n) && AsPut(l.put) && Conserved(l.msgs, l.put, l.erased, c, n)
    ensures n <= |l.msgs| && |Remaining(l.msgs)| == |Remaining(l.msgs[..n])| + |l.msgs| - n
    ensures Shape(Remaining(l.msgs), l.put, c, |Remaining(l.msgs[..n])|)
    ensures Remaining(l.msgs)[..|Remaining(l.msgs[..n])|] == Remaining(l.msgs[..n])
    ensures Removed(l.msgs) == Removed(l.msgs[..n])
  {
    hide Conserved;
    var front, back := l.msgs[..n], l.msgs[n..];
    assert l.msgs == front + back;
    Origins(l, c, n);
    NoneSent(back);
    RemainingAppend(front, back);
    var r := Remaining(l.msgs);
    assert r[..|Remaining(front)|] == Remaining(front) && r[|Remaining(front)|..] == back;
    RemainingMembers(front);
  }

  lemma {:induction false} CleanConserved(msgs: seq<Msg>, put: seq<Msg>, erased: seq<Msg>, c: nat, n: nat, m: nat)
    requires Conserved(msgs, put, erased, c, n) && m == |Remaining(msgs[..n])| <= |Remaining(msgs)|
    requires Remaining(msgs)[..m] == Remaining(msgs[..n]) && Removed(msgs) == Removed(msgs[..n])
    ensures Conserved(Remaining(msgs), put, erased + Removed(msgs), c, m)
  {
    CleanSplitsBares(msgs[..n]);
    BaresAppend(erased, Removed(msgs[..n]));
  }

  lemma {:induction false} CleanSettled(l: Lane, c: nat, n: nat)
    requires Shape(l.msgs, l.put, c, n) && AsPut(l.put) && Conserved(l.msgs, l.put, l.erased, c, n)
    requires Settled(l.erased, c)
    ensures Settled(l.erased + Removed(l.msgs), c)
  {
    CleanSorts(l.msgs);
    RemovedMembers(l.msgs);
    forall k | 0 <= k < |Removed(l.msgs)|
      ensures Removed(l.msgs)[k].id < c
    {
      var j :| 0 <= j < |l.msgs| && l.msgs[j] == Removed(l.msgs)[k];
      Origin(l, c, n, j);
    }
  }

  lemma {:induction false} CleanWaiting(ms: seq<Msg>)
    requires Waiting(ms, Idle)
    ensures Waiting(Remaining(ms), Idle)
  {
    RemainingMembers(ms);
  }

  lemma {:induction false} CleanKeeps(l: Lane, q: QueueId, now: int)
    requires LaneInv(l, q, now, Idle)
    ensures LaneInv(CleanOn(l), q, now, Idle)
  {
    hide Shape;
    hide Conserved;
    hide AsPut;
    hide Sorted;
    hide InPutOrder;
    hide Waiting;
    hide Spaced;
    hide Timed;
    hide Remaining;
    hide Removed;
    hide Settled;
    var c, n := StartedCount(l, Idle), Front(l, Idle);
    CleanShape(l, c, n);
    CleanConserved(l.msgs, l.put, l.erased, c, n, |Remaining(l.msgs[..n])|);
    CleanSettled(l, c, n);
    RemainingSorted(l.msgs);
    CleanWaiting(l.msgs);
  }

  // ----- A message is fetched, started, written and, unless it waits for a response,
  // finished.

  lemma {:induction false} FetchTimed(l: Lane, q: QueueId, now: int)
    requires Spaced(l.times, q, l.lastFetch) && Timed(l.times, l.writes, now) && |l.writes| == |l.times|
    requires !Early(l, q, now)
    ensures Spaced(l.times + [now], q, now) && Timed(l.times + [now], l.writes, now)
  {
    var times := l.times + [now];
    forall k: nat | k < |times|
      ensures Apart(times, k, q)
    {
      assert k < |l.times| ==> Apart(l.times, k, q);
    }
    forall k: nat | k < |l.writes|
      ensures Prompt(times, l.writes, k, now)
    {
      assert Prompt(l.times, l.writes, k, now);
    }
  }

  lemma {:induction false} ScanFinds(l: Lane, c: nat, n: nat)
    requires Shape(l.msgs, l.put, c, n) && AsPut(l.put) && Conserved(l.msgs, l.put, l.erased, c, n)
    ensures Scan(l.msgs) == if n == |l.msgs| then None else Some(n)
    ensures HasUnsent(l.msgs) <==> n < |l.msgs|
  {
    hide Conserved;
    Origins(l, c, n);
    ScanIsFifo(l.msgs, n, 0);
    assert n < |l.msgs| ==> !l.msgs[n].inProcess;
  }

  // fetchMsg takes the oldest message not sent yet.
  lemma {:induction false} FetchKeeps(l: Lane, q: QueueId, now: int)
    requires LaneInv(l, q, now, Idle)
    ensures var (r, found) := FetchOn(l, q, now);
            && LaneInv(r, q, now, if found.Some? then Chosen(found.value) else Idle)
            && r.msgs == l.msgs && r.erased == l.erased
            && (found.None? ==> !HasUnsent(l.msgs) || Early(l, q, now))
  {
    hide Conserved;
    hide AsPut;
    hide Sorted;
    hide InPutOrder;
    hide Timed;
    hide Scan;
    hide HasUnsent;
    ScanFinds(l, StartedCount(l, Idle), Front(l, Idle));
    if !Early(l, q, now) {
      FetchTimed(l, q, now);
    }
  }

  lemma {:induction false} StartShape(l: Lane, c: nat, n: nat)
    requires Shape(l.msgs, l.put, c, n) && AsPut(l.put) && n < |l.msgs|
    ensures c < |l.put| && l.msgs[n] == l.put[c] && Fresh(l.put[c]) && l.put[c].id == c
    ensures Shape(l.msgs[n := l.msgs[n].(inProcess := true)], l.put, c + 1, n + 1)
  {
    var msgs := l.msgs[n := l.msgs[n].(inProcess := true)];
    assert l.msgs[n] == l.msgs[n..][0] == l.put[c..][0];
    assert msgs[n + 1..] == l.msgs[n..][1..] && l.put[c + 1..] == l.put[c..][1..];
  }

  lemma {:induction false} StartConserved(l: Lane, c: nat, n: nat, m: Msg)
    requires Conserved(l.msgs, l.put, l.erased, c, n) && n < |l.msgs| && c < |l.put| && m.Bare() == l.put[c]
    ensures Conserved(l.msgs[n := m], l.put, l.erased, c + 1, n + 1)
  {
    hide Bares;
    assert l.put[..c + 1] == l.put[..c] + [l.put[c]];
    assert l.msgs[n := m][..n + 1] == l.msgs[..n] + [m];
    BaresAppend(l.msgs[..n], [m]);
    BareOfOne(m);
  }

  lemma {:induction false} BareOfOne(m: Msg)
    ensures Bares([m]) == [m.Bare()]
  {
  }

  lemma {:induction false} StartRest(ms: seq<Msg>, n: nat)
    requires Sorted(ms) && Waiting(ms, Chosen(n)) && n < |ms|
    ensures Sorted(ms[n := ms[n].(inProcess := true)]) && Waiting(ms[n := ms[n].(inProcess := true)], Going(n))
  {
  }

  lemma {:induction false} StartKeeps(l: Lane, q: QueueId, now: int, pos: nat)
    requires LaneInv(l, q, now, Chosen(pos))
    ensures pos < |l.msgs| && LaneInv(StartOn(l, pos), q, now, Going(pos))
  {
    hide Shape;
    hide Conserved;
    hide AsPut;
    hide Sorted;
    hide Waiting;
    hide InPutOrder;
    hide Spaced;
    hide Timed;
    var c := StartedCount(l, Chosen(pos));
    StartShape(l, c, pos);
    StartConserved(l, c, pos, l.msgs[pos].(inProcess := true));
    StartRest(l.msgs, pos);
  }

  lemma {:induction false} WriteRest(l: Lane, q: QueueId, now: int, m: Msg)
    requires InPutOrder(l.writes, l.put) && Spaced(l.times, q, l.lastFetch) && Timed(l.times, l.writes, now)
    requires |l.writes| + 1 == |l.times| <= |l.put| && m.Bare() == l.put[|l.writes|] && l.lastFetch <= now
    ensures InPutOrder(l.writes + [Write(m, now)], l.put) && Timed(l.times, l.writes + [Write(m, now)], now)
  {
    var writes := l.writes + [Write(m, now)];
    forall k: nat | k < |writes|
      ensures Prompt(l.times, writes, k, now)
    {
      assert k < |l.writes| ==> Prompt(l.times, l.writes, k, now);
    }
  }

  lemma {:induction false} WriteKeeps(l: Lane, q: QueueId, now: int, pos: nat)
    requires LaneInv(l, q, now, Going(pos))
    ensures pos < |l.msgs| && LaneInv(WriteOn(l, pos, now), q, now, Gone(pos))
  {
    hide Conserved;
    hide AsPut;
    hide Sorted;
    hide InPutOrder;
    hide Spaced;
    hide Timed;
    Origin(l, StartedCount(l, Going(pos)), pos + 1, pos);
    WriteRest(l, q, now, l.msgs[pos]);
  }

  lemma {:induction false} FinishKeeps(l: Lane, q: QueueId, now: int, pos: nat)
    requires LaneInv(l, q, now, Gone(pos))
    ensures pos < |l.msgs| && LaneInv(FinishOn(l, pos), q, now, Idle)
  {
    hide Conserved;
    hide AsPut;
    hide Sorted;
    hide InPutOrder;
    hide Spaced;
    hide Timed;
    var c, n := StartedCount(l, Gone(pos)), Front(l, Gone(pos));
    Origin(l, c, n, pos);
    FlagShape(l, c, n, pos, FinishOn(l, pos).msgs[pos]);
  }
}
