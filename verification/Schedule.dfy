/** Schedule: ten queues and the loop that serves them, together with what other threads do
    between its steps. The objects are kept in agreement with the state machine of Steps, so
    everything proved about its runs holds of them. */
module Schedules {
  import opened Bytes
  import opened Messages
  import opened Queues
  import opened Responses
  import opened Steps
  import opened Runs
  import opened Guarantees

  // The queue with number q is what the lane says.
  ghost predicate Shows(queue: Queue, q: QueueId, l: Lane)
    reads queue, queue.msgQueue
  {
    && queue.index == q && queue.interval == Interval(q) && queue.Valid()
    && Views(queue.msgQueue) == l.msgs && queue.lastFetch == l.lastFetch
  }

  // A write does not show in the objects.
  lemma {:induction false} WriteShows(queue: Queue, q: QueueId, l: Lane, pos: nat, now: int)
    requires Shows(queue, q, l) && pos < |queue.msgQueue|
    ensures |queue.msgQueue| == |l.msgs| && queue.msgQueue[pos].View() == l.msgs[pos]
    ensures Shows(queue, q, WriteOn(l, pos, now))
  {
  }

  // The messages of the lanes.
  ghost function MsgsOf(lanes: seq<Lane>): (r: seq<seq<Msg>>)
    ensures |r| == |lanes| && forall q | 0 <= q < |lanes| :: r[q] == lanes[q].msgs
  {
    if lanes == [] then [] else MsgsOf(lanes[..|lanes| - 1]) + [lanes[|lanes| - 1].msgs]
  }

  // How many things other threads still do from step t on.
  function Left(world: seq<seq<Event>>, t: nat): (n: nat)
    ensures t < |world| ==> n == |world[t]| + Left(world, t + 1)
    decreases |world| - t
  {
    if t >= |world| then 0 else |world[t]| + Left(world, t + 1)
  }

  // The first t steps of the scheduler's thread, each after what the others do before it.
  function Woven(world: seq<seq<Event>>, t: nat): seq<Event> {
    if t == 0 then []
    else Woven(world, t - 1) + (if t <= |world| then world[t - 1] else []) + [Event.Run]
  }

  lemma {:induction false} WovenOn(world: seq<seq<Event>>, t: nat, base: seq<Event>)
    ensures base + Woven(world, t + 1) == (base + Woven(world, t) + (if t < |world| then world[t] else [])) + [Event.Run]
    ensures base + Woven(world, t) + [] == base + Woven(world, t)
  {
    var w, e := Woven(world, t), if t < |world| then world[t] else [];
    Assoc(base, w, e);
    Assoc(base, w + e, [Event.Run]);
  }

  // Offering a response to a queue, after the queues before it had no use for it.
  lemma {:induction false} OfferedTo(s: State, q: QueueId, response: nat)
    requires Wf(s) && forall j | 0 <= j < q :: FirstMatch(s.lanes[j].msgs, response).None?
    ensures var r := Step(s, Ack(q, response));
            if FirstMatch(s.lanes[q].msgs, response).None? then r == s
            else r == s.(lanes := r.lanes) && MsgsOf(r.lanes) == Respond(MsgsOf(s.lanes), response)
  {
    hide Respond;
    var l, r := s.lanes[q], Step(s, Ack(q, response));
    if FirstMatch(l.msgs, response).None? {
      assert AckOn(l, response) == l;
      assert s.lanes[q := l] == s.lanes;
    } else {
      RespondAt(MsgsOf(s.lanes), response, q);
      assert MsgsOf(r.lanes) == MsgsOf(s.lanes)[q := Marked(l.msgs, response)];
    }
  }

  lemma {:induction false} OfferedToNone(s: State, response: nat)
    requires forall j | 0 <= j < |s.lanes| :: FirstMatch(s.lanes[j].msgs, response).None?
    ensures Respond(MsgsOf(s.lanes), response) == MsgsOf(s.lanes)
  {
    RespondAt(MsgsOf(s.lanes), response, |s.lanes|);
  }

  // ----- One queue at a time.

  lemma {:induction false} PutSorted(l: Lane, q: QueueId, now: int, b: Busy, m: Msg)
    requires LaneInv(l, q, now, b) && m.id == |l.put|
    ensures Sorted(l.msgs + [m])
  {
    Origins(l, StartedCount(l, b), Front(l, b));
  }

  method PutOnQueue(queue: Queue, q: QueueId, ghost l: Lane, ghost now: int, ghost b: Busy,
                    typ: byte, identity: nat, uid: byte, lldp: bool, payload: seq<byte>) returns (m: OfpMsg)
    requires Shows(queue, q, l) && LaneInv(l, q, now, b)
    modifies queue`msgQueue
    ensures fresh(m) && queue.msgQueue == old(queue.msgQueue) + [m]
    ensures Shows(queue, q, PutOn(l, typ, identity, uid, lldp, payload))
  {
    hide LaneInv;
    hide Sorted;
    ghost var was := queue.msgQueue;
    m := new OfpMsg(typ, identity, uid, if lldp then 0 else 1, 1.0, payload, q, |l.put|);
    queue.PutMsg(m);
    ViewsAppend(was, [m]);
    PutSorted(l, q, now, b, m.View());
    assert Views(queue.msgQueue) == l.msgs + [m.View()];
  }

  method MarkOnQueue(queue: Queue, q: QueueId, ghost l: Lane, response: nat) returns (marked: bool)
    requires Shows(queue, q, l)
    modifies set m | m in queue.msgQueue
    ensures Shows(queue, q, AckOn(l, response)) && (marked <==> FirstMatch(l.msgs, response).Some?)
  {
    hide Marked;
    hide Views;
    hide Sorted;
    marked := queue.MarkFinished(response);
  }

  method CleanOnQueue(queue: Queue, q: QueueId, ghost l: Lane) returns (count: nat)
    requires Shows(queue, q, l) && |l.msgs| < TWO_64
    modifies queue`msgQueue
    ensures Shows(queue, q, CleanOn(l)) && count == |Removed(l.msgs)|
    ensures (forall m | m in queue.msgQueue :: m in old(queue.msgQueue)) && |queue.msgQueue| <= |old(queue.msgQueue)|
  {
    hide Remaining;
    hide Removed;
    hide Views;
    hide Sorted;
    count := queue.CleanFinishMsg();
  }

  method FetchOnQueue(queue: Queue, q: QueueId, ghost l: Lane, now: int) returns (m: OfpMsg?, ghost pos: nat)
    requires Shows(queue, q, l)
    modifies queue`lastFetch
    ensures Shows(queue, q, FetchOn(l, q, now).0)
    ensures FetchOn(l, q, now).1 == if m == null then None else Some(pos)
    ensures m != null ==> pos < |queue.msgQueue| && m == queue.msgQueue[pos]
  {
    hide Scan;
    hide Views;
    hide Sorted;
    m, pos := queue.FetchMsg(now);
  }

  // Of the values of a queue's messages only one changes.
  lemma {:induction false} OneFlag(views: seq<Msg>, ms: seq<Msg>, pos: nat, view: Msg)
    requires |views| == |ms| && pos < |ms| && views[pos] == view && view.id == ms[pos].id
    requires forall k | 0 <= k < |ms| && k != pos :: views[k] == ms[k]
    ensures views == ms[pos := view] && (Sorted(ms) ==> Sorted(views))
  {
  }

  // In a sorted queue every object stands once.
  lemma {:induction false} StandsOnce(queue: Queue, q: QueueId, l: Lane, pos: nat)
    requires Shows(queue, q, l) && pos < |queue.msgQueue|
    ensures |l.msgs| == |queue.msgQueue| && l.msgs[pos] == queue.msgQueue[pos].View()
    ensures forall k | 0 <= k < |l.msgs| && k != pos ::
              queue.msgQueue[k] != queue.msgQueue[pos] && queue.msgQueue[k].View() == l.msgs[k]
  {
    forall k | 0 <= k < |l.msgs| && k != pos
      ensures queue.msgQueue[k] != queue.msgQueue[pos] && queue.msgQueue[k].View() == l.msgs[k]
    {
      assert l.msgs[k].id != l.msgs[pos].id;
    }
  }

  method StartOnQueue(queue: Queue, q: QueueId, ghost l: Lane, m: OfpMsg, ghost pos: nat)
    requires Shows(queue, q, l) && pos < |queue.msgQueue| == |l.msgs| && m == queue.msgQueue[pos]
    modifies m
    ensures Shows(queue, q, StartOn(l, pos))
  {
    StandsOnce(queue, q, l, pos);
    m.inProcess := true;
    OneFlag(Views(queue.msgQueue), l.msgs, pos, m.View());
  }

  method FinishOnQueue(queue: Queue, q: QueueId, ghost l: Lane, m: OfpMsg, ghost pos: nat)
    requires Shows(queue, q, l) && pos < |queue.msgQueue| == |l.msgs| && m == queue.msgQueue[pos]
    modifies m
    ensures Shows(queue, q, FinishOn(l, pos))
  {
    StandsOnce(queue, q, l, pos);
    var needsNoTime := queue.MsgNeedNoTime(m);
    if needsNoTime {
      m.finished := true;
      OneFlag(Views(queue.msgQueue), l.msgs, pos, m.View());
    }
  }

  class Schedule {
    const queues: seq<Queue>
    const toController: bool
    var clock: int
    var wire: seq<seq<byte>>
    ghost var start: State
    ghost var trace: seq<Event>
    ghost var st: State

    constructor (toController: bool, now: int)
      ensures Coupled() && trace == [] && st == start && st.pc == OuterHead && st.credit == BUDGET && wire == []
      ensures this.toController == toController && clock == now && Objects() == {}
      ensures forall q | 0 <= q < |queues| :: fresh(queues[q]) && queues[q].msgQueue == []
      ensures |queues| == 10 && st.credit == 12
      ensures forall q | 0 <= q < |queues| :: queues[q].interval == if q < 5 then -1 else 2 * q
    {
      var qs: seq<Queue> := [];
      ghost var lanes: seq<Lane> := [];
      for i := 0 to QUEUES
        invariant |qs| == i == |lanes|
        invariant forall q: QueueId | q < i :: fresh(qs[q]) && qs[q].msgQueue == [] && Shows(qs[q], q, lanes[q])
        invariant forall q | 0 <= q < i :: lanes[q] == Lane([], now, [], [], [], [])
        invariant forall q | 0 <= q < i :: qs[q].interval == if q < 5 then -1 else 2 * q
      {
        var q := new Queue(if i < 5 then -1 else i * 2, now, i);
        qs := qs + [q];
        lanes := lanes + [Lane([], now, [], [], [], [])];
      }
      queues := qs;
      this.toController := toController;
      clock, wire := now, [];
      start := State(toController, lanes, BUDGET, now, OuterHead);
      st, trace := start, [];
    }

    ghost function Objects(): set<object>
      reads this, queues
      ensures forall q, m | q in queues && m in q.msgQueue :: m in Objects()
    {
      set q, m | q in queues && m in q.msgQueue :: m
    }

    ghost predicate Lanes(lanes: seq<Lane>)
      reads this, queues, Objects()
    {
      && |queues| == QUEUES == |lanes|
      && forall q: QueueId :: queues[q].index == q && Shows(queues[q], q, lanes[q])
    }

    // The objects show the state that the run so far leads to.
    ghost predicate Coupled()
      reads this, queues, Objects()
    {
      && Lanes(st.lanes) && clock == st.now && st.toController == toController
      && Initial(start) && st == After(start, trace) && wire == WireOf(start, trace)
    }

    // The machine takes a step the objects have taken already.
    ghost method Follow(e: Event)
      requires Initial(start) && st == After(start, trace)
      modifies this`st, this`trace
      ensures st == Step(old(st), e) && trace == old(trace) + [e] && st == After(start, trace)
      ensures !e.Run? || !old(st).pc.Started? ==> WireOf(start, trace) == WireOf(start, old(trace))
      ensures e.Run? && old(st).pc.Started? ==>
                WireOf(start, trace)
                == WireOf(start, old(trace)) + [old(st).lanes[old(st).pc.q].msgs[old(st).pc.pos].payload]
    {
      hide After;
      hide WireOf;
      hide Step;
      AfterOne(start, trace, e);
      st := Step(st, e);
      trace := trace + [e];
    }

    // A step that touches no queue.
    ghost method Pass()
      requires Coupled() && RunStep(st).lanes == st.lanes && !st.pc.Started?
      modifies this`st, this`trace
      ensures Coupled() && st == RunStep(old(st)) && Objects() == old(Objects()) && Grown(0)
      ensures trace == old(trace) + [Event.Run]
    {
      hide Shows;
      hide After;
      hide WireOf;
      hide Initial;
      Follow(Event.Run);
    }

    // No queue holds a message of another one.
    lemma {:induction false} NothingShared(q: QueueId)
      requires Lanes(st.lanes)
      ensures forall p: QueueId, m | p != q && m in queues[p].msgQueue :: m !in queues[q].msgQueue
    {
      forall p: QueueId, m | p != q && m in queues[p].msgQueue
        ensures m !in queues[q].msgQueue
      {
        assert Shows(queues[p], p, st.lanes[p]) && Shows(queues[q], q, st.lanes[q]);
      }
    }

    // A queue and the invariant of its lane.
    lemma {:induction false} LaneFacts(q: QueueId)
      requires Coupled()
      ensures Inv(st) && LaneInv(st.lanes[q], q, st.now, BusyOf(st.pc, q)) && Shows(queues[q], q, st.lanes[q])
      ensures |queues[q].msgQueue| == |st.lanes[q].msgs|
    {
      hide LaneInv;
      hide Inv;
      RunKeepsInv(start, trace);
      LaneOf(st, q);
    }

    // The interval of a queue, in milliseconds.
    lemma {:induction false} IntervalOf(q: QueueId)
      requires Coupled()
      ensures |queues| == 10 && queues[q].interval == if q < 5 then -1 else 2 * q
    {
      hide Views;
      hide After;
      hide WireOf;
      assert Shows(queues[q], q, st.lanes[q]);
    }

    // What a put does to the lanes.
    lemma {:induction false} PutShows(s: State, q: QueueId, typ: byte, identity: nat, uid: byte, lldp: bool,
                                      payload: seq<byte>)
      requires Wf(s)
      ensures var l, r := s.lanes[q], Step(s, Put(q, typ, identity, uid, lldp, payload));
              var m := Msg(|l.put|, typ, identity, uid, if lldp then 0 else 1, 1.0, payload, false, false);
              && |r.lanes| == 10 && r.lanes[q].put == l.put + [m] && r.lanes[q].msgs == l.msgs + [m]
              && forall p: QueueId | p != q :: r.lanes[p] == s.lanes[p]
    {
    }

    // ----- The other threads.

    // The queues have got longer at their ends, by at most n messages each.
    twostate predicate Grown(n: nat)
      reads this, queues
    {
      forall q | 0 <= q < |queues| ::
        old(queues[q].msgQueue) <= queues[q].msgQueue && |queues[q].msgQueue| <= |old(queues[q].msgQueue)| + n
    }

    /** putMessage, for a queue and an identity already decided. */
    method PutMessage(q: QueueId, typ: byte, identity: nat, uid: byte, lldp: bool, payload: seq<byte>)
      requires Coupled()
      modifies this`st, this`trace, queues
      ensures Coupled() && st == Step(old(st), Put(q, typ, identity, uid, lldp, payload))
      ensures trace == old(trace) + [Put(q, typ, identity, uid, lldp, payload)] && fresh(Objects() - old(Objects()))
      ensures |old(st).lanes| == 10 == |st.lanes| && forall p: QueueId | p != q :: st.lanes[p] == old(st).lanes[p]
      ensures var l, m := old(st).lanes[q],
                Msg(|old(st).lanes[q].put|, typ, identity, uid, if lldp then 0 else 1, 1.0, payload, false, false);
              st.lanes[q].put == l.put + [m] && st.lanes[q].msgs == l.msgs + [m]
      ensures Grown(1)
    {
      hide Shows;
      hide After;
      hide WireOf;
      hide Initial;
      hide LaneInv;
      hide Inv;
      LaneFacts(q);
      var m := PutOnQueue(queues[q], q, st.lanes[q], st.now, BusyOf(st.pc, q), typ, identity, uid, lldp, payload);
      PutShows(st, q, typ, identity, uid, lldp, payload);
      Follow(Put(q, typ, identity, uid, lldp, payload));
    }

    // The listener offers a response to one queue.
    method MarkQueue(q: QueueId, response: nat) returns (marked: bool)
      requires Coupled()
      modifies this`st, this`trace, Objects()
      ensures Coupled() && st == Step(old(st), Ack(q, response)) && trace == old(trace) + [Ack(q, response)]
      ensures marked <==> FirstMatch(old(st).lanes[q].msgs, response).Some?
      ensures Objects() == old(Objects())
    {
      hide Shows;
      hide After;
      hide WireOf;
      hide Initial;
      hide LaneInv;
      hide Inv;
      hide Marked;
      hide FirstMatch;
      NothingShared(q);
      ghost var next := AckOn(st.lanes[q], response);
      marked := MarkOnQueue(queues[q], q, st.lanes[q], response);
      ghost var shown := Lanes(st.lanes[q := next]);
      assert shown;
      Follow(Ack(q, response));
    }

    /** Run_listen_resp's loop for one response, with no other thread in between: it reaches
        the first message in the order of the queues that waits for it. */
    method Response(response: nat)
      requires Coupled()
      modifies this`st, this`trace, Objects()
      ensures Coupled() && MsgsOf(st.lanes) == Respond(old(MsgsOf(st.lanes)), response)
      ensures st == old(st).(lanes := st.lanes) && Objects() == old(Objects())
      ensures st != old(st) ==>
                exists q, k | 0 <= q < |old(st).lanes| && 0 <= k < |old(st).lanes[q].msgs| ::
                  var m := old(st).lanes[q].msgs[k]; m.inProcess && !m.finished && m.identity == response
    {
      hide Shows;
      hide After;
      hide WireOf;
      hide Initial;
      hide Respond;
      hide Step;
      hide Lanes;
      ghost var was := st;
      for q := 0 to QUEUES
        invariant Coupled() && st == was && Objects() == old(Objects())
        invariant forall j | 0 <= j < q :: FirstMatch(was.lanes[j].msgs, response).None?
      {
        OfferedTo(was, q, response);
        var marked := MarkQueue(q, response);
        if marked {
          ghost var k := FirstMatch(was.lanes[q].msgs, response).value;
          assert var m := was.lanes[q].msgs[k]; m.inProcess && !m.finished && m.identity == response;
          return;
        }
      }
      OfferedToNone(was, response);
    }

    // One thing another thread does.
    method Other(e: Event)
      requires Coupled() && !e.Run?
      modifies this`st, this`trace, this`clock, queues, Objects()
      ensures Coupled() && trace == old(trace) + [e] && st.pc == old(st).pc && st.credit == old(st).credit
      ensures fresh(Objects() - old(Objects()))
      ensures Grown(1)
    {
      hide Shows;
      hide After;
      hide WireOf;
      hide Initial;
      match e {
        case Put(q, typ, identity, uid, lldp, payload) =>
          PutMessage(q, typ, identity, uid, lldp, payload);
        case Ack(q, response) =>
          var _ := MarkQueue(q, response);
        case Tick(d) =>
          clock := clock + d;
          Follow(e);
      }
    }

    // What the other threads do in one go.
    method Others(events: seq<Event>)
      requires Coupled() && forall i | 0 <= i < |events| :: !events[i].Run?
      modifies this`st, this`trace, this`clock, queues, Objects()
      ensures Coupled() && trace == old(trace) + events && st.pc == old(st).pc && st.credit == old(st).credit
      ensures fresh(Objects() - old(Objects()))
      ensures Grown(|events|)
    {
      hide Shows;
      hide After;
      hide WireOf;
      hide Initial;
      hide Coupled;
      for i := 0 to |events|
        invariant Coupled() && trace == old(trace) + events[..i] && st.pc == old(st).pc && st.credit == old(st).credit
        invariant fresh(Objects() - old(Objects()))
        invariant Grown(i)
      {
        assert events[..i + 1] == events[..i] + [events[i]];
        Assoc(old(trace), events[..i], [events[i]]);
        Other(events[i]);
      }
      assert events[..|events|] == events;
    }

    // ----- The scheduler's own thread.

    method CleanQueue(q: QueueId) returns (count: nat)
      requires Coupled() && st.pc.Cleaning? && st.pc.q == q && |queues[q].msgQueue| < TWO_64
      modifies this`st, this`trace, queues
      ensures Coupled() && st == RunStep(old(st)) && Objects() <= old(Objects())
      ensures forall p | 0 <= p < |queues| :: |queues[p].msgQueue| <= |old(queues[p].msgQueue)|
      ensures count == |Removed(old(st).lanes[q].msgs)|
      ensures st.pc.Cleaning? && st.pc.q == q + 1 && st.pc.count == old(st).pc.count + count && st.credit == old(st).credit
      ensures trace == old(trace) + [Event.Run]
    {
      hide Shows;
      hide After;
      hide WireOf;
      hide Initial;
      hide LaneInv;
      hide Inv;
      LaneFacts(q);
      count := CleanOnQueue(queues[q], q, st.lanes[q]);
      Follow(Event.Run);
    }

    method Fetch(q: QueueId) returns (m: OfpMsg?, ghost pos: nat)
      requires Coupled() && st.pc.Scanning? && st.pc.q == q
      modifies this`st, this`trace, queues
      ensures Coupled() && st == RunStep(old(st)) && Objects() == old(Objects()) && Grown(0)
      ensures m == null ==> st.pc.Scanning? && st.pc.q == q + 1
      ensures m != null ==> st.pc.Fetched? && st.pc.q == q && st.pc.pos == pos
      ensures m != null ==> pos < |queues[q].msgQueue| && m == queues[q].msgQueue[pos]
      ensures st.credit == old(st).credit
      ensures trace == old(trace) + [Event.Run]
    {
      hide Shows;
      hide After;
      hide WireOf;
      hide Initial;
      m, pos := FetchOnQueue(queues[q], q, st.lanes[q], clock);
      Follow(Event.Run);
    }

    method Start(q: QueueId, m: OfpMsg, ghost pos: nat)
      requires Coupled() && st.pc.Fetched? && st.pc.q == q && st.pc.pos == pos
      requires pos < |queues[q].msgQueue| && m == queues[q].msgQueue[pos]
      modifies this`st, this`trace, m
      ensures Coupled() && st == RunStep(old(st)) && Objects() == old(Objects()) && Grown(0)
      ensures st.pc.Started? && st.pc.q == q && st.pc.pos == pos && st.credit == old(st).credit
      ensures trace == old(trace) + [Event.Run]
    {
      hide Shows;
      hide After;
      hide WireOf;
      hide Initial;
      hide LaneInv;
      hide Inv;
      LaneFacts(q);
      NothingShared(q);
      assert m in queues[q].msgQueue;
      StartOnQueue(queues[q], q, st.lanes[q], m, pos);
      Follow(Event.Run);
    }

    // The message goes out on the connection.
    method Write(q: QueueId, m: OfpMsg, ghost pos: nat)
      requires Coupled() && st.pc.Started? && st.pc.q == q && st.pc.pos == pos
      requires pos < |queues[q].msgQueue| && m == queues[q].msgQueue[pos]
      modifies this`st, this`trace, this`wire
      ensures Coupled() && st == RunStep(old(st)) && Objects() == old(Objects()) && Grown(0)
      ensures wire == old(wire) + [m.payload]
      ensures st.lanes[q].writes == old(st).lanes[q].writes + [Steps.Write(m.View(), clock)]
      ensures st.pc.Written? && st.pc.q == q && st.pc.pos == pos && st.credit == old(st).credit
      ensures trace == old(trace) + [Event.Run]
    {
      hide Shows;
      hide After;
      hide WireOf;
      hide Initial;
      hide LaneInv;
      hide Inv;
      LaneFacts(q);
      WriteShows(queues[q], q, st.lanes[q], pos, clock);
      wire := wire + [m.payload];
      Follow(Event.Run);
    }

    method Finish(q: QueueId, m: OfpMsg, ghost pos: nat)
      requires Coupled() && st.pc.Written? && st.pc.q == q && st.pc.pos == pos
      requires pos < |queues[q].msgQueue| && m == queues[q].msgQueue[pos]
      modifies this`st, this`trace, m
      ensures Coupled() && st == RunStep(old(st)) && Objects() == old(Objects()) && Grown(0)
      ensures st.pc == if toController then OuterHead else InnerHead
      ensures st.credit == if toController then old(st).credit else old(st).credit - 1
      ensures trace == old(trace) + [Event.Run]
    {
      hide Shows;
      hide After;
      hide WireOf;
      hide Initial;
      hide LaneInv;
      hide Inv;
      LaneFacts(q);
      NothingShared(q);
      assert m in queues[q].msgQueue;
      FinishOnQueue(queues[q], q, st.lanes[q], m, pos);
      Follow(Event.Run);
    }

    // ----- The loops of run. world says what the other threads do, step by step, for as long
    // as it lasts.

    // The queues stay within the size of a vector, and only the scheduler runs the scheduler.
    ghost predicate Room(world: seq<seq<Event>>, t: nat)
      reads this, queues
    {
      && (forall q | 0 <= q < |queues| :: |queues[q].msgQueue| + Left(world, t) < TWO_64)
      && (forall i, j | 0 <= i < |world| && 0 <= j < |world[i]| :: !world[i][j].Run?)
    }

    // Since the run was base the machine has taken t steps, each after what the others did.
    ghost predicate Live(world: seq<seq<Event>>, t: nat, base: seq<Event>)
      reads this, queues, Objects()
    {
      Coupled() && Room(world, t) && trace == base + Woven(world, t)
    }

    method Interlude(world: seq<seq<Event>>, t: nat, ghost base: seq<Event>) returns (next: nat)
      requires Live(world, t, base)
      modifies this`st, this`trace, this`clock, queues, Objects()
      ensures Coupled() && Room(world, next) && trace + [Event.Run] == base + Woven(world, next)
      ensures next == t + 1 && st.pc == old(st).pc && st.credit == old(st).credit
      ensures fresh(Objects() - old(Objects()))
      ensures forall q | 0 <= q < |queues| :: old(queues[q].msgQueue) <= queues[q].msgQueue
    {
      hide Coupled;
      hide Woven;
      WovenOn(world, t, base);
      if t < |world| {
        Others(world[t]);
      }
      next := t + 1;
    }

    // Each step of the scheduler, after whatever the others did before it.

    method CleanNext(world: seq<seq<Event>>, t: nat, ghost base: seq<Event>, q: QueueId) returns (next: nat, count: nat)
      requires Live(world, t, base) && st.pc.Cleaning? && st.pc.q == q
      modifies this`st, this`trace, this`clock, queues, Objects()
      ensures Live(world, next, base) && next == t + 1 && fresh(Objects() - old(Objects()))
      ensures st.pc.Cleaning? && st.pc.q == q + 1 && st.pc.count == old(st).pc.count + count && st.credit == old(st).credit
    {
      hide Shows;
      hide After;
      hide WireOf;
      hide Initial;
      hide RunStep;
      assert |queues| == QUEUES;
      next := Interlude(world, t, base);
      hide Coupled;
      count := CleanQueue(q);
    }

    method FetchNext(world: seq<seq<Event>>, t: nat, ghost base: seq<Event>, q: QueueId)
      returns (next: nat, m: OfpMsg?, ghost pos: nat)
      requires Live(world, t, base) && st.pc.Scanning? && st.pc.q == q
      modifies this`st, this`trace, this`clock, queues, Objects()
      ensures Live(world, next, base) && next == t + 1 && fresh(Objects() - old(Objects())) && st.credit == old(st).credit
      ensures m == null ==> st.pc.Scanning? && st.pc.q == q + 1
      ensures m != null ==> st.pc.Fetched? && Holds(q, pos, m)
    {
      hide Shows;
      hide After;
      hide WireOf;
      hide Initial;
      hide RunStep;
      next := Interlude(world, t, base);
      hide Coupled;
      m, pos := Fetch(q);
    }

    // The message at the place the scheduler remembers.
    ghost predicate Holds(q: QueueId, pos: nat, m: OfpMsg)
      reads this, queues
    {
      && Sending(st.pc) && st.pc.q == q && st.pc.pos == pos
      && q < |queues| && pos < |queues[q].msgQueue| && m == queues[q].msgQueue[pos]
    }

    method StartNext(world: seq<seq<Event>>, t: nat, ghost base: seq<Event>, q: QueueId, m: OfpMsg, ghost pos: nat)
      returns (next: nat)
      requires Live(world, t, base) && st.pc.Fetched? && Holds(q, pos, m)
      modifies this`st, this`trace, this`clock, queues, Objects()
      ensures Live(world, next, base) && next == t + 1 && fresh(Objects() - old(Objects())) && st.credit == old(st).credit
      ensures st.pc.Started? && Holds(q, pos, m)
    {
      hide Shows;
      hide After;
      hide WireOf;
      hide Initial;
      hide RunStep;
      assert m in Objects();
      next := Interlude(world, t, base);
      hide Coupled;
      Start(q, m, pos);
    }

    method WriteNext(world: seq<seq<Event>>, t: nat, ghost base: seq<Event>, q: QueueId, m: OfpMsg, ghost pos: nat)
      returns (next: nat)
      requires Live(world, t, base) && st.pc.Started? && Holds(q, pos, m)
      modifies this`st, this`trace, this`clock, this`wire, queues, Objects()
      ensures Live(world, next, base) && next == t + 1 && fresh(Objects() - old(Objects())) && st.credit == old(st).credit
      ensures st.pc.Written? && Holds(q, pos, m) && wire == old(wire) + [m.payload]
    {
      hide Shows;
      hide After;
      hide WireOf;
      hide Initial;
      hide RunStep;
      next := Interlude(world, t, base);
      hide Coupled;
      Write(q, m, pos);
    }

    method FinishNext(world: seq<seq<Event>>, t: nat, ghost base: seq<Event>, q: QueueId, m: OfpMsg, ghost pos: nat)
      returns (next: nat)
      requires Live(world, t, base) && st.pc.Written? && Holds(q, pos, m)
      modifies this`st, this`trace, this`clock, queues, Objects()
      ensures Live(world, next, base) && next == t + 1 && fresh(Objects() - old(Objects()))
      ensures st.pc == if toController then OuterHead else InnerHead
      ensures st.credit == if toController then old(st).credit else old(st).credit - 1
    {
      hide Shows;
      hide After;
      hide WireOf;
      hide Initial;
      hide RunStep;
      assert m in Objects();
      next := Interlude(world, t, base);
      hide Coupled;
      Finish(q, m, pos);
    }

    // A step of the loops themselves, which touches no queue.
    method PassNext(world: seq<seq<Event>>, t: nat, ghost base: seq<Event>) returns (next: nat)
      requires Live(world, t, base)
      requires st.pc.OuterHead? || st.pc.InnerHead? || ((st.pc.Cleaning? || st.pc.Scanning?) && st.pc.q == QUEUES)
      modifies this`st, this`trace, this`clock, queues, Objects()
      ensures Live(world, next, base) && next == t + 1 && fresh(Objects() - old(Objects()))
      ensures old(st).pc.OuterHead? ==>
                st.credit == old(st).credit && st.pc == if st.credit < 2 || toController then Cleaning(0, 0, 0) else InnerHead
      ensures old(st).pc.Cleaning? ==> st.credit == old(st).credit + old(st).pc.count && st.pc == InnerHead
      ensures old(st).pc.InnerHead? ==>
                st.credit == old(st).credit && st.pc == if st.credit > 0 then Scanning(0, []) else OuterHead
      ensures old(st).pc.Scanning? ==> st.credit == old(st).credit && st.pc == OuterHead
    {
      hide Shows;
      hide After;
      hide WireOf;
      hide Initial;
      next := Interlude(world, t, base);
      Pass();
    }

    /** The clean-up of all queues. */
    method CleanPhase(world: seq<seq<Event>>, t0: nat, ghost base: seq<Event>) returns (t: nat, cleanNum: nat)
      requires Live(world, t0, base) && st.pc == Cleaning(0, 0, 0)
      modifies this`st, this`trace, this`clock, queues, Objects()
      ensures Live(world, t, base) && t >= t0 && fresh(Objects() - old(Objects()))
      ensures st.pc.Cleaning? && st.pc.q == QUEUES && st.pc.count == cleanNum && st.credit == old(st).credit
    {
      hide Live;
      t, cleanNum := t0, 0;
      for i := 0 to QUEUES
        invariant Live(world, t, base) && t >= t0 && fresh(Objects() - old(Objects()))
        invariant st.pc.Cleaning? && st.pc.q == i && st.pc.count == cleanNum && st.credit == old(st).credit
      {
        var n;
        t, n := CleanNext(world, t, base, i);
        cleanNum := cleanNum + n;
      }
    }

    // The message just fetched is started, written and, if nothing more is to come, finished.
    method SendMessage(world: seq<seq<Event>>, t0: nat, ghost base: seq<Event>, q: QueueId, m: OfpMsg, ghost pos: nat)
      returns (t: nat)
      requires Live(world, t0, base) && st.pc.Fetched? && Holds(q, pos, m)
      modifies this`st, this`trace, this`clock, this`wire, queues, Objects()
      ensures Live(world, t, base) && t >= t0 && fresh(Objects() - old(Objects()))
      ensures st.pc == if toController then OuterHead else InnerHead
      ensures st.credit == if toController then old(st).credit else old(st).credit - 1
      ensures wire == old(wire) + [m.payload]
    {
      hide Live;
      hide Holds;
      t := StartNext(world, t0, base, q, m, pos);
      t := WriteNext(world, t, base, q, m, pos);
      t := FinishNext(world, t, base, q, m, pos);
    }

    /** One pass over the queues: the first message found is sent. */
    method SendPhase(world: seq<seq<Event>>, t0: nat, ghost base: seq<Event>) returns (t: nat, sent: bool)
      requires Live(world, t0, base) && st.pc == Scanning(0, [])
      modifies this`st, this`trace, this`clock, this`wire, queues, Objects()
      ensures Live(world, t, base) && t >= t0 && fresh(Objects() - old(Objects()))
      ensures !sent ==> st.pc.Scanning? && st.pc.q == QUEUES && st.credit == old(st).credit && wire == old(wire)
      ensures sent ==>
                && st.pc == (if toController then OuterHead else InnerHead)
                && st.credit == (if toController then old(st).credit else old(st).credit - 1)
                && |wire| == |old(wire)| + 1 && old(wire) <= wire
    {
      hide Live;
      t := t0;
      for i := 0 to QUEUES
        invariant Live(world, t, base) && t >= t0 && fresh(Objects() - old(Objects()))
        invariant st.pc.Scanning? && st.pc.q == i && st.credit == old(st).credit && wire == old(wire)
      {
        var m;
        ghost var pos;
        t, m, pos := FetchNext(world, t, base, i);
        if m != null {
          t := SendMessage(world, t, base, i, m, pos);
          return t, true;
        }
      }
      return t, false;
    }

    // One pass of the inner loop, from its head back to a head.
    method SendPass(world: seq<seq<Event>>, t0: nat, ghost base: seq<Event>) returns (t: nat, sent: bool)
      requires Live(world, t0, base) && st.pc == InnerHead && st.credit > 0
      modifies this`st, this`trace, this`clock, this`wire, queues, Objects()
      ensures Live(world, t, base) && t >= t0 && fresh(Objects() - old(Objects()))
      ensures !sent ==> st.pc == OuterHead && st.credit == old(st).credit && wire == old(wire)
      ensures sent ==>
                && st.pc == (if toController then OuterHead else InnerHead)
                && st.credit == (if toController then old(st).credit else old(st).credit - 1)
                && |wire| == |old(wire)| + 1 && old(wire) <= wire
    {
      hide Live;
      hide Coupled;
      t := PassNext(world, t0, base);
      t, sent := SendPhase(world, t, base);
      if !sent {
        t := PassNext(world, t, base);
      }
    }

    /** The inner loop: passes are made until one finds nothing or the budget is used up.
        Towards the controller one pass is all. */
    method SendLoop(world: seq<seq<Event>>, t0: nat, ghost base: seq<Event>, budget: int)
      returns (t: nat, maxInProcess: int)
      requires Live(world, t0, base) && st.pc == InnerHead && st.credit == budget
      modifies this`st, this`trace, this`clock, this`wire, queues, Objects()
      ensures Live(world, t, base) && t >= t0 && fresh(Objects() - old(Objects()))
      ensures st.pc == OuterHead && st.credit == maxInProcess && old(wire) <= wire
    {
      hide Live;
      hide Coupled;
      t, maxInProcess := t0, budget;
      while maxInProcess > 0
        invariant Live(world, t, base) && t >= t0 && fresh(Objects() - old(Objects()))
        invariant st.pc == InnerHead && st.credit == maxInProcess && old(wire) <= wire
        decreases maxInProcess
      {
        var sent;
        t, sent := SendPass(world, t, base);
        if !sent || toController {
          return;
        }
        maxInProcess := maxInProcess - 1;
      }
      t := PassNext(world, t, base);
    }

    // The clean-up at the head of the outer loop, where one is called for.
    method TopUp(world: seq<seq<Event>>, t0: nat, ghost base: seq<Event>, budget: int)
      returns (cleanNum: nat, t: nat)
      requires Live(world, t0, base) && st.pc == OuterHead && st.credit == budget
      modifies this`st, this`trace, this`clock, queues, Objects()
      ensures Live(world, t, base) && t > t0 && fresh(Objects() - old(Objects()))
      ensures st.pc == InnerHead && st.credit == budget + cleanNum
    {
      hide Live;
      hide Coupled;
      cleanNum := 0;
      t := PassNext(world, t0, base);
      if budget < 2 || toController {
        t, cleanNum := CleanPhase(world, t, base);
        t := PassNext(world, t, base);
      }
    }

    // One turn of the outer loop.
    method Round(world: seq<seq<Event>>, t0: nat, ghost base: seq<Event>, budget: int)
      returns (maxInProcess: int, t: nat)
      requires Live(world, t0, base) && st.pc == OuterHead && st.credit == budget
      modifies this`st, this`trace, this`clock, this`wire, queues, Objects()
      ensures Live(world, t, base) && t > t0 && fresh(Objects() - old(Objects()))
      ensures st.pc == OuterHead && st.credit == maxInProcess && old(wire) <= wire
    {
      hide Live;
      hide Coupled;
      var cleanNum;
      cleanNum, t := TopUp(world, t0, base, budget);
      t, maxInProcess := SendLoop(world, t, base, budget + cleanNum);
    }

    /** The loop of the scheduler's thread, for as long as world lasts; the source's runs for
        ever. */
    method Run(world: seq<seq<Event>>) returns (t: nat)
      requires Coupled() && Room(world, 0) && st.pc == OuterHead && st.credit == BUDGET
      modifies this`st, this`trace, this`clock, this`wire, queues, Objects()
      ensures Coupled() && t >= |world| && trace == old(trace) + Woven(world, t)
      ensures st.pc == OuterHead && old(wire) <= wire
    {
      ghost var base := trace;
      var maxInProcess: int := BUDGET;
      t := 0;
      while t < |world|
        invariant Live(world, t, base) && fresh(Objects() - old(Objects()))
        invariant st.pc == OuterHead && maxInProcess == st.credit && old(wire) <= wire
      {
        maxInProcess, t := Round(world, t, base, maxInProcess);
      }
    }
  }
}
