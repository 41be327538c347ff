/** The queued messages as the scheduler sees them, and what its loops over one queue
    compute: which message is fetched, which one a response finishes, which ones a clean-up
    removes. */
module Messages {
  import opened Bytes
  import opened Formats

  const STATS_REQUEST: byte := 18

  // An OFP_Msg: id is its place in the order in which its queue received messages.
  datatype Msg = Msg(id: nat, typ: byte, identity: nat, uid: byte, wait: int, priority: real, payload: seq<byte>,
                     inProcess: bool, finished: bool) {
    // Sending it is all there is to do: no response will finish it.
    predicate NeedNoTime() {
      (!(typ == FLOW_MOD && identity != 0) && !(typ == STATS_REQUEST && identity != 0)) || typ == PACKET_OUT
    }

    predicate Done() {
      inProcess && finished
    }

    predicate Answers(response: nat) {
      inProcess && !finished && identity == response
    }

    // The message as it was put.
    function Bare(): Msg {
      this.(inProcess := false, finished := false)
    }
  }

  // A message as putMessage makes it: priority 1, and a wait of 0 for LLDP or else 1.
  predicate Fresh(m: Msg) {
    0 <= m.wait <= 1 && m.priority == 1.0 && !m.inProcess && !m.finished
  }

  // ----- The scan of fetchMsg.

  predicate LessPriority(a: Msg, b: Msg) {
    if a.wait <= 0 && b.wait > 0 then false
    else if a.wait <= 0 && b.wait <= 0 then a.wait > b.wait
    else a.priority < b.priority
  }

  predicate Favoured(m: Msg) {
    m.uid == 2 || m.uid == 4
  }

  // The scan from position i on, with the message at best, or none, chosen so far. A message
  // chosen while there was none is not looked at again in its turn.
  function ScanFrom(ms: seq<Msg>, i: nat, best: Option<nat>): (r: Option<nat>)
    requires i <= |ms| && (best.Some? ==> best.value < i)
    ensures r.Some? ==> r.value < |ms|
    decreases |ms| - i
  {
    if i == |ms| then best
    else if best.None? then
      ScanFrom(ms, i + 1, if ms[i].inProcess then None else Some(i))
    else
      var b := if !ms[i].inProcess && LessPriority(ms[best.value], ms[i]) then i else best.value;
      if Favoured(ms[b]) then Some(b) else ScanFrom(ms, i + 1, Some(b))
  }

  function Scan(ms: seq<Msg>): (r: Option<nat>)
    ensures r.Some? ==> r.value < |ms|
  {
    ScanFrom(ms, 0, None)
  }

  // One turn of the scan, or its end.
  lemma {:induction false} ScanTurn(ms: seq<Msg>, i: nat, best: Option<nat>)
    requires i <= |ms| && (best.Some? ==> best.value < i)
    ensures i == |ms| ==> ScanFrom(ms, i, best) == best
    ensures i < |ms| && best.None? ==>
              ScanFrom(ms, i, best) == ScanFrom(ms, i + 1, if ms[i].inProcess then None else Some(i))
    ensures i < |ms| && best.Some? ==>
              var b := if !ms[i].inProcess && LessPriority(ms[best.value], ms[i]) then i else best.value;
              ScanFrom(ms, i, best) == if Favoured(ms[b]) then Some(b) else ScanFrom(ms, i + 1, Some(b))
  {
  }

  /** Whatever the priorities: the scan finds a message exactly if one is unsent, and the one it
      finds is. */
  lemma {:induction false} ScanIsUnsent(ms: seq<Msg>)
    ensures Scan(ms).None? <==> forall k | 0 <= k < |ms| :: ms[k].inProcess
    ensures Scan(ms).Some? ==> !ms[Scan(ms).value].inProcess
  {
    ScanFromUnsent(ms, 0, None);
  }

  lemma {:induction false} ScanFromUnsent(ms: seq<Msg>, i: nat, best: Option<nat>)
    requires i <= |ms| && (best.Some? ==> best.value < i && !ms[best.value].inProcess)
    ensures ScanFrom(ms, i, best).None? <==> best.None? && forall k | i <= k < |ms| :: ms[k].inProcess
    ensures ScanFrom(ms, i, best).Some? ==> !ms[ScanFrom(ms, i, best).value].inProcess
    decreases |ms| - i
  {
    if i < |ms| {
      if best.None? {
        ScanFromUnsent(ms, i + 1, if ms[i].inProcess then None else Some(i));
      } else {
        var b := if !ms[i].inProcess && LessPriority(ms[best.value], ms[i]) then i else best.value;
        ScanFromUnsent(ms, i + 1, Some(b));
      }
    }
  }

  /** A message gives way to a later one of higher priority if it can wait, and to one that has
      waited longer if neither can. */
  lemma {:induction false} WhenLess(a: Msg, b: Msg)
    ensures a.wait > 0 ==> (LessPriority(a, b) <==> a.priority < b.priority)
    ensures a.wait <= 0 ==> (LessPriority(a, b) <==> b.wait <= 0 && b.wait < a.wait)
  {
  }

  // No message a run can bring about has less priority than another.
  lemma {:induction false} NeverLess(a: Msg, b: Msg)
    requires Fresh(a.Bare()) && Fresh(b.Bare())
    ensures !LessPriority(a, b)
  {
  }

  // Once the scan has found a message, it stays with it.
  lemma {:induction false} ScanKeeps(ms: seq<Msg>, i: nat, best: nat)
    requires best < i <= |ms| && forall k | 0 <= k < |ms| :: Fresh(ms[k].Bare())
    ensures ScanFrom(ms, i, Some(best)) == Some(best)
    decreases |ms| - i
  {
    if i < |ms| {
      NeverLess(ms[best], ms[i]);
      ScanKeeps(ms, i + 1, best);
    }
  }

  /** Where the sent messages come first, the scan returns the first unsent one, in spite of
      priorities and of the early exit for favoured users. */
  lemma {:induction false} ScanIsFifo(ms: seq<Msg>, n: nat, i: nat)
    requires i <= n <= |ms| && forall k | 0 <= k < |ms| :: Fresh(ms[k].Bare())
    requires forall k | 0 <= k < |ms| :: ms[k].inProcess <==> k < n
    ensures ScanFrom(ms, i, None) == if n == |ms| then None else Some(n)
    decreases n - i
  {
    if i < n {
      ScanIsFifo(ms, n, i + 1);
    } else if n < |ms| {
      ScanKeeps(ms, n + 1, n);
    }
  }

  // ----- What a response finishes.

  function FirstMatch(ms: seq<Msg>, response: nat): (r: Option<nat>)
    ensures r.None? <==> forall k | 0 <= k < |ms| :: !ms[k].Answers(response)
    ensures r.Some? ==>
              r.value < |ms| && ms[r.value].Answers(response) && forall k | 0 <= k < r.value :: !ms[k].Answers(response)
  {
    if ms == [] then None
    else if ms[0].Answers(response) then Some(0)
    else
      var r := FirstMatch(ms[1..], response);
      if r.None? then None else Some(r.value + 1)
  }

  lemma {:induction false} SameMatch(ms: seq<Msg>, response: nat, k: nat)
    requires k < |ms| && ms[k].Answers(response) && forall j | 0 <= j < k :: !ms[j].Answers(response)
    ensures FirstMatch(ms, response) == Some(k)
  {
    var p := FirstMatch(ms, response).value;
    assert ms[p].Answers(response) && !(p < k) && !(k < p);
  }

  function Marked(ms: seq<Msg>, response: nat): (r: seq<Msg>)
    ensures |r| == |ms|
  {
    var p := FirstMatch(ms, response);
    if p.None? then ms else ms[p.value := ms[p.value].(finished := true)]
  }

  /** Exactly one message changes, if any: the first that was sent, is not finished and has the
      identity of the response. It becomes finished and is otherwise the same. */
  lemma {:induction false} MarkedIsByIdentity(ms: seq<Msg>, response: nat, k: nat)
    requires k < |ms|
    ensures var waits := ms[k].inProcess && !ms[k].finished && ms[k].identity == response;
            var first := forall j | 0 <= j < k :: !(ms[j].inProcess && !ms[j].finished && ms[j].identity == response);
            Marked(ms, response)[k] == if waits && first then ms[k].(finished := true) else ms[k]
  {
    var p := FirstMatch(ms, response);
    if p.Some? && p.value < k {
      assert ms[p.value].inProcess && !ms[p.value].finished && ms[p.value].identity == response;
    }
  }

  // ----- What a clean-up leaves and removes.

  function Remaining(ms: seq<Msg>): (r: seq<Msg>)
    ensures |r| <= |ms|
  {
    if ms == [] then []
    else (if ms[0].Done() then [] else [ms[0]]) + Remaining(ms[1..])
  }

  function Removed(ms: seq<Msg>): (r: seq<Msg>) {
    if ms == [] then []
    else (if ms[0].Done() then [ms[0]] else []) + Removed(ms[1..])
  }

  function Bares(ms: seq<Msg>): (r: seq<Msg>)
    ensures |r| == |ms| && forall k | 0 <= k < |ms| :: r[k] == ms[k].Bare()
  {
    if ms == [] then [] else [ms[0].Bare()] + Bares(ms[1..])
  }

  // Messages sent and not yet removed, and those among them nothing has finished.
  function Sent(ms: seq<Msg>): nat {
    if ms == [] then 0 else (if ms[0].inProcess then 1 else 0) + Sent(ms[1..])
  }

  function Open(ms: seq<Msg>): nat {
    if ms == [] then 0 else (if ms[0].inProcess && !ms[0].finished then 1 else 0) + Open(ms[1..])
  }

  lemma {:induction false} SentAppend(a: seq<Msg>, b: seq<Msg>)
    ensures Sent(a + b) == Sent(a) + Sent(b)
  {
    if a == [] {
      assert a + b == b;
    } else {
      SentAppend(a[1..], b);
      assert (a + b)[0] == a[0] && (a + b)[1..] == a[1..] + b;
    }
  }

  lemma {:induction false} OneSent(m: Msg)
    ensures Sent([m]) == if m.inProcess then 1 else 0
  {
    assert [m][1..] == [];
  }

  /** Sent is the number of messages with in_process set. */
  lemma {:induction false} SentIsTheNumber(ms: seq<Msg>)
    ensures Sent(ms) == |set k: nat | k < |ms| && ms[k].inProcess|
  {
    hide Sent;
    var all := set k: nat | k < |ms| && ms[k].inProcess;
    if ms == [] {
      NoneSent([]);
      assert all == {};
    } else {
      var n := |ms| - 1;
      var front := set k: nat | k < n && ms[..n][k].inProcess;
      SentIsTheNumber(ms[..n]);
      SentAppend(ms[..n], [ms[n]]);
      OneSent(ms[n]);
      assert ms == ms[..n] + [ms[n]];
      assert all == if ms[n].inProcess then front + {n} else front;
    }
  }

  lemma {:induction false} SentUpdate(ms: seq<Msg>, k: nat, m: Msg)
    requires k < |ms|
    ensures Sent(ms[k := m])
            == Sent(ms) + (if m.inProcess then 1 else 0) - (if ms[k].inProcess then 1 else 0)
  {
    if k == 0 {
      assert ms[0 := m][1..] == ms[1..];
    } else {
      SentUpdate(ms[1..], k - 1, m);
      assert ms[k := m][1..] == ms[1..][k - 1 := m];
    }
  }

  lemma {:induction false} NoneSent(ms: seq<Msg>)
    requires forall k | 0 <= k < |ms| :: !ms[k].inProcess
    ensures Sent(ms) == 0 && Remaining(ms) == ms && Removed(ms) == []
  {
    if ms != [] {
      NoneSent(ms[1..]);
      assert ms == [ms[0]] + ms[1..];
    }
  }

  /** A clean-up removes exactly the finished messages: nothing else is lost or changed, and
      the sent messages left are those still open. */
  lemma {:induction false} CleanSplits(ms: seq<Msg>)
    ensures multiset(ms) == multiset(Remaining(ms)) + multiset(Removed(ms))
  {
    if ms != [] {
      CleanSplits(ms[1..]);
      assert ms == [ms[0]] + ms[1..];
      CleanStep(ms);
    }
  }

  lemma {:induction false} CleanSorts(ms: seq<Msg>)
    ensures forall k | 0 <= k < |Remaining(ms)| :: !Remaining(ms)[k].Done()
    ensures forall k | 0 <= k < |Removed(ms)| :: Removed(ms)[k].Done()
    ensures forall k | 0 <= k < |Remaining(ms)| :: !(Remaining(ms)[k].inProcess && Remaining(ms)[k].finished)
    ensures forall k | 0 <= k < |Removed(ms)| :: Removed(ms)[k].inProcess && Removed(ms)[k].finished
  {
    if ms != [] {
      CleanSorts(ms[1..]);
      CleanStep(ms);
    }
  }

  lemma {:induction false} CleanCounts(ms: seq<Msg>)
    ensures |Remaining(ms)| + |Removed(ms)| == |ms|
    ensures Sent(ms) == Sent(Remaining(ms)) + |Removed(ms)| && Sent(Remaining(ms)) == Open(ms)
  {
    if ms != [] {
      CleanCounts(ms[1..]);
      CleanStep(ms);
    }
  }

  lemma {:induction false} CleanSplitsBares(ms: seq<Msg>)
    ensures multiset(Bares(ms)) == multiset(Bares(Remaining(ms))) + multiset(Bares(Removed(ms)))
  {
    if ms != [] {
      CleanSplitsBares(ms[1..]);
      CleanStep(ms);
    }
  }

  lemma {:induction false} CleanStep(ms: seq<Msg>)
    requires ms != []
    ensures ms[0].Done() ==>
              && Remaining(ms) == Remaining(ms[1..]) && Removed(ms) == [ms[0]] + Removed(ms[1..])
              && Bares(Removed(ms)) == [ms[0].Bare()] + Bares(Removed(ms[1..]))
    ensures !ms[0].Done() ==>
              && Remaining(ms) == [ms[0]] + Remaining(ms[1..]) && Removed(ms) == Removed(ms[1..])
              && Bares(Remaining(ms)) == [ms[0].Bare()] + Bares(Remaining(ms[1..]))
              && Sent(Remaining(ms)) == (if ms[0].inProcess then 1 else 0) + Sent(Remaining(ms[1..]))
  {
    if ms[0].Done() {
      assert Removed(ms)[1..] == Removed(ms[1..]);
    } else {
      assert Remaining(ms)[1..] == Remaining(ms[1..]);
    }
  }

  lemma {:induction false} RemainingAppend(a: seq<Msg>, b: seq<Msg>)
    ensures Remaining(a + b) == Remaining(a) + Remaining(b) && Removed(a + b) == Removed(a) + Removed(b)
  {
    if a == [] {
      assert a + b == b;
    } else {
      RemainingAppend(a[1..], b);
      assert (a + b)[0] == a[0] && (a + b)[1..] == a[1..] + b;
      var x, y := if a[0].Done() then [] else [a[0]], if a[0].Done() then [a[0]] else [];
      Assoc(x, Remaining(a[1..]), Remaining(b));
      Assoc(y, Removed(a[1..]), Removed(b));
    }
  }

  lemma {:induction false} RemainingMembers(ms: seq<Msg>)
    ensures forall k | 0 <= k < |Remaining(ms)| :: Remaining(ms)[k] in ms
  {
    if ms != [] {
      RemainingMembers(ms[1..]);
      CleanStep(ms);
    }
  }

  lemma {:induction false} RemovedMembers(ms: seq<Msg>)
    ensures forall k | 0 <= k < |Removed(ms)| :: Removed(ms)[k] in ms
  {
    if ms != [] {
      RemovedMembers(ms[1..]);
      CleanStep(ms);
    }
  }

  lemma {:induction false} BaresAppend(a: seq<Msg>, b: seq<Msg>)
    ensures Bares(a + b) == Bares(a) + Bares(b)
  {
  }

  // Messages stand in the order in which they were put.
  ghost predicate Sorted(ms: seq<Msg>) {
    forall j, k | 0 <= j < k < |ms| :: ms[j].id < ms[k].id
  }

  lemma {:induction false} RemainingSorted(ms: seq<Msg>)
    requires Sorted(ms)
    ensures Sorted(Remaining(ms))
  {
    if ms != [] {
      RemainingSorted(ms[1..]);
      RemainingMembers(ms[1..]);
      CleanStep(ms);
    }
  }
}
