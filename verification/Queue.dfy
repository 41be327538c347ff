/** OFP_Msg and Queue: the scheduler's objects. Every loop over a queue is proved against
    what it computes on the messages' values. */
module Queues {
  import opened Bytes
  import opened Formats
  import opened Messages

  /** A message between its arrival and its removal. Which queue it belongs to and how many
      came there before it are fixed when it is made. */
  class OfpMsg {
    const typ: byte
    const identity: nat
    const uid: byte
    const wait: int
    const payload: seq<byte>
    var priority: real
    var inProcess: bool
    var finished: bool
    ghost const owner: nat
    ghost const id: nat

    constructor (typ: byte, identity: nat, uid: byte, wait: int, priority: real, payload: seq<byte>,
                 ghost owner: nat, ghost id: nat)
      ensures View() == Msg(id, typ, identity, uid, wait, priority, payload, false, false) && this.owner == owner
    {
      this.typ, this.identity, this.uid, this.wait, this.payload := typ, identity, uid, wait, payload;
      this.priority := priority;
      this.owner, this.id := owner, id;
      inProcess, finished := false, false;
    }

    ghost function View(): Msg
      reads this
    {
      Msg(id, typ, identity, uid, wait, priority, payload, inProcess, finished)
    }
  }

  ghost function Views(ms: seq<OfpMsg>): (r: seq<Msg>)
    reads ms
    ensures |r| == |ms| && forall i | 0 <= i < |ms| :: r[i] == ms[i].View()
  {
    if ms == [] then [] else Views(ms[..|ms| - 1]) + [ms[|ms| - 1].View()]
  }

  // lessPriority on the objects.
  predicate LessPriorityOf(a: OfpMsg, b: OfpMsg)
    reads a, b
    ensures LessPriorityOf(a, b) == LessPriority(a.View(), b.View())
  {
    if a.wait <= 0 && b.wait > 0 then false
    else if a.wait <= 0 && b.wait <= 0 then a.wait > b.wait
    else a.priority < b.priority
  }

  // The messages a clean-up leaves, where views are their values.
  ghost function Kept(ms: seq<OfpMsg>, views: seq<Msg>): (r: seq<OfpMsg>)
    requires |ms| == |views|
    ensures forall m | m in r :: m in ms
  {
    if ms == [] then []
    else
      var n := |ms| - 1;
      Kept(ms[..n], views[..n]) + if views[n].Done() then [] else [ms[n]]
  }

  lemma {:induction false} ViewsAppend(a: seq<OfpMsg>, b: seq<OfpMsg>)
    ensures Views(a + b) == Views(a) + Views(b)
  {
  }

  lemma {:induction false} KeptViews(ms: seq<OfpMsg>)
    ensures Views(Kept(ms, Views(ms))) == Remaining(Views(ms))
  {
    if ms != [] {
      var n := |ms| - 1;
      var front, last := ms[..n], ms[n];
      KeptViews(front);
      assert Views(ms)[..n] == Views(front);
      RemainingAppend(Views(front), [last.View()]);
      OneLeft(last.View());
      ViewsAppend(Kept(front, Views(front)), if last.View().Done() then [] else [last]);
    }
  }

  // One turn of the clean-up, for the messages kept.
  lemma {:induction false} KeptStep(ms: seq<OfpMsg>, views: seq<Msg>, i: nat, kept: seq<OfpMsg>)
    returns (next: seq<OfpMsg>)
    requires |ms| == |views| && i < |ms| && kept == Kept(ms[..i], views[..i])
    ensures next == Kept(ms[..i + 1], views[..i + 1]) == kept + if views[i].Done() then [] else [ms[i]]
    ensures |next| == |kept| + if views[i].Done() then 0 else 1
    ensures ms[i..][0] == ms[i] && ms[i..][1..] == ms[i + 1..]
  {
    next := kept + if views[i].Done() then [] else [ms[i]];
    assert ms[..i + 1][..i] == ms[..i] && views[..i + 1][..i] == views[..i];
  }

  lemma {:induction false} KeptNothing(ms: seq<OfpMsg>, views: seq<Msg>)
    requires |ms| == |views|
    ensures Kept(ms[..0], views[..0]) == [] && ms[0..] == ms
  {
  }

  // The clean-up at its end.
  lemma {:induction false} Cleaned(ms: seq<OfpMsg>, views: seq<Msg>, kept: seq<OfpMsg>)
    requires views == Views(ms) && kept == Kept(ms[..|ms|], views[..|ms|]) && Sorted(views)
    ensures kept + ms[|ms|..] == kept && (forall m | m in kept :: m in ms)
    ensures Views(kept) == Remaining(views) && |ms| - |kept| == |Removed(views)| && Sorted(Views(kept))
  {
    hide Views;
    hide Kept;
    hide Remaining;
    hide Removed;
    assert ms[..|ms|] == ms && views[..|ms|] == views;
    KeptViews(ms);
    CleanCounts(views);
    RemainingSorted(views);
  }

  lemma {:induction false} OneLeft(m: Msg)
    ensures Remaining([m]) == if m.Done() then [] else [m]
    ensures Removed([m]) == if m.Done() then [m] else []
  {
    assert [m][1..] == [];
  }

  // Numbers differ, so objects do.
  lemma {:induction false} Distinct(ms: seq<OfpMsg>, i: nat)
    requires i < |ms| && Sorted(Views(ms))
    ensures forall k | 0 <= k < |ms| && k != i :: ms[k] != ms[i]
  {
    forall k | 0 <= k < |ms| && k != i
      ensures ms[k] != ms[i]
    {
      assert Views(ms)[k].id != Views(ms)[i].id;
    }
  }

  // A message was finished, and nothing else changed.
  lemma {:induction false} OneChanged(was: seq<Msg>, now: seq<Msg>, i: nat)
    requires |was| == |now| && i < |was| && now[i] == was[i].(finished := true)
    requires forall k | 0 <= k < |was| && k != i :: now[k] == was[k]
    ensures now == was[i := was[i].(finished := true)]
    ensures Sorted(was) ==> Sorted(now)
  {
  }

  class Queue {
    const interval: int
    var msgQueue: seq<OfpMsg>
    var lastFetch: int
    ghost const index: nat

    ghost predicate Valid()
      reads this, msgQueue
    {
      (forall m | m in msgQueue :: m.owner == index) && Sorted(Views(msgQueue))
    }

    constructor (interval: int, now: int, ghost index: nat)
      ensures Valid() && msgQueue == [] && lastFetch == now && this.interval == interval && this.index == index
    {
      this.interval, this.index := interval, index;
      lastFetch := now;
      msgQueue := [];
    }

    method PutMsg(m: OfpMsg)
      modifies this`msgQueue
      ensures msgQueue == old(msgQueue) + [m]
    {
      msgQueue := msgQueue + [m];
    }

    method MsgNeedNoTime(m: OfpMsg) returns (needs: bool)
      ensures needs == m.View().NeedNoTime()
    {
      needs := (!(m.typ == FLOW_MOD && m.identity != 0) && !(m.typ == STATS_REQUEST && m.identity != 0))
               || m.typ == PACKET_OUT;
    }

    /** Finishes at most one message, the first that waits for the response. */
    method MarkFinished(response: nat) returns (marked: bool)
      requires Valid()
      modifies set m | m in msgQueue
      ensures Valid() && Views(msgQueue) == Marked(old(Views(msgQueue)), response)
      ensures marked <==> FirstMatch(old(Views(msgQueue)), response).Some?
    {
      hide FirstMatch;
      ghost var was := Views(msgQueue);
      for i := 0 to |msgQueue|
        invariant Views(msgQueue) == was
        invariant forall k | 0 <= k < i :: !was[k].Answers(response)
      {
        var m := msgQueue[i];
        if m.inProcess && !m.finished && m.identity == response {
          Distinct(msgQueue, i);
          m.finished := true;
          SameMatch(was, response, i);
          OneChanged(was, Views(msgQueue), i);
          return true;
        }
      }
      return false;
    }

    // The scan itself.
    method FindMsg() returns (m: OfpMsg?, ghost pos: nat)
      ensures m == null <==> Scan(Views(msgQueue)).None?
      ensures m != null ==> Scan(Views(msgQueue)) == Some(pos) && m == msgQueue[pos]
    {
      hide ScanFrom;
      m, pos := null, 0;
      ghost var views := Views(msgQueue);
      ghost var best: Option<nat> := None;
      var i := 0;
      while i < |msgQueue|
        invariant 0 <= i <= |msgQueue|
        invariant m == null <==> best.None?
        invariant best.Some? ==> best.value < i && m == msgQueue[best.value] && pos == best.value
        invariant Scan(views) == ScanFrom(views, i, best)
      {
        ScanTurn(views, i, best);
        var next := msgQueue[i];
        i := i + 1;
        if !next.inProcess {
          if m == null {
            m, pos, best := next, i - 1, Some(i - 1);
            continue;
          } else if LessPriorityOf(m, next) {
            m, pos, best := next, i - 1, Some(i - 1);
          }
        }
        if m != null && (m.uid == 2 || m.uid == 4) {
          return;
        }
      }
      ScanTurn(views, i, best);
    }

    /** Looks for a message if more than the interval has passed since it last did. The one
        found is the one Scan says, and stays where it is. */
    method FetchMsg(now: int) returns (m: OfpMsg?, ghost pos: nat)
      modifies this`lastFetch
      ensures now - old(lastFetch) <= 1000 * interval ==> m == null && lastFetch == old(lastFetch)
      ensures now - old(lastFetch) > 1000 * interval ==>
                && lastFetch == now
                && (m == null <==> Scan(Views(msgQueue)).None?)
                && (m != null ==> Scan(Views(msgQueue)) == Some(pos) && m == msgQueue[pos])
    {
      m, pos := null, 0;
      if now - lastFetch <= 1000 * interval {
        return;
      }
      lastFetch := now;
      m, pos := FindMsg();
    }

    // One turn of the clean-up, at the message behind those kept. The index is unsigned:
    // stepping back from 0 wraps, and stepping on wraps again.
    method CleanTurn(index: nat, ghost kept: seq<OfpMsg>, ghost rest: seq<OfpMsg>) returns (next: nat, erased: bool)
      requires msgQueue == kept + rest && rest != [] && index == |kept| && index + 1 < TWO_64
      modifies this`msgQueue
      ensures erased == rest[0].View().Done() && next == if erased then index else index + 1
      ensures msgQueue == kept + (if erased then [] else [rest[0]]) + rest[1..]
    {
      var m := msgQueue[index];
      next, erased := index, false;
      if m.inProcess && m.finished {
        msgQueue := msgQueue[..index] + msgQueue[index + 1..];
        next := U64(next - 1);
        erased := true;
      }
      next := U64(next + 1);
    }

    /** Removes exactly the finished messages, leaves the others in their order, and says how
        many it removed. */
    method CleanFinishMsg() returns (count: nat)
      requires Valid() && |msgQueue| < TWO_64
      modifies this`msgQueue
      ensures Valid() && (forall m | m in msgQueue :: m in old(msgQueue)) && |msgQueue| + count == |old(msgQueue)|
      ensures Views(msgQueue) == Remaining(old(Views(msgQueue))) && count == |Removed(old(Views(msgQueue)))|
    {
      hide Kept;
      hide Remaining;
      hide Removed;
      hide Sorted;
      hide Views;
      ghost var all, views, kept := msgQueue, Views(msgQueue), [];
      KeptNothing(all, views);
      var index := 0;
      count := 0;
      for i := 0 to |msgQueue|
        invariant kept == Kept(all[..i], views[..i]) && index == |kept| && count + index == i
        invariant msgQueue == kept + all[i..] && Views(all) == views
      {
        ghost var next := KeptStep(all, views, i, kept);
        var erased;
        index, erased := CleanTurn(index, kept, all[i..]);
        count := if erased then count + 1 else count;
        kept := next;
      }
      Cleaned(all, views, kept);
    }
  }
}
