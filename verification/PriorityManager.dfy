/** PriorityManager.h: charges are booked per two-second window in a ring of Splits, and a
    sender's share of its window decides whether its messages are demoted. */
module Priority {
  import opened Bytes
  import opened Splits
  import opened Ring

  // The ring's two pointers: the windows from head to before tail can still be added to.
  datatype Pointers = Pointers(head: nat, tail: nat)

  // The window a charge for window id is really booked under: an id behind the head is late
  // and lands in a new window at the tail.
  function BookedWindow(p: Pointers, id: nat): nat {
    if id < p.head then p.tail else id
  }

  // Where the pointers of a ring with window size ws go from there.
  function Advance(p: Pointers, ws: nat, id: nat): Pointers {
    if p.head <= id < p.tail then p
    else if id < p.head then Pointers(if p.tail + 1 <= p.head + ws then p.head else p.head + 1, p.tail + 1)
    else Pointers(id, id + 1)
  }

  ghost function AdvanceAll(p: Pointers, ws: nat, ids: seq<nat>): Pointers {
    if ids == [] then p else Advance(AdvanceAll(p, ws, ids[..|ids| - 1]), ws, ids[|ids| - 1])
  }

  ghost function BookedWindows(p: Pointers, ws: nat, ids: seq<nat>): (r: seq<nat>)
    ensures |r| == |ids|
  {
    if ids == [] then []
    else
      var front, id := ids[..|ids| - 1], ids[|ids| - 1];
      BookedWindows(p, ws, front) + [BookedWindow(AdvanceAll(p, ws, front), id)]
  }

  function LastOr(from: nat, ids: seq<nat>): nat {
    if ids == [] then from else ids[|ids| - 1]
  }

  // Window ids that never step back, neither behind one another nor behind from.
  ghost predicate InOrder(from: nat, ids: seq<nat>) {
    ids != [] ==>
      var front := ids[..|ids| - 1];
      InOrder(from, front) && LastOr(from, front) <= ids[|ids| - 1]
  }

  /** Charges whose window ids never step back are booked under the windows they name. */
  lemma {:induction false} InOrderIsExact(p: Pointers, ws: nat, ids: seq<nat>)
    requires 1 <= ws && InOrder(p.head, ids)
    ensures BookedWindows(p, ws, ids) == ids
    ensures AdvanceAll(p, ws, ids).head <= LastOr(p.head, ids)
  {
    if ids != [] {
      var front := ids[..|ids| - 1];
      InOrderIsExact(p, ws, front);
      assert front + [ids[|ids| - 1]] == ids;
    }
  }

  /** At the shipped window size these are the only ones: a window id that steps back is booked
      under another window. */
  lemma {:induction false} OnlyInOrderIsExact(p: Pointers, ids: seq<nat>)
    requires p.head <= p.tail <= p.head + 1
    ensures BookedWindows(p, 1, ids) == ids <==> InOrder(p.head, ids)
    ensures InOrder(p.head, ids) ==> AdvanceAll(p, 1, ids).head == LastOr(p.head, ids)
    ensures AdvanceAll(p, 1, ids).head <= AdvanceAll(p, 1, ids).tail <= AdvanceAll(p, 1, ids).head + 1
  {
    if ids != [] {
      var front, id := ids[..|ids| - 1], ids[|ids| - 1];
      OnlyInOrderIsExact(p, front);
      var booked := BookedWindows(p, 1, ids);
      assert front + [id] == ids;
      assert booked[..|ids| - 1] == BookedWindows(p, 1, front);
      assert booked[|ids| - 1] == BookedWindow(AdvanceAll(p, 1, front), id);
    }
  }

  /** The refinement: the pointers of a ring with window size ws delimit charged windows, and
      every slot, recent or stale, holds exactly the charges of the last window booked on it. */
  ghost predicate Holds(log: seq<Charge>, slots: seq<Split>, p: Pointers, ws: nat) {
    && 1 <= ws <= |slots|
    && p.head <= p.tail <= p.head + ws
    && (forall i | 0 <= i < |log| :: log[i].window < p.tail)
    && (forall w | p.head <= w < p.tail :: Logged(log, w))
    && (forall s | 0 <= s < |slots| :: slots[s] == SlotSplit(log, |slots|, s))
  }

  class PriorityManager {
    const windowBuffer: RingBuffer
    const windowSize: u32
    const bufferSize: u32
    ghost var log: seq<Charge>

    ghost function Ptrs(): Pointers
      reads windowBuffer
    {
      Pointers(windowBuffer.head, windowBuffer.tail)
    }

    ghost function Slots(): seq<Split>
      reads windowBuffer.buffer
    {
      windowBuffer.buffer[..]
    }

    ghost predicate Valid()
      reads this, windowBuffer, windowBuffer.buffer
    {
      && windowBuffer.Valid()
      && windowBuffer.bufferSize == bufferSize && windowBuffer.windowSize == windowSize
      && windowBuffer.head + windowBuffer.currentSize == windowBuffer.tail
      && Holds(log, Slots(), Ptrs(), windowSize)
    }

    constructor (windowSize: u32, bufferSize: u32)
      requires 1 <= windowSize <= bufferSize
      ensures Valid() && fresh(windowBuffer) && fresh(windowBuffer.buffer)
      ensures this.windowSize == windowSize && this.bufferSize == bufferSize
      ensures log == [] && Ptrs() == Pointers(0, 0)
    {
      this.windowSize := windowSize;
      this.bufferSize := bufferSize;
      windowBuffer := new RingBuffer(bufferSize, windowSize);
      log := [];
    }

    // The window is open: its Split is copied out, added to and put back.
    method AddToWindow(splitId: u32, uep: Uep, number: u32)
      requires Valid() && Ptrs().head <= splitId < Ptrs().tail
      modifies this, windowBuffer, windowBuffer.buffer
      ensures Valid() && Ptrs() == old(Ptrs())
      ensures log == old(log) + [Charge(splitId, uep, number)]
    {
      ghost var slots, c := Slots(), Charge(splitId, uep, number);
      BookInside(log, slots, Ptrs(), windowSize, c);
      var split := windowBuffer.GetData(splitId);
      split := split.AddUEP(uep, number);
      windowBuffer.UpdateData(splitId, split);
      assert Slots() == slots[splitId % |slots| := split];
      log := log + [c];
    }

    // It is not: a new Split starts at the tail, which first jumps to an id ahead of it.
    method OpenWindow(splitId: u32, uep: Uep, number: u32)
      requires Valid() && !(Ptrs().head <= splitId < Ptrs().tail)
      requires Ptrs().tail + 1 < TWO_32 && splitId + 1 < TWO_32
      modifies this, windowBuffer, windowBuffer.buffer
      ensures Valid() && Ptrs() == Advance(old(Ptrs()), windowSize, splitId)
      ensures log == old(log) + [Charge(BookedWindow(old(Ptrs()), splitId), uep, number)]
    {
      ghost var p, slots, c := Ptrs(), Slots(), Charge(BookedWindow(Ptrs(), splitId), uep, number);
      BookAtTail(log, slots, p, windowSize, c, Advance(p, windowSize, splitId));
      var split := EMPTY.AddUEP(uep, number);
      if !windowBuffer.AheadOfTail(splitId) {
        windowBuffer.UpdateHeadTail(splitId);
      }
      U32Small(windowBuffer.currentSize + 1);
      U32Small(windowBuffer.tail + 1);
      U32Small(windowBuffer.head + 1);
      var _ := windowBuffer.PutData(split);
      assert Slots() == slots[c.window % |slots| := split];
      log := log + [c];
    }

    /** Books a charge. Nothing is asked of the window id but that it and the tail stay clear
        of the 32-bit wrap. */
    method UpdateSplitOfUEP(splitId: u32, uep: Uep, number: u32)
      requires Valid() && Ptrs().tail + 1 < TWO_32 && splitId + 1 < TWO_32
      modifies this, windowBuffer, windowBuffer.buffer
      ensures Valid()
      ensures log == old(log) + [Charge(BookedWindow(old(Ptrs()), splitId), uep, number)]
      ensures Ptrs() == Advance(old(Ptrs()), windowSize, splitId)
      ensures old(Ptrs()).head <= splitId ==> log == old(log) + [Charge(splitId, uep, number)]
      ensures old(Ptrs()).head <= splitId < old(Ptrs()).tail ==> Ptrs() == old(Ptrs())
      ensures old(Ptrs()).head <= splitId && old(Ptrs()).tail <= splitId ==> Ptrs() == Pointers(splitId, splitId + 1)
      ensures splitId < old(Ptrs()).head ==>
                && log == old(log) + [Charge(old(Ptrs()).tail, uep, number)] && Ptrs().tail == old(Ptrs()).tail + 1
                && Ptrs().head == if Ptrs().tail - old(Ptrs()).head <= windowSize then old(Ptrs()).head
                                  else old(Ptrs()).head + 1
    {
      if !windowBuffer.AheadOfHead(splitId) && windowBuffer.AheadOfTail(splitId) {
        AddToWindow(splitId, uep, number);
      } else {
        OpenWindow(splitId, uep, number);
      }
    }

    /** The share of a sender in window splitId, over the span of windowSize windows ending
        there. */
    method GetUEPRatioOfSplitK(splitId: u32, uep: Uep) returns (ratio: real)
      requires Valid()
      ensures ratio == SlotRatio(Slots(), windowSize, splitId, uep)
    {
      var split := windowBuffer.GetData(splitId);
      var number := split.Number(uep);
      var total := windowBuffer.GetTotal(U32(splitId - windowSize + 1), windowSize);
      ratio := Ratio(number, total.total);
    }
  }

  ghost function SlotRatio(slots: seq<Split>, windowSize: u32, splitId: u32, uep: Uep): real
    requires slots != []
  {
    Ratio(slots[splitId % |slots|].Number(uep),
          U32(SpanTotal(slots, U32(splitId - windowSize + 1), windowSize)))
  }

  // A charge for a window between the pointers is added to that window's slot.
  lemma {:induction false} BookInside(log: seq<Charge>, slots: seq<Split>, p: Pointers, ws: nat, c: Charge)
    requires Holds(log, slots, p, ws) && p.head <= c.window < p.tail
    ensures var at := c.window % |slots|;
            Holds(log + [c], slots[at := slots[at].AddUEP(c.uep, c.number)], p, ws)
  {
    var n, next := |slots|, log + [c];
    RecentKeepsItsSlot(log, n, p.tail, c.window);
    LogGrows(log, c);
    RecentKeepsItsSlot(next, n, p.tail, c.window);
    OtherSlotsKeep(log, c, n);
  }

  // Any other charge starts a window of its own, at the tail or beyond it.
  lemma {:induction false} BookAtTail(log: seq<Charge>, slots: seq<Split>, p: Pointers, ws: nat, c: Charge, q: Pointers)
    requires Holds(log, slots, p, ws) && p.tail <= c.window
    requires q.head == c.window || (c.window == p.tail && p.head <= q.head <= p.tail)
    requires q.tail == c.window + 1 <= q.head + ws
    ensures var at := c.window % |slots|;
            Holds(log + [c], slots[at := EMPTY.AddUEP(c.uep, c.number)], q, ws)
  {
    var n, next := |slots|, log + [c];
    assert !Logged(log, c.window);
    UnloggedIsEmpty(log, c.window);
    LogGrows(log, c);
    RecentKeepsItsSlot(next, n, c.window + 1, c.window);
    OtherSlotsKeep(log, c, n);
  }

  lemma {:induction false} LogGrows(log: seq<Charge>, c: Charge)
    ensures forall i | 0 <= i < |log| :: (log + [c])[i] == log[i]
    ensures forall w | Logged(log, w) || w == c.window :: Logged(log + [c], w)
    ensures SplitOf(log + [c], c.window) == SplitOf(log, c.window).AddUEP(c.uep, c.number)
  {
    var next := log + [c];
    assert next[..|next| - 1] == log;
    assert next[|log|].window == c.window;
    forall w | Logged(log, w)
      ensures Logged(next, w)
    {
      var i :| 0 <= i < |log| && log[i].window == w;
      assert next[i].window == w;
    }
  }

  lemma {:induction false} OtherSlotsKeep(log: seq<Charge>, c: Charge, n: nat)
    requires n > 0
    ensures forall s | 0 <= s < n && s != c.window % n :: SlotSplit(log + [c], n, s) == SlotSplit(log, n, s)
  {
    var next := log + [c];
    assert next[..|next| - 1] == log;
    forall s | 0 <= s < n && s != c.window % n
      ensures SlotSplit(next, n, s) == SlotSplit(log, n, s)
    {
      LastWindowIsLatest(log, n, s);
    }
  }

  // The slot of a charged window within reach of the newest holds its sums.
  lemma {:induction false} RecentWindowIsExact(log: seq<Charge>, slots: seq<Split>, p: Pointers, ws: nat,
                                               w: nat, uep: Uep)
    requires Holds(log, slots, p, ws) && Logged(log, w) && p.tail <= w + |slots|
    ensures slots[w % |slots|].Number(uep) == U32(UepSum(log, w, uep))
    ensures slots[w % |slots|].total == U32(WindowSum(log, w)) == U32(MapSum(slots[w % |slots|].uepMap))
  {
    RecentKeepsItsSlot(log, |slots|, p.tail, w);
    SplitHoldsTheSums(log, w, uep);
  }

  ghost function SpanSum(log: seq<Charge>, begin: nat, lens: nat): nat {
    if lens == 0 then 0 else SpanSum(log, begin, lens - 1) + WindowSum(log, begin + lens - 1)
  }

  /** getTotal over a span of charged windows within reach of the ring is the log's sum,
      modulo 2^32. */
  lemma {:induction false} SpanIsExact(log: seq<Charge>, slots: seq<Split>, p: Pointers, ws: nat,
                                       begin: nat, lens: nat)
    requires Holds(log, slots, p, ws) && begin + lens <= TWO_32 && p.tail <= begin + |slots|
    requires forall w | begin <= w < begin + lens :: Logged(log, w)
    ensures U32(SpanTotal(slots, begin, lens)) == U32(SpanSum(log, begin, lens))
    decreases lens
  {
    hide Holds;
    hide Logged;
    hide WindowSum;
    hide U32;
    if lens > 0 {
      SpanIsExact(log, slots, p, ws, begin, lens - 1);
      var last := LastOfSpan(log, slots, p, ws, begin, lens);
      U32Sum(SpanTotal(slots, begin, lens - 1), last, SpanSum(log, begin, lens - 1), WindowSum(log, begin + lens - 1));
    }
  }

  lemma {:induction false} LastOfSpan(log: seq<Charge>, slots: seq<Split>, p: Pointers, ws: nat,
                                      begin: nat, lens: nat) returns (last: u32)
    requires Holds(log, slots, p, ws) && 0 < lens && begin + lens <= TWO_32 && p.tail <= begin + |slots|
    requires Logged(log, begin + lens - 1)
    ensures slots != [] && SpanTotal(slots, begin, lens) == SpanTotal(slots, begin, lens - 1) + last
    ensures U32(last) == U32(WindowSum(log, begin + lens - 1))
  {
    var w := begin + lens - 1;
    RecentWindowIsExact(log, slots, p, ws, w, Uep(0, 0));
    last := slots[U32(w) % |slots|].total;
  }

  /** At the shipped window size of 1 the ratio of a charged window within reach is the exact
      share, short of 32-bit overflow. */
  lemma {:induction false} RatioIsExact(log: seq<Charge>, slots: seq<Split>, p: Pointers, w: u32, uep: Uep)
    requires Holds(log, slots, p, 1) && Logged(log, w) && p.tail <= w + |slots|
    requires WindowSum(log, w) < TWO_32
    ensures SlotRatio(slots, 1, w, uep) == Ratio(UepSum(log, w, uep), WindowSum(log, w))
  {
    RecentWindowIsExact(log, slots, p, 1, w, uep);
    UepFits(log, w, uep);
    SpanOfOne(slots, w);
    U32Small(UepSum(log, w, uep));
    U32Small(WindowSum(log, w));
    U32Small(w);
  }

  /** And whatever slot is read, recent or stale, charged or not: what the ratio is computed
      from are the sums, modulo 2^32, of the last window booked on it. */
  lemma {:induction false} SlotRatioIsExact(log: seq<Charge>, slots: seq<Split>, p: Pointers, splitId: u32, uep: Uep)
    requires Holds(log, slots, p, 1)
    ensures var w := LastWindow(log, |slots|, splitId % |slots|);
            SlotRatio(slots, 1, splitId, uep)
            == if w < 0 then 0.0 else Ratio(U32(UepSum(log, w, uep)), U32(WindowSum(log, w)))
  {
    var s := splitId % |slots|;
    var w := LastWindow(log, |slots|, s);
    assert slots[s] == SlotSplit(log, |slots|, s);
    SpanOfOne(slots, splitId);
    U32Small(splitId);
    U32Small(slots[s].total);
    if w >= 0 {
      SplitHoldsTheSums(log, w, uep);
    }
  }

  lemma {:induction false} UepFits(log: seq<Charge>, w: nat, uep: Uep)
    ensures UepSum(log, w, uep) <= WindowSum(log, w)
  {
    TwoUepsFit(log, w, uep, if uep == Uep(0, 0) then Uep(0, 1) else Uep(0, 0));
  }

  // ----- Share, priority and demotion.

  // getUEPRatioOfSplitK's formula, over the reals.
  function Ratio(number: nat, total: nat): real {
    if total == 0 then 0.0 else number as real / (total as real + 5.0)
  }

  // exp(-ratio) < 0.5, that is, the ratio is above ln 2.
  predicate IsDangerous(ratio: real, ln2: real) {
    ratio > ln2
  }

  // All that is used of the number ln 2.
  predicate IsLn2(ln2: real) {
    0.6931 < ln2 < 0.6932
  }

  function Times(a: real, b: real): real {
    a * b
  }

  lemma {:induction false} RatioAbove(number: nat, total: nat, bound: real)
    requires bound > 0.0
    ensures Ratio(number, total) > bound <==> total > 0 && number as real > Times(bound, total as real + 5.0)
  {
    if total > 0 {
      var d := total as real + 5.0;
      assert Ratio(number, total) * d == number as real;
    }
  }

  lemma {:induction false} Scale(a: real, b: real, x: real)
    requires a < b && x > 0.0
    ensures Times(a, x) < Times(b, x)
  {
  }

  // The two sides of the threshold in whole numbers.
  lemma {:induction false} DangerousInIntegers(number: nat, total: nat, ln2: real)
    requires IsLn2(ln2)
    ensures IsDangerous(Ratio(number, total), ln2) ==> 10000 * number > 6931 * (total + 5)
    ensures total > 0 && 10000 * number >= 6932 * (total + 5) ==> IsDangerous(Ratio(number, total), ln2)
  {
    hide Ratio;
    hide Times;
    var d := total as real + 5.0;
    RatioAbove(number, total, ln2);
    Scale(0.6931, ln2, d);
    Scale(ln2, 0.6932, d);
    Literals(d);
    InIntegers(number, total, Times(ln2, d));
  }

  lemma {:induction false} Literals(d: real)
    ensures Times(0.6931, d) == 0.6931 * d && Times(0.6932, d) == 0.6932 * d
  {
  }

  lemma {:induction false} InIntegers(number: nat, total: nat, x: real)
    requires 0.6931 * (total as real + 5.0) < x < 0.6932 * (total as real + 5.0)
    ensures number as real > x ==> 10000 * number > 6931 * (total + 5)
    ensures 10000 * number >= 6932 * (total + 5) ==> number as real > x
  {
    assert (10000 * number) as real == 10000.0 * number as real;
    assert (6931 * (total + 5)) as real == 10000.0 * (0.6931 * (total as real + 5.0));
    assert (6932 * (total + 5)) as real == 10000.0 * (0.6932 * (total as real + 5.0));
  }

  /** At most one sender of a window can be demoted. */
  lemma {:induction false} AtMostOneDangerous(log: seq<Charge>, w: nat, a: Uep, b: Uep, ln2: real)
    requires a != b && IsLn2(ln2)
    requires IsDangerous(Ratio(UepSum(log, w, a), WindowSum(log, w)), ln2)
    ensures !IsDangerous(Ratio(UepSum(log, w, b), WindowSum(log, w)), ln2)
  {
    TwoUepsFit(log, w, a, b);
    DangerousInIntegers(UepSum(log, w, a), WindowSum(log, w), ln2);
    DangerousInIntegers(UepSum(log, w, b), WindowSum(log, w), ln2);
  }

  /** A sender never charged has no share, whatever slot is read. */
  lemma {:induction false} UnchargedHasNoShare(log: seq<Charge>, slots: seq<Split>, p: Pointers, ws: nat,
                                               windowSize: u32, splitId: u32, uep: Uep)
    requires Holds(log, slots, p, ws) && forall i | 0 <= i < |log| :: log[i].uep != uep
    ensures SlotRatio(slots, windowSize, splitId, uep) == 0.0
  {
    var s := splitId % |slots|;
    assert slots[s] == SlotSplit(log, |slots|, s);
    if LastWindow(log, |slots|, s) >= 0 {
      SplitHoldsTheSums(log, LastWindow(log, |slots|, s), uep);
      NeverCharged(log, LastWindow(log, |slots|, s), uep);
    }
  }

  lemma {:induction false} NeverCharged(log: seq<Charge>, w: nat, uep: Uep)
    requires forall i | 0 <= i < |log| :: log[i].uep != uep
    ensures UepSum(log, w, uep) == 0
  {
    if log != [] {
      var front := log[..|log| - 1];
      assert forall i | 0 <= i < |front| :: front[i] == log[i];
      NeverCharged(front, w, uep);
    }
  }

  /** A window holds a demoted sender only from a total of 12 on, and a sender that has the
      window to itself is demoted from exactly there. */
  lemma {:induction false} DangerousFromTwelve(log: seq<Charge>, w: nat, uep: Uep, ln2: real)
    requires IsLn2(ln2)
    ensures IsDangerous(Ratio(UepSum(log, w, uep), WindowSum(log, w)), ln2) ==> WindowSum(log, w) >= 12
    ensures UepSum(log, w, uep) == WindowSum(log, w) >= 12
            ==> IsDangerous(Ratio(UepSum(log, w, uep), WindowSum(log, w)), ln2)
  {
    UepFits(log, w, uep);
    DangerousInIntegers(UepSum(log, w, uep), WindowSum(log, w), ln2);
  }
}
