/** One accounting window (PriorityManager.h, Split) and the plain log of charges it has to
    agree with. Counters are 32-bit, so they agree with the exact sums modulo 2^32. */
module Splits {
  import opened Bytes

  datatype Uep = Uep(eid: byte, uid: byte)

  // The source copies Splits in and out of the ring by value, so they are values here.
  datatype Split = Split(uepMap: map<Uep, u32>, total: u32) {
    function Number(uep: Uep): u32 {
      if uep in uepMap then uepMap[uep] else 0
    }

    function AddUEP(uep: Uep, number: u32): Split {
      if uep in uepMap
      then Split(uepMap[uep := U32(uepMap[uep] + number)], U32(total + number))
      else Split(uepMap[uep := number], U32(total + number))
    }

    // operator+ adds the totals and drops both maps.
    function Plus(b: Split): Split {
      Split(map[], U32(total + b.total))
    }
  }

  const EMPTY: Split := Split(map[], 0)

  datatype Charge = Charge(window: nat, uep: Uep, number: u32)

  // ----- The reference: exact sums over the log of all charges ever made.

  ghost function UepSum(log: seq<Charge>, w: nat, uep: Uep): nat {
    if log == [] then 0
    else
      var c := log[|log| - 1];
      UepSum(log[..|log| - 1], w, uep) + if c.window == w && c.uep == uep then c.number else 0
  }

  ghost function WindowSum(log: seq<Charge>, w: nat): nat {
    if log == [] then 0
    else
      var c := log[|log| - 1];
      WindowSum(log[..|log| - 1], w) + if c.window == w then c.number else 0
  }

  ghost predicate Logged(log: seq<Charge>, w: nat) {
    exists i | 0 <= i < |log| :: log[i].window == w
  }

  // The Split that results when the charges of window w are added one by one.
  ghost function SplitOf(log: seq<Charge>, w: nat): Split {
    if log == [] then EMPTY
    else
      var c, s := log[|log| - 1], SplitOf(log[..|log| - 1], w);
      if c.window == w then s.AddUEP(c.uep, c.number) else s
  }

  // The sum of all entries of a map.
  ghost function MapSum(m: map<Uep, u32>): nat {
    if m == map[] then 0
    else
      var k :| k in m;
      m[k] + MapSum(m - {k})
  }

  lemma {:induction false} MapSumAt(m: map<Uep, u32>, k: Uep)
    requires k in m
    ensures MapSum(m) == m[k] + MapSum(m - {k})
    decreases |m|
  {
    var j :| j in m && MapSum(m) == m[j] + MapSum(m - {j});
    if j != k {
      MapSumAt(m - {j}, k);
      MapSumAt(m - {k}, j);
      assert m - {j} - {k} == m - {k} - {j};
    }
  }

  lemma {:induction false} MapSumUpdate(m: map<Uep, u32>, k: Uep, v: u32)
    ensures MapSum(m[k := v]) == MapSum(m) + v - if k in m then m[k] else 0
  {
    MapSumAt(m[k := v], k);
    assert m[k := v] - {k} == m - {k};
    if k in m {
      MapSumAt(m, k);
    } else {
      assert m - {k} == m;
    }
  }

  // Adding a charge keeps the cached total equal to the sum of the map, modulo 2^32.
  lemma {:induction false} AddKeepsMapSum(s: Split, uep: Uep, number: u32)
    requires s.total == U32(MapSum(s.uepMap))
    ensures s.AddUEP(uep, number).total == U32(MapSum(s.AddUEP(uep, number).uepMap))
  {
    var m, was := MapSum(s.uepMap), s.Number(uep);
    MapSumUpdate(s.uepMap, uep, s.AddUEP(uep, number).Number(uep));
    U32Add(m, number);
    U32Add(was + number, m - was);
    assert was + number + (m - was) == m + number;
  }

  /** What a window holds, for any log: per sender and in total the exact sums modulo 2^32,
      and a total that is the sum of the map. */
  lemma {:induction false} SplitHoldsTheSums(log: seq<Charge>, w: nat, uep: Uep)
    ensures SplitOf(log, w).Number(uep) == U32(UepSum(log, w, uep))
    ensures SplitOf(log, w).total == U32(WindowSum(log, w)) == U32(MapSum(SplitOf(log, w).uepMap))
  {
    if log != [] {
      var front, c := log[..|log| - 1], log[|log| - 1];
      SplitHoldsTheSums(front, w, uep);
      if c.window == w {
        AddKeepsTheSums(SplitOf(front, w), c.uep, c.number, uep, UepSum(front, w, uep), WindowSum(front, w));
      }
    }
  }

  lemma {:induction false} AddKeepsTheSums(s: Split, uep: Uep, number: u32, u: Uep, sum: nat, total: nat)
    requires s.Number(u) == U32(sum) && s.total == U32(total) == U32(MapSum(s.uepMap))
    ensures s.AddUEP(uep, number).Number(u) == U32(sum + if u == uep then number else 0)
    ensures s.AddUEP(uep, number).total == U32(total + number) == U32(MapSum(s.AddUEP(uep, number).uepMap))
  {
    U32Add(sum, number);
    U32Add(total, number);
    AddKeepsMapSum(s, uep, number);
  }

  // A window has an entry for exactly the senders charged in it.
  lemma {:induction false} SplitHoldsTheSenders(log: seq<Charge>, w: nat, uep: Uep)
    ensures uep in SplitOf(log, w).uepMap <==> exists i | 0 <= i < |log| :: log[i].window == w && log[i].uep == uep
  {
    if log != [] {
      var front := log[..|log| - 1];
      SplitHoldsTheSenders(front, w, uep);
      assert forall i | 0 <= i < |front| :: log[i] == front[i];
      if uep in SplitOf(front, w).uepMap {
        var i :| 0 <= i < |front| && front[i].window == w && front[i].uep == uep;
        assert log[i].window == w && log[i].uep == uep;
      }
    }
  }

  lemma {:induction false} UnloggedIsEmpty(log: seq<Charge>, w: nat)
    requires !Logged(log, w)
    ensures SplitOf(log, w) == EMPTY
  {
    if log != [] {
      var front := log[..|log| - 1];
      assert forall i | 0 <= i < |front| :: log[i] == front[i];
      UnloggedIsEmpty(front, w);
    }
  }

  lemma {:induction false} TwoUepsFit(log: seq<Charge>, w: nat, a: Uep, b: Uep)
    requires a != b
    ensures UepSum(log, w, a) + UepSum(log, w, b) <= WindowSum(log, w)
  {
    if log != [] {
      TwoUepsFit(log[..|log| - 1], w, a, b);
    }
  }

  // ----- Which window a slot of a ring of n slots stands for: the latest one charged that
  // falls on it, or -1.

  ghost function LastWindow(log: seq<Charge>, n: nat, slot: nat): int
    requires n > 0
  {
    if log == [] then -1
    else
      var w, before := log[|log| - 1].window, LastWindow(log[..|log| - 1], n, slot);
      if w % n == slot && before < w then w else before
  }

  ghost function SlotSplit(log: seq<Charge>, n: nat, slot: nat): Split
    requires n > 0
  {
    if LastWindow(log, n, slot) < 0 then EMPTY else SplitOf(log, LastWindow(log, n, slot))
  }

  // LastWindow is what its name says.
  lemma {:induction false} LastWindowIsLatest(log: seq<Charge>, n: nat, slot: nat)
    requires n > 0
    ensures forall i | 0 <= i < |log| && log[i].window % n == slot :: log[i].window <= LastWindow(log, n, slot)
    ensures var w := LastWindow(log, n, slot); w == -1 || (w >= 0 && w % n == slot && Logged(log, w))
  {
    if log != [] {
      var front := log[..|log| - 1];
      LastWindowIsLatest(front, n, slot);
      assert forall i | 0 <= i < |front| :: log[i] == front[i];
      var b := LastWindow(front, n, slot);
      if b >= 0 {
        var i :| 0 <= i < |front| && front[i].window == b;
        assert log[i].window == b;
      }
      assert log[|log| - 1].window == log[|log| - 1].window;
    }
  }

  // A charged window within n of every charged window is still in its slot.
  lemma {:induction false} RecentKeepsItsSlot(log: seq<Charge>, n: nat, tail: nat, w: nat)
    requires n > 0 && Logged(log, w) && tail <= w + n
    requires forall i | 0 <= i < |log| :: log[i].window < tail
    ensures SlotSplit(log, n, w % n) == SplitOf(log, w)
  {
    LastWindowIsLatest(log, n, w % n);
    var l := LastWindow(log, n, w % n);
    if w < l {
      SameSlotApart(w, l, n);
    }
  }

  lemma {:induction false} SameSlotApart(w: nat, l: nat, n: nat)
    requires n > 0 && w < l && w % n == l % n
    ensures w + n <= l
  {
    var a, b := w / n, l / n;
    assert w == a * n + w % n && l == b * n + l % n;
    if a < b {
      MulStep(a, b, n);
    } else {
      MulMonotone(b, a, n);
    }
  }

  lemma {:induction false} MulStep(a: nat, b: nat, n: nat)
    requires a < b
    ensures a * n + n <= b * n
  {
    MulMonotone(a + 1, b, n);
  }

  lemma {:induction false} MulMonotone(a: nat, b: nat, n: nat)
    requires a <= b
    ensures a * n <= b * n
    decreases b - a
  {
    if a < b {
      MulMonotone(a, b - 1, n);
    }
  }
}
