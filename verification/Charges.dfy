/** What filtering an action list does to the accounts: each sender is charged exactly the
    numbers its removed actions carried. */
module Charges {
  import opened Bytes
  import opened Splits
  import opened Priority
  import opened ActionFilter

  // What the removed actions say, per sender and altogether.
  ghost function NumberSum(fields: seq<SetField>, uep: Uep): nat {
    if fields == [] then 0
    else
      var last := fields[|fields| - 1];
      NumberSum(fields[..|fields| - 1], uep) + if UepOf(last) == uep then NumberOf(last) else 0
  }

  ghost function NumberTotal(fields: seq<SetField>): nat {
    if fields == [] then 0
    else NumberTotal(fields[..|fields| - 1]) + NumberOf(fields[|fields| - 1])
  }

  // The part of it that was removed while the clock showed window w.
  function During(fields: seq<SetField>, clock: seq<nat>, w: nat): (r: seq<SetField>)
    requires |fields| == |clock|
  {
    if fields == [] then []
    else
      var k := |fields| - 1;
      During(fields[..k], clock[..k], w) + if clock[k] == w then [fields[k]] else []
  }

  // What the accounts say about a sender over a span of windows (Priority.SpanSum is the
  // same for all senders together).
  ghost function UepSpan(log: seq<Charge>, uep: Uep, begin: nat, lens: nat): nat {
    if lens == 0 then 0 else UepSpan(log, uep, begin, lens - 1) + UepSum(log, begin + lens - 1, uep)
  }

  // ----- One charge.

  lemma {:induction false} OneCharge(log: seq<Charge>, c: Charge, w: nat, uep: Uep)
    ensures UepSum(log + [c], w, uep) == UepSum(log, w, uep) + if c.window == w && c.uep == uep then c.number else 0
    ensures WindowSum(log + [c], w) == WindowSum(log, w) + if c.window == w then c.number else 0
  {
    var next := log + [c];
    assert next[..|next| - 1] == log && next[|next| - 1] == c;
  }

  lemma {:induction false} OneChargeOverSpan(log: seq<Charge>, c: Charge, uep: Uep, begin: nat, lens: nat)
    ensures var inside := begin <= c.window < begin + lens;
            && UepSpan(log + [c], uep, begin, lens)
               == UepSpan(log, uep, begin, lens) + (if inside && c.uep == uep then c.number else 0)
            && SpanSum(log + [c], begin, lens) == SpanSum(log, begin, lens) + (if inside then c.number else 0)
  {
    hide UepSum;
    hide WindowSum;
    if lens > 0 {
      OneChargeOverSpan(log, c, uep, begin, lens - 1);
      OneCharge(log, c, begin + lens - 1, uep);
    }
  }

  // ----- All charges of a list.

  lemma {:induction false} LastCharge(log: seq<Charge>, fields: seq<SetField>, windows: seq<nat>)
    requires |fields| == |windows| && fields != []
    ensures var k := |fields| - 1;
            log + ChargesFor(fields, windows)
            == (log + ChargesFor(fields[..k], windows[..k])) + [Charge(windows[k], UepOf(fields[k]), NumberOf(fields[k]))]
  {
    var k := |fields| - 1;
    Assoc(log, ChargesFor(fields[..k], windows[..k]), [Charge(windows[k], UepOf(fields[k]), NumberOf(fields[k]))]);
  }

  /** Conservation: whatever windows the charges are booked under, as long as a span takes
      them all in, each sender's sum over it rises by exactly the numbers of its removed
      actions, any other sender's stays, and the totals rise by the same overall amount. */
  lemma {:induction false} ChargesAreConserved(log: seq<Charge>, fields: seq<SetField>, windows: seq<nat>, uep: Uep,
                                               begin: nat, lens: nat)
    requires |fields| == |windows|
    requires forall i | 0 <= i < |windows| :: begin <= windows[i] < begin + lens
    ensures var after := log + ChargesFor(fields, windows);
            && UepSpan(after, uep, begin, lens) == UepSpan(log, uep, begin, lens) + NumberSum(fields, uep)
            && SpanSum(after, begin, lens) == SpanSum(log, begin, lens) + NumberTotal(fields)
  {
    if fields == [] {
      assert log + ChargesFor(fields, windows) == log;
    } else {
      var k := |fields| - 1;
      ChargesAreConserved(log, fields[..k], windows[..k], uep, begin, lens);
      LastCharge(log, fields, windows);
      OneChargeOverSpan(log + ChargesFor(fields[..k], windows[..k]),
                        Charge(windows[k], UepOf(fields[k]), NumberOf(fields[k])), uep, begin, lens);
    }
  }

  /** The same window by window. */
  lemma {:induction false} ChargesPerWindow(log: seq<Charge>, fields: seq<SetField>, windows: seq<nat>, uep: Uep, w: nat)
    requires |fields| == |windows|
    ensures var after, now := log + ChargesFor(fields, windows), During(fields, windows, w);
            && UepSum(after, w, uep) == UepSum(log, w, uep) + NumberSum(now, uep)
            && WindowSum(after, w) == WindowSum(log, w) + NumberTotal(now)
            && (w in windows ==> Logged(after, w))
  {
    if fields == [] {
      assert log + ChargesFor(fields, windows) == log;
    } else {
      var k := |fields| - 1;
      var before := log + ChargesFor(fields[..k], windows[..k]);
      var now := During(fields[..k], windows[..k], w);
      ChargesPerWindow(log, fields[..k], windows[..k], uep, w);
      LastCharge(log, fields, windows);
      var c := Charge(windows[k], UepOf(fields[k]), NumberOf(fields[k]));
      OneCharge(before, c, w, uep);
      LogGrows(before, c);
      assert (now + [fields[k]])[..|now|] == now && now + [] == now;
      assert windows == windows[..k] + [windows[k]];
    }
  }

  /** On the ring: after a list was filtered while the clock never stepped back, the slot of
      every window it charged and that is still within reach holds the old sum of the log plus
      the numbers removed during that window, per sender and in total, short of 32-bit
      overflow. */
  lemma {:induction false} RingShowsTheCharges(log: seq<Charge>, p: Pointers, slots: seq<Split>, after: seq<Charge>,
                                               q: Pointers, ws: nat, fields: seq<SetField>, clock: seq<nat>, uep: Uep,
                                               w: nat)
    requires |fields| == |clock| && InOrder(p.head, clock) && ws >= 1
    requires after == log + ChargesFor(fields, BookedWindows(p, ws, clock))
    requires Holds(after, slots, q, ws) && w in clock && q.tail <= w + |slots|
    requires WindowSum(log, w) + NumberTotal(During(fields, clock, w)) < TWO_32
    ensures var slot, now := slots[w % |slots|], During(fields, clock, w);
            && slot.Number(uep) == UepSum(log, w, uep) + NumberSum(now, uep)
            && slot.total == WindowSum(log, w) + NumberTotal(now)
  {
    InOrderIsExact(p, ws, clock);
    ChargesPerWindow(log, fields, clock, uep, w);
    RecentWindowIsExact(after, slots, q, ws, w, uep);
    UepFits(after, w, uep);
    U32Small(UepSum(after, w, uep));
    U32Small(WindowSum(after, w));
  }
}
