/** The momentum signal for any number of required months: which months count, by the calendar, and
    the product of their price relatives. */
module MomentumMeaning {
  import opened Basics
  import opened Panel
  import opened History
  import opened Momentum

  /** The bond's month t months before k. */
  function Ago(k: Key, t: nat): Key { Key(k.cusip, k.month - t) }

  /** The grid has the bond's rows for the month d before k and for every month since. */
  ghost predicate OnGrid(keys: seq<Key>, k: Key, d: nat) {
    forall t :: 0 <= t <= d ==> Ago(k, t) in keys
  }

  /** The family's price of the bond in the month d before k. */
  function PriceBack(P: Prices, k: Key, d: nat): Option<real> {
    if Ago(k, d) in P then P[Ago(k, d)] else None
  }

  /** That month and the month before it are priced, with prices of one sign. */
  predicate Grows(P: Prices, k: Key, d: nat) {
    && PriceBack(P, k, d).Some? && PriceBack(P, k, d + 1).Some?
    && PriceBack(P, k, d).value * PriceBack(P, k, d + 1).value > 0.0
  }

  /** The months that enter the signal. */
  ghost function Counting(keys: seq<Key>, P: Prices, k: Key, months: nat): set<nat> {
    set d: nat | d < months && OnGrid(keys, k, d) && Grows(P, k, d)
  }

  /** P(d) / P(d + 1), counted back from k. */
  function Relative(P: Prices, k: Key, d: nat): real {
    if Grows(P, k, d) && PriceBack(P, k, d + 1).value != 0.0
    then PriceBack(P, k, d).value / PriceBack(P, k, d + 1).value else 1.0
  }

  function Relatives(P: Prices, k: Key, q: seq<nat>): (v: seq<real>)
    ensures |v| == |q|
  {
    seq(|q|, j requires 0 <= j < |q| => Relative(P, k, q[j]))
  }

  function Product(v: seq<real>): real { if |v| == 0 then 1.0 else Scaled(Product(v[..|v| - 1]), v[|v| - 1]) }

  function Scaled(x: real, y: real): real { x * y }

  // --- runs and the grid ----------------------------------------------------------------------

  lemma {:induction false} RunHasAStart(rows: seq<Row<Float>>, i: nat)
    requires i < |rows|
    ensures !Adjacent(rows, RunStart(rows, i))
  {
    if Adjacent(rows, i) {
      RunHasAStart(rows, i - 1);
    }
  }

  lemma RowAbove(keys: seq<Key>, t: nat)
    requires StrictlySorted(keys) && t < |keys| && Before(keys[t]) in keys
    ensures t > 0 && keys[t - 1] == Before(keys[t])
  {
    var j :| 0 <= j < |keys| && keys[j] == Before(keys[t]);
    assert j < t;
    NothingBetween(keys[t], keys[t - 1]);
  }

  lemma RunOnGrid(keys: seq<Key>, P: Prices, i: nat, d: nat)
    requires i < |keys| && d <= i - RunStart(ReturnRows(keys, P), i)
    ensures OnGrid(keys, keys[i], d)
  {
    hide RunStart;
    var rows := ReturnRows(keys, P);
    forall t | 0 <= t <= d ensures Ago(keys[i], t) in keys {
      RunIsCalendar(rows, i, t);
      assert keys[i - t] in keys;
    }
  }

  lemma GridAdjacent(keys: seq<Key>, P: Prices, t: nat)
    requires StrictlySorted(keys) && t < |keys| && Before(keys[t]) in keys
    ensures Adjacent(ReturnRows(keys, P), t)
  {
    RowAbove(keys, t);
  }

  lemma RowKey(keys: seq<Key>, P: Prices, t: nat)
    requires t < |keys|
    ensures |ReturnRows(keys, P)| == |keys| && ReturnRows(keys, P)[t].key == keys[t]
  {
  }

  lemma GapBeforeRun(keys: seq<Key>, P: Prices, i: nat)
    requires Covers(keys, P) && i < |keys|
    ensures Ago(keys[i], i - RunStart(ReturnRows(keys, P), i) + 1) !in keys
  {
    hide RunStart, StrictlySorted, ReturnRows, Adjacent;
    RowKey(keys, P, i);
    var rows := ReturnRows(keys, P);
    var s := RunStart(rows, i);
    RowKey(keys, P, s);
    RunIsCalendar(rows, i, i - s);
    RunHasAStart(rows, i);
    assert Before(keys[s]) == Ago(keys[i], i - s + 1);
    if Before(keys[s]) in keys {
      GridAdjacent(keys, P, s);
    }
  }

  /** The run reaches back over exactly the months that are on the grid without a gap. */
  lemma RunMeaning(keys: seq<Key>, P: Prices, i: nat, d: nat)
    requires Covers(keys, P) && i < |keys|
    ensures OnGrid(keys, keys[i], d) <==> d <= i - RunStart(ReturnRows(keys, P), i)
  {
    hide RunStart;
    GapBeforeRun(keys, P, i);
    if d <= i - RunStart(ReturnRows(keys, P), i) {
      RunOnGrid(keys, P, i, d);
    }
  }

  lemma GrowthMeaning(keys: seq<Key>, P: Prices, i: nat, d: nat)
    requires Covers(keys, P) && i < |keys| && d <= i && keys[i - d] == Back(keys[i], d)
    ensures Factor(ReturnRows(keys, P)[i - d].value) ==
      if Grows(P, keys[i], d) then Some(Relative(P, keys[i], d)) else None
  {
    FactorIff(keys, P, i - d);
    GridReturnIsCalendarReturn(keys, P, i - d);
    assert keys[i - d] == Ago(keys[i], d) && Before(keys[i - d]) == Ago(keys[i], d + 1);
    assert PriceAt(P, keys[i - d]) == PriceBack(P, keys[i], d);
    assert PriceAt(P, Before(keys[i - d])) == PriceBack(P, keys[i], d + 1);
    if Grows(P, keys[i], d) {
      GrowthFactor(PriceBack(P, keys[i], d).value, PriceBack(P, keys[i], d + 1).value);
    }
  }

  // --- the window -----------------------------------------------------------------------------

  function GrowingUpTo(P: Prices, k: Key, n: nat): set<nat> { set d: nat | d < n && Grows(P, k, d) }

  lemma GrowingStep(P: Prices, k: Key, n: nat)
    ensures GrowingUpTo(P, k, n + 1) == if Grows(P, k, n) then GrowingUpTo(P, k, n) + {n} else GrowingUpTo(P, k, n)
    ensures forall d :: d in GrowingUpTo(P, k, n) ==> d < n
  {
    hide Grows;
  }

  lemma RelativesSnoc(P: Prices, k: Key, q: seq<nat>, d: nat)
    ensures Product(Relatives(P, k, q + [d])) == Scaled(Product(Relatives(P, k, q)), Relative(P, k, d))
  {
    hide Relative;
    assert Relatives(P, k, q + [d])[..|q|] == Relatives(P, k, q);
  }

  lemma NothingGrows(keys: seq<Key>, P: Prices, i: nat)
    requires Covers(keys, P) && i < |keys|
    ensures Lists([], GrowingUpTo(P, keys[i], 0))
    ensures var rows := ReturnRows(keys, P);
      ValidCount(rows, i + 1, i + 1) == 0 && Compound(rows, i + 1, i + 1) == Product(Relatives(P, keys[i], []))
  {
  }

  lemma {:induction false} WindowListed(keys: seq<Key>, P: Prices, i: nat, n: nat) returns (q: seq<nat>)
    requires Covers(keys, P) && i < |keys| && n <= i + 1 - RunStart(ReturnRows(keys, P), i)
    ensures Lists(q, GrowingUpTo(P, keys[i], n))
    ensures var rows := ReturnRows(keys, P);
      ValidCount(rows, i + 1 - n, i + 1) == |q| && Compound(rows, i + 1 - n, i + 1) == Product(Relatives(P, keys[i], q))
  {
    hide RunStart, Compound, ValidCount, Lists, GrowingUpTo, Relatives, Product, Covers, Grows;
    if n == 0 {
      q := [];
      NothingGrows(keys, P, i);
    } else {
      var rows, k := ReturnRows(keys, P), keys[i];
      q := WindowListed(keys, P, i, n - 1);
      RunIsCalendar(rows, i, n - 1);
      GrowthMeaning(keys, P, i, n - 1);
      SumStep(rows, i + 1 - n, i + 1);
      GrowingStep(P, k, n - 1);
      hide ReturnRows, Relative, Factor;
      if Grows(P, k, n - 1) {
        RelativesSnoc(P, k, q, n - 1);
        ListsSnoc(q, GrowingUpTo(P, k, n - 1), n - 1);
        q := q + [n - 1];
      }
    }
  }

  /** The signal for any number of required months, on any prices: with q the months among the last
      `months` that are on the grid without a gap and have growth of one sign, it is the product of
      their price relatives less one, if there are enough of them. */
  lemma SignalMeaning(keys: seq<Key>, P: Prices, i: nat, months: nat, minObs: nat, q: seq<nat>)
    requires Covers(keys, P) && i < |keys| && months >= 1 && Lists(q, Counting(keys, P, keys[i], months))
    ensures Signal(ReturnRows(keys, P), i, months, minObs) ==
      if |q| >= minObs then Some(Product(Relatives(P, keys[i], q)) - 1.0) else None
  {
    var rows := ReturnRows(keys, P);
    var s := RunStart(rows, i);
    var n := i + 1 - WindowStart(rows, i, months);
    var own := WindowListed(keys, P, i, n);
    hide RunStart, Compound, ValidCount, Grows, Covers, Relatives, Product, OnGrid;
    forall d: nat ensures d in Counting(keys, P, keys[i], months) <==> d in GrowingUpTo(P, keys[i], n) {
      RunMeaning(keys, P, i, d);
    }
    assert Counting(keys, P, keys[i], months) == GrowingUpTo(P, keys[i], n);
    ListsUnique(q, own, GrowingUpTo(P, keys[i], n));
  }
}
