/** The value-at-risk and volatility signals in terms of the rows themselves: which rows a trailing
    window observes, and what is computed from them. */
module TrailingMeaning {
  import opened Basics
  import opened Panel
  import opened History
  import VaR = ValueAtRisk
  import Vol = BondVolatility

  // --- the window -----------------------------------------------------------------------------

  /** Row k is one of the bond's last `window` rows up to row i. */
  predicate InWindow<T>(rows: seq<Row<T>>, i: nat, window: nat, k: nat)
    requires i < |rows|
  {
    k <= i && i - k < window && rows[k].key.cusip == rows[i].key.cusip
  }

  lemma BeforeBlock<T>(rows: seq<Row<T>>, i: nat, k: nat)
    requires Sorted(rows) && k <= i < |rows|
    ensures rows[k].key.cusip == rows[i].key.cusip <==> BlockStart(rows, i) <= k
  {
    var b := BlockStart(rows, i);
    if k < b {
      assert KeyLess(rows[b - 1].key, rows[i].key);
      assert k < b - 1 ==> KeyLess(rows[k].key, rows[b - 1].key);
    }
  }

  lemma RecentIsSlice<T>(rows: seq<Row<T>>, i: nat, window: nat)
    requires i < |rows|
    ensures var b := BlockStart(rows, i);
      Recent(Hist(rows, i), window) == rows[(if i + 1 - b > window then i + 1 - window else b)..i + 1]
  {
  }

  /** On the sorted panel the recent history is a stretch of rows, the window's. */
  lemma WindowMeaning<T>(rows: seq<Row<T>>, i: nat, window: nat) returns (lo: nat)
    requires Sorted(rows) && i < |rows|
    ensures lo <= i + 1 && Recent(Hist(rows, i), window) == rows[lo..i + 1]
    ensures forall k: nat :: lo <= k <= i <==> k <= i && InWindow(rows, i, window, k)
  {
    RecentIsSlice(rows, i, window);
    var b := BlockStart(rows, i);
    lo := if i + 1 - b > window then i + 1 - window else b;
    hide Sorted, Recent, Hist;
    forall k: nat | k <= i ensures lo <= k <==> InWindow(rows, i, window, k) {
      BeforeBlock(rows, i, k);
    }
  }

  // --- value at risk --------------------------------------------------------------------------

  /** The rows of the window with a return that is not NaN. */
  function Observed(rows: seq<Row<Float>>, i: nat, window: nat): set<nat>
    requires i < |rows|
  {
    set k: nat | k <= i && InWindow(rows, i, window, k) && rows[k].value != NaN
  }

  /** The order of the extended reals. */
  predicate Lower(a: Float, b: Float) {
    a != b && (a == Inf(false) || b == Inf(true) || (a.Fin? && b.Fin? && a.v < b.v))
  }

  function RowsBelow(rows: seq<Row<Float>>, at: set<nat>, x: Float): set<nat> {
    set k | k in at && k < |rows| && Lower(rows[k].value, x)
  }

  function RowsAbove(rows: seq<Row<Float>>, at: set<nat>, x: Float): set<nat> {
    set k | k in at && k < |rows| && Lower(x, rows[k].value)
  }

  /** Fewer than `rank` observations lie below row k's, and at least `rank` do not lie above it. */
  ghost predicate Ranked(rows: seq<Row<Float>>, at: set<nat>, rank: nat, k: nat)
    requires k < |rows|
  {
    |RowsBelow(rows, at, rows[k].value)| < rank <= |at| - |RowsAbove(rows, at, rows[k].value)|
  }

  function Between(rows: seq<Row<Float>>, lo: nat, n: nat): set<nat>
    requires n <= |rows|
  {
    set k: nat | lo <= k < n && rows[k].value != NaN
  }

  function ValuesAt(rows: seq<Row<Float>>, q: seq<nat>): (v: seq<Float>)
    requires forall k :: 0 <= k < |q| ==> q[k] < |rows|
    ensures |v| == |q|
  {
    seq(|q|, k requires 0 <= k < |q| => rows[q[k]].value)
  }

  ghost predicate WithinRows(q: seq<nat>, n: nat) { forall k :: 0 <= k < |q| ==> q[k] < n }

  lemma ValidStep(rows: seq<Row<Float>>, lo: nat, n: nat)
    requires lo <= n < |rows|
    ensures VaR.ValidReturns(rows[lo..n + 1]) ==
      if rows[n].value != NaN then VaR.ValidReturns(rows[lo..n]) + [rows[n].value] else VaR.ValidReturns(rows[lo..n])
  {
    assert VaR.ValidReturns(rows[lo..n]) + [] == VaR.ValidReturns(rows[lo..n]);
    assert rows[lo..n + 1][..n - lo] == rows[lo..n] && rows[lo..n + 1][n - lo] == rows[n];
  }

  lemma BetweenStep(rows: seq<Row<Float>>, lo: nat, n: nat)
    requires lo <= n < |rows|
    ensures Between(rows, lo, n + 1) == if rows[n].value != NaN then Between(rows, lo, n) + {n} else Between(rows, lo, n)
    ensures forall k :: k in Between(rows, lo, n) ==> k < n
  {
  }

  lemma ValuesSnoc(rows: seq<Row<Float>>, q: seq<nat>, n: nat)
    requires WithinRows(q, |rows|) && n < |rows|
    ensures WithinRows(q + [n], |rows|) && ValuesAt(rows, q + [n]) == ValuesAt(rows, q) + [rows[n].value]
  {
  }

  lemma NothingObserved(rows: seq<Row<Float>>, n: nat)
    requires n <= |rows|
    ensures Lists([], Between(rows, n, n)) && WithinRows([], |rows|) && VaR.ValidReturns(rows[n..n]) == ValuesAt(rows, [])
  {
  }

  lemma {:induction false} ValidListed(rows: seq<Row<Float>>, lo: nat, n: nat) returns (q: seq<nat>)
    requires lo <= n <= |rows|
    ensures Lists(q, Between(rows, lo, n)) && WithinRows(q, |rows|) && VaR.ValidReturns(rows[lo..n]) == ValuesAt(rows, q)
  {
    hide VaR.ValidReturns, Between, Lists, ValuesAt;
    if n == lo {
      q := [];
      NothingObserved(rows, n);
    } else {
      q := ValidListed(rows, lo, n - 1);
      ValidStep(rows, lo, n - 1);
      BetweenStep(rows, lo, n - 1);
      if rows[n - 1].value != NaN {
        ListsSnoc(q, Between(rows, lo, n - 1), n - 1);
        ValuesSnoc(rows, q, n - 1);
        q := q + [n - 1];
      }
    }
  }

  lemma ButFirst(q: seq<nat>, at: set<nat>)
    requires Lists(q, at) && |q| > 0
    ensures Lists(q[1..], at - {q[0]}) && q[0] in at
  {
    assert q[0] in q;
    forall i ensures i in q[1..] <==> i in at - {q[0]} {
      if i in at - {q[0]} {
        assert i in q;
      }
      if i in q[1..] {
        assert i in q;
      }
    }
  }

  lemma BelowStep(rows: seq<Row<Float>>, at: set<nat>, k: nat, x: Float)
    requires k in at && k < |rows|
    ensures |RowsBelow(rows, at, x)| == |RowsBelow(rows, at - {k}, x)| + (if Lower(rows[k].value, x) then 1 else 0)
  {
    hide Lower;
    CardStep(RowsBelow(rows, at, x), RowsBelow(rows, at - {k}, x), k, Lower(rows[k].value, x));
  }

  lemma AboveStep(rows: seq<Row<Float>>, at: set<nat>, k: nat, x: Float)
    requires k in at && k < |rows|
    ensures |RowsAbove(rows, at, x)| == |RowsAbove(rows, at - {k}, x)| + (if Lower(x, rows[k].value) then 1 else 0)
  {
    hide Lower;
    CardStep(RowsAbove(rows, at, x), RowsAbove(rows, at - {k}, x), k, Lower(x, rows[k].value));
  }

  lemma NothingCounted(rows: seq<Row<Float>>, q: seq<nat>, x: Float)
    requires |q| == 0
    ensures VaR.BelowIn(ValuesAt(rows, q), x) == |RowsBelow(rows, {}, x)|
    ensures VaR.AboveIn(ValuesAt(rows, q), x) == |RowsAbove(rows, {}, x)|
  {
    assert RowsBelow(rows, {}, x) == {} && RowsAbove(rows, {}, x) == {};
  }

  lemma {:induction false} Counted(rows: seq<Row<Float>>, q: seq<nat>, at: set<nat>, x: Float)
    requires Lists(q, at) && WithinRows(q, |rows|) && x != NaN
    requires forall k :: 0 <= k < |q| ==> rows[q[k]].value != NaN
    ensures VaR.BelowIn(ValuesAt(rows, q), x) == |RowsBelow(rows, at, x)|
    ensures VaR.AboveIn(ValuesAt(rows, q), x) == |RowsAbove(rows, at, x)|
  {
    hide Lower, RowsBelow, RowsAbove, VaR.BelowIn, VaR.AboveIn;
    if |q| == 0 {
      assert at == {};
      NothingCounted(rows, q, x);
    } else {
      ButFirst(q, at);
      Counted(rows, q[1..], at - {q[0]}, x);
      CountFirst(rows, q, x);
      BelowStep(rows, at, q[0], x);
      AboveStep(rows, at, q[0], x);
    }
  }

  lemma CountFirst(rows: seq<Row<Float>>, q: seq<nat>, x: Float)
    requires |q| > 0 && WithinRows(q, |rows|) && x != NaN && rows[q[0]].value != NaN
    ensures VaR.BelowIn(ValuesAt(rows, q), x)
         == VaR.BelowIn(ValuesAt(rows, q[1..]), x) + (if Lower(rows[q[0]].value, x) then 1 else 0)
    ensures VaR.AboveIn(ValuesAt(rows, q), x)
         == VaR.AboveIn(ValuesAt(rows, q[1..]), x) + (if Lower(x, rows[q[0]].value) then 1 else 0)
  {
    assert ValuesAt(rows, q)[1..] == ValuesAt(rows, q[1..]);
  }

  ghost predicate IsRankedValue(rows: seq<Row<Float>>, at: set<nat>, rank: nat, multiplier: real, value: Float, k: nat) {
    && k in at && k < |rows| && Ranked(rows, at, rank, k)
    && value == Times(multiplier, rows[k].value)
    && (rows[k].value.Fin? ==> value == Fin(multiplier * rows[k].value.v))
  }

  /** The signal, by rows: with enough observed rows in the window it is the multiplier times the
      return of an observed row of that rank; otherwise it is NaN. */
  lemma ValueAtRiskMeaning(rows: seq<Row<Float>>, i: nat, window: nat, minObs: nat, rank: nat, multiplier: real)
    requires Sorted(rows) && i < |rows| && rank >= 1
    ensures var at, value := Observed(rows, i, window), VaR.Signal(rows, i, window, minObs, rank, multiplier);
      if |at| >= minObs && |at| >= rank
      then exists k :: IsRankedValue(rows, at, rank, multiplier, value, k)
      else value == NaN
  {
    var lo := WindowMeaning(rows, i, window);
    var q := ValidListed(rows, lo, i + 1);
    var at := Observed(rows, i, window);
    hide VaR.ValidReturns, Recent, Hist, Sorted;
    assert Between(rows, lo, i + 1) == at;
    ListsCount(q, at);
    var v := ValuesAt(rows, q);
    VaR.SignalIsOrderStatistic(rows, i, window, minObs, rank, multiplier);
    hide InWindow, Observed, VaR.Signal;
    if |at| >= minObs && |at| >= rank {
      var value := VaR.Signal(rows, i, window, minObs, rank, multiplier);
      var x :| VaR.IsOrderStatistic(v, rank, x) && value == Times(multiplier, x);
      RankedRow(rows, q, at, rank, multiplier, value, x);
    }
  }

  lemma RankedRow(rows: seq<Row<Float>>, q: seq<nat>, at: set<nat>, rank: nat, multiplier: real, value: Float, x: Float)
    requires Lists(q, at) && WithinRows(q, |rows|) && VaR.IsOrderStatistic(ValuesAt(rows, q), rank, x)
    requires forall k :: k in at ==> k < |rows| && rows[k].value != NaN
    requires value == Times(multiplier, x)
    ensures exists k :: IsRankedValue(rows, at, rank, multiplier, value, k)
  {
    var v := ValuesAt(rows, q);
    forall k | 0 <= k < |q| ensures rows[q[k]].value != NaN {
      assert q[k] in q;
    }
    var j :| 0 <= j < |v| && v[j] == x;
    assert q[j] in q;
    Counted(rows, q, at, x);
    ListsCount(q, at);
    hide VaR.BelowIn, VaR.AboveIn, RowsBelow, RowsAbove;
    assert IsRankedValue(rows, at, rank, multiplier, value, q[j]);
  }

  // --- volatility -----------------------------------------------------------------------------

  /** The rows of the window with a finite return in a month that has a rate. */
  function Usable(rows: seq<Row<Float>>, rf: Month -> Option<real>, i: nat, window: nat): set<nat>
    requires i < |rows|
  {
    set k: nat | k <= i && InWindow(rows, i, window, k) && rows[k].value.Fin? && rf(rows[k].key.month).Some?
  }

  /** Return less rate at row k. */
  function ExcessAt(rows: seq<Row<Float>>, rf: Month -> Option<real>, k: nat): real {
    if k < |rows| && rows[k].value.Fin? && rf(rows[k].key.month).Some?
    then rows[k].value.v - rf(rows[k].key.month).value else 0.0
  }

  function Excesses(rows: seq<Row<Float>>, rf: Month -> Option<real>, q: seq<nat>): (e: seq<real>)
    ensures |e| == |q|
  {
    seq(|q|, k requires 0 <= k < |q| => ExcessAt(rows, rf, q[k]))
  }

  function UsableBetween(rows: seq<Row<Float>>, rf: Month -> Option<real>, lo: nat, n: nat): set<nat>
    requires n <= |rows|
  {
    set k: nat | lo <= k < n && rows[k].value.Fin? && rf(rows[k].key.month).Some?
  }

  lemma FinitesStep(rows: seq<Row<Float>>, rf: Month -> Option<real>, lo: nat, n: nat)
    requires lo <= n < |rows|
    ensures var x := Vol.ExcessRows(rows, rf);
      Vol.Finites(x[lo..n + 1]) ==
        if rows[n].value.Fin? && rf(rows[n].key.month).Some?
        then Vol.Finites(x[lo..n]) + [ExcessAt(rows, rf, n)] else Vol.Finites(x[lo..n])
  {
    var x := Vol.ExcessRows(rows, rf);
    assert x[lo..n + 1][..n - lo] == x[lo..n] && x[lo..n + 1][n - lo] == x[n];
    assert x[n].value == Vol.Excess(rows[n].value, rf(rows[n].key.month));
    assert Vol.Finites(x[lo..n]) + [] == Vol.Finites(x[lo..n]);
  }

  lemma UsableStep(rows: seq<Row<Float>>, rf: Month -> Option<real>, lo: nat, n: nat)
    requires lo <= n < |rows|
    ensures UsableBetween(rows, rf, lo, n + 1) ==
      if rows[n].value.Fin? && rf(rows[n].key.month).Some?
      then UsableBetween(rows, rf, lo, n) + {n} else UsableBetween(rows, rf, lo, n)
    ensures forall k :: k in UsableBetween(rows, rf, lo, n) ==> k < n
  {
  }

  lemma ExcessesSnoc(rows: seq<Row<Float>>, rf: Month -> Option<real>, q: seq<nat>, n: nat)
    ensures Excesses(rows, rf, q + [n]) == Excesses(rows, rf, q) + [ExcessAt(rows, rf, n)]
  {
    hide ExcessAt;
  }

  lemma NothingUsable(rows: seq<Row<Float>>, rf: Month -> Option<real>, n: nat)
    requires n <= |rows|
    ensures Lists([], UsableBetween(rows, rf, n, n))
    ensures Vol.Finites(Vol.ExcessRows(rows, rf)[n..n]) == Excesses(rows, rf, [])
  {
  }

  lemma {:induction false} UsableListed(rows: seq<Row<Float>>, rf: Month -> Option<real>, lo: nat, n: nat)
    returns (q: seq<nat>)
    requires lo <= n <= |rows|
    ensures Lists(q, UsableBetween(rows, rf, lo, n))
    ensures Vol.Finites(Vol.ExcessRows(rows, rf)[lo..n]) == Excesses(rows, rf, q)
  {
    hide Vol.Finites, Vol.ExcessRows, ExcessAt, Lists, UsableBetween, Excesses;
    if n == lo {
      q := [];
      NothingUsable(rows, rf, n);
    } else {
      q := UsableListed(rows, rf, lo, n - 1);
      FinitesStep(rows, rf, lo, n - 1);
      UsableStep(rows, rf, lo, n - 1);
      if rows[n - 1].value.Fin? && rf(rows[n - 1].key.month).Some? {
        ListsSnoc(q, UsableBetween(rows, rf, lo, n - 1), n - 1);
        ExcessesSnoc(rows, rf, q, n - 1);
        q := q + [n - 1];
      }
    }
  }

  function Squares(e: seq<real>): (s: seq<real>)
    ensures |s| == |e|
  {
    seq(|e|, k requires 0 <= k < |e| => Vol.Square(e[k]))
  }

  lemma TotalLast(v: seq<real>)
    requires |v| > 0
    ensures Total(v) == Total(v[..|v| - 1]) + v[|v| - 1]
  {
  }

  lemma SquareAbout(e: real, m: real)
    ensures Vol.Square(e - m) == Vol.Square(e) - 2.0 * m * e + m * m
  {
  }

  /** The sum of squares about m, from the sums of squares and of values. */
  predicate Expanded(about: real, squares: real, m: real, total: real, n: real) {
    about == squares - 2.0 * m * total + n * (m * m)
  }

  lemma ExpandedStep(about: real, squares: real, m: real, total: real, n: real, a: real)
    requires Expanded(about, squares, m, total, n)
    ensures Expanded(about + Vol.Square(a - m), squares + Vol.Square(a), m, total + a, n + 1.0)
  {
    SquareAbout(a, m);
    hide Vol.Square;
    assert 2.0 * m * (total + a) == 2.0 * m * total + 2.0 * m * a;
    assert (n + 1.0) * (m * m) == n * (m * m) + m * m;
  }

  lemma NoSquares(m: real)
    ensures Expanded(Vol.SquaresAbout([], m), Total(Squares([])), m, Total([]), 0.0)
  {
  }

  lemma {:induction false} SquaresExpand(e: seq<real>, m: real)
    ensures Expanded(Vol.SquaresAbout(e, m), Total(Squares(e)), m, Total(e), |e| as real)
  {
    if |e| > 0 {
      var n := |e| - 1;
      SquaresExpand(e[..n], m);
      SquaresLast(e, m);
      hide *;
      ExpandedStep(Vol.SquaresAbout(e[..n], m), Total(Squares(e[..n])), m, Total(e[..n]), n as real, e[n]);
      assert |e| as real == n as real + 1.0;
    } else {
      NoSquares(m);
    }
  }

  lemma SquaresLast(e: seq<real>, m: real)
    requires |e| > 0
    ensures var n := |e| - 1;
      && Vol.SquaresAbout(e, m) == Vol.SquaresAbout(e[..n], m) + Vol.Square(e[n] - m)
      && Total(Squares(e)) == Total(Squares(e[..n])) + Vol.Square(e[n])
      && Total(e) == Total(e[..n]) + e[n]
  {
    var n := |e| - 1;
    hide Vol.Square;
    assert Squares(e)[..n] == Squares(e[..n]);
    TotalLast(Squares(e));
    TotalLast(e);
    hide Total, Squares;
  }

  predicate IsProduct(x: real, y: real, product: real) { x * y == product }

  lemma QuotientTimes(x: real, d: real)
    requires d != 0.0
    ensures IsProduct(x / d, d, x)
  {
  }

  lemma ByDefinition(e: seq<real>)
    requires |e| >= 2
    ensures IsProduct(Vol.MeanOf(e), |e| as real, Total(e))
    ensures IsProduct(Vol.Variance(e), (|e| - 1) as real, Vol.SquaresAbout(e, Vol.MeanOf(e)))
  {
    hide Total, Vol.SquaresAbout, IsProduct;
    QuotientTimes(Total(e), |e| as real);
    QuotientTimes(Vol.SquaresAbout(e, Vol.MeanOf(e)), (|e| - 1) as real);
  }

  /** With n values, d = n - 1: n d times the sample variance is n times the sum of squares less the
      squared sum. */
  lemma VarianceMeaning(e: seq<real>, n: real, d: real, v: real, squares: real, total: real)
    requires |e| >= 2 && n == |e| as real && d == (|e| - 1) as real
    requires v == Vol.Variance(e) && squares == Total(Squares(e)) && total == Total(e)
    ensures v * d * n == n * squares - total * total
  {
    var m := Vol.MeanOf(e);
    hide *;
    SquaresExpand(e, m);
    ByDefinition(e);
    AboutTheMean(v, d, n, Vol.SquaresAbout(e, m), squares, m, total);
  }

  lemma AboutTheMean(v: real, d: real, n: real, q: real, s: real, m: real, t: real)
    requires IsProduct(v, d, q) && IsProduct(m, n, t) && Expanded(q, s, m, t, n)
    ensures v * d * n == n * s - t * t
  {
    assert (2.0 * m * t) * n == 2.0 * t * (m * n) == 2.0 * (t * t);
    assert (n * (m * m)) * n == (m * n) * (m * n) == t * t;
    assert q * n == s * n - (2.0 * m * t) * n + (n * (m * m)) * n;
  }

  /** The signal, by rows: with enough usable rows in the window it is the root of the sample
      variance of their returns less rates. */
  lemma VolatilityMeaning(rows: seq<Row<Float>>, i: nat, rf: Month -> Option<real>, window: nat, minObs: nat,
                          sqrt: real -> real, q: seq<nat>)
    requires Sorted(rows) && i < |rows| && minObs >= 2 && Lists(q, Usable(rows, rf, i, window))
    ensures Vol.Signal(rows, i, rf, window, minObs, sqrt) ==
      if |q| >= minObs then Some(sqrt(Vol.Variance(Excesses(rows, rf, q)))) else None
  {
    var x := Vol.ExcessRows(rows, rf);
    var lo := WindowMeaning(x, i, window);
    var own := UsableListed(rows, rf, lo, i + 1);
    hide Recent, Hist, Sorted, Vol.Finites, Vol.Variance;
    forall k: nat | k <= i ensures InWindow(x, i, window, k) <==> InWindow(rows, i, window, k) {
    }
    assert UsableBetween(rows, rf, lo, i + 1) == Usable(rows, rf, i, window);
    ListsUnique(q, own, Usable(rows, rf, i, window));
  }
}
