/** The illiquidity signal in plain terms: the log-price changes of one bond-month's list of days,
    and the sample covariance of each change with the next. */
module GammaMeaning {
  import opened Basics
  import opened Panel
  import opened Gamma
  import opened GammaTheorems

  predicate Positive(d: Day) { d.price.Some? && d.price.value > 0.0 }

  /** Day i of the list and its two neighbours are priced, and both gaps are short enough. */
  predicate Middle(c: Config, days: seq<Day>, i: nat) {
    && 1 <= i && i + 1 < |days|
    && Positive(days[i - 1]) && Positive(days[i]) && Positive(days[i + 1])
    && c.busdays(days[i - 1].date, days[i].date) <= c.maxGap
    && c.busdays(days[i].date, days[i + 1].date) <= c.maxGap
  }

  function Middles(c: Config, days: seq<Day>, n: nat): set<nat> { set i: nat | i < n && Middle(c, days, i) }

  /** ln p(i) - ln p(i - 1), where both are prices. */
  function LogChange(c: Config, days: seq<Day>, i: nat): real {
    if 1 <= i < |days| && Positive(days[i - 1]) && Positive(days[i])
    then c.ln(days[i].price.value) - c.ln(days[i - 1].price.value) else 0.0
  }

  /** The changes into the days of q, and the changes out of them. */
  function Into(c: Config, days: seq<Day>, q: seq<nat>): (x: seq<real>)
    ensures |x| == |q|
  {
    seq(|q|, k requires 0 <= k < |q| => LogChange(c, days, q[k]))
  }

  function OutOf(c: Config, days: seq<Day>, q: seq<nat>): (y: seq<real>)
    ensures |y| == |q|
  {
    seq(|q|, k requires 0 <= k < |q| => LogChange(c, days, q[k] + 1))
  }

  function Average(v: seq<real>): real
    requires |v| > 0
  {
    Total(v) / (|v| as real)
  }

  function Deviations(x: real, y: real, a: real, b: real): real { (x - a) * (y - b) }

  /** The sum of the products of the deviations of x and y from a and b. */
  function CrossSum(x: seq<real>, y: seq<real>, a: real, b: real): real
    requires |x| == |y|
  {
    Total(seq(|x|, k requires 0 <= k < |x| => Deviations(x[k], y[k], a, b)))
  }

  /** The sample covariance of x and y with `ddof` degrees of freedom taken off. */
  function Covariance(x: seq<real>, y: seq<real>, ddof: int): Float
    requires |x| == |y| > 0
  {
    Quot(CrossSum(x, y, Average(x), Average(y)), (|x| - ddof) as real)
  }

  predicate InDateOrder(days: seq<Day>) { forall i, j :: 0 <= i < j < |days| ==> days[i].date < days[j].date }

  /** `days` is the list of the days of bond-month g, in order. */
  ghost predicate IsMonthList(c: Config, rows: seq<Day>, g: Key, days: seq<Day>) {
    && InDateOrder(days)
    && (forall d :: d in days <==> d in rows && d.cusip == g.cusip && c.monthOf(d.date) == g.month)
  }

  // --- the pairs ------------------------------------------------------------------------------

  lemma MiddleMeaning(c: Config, days: seq<Day>, g: Key, i: nat)
    requires i < |days| && forall k :: 0 <= k < |days| ==> Group(c, days[k]) == g
    ensures PairValid(c, days, i) <==> Middle(c, days, i)
    ensures Middle(c, days, i) ==> PairAt(c, days, i) == Pair(LogChange(c, days, i), LogChange(c, days, i + 1))
  {
    PairMeansThreeDays(c, days, g, i);
  }

  function PairsAt(c: Config, days: seq<Day>, q: seq<nat>): (p: seq<Pair>)
    ensures |p| == |q|
  {
    seq(|q|, k requires 0 <= k < |q| => Pair(LogChange(c, days, q[k]), LogChange(c, days, q[k] + 1)))
  }

  lemma PairsAtSnoc(c: Config, days: seq<Day>, q: seq<nat>, i: nat)
    ensures PairsAt(c, days, q + [i]) == PairsAt(c, days, q) + [Pair(LogChange(c, days, i), LogChange(c, days, i + 1))]
  {
    hide LogChange;
  }

  lemma MiddlesStep(c: Config, days: seq<Day>, n: nat)
    ensures Middles(c, days, n + 1) == if Middle(c, days, n) then Middles(c, days, n) + {n} else Middles(c, days, n)
  {
    hide Middle;
  }

  lemma NoPairs(c: Config, days: seq<Day>, g: Key)
    ensures Lists([], Middles(c, days, 0)) && PairsUpTo(c, days, g, 0) == PairsAt(c, days, [])
  {
  }

  lemma {:induction false} PairsListed(c: Config, days: seq<Day>, g: Key, n: nat) returns (q: seq<nat>)
    requires n <= |days| && forall k :: 0 <= k < |days| ==> Group(c, days[k]) == g
    ensures Lists(q, Middles(c, days, n)) && PairsUpTo(c, days, g, n) == PairsAt(c, days, q)
  {
    hide PairsUpTo, PairValid, PairAt, PairsAt, Middle, Middles, LogChange, Group, Lists;
    if n == 0 {
      q := [];
      NoPairs(c, days, g);
    } else {
      q := PairsListed(c, days, g, n - 1);
      MiddleMeaning(c, days, g, n - 1);
      PairsStep(c, days, g, n - 1);
      MiddlesStep(c, days, n - 1);
      if Middle(c, days, n - 1) {
        EarlierMiddles(c, days, n - 1);
        ListsSnoc(q, Middles(c, days, n - 1), n - 1);
        PairsAtSnoc(c, days, q, n - 1);
        q := q + [n - 1];
      }
    }
  }

  lemma EarlierMiddles(c: Config, days: seq<Day>, n: nat)
    ensures forall i :: i in Middles(c, days, n) ==> i < n
  {
  }

  /** The pairs of a bond-month's list: at each middle day the change into it and the change out of
      it, and nothing else. */
  lemma PairsMeaning(c: Config, days: seq<Day>, g: Key, q: seq<nat>)
    requires forall k :: 0 <= k < |days| ==> days[k].cusip == g.cusip && c.monthOf(days[k].date) == g.month
    requires Lists(q, Middles(c, days, |days|))
    ensures Pairs(c, days, g) ==
      seq(|q|, k requires 0 <= k < |q| => Pair(LogChange(c, days, q[k]), LogChange(c, days, q[k] + 1)))
  {
    var own := PairsListed(c, days, g, |days|);
    ListsUnique(q, own, Middles(c, days, |days|));
  }

  // --- the moments ----------------------------------------------------------------------------

  lemma TotalSnoc(v: seq<real>, x: real)
    ensures Total(v + [x]) == Total(v) + x
  {
    assert (v + [x])[..|v|] == v;
  }

  function Xs(p: seq<Pair>): (x: seq<real>)
    ensures |x| == |p|
  {
    seq(|p|, k requires 0 <= k < |p| => p[k].x)
  }

  function Ys(p: seq<Pair>): (y: seq<real>)
    ensures |y| == |p|
  {
    seq(|p|, k requires 0 <= k < |p| => p[k].y)
  }

  lemma ColumnsSnoc(p: seq<Pair>)
    requires |p| > 0
    ensures var n := |p| - 1;
      Xs(p) == Xs(p[..n]) + [p[n].x] && Ys(p) == Ys(p[..n]) + [p[n].y]
  {
  }

  lemma CentredStep(p: seq<Pair>, a: real, b: real)
    requires |p| > 0
    ensures var n := |p| - 1;
      CentredSum(p, a, b) == CentredSum(p[..n], a, b) + Deviations(p[n].x, p[n].y, a, b)
  {
    var n := |p| - 1;
    assert Deviations(p[n].x, p[n].y, a, b) == (p[n].x - a) * (p[n].y - b);
  }

  lemma SumsStep(p: seq<Pair>)
    requires |p| > 0
    ensures var n := |p| - 1;
      SumX(p) == SumX(p[..n]) + p[n].x && SumY(p) == SumY(p[..n]) + p[n].y
  {
  }

  lemma NoSums(a: real, b: real)
    ensures SumX([]) == Total(Xs([])) && SumY([]) == Total(Ys([])) && CentredSum([], a, b) == CrossSum(Xs([]), Ys([]), a, b)
  {
  }

  lemma {:induction false} SumsAreTotals(p: seq<Pair>, a: real, b: real)
    ensures SumX(p) == Total(Xs(p)) && SumY(p) == Total(Ys(p))
    ensures CentredSum(p, a, b) == CrossSum(Xs(p), Ys(p), a, b)
  {
    hide *;
    if |p| > 0 {
      var n := |p| - 1;
      SumsAreTotals(p[..n], a, b);
      ColumnsSnoc(p);
      CentredStep(p, a, b);
      SumsStep(p);
      TotalSnoc(Xs(p[..n]), p[n].x);
      TotalSnoc(Ys(p[..n]), p[n].y);
      CrossSnoc(Xs(p[..n]), Ys(p[..n]), p[n].x, p[n].y, a, b);
    } else {
      NoSums(a, b);
    }
  }

  lemma CrossSnoc(x: seq<real>, y: seq<real>, u: real, v: real, a: real, b: real)
    requires |x| == |y|
    ensures CrossSum(x + [u], y + [v], a, b) == CrossSum(x, y, a, b) + Deviations(u, v, a, b)
  {
    var d := seq(|x|, k requires 0 <= k < |x| => Deviations(x[k], y[k], a, b));
    var xs, ys := x + [u], y + [v];
    assert seq(|xs|, k requires 0 <= k < |xs| => Deviations(xs[k], ys[k], a, b)) == d + [Deviations(u, v, a, b)];
    TotalSnoc(d, Deviations(u, v, a, b));
  }

  lemma CovarianceMeaning(c: Config, p: seq<Pair>)
    requires |p| > 0
    ensures GammaOf(c, MomentsOf(p)) ==
      if |p| < c.minPairs then NaN else Times(c.sign, Covariance(Xs(p), Ys(p), c.ddof))
  {
    if |p| >= c.minPairs {
      GammaIsCovariance(c, p);
      SumsAreTotals(p, SumX(p) / (|p| as real), SumY(p) / (|p| as real));
    }
    hide SumX, SumY, SumXY, CentredSum, CrossSum, Total;
  }

  // --- the days of the month ------------------------------------------------------------------

  function Dates(days: seq<Day>): set<int> { set d | d in days :: d.date }

  lemma DatesSnoc(days: seq<Day>, d: Day)
    ensures Dates(days + [d]) == Dates(days) + {d.date}
  {
    assert forall x :: x in days + [d] <==> x in days || x == d;
  }

  lemma LastDateIsNew(days: seq<Day>)
    requires InDateOrder(days) && |days| > 0
    ensures InDateOrder(days[..|days| - 1]) && days[|days| - 1].date !in Dates(days[..|days| - 1])
  {
  }

  lemma {:induction false} DatesCounted(days: seq<Day>)
    requires InDateOrder(days)
    ensures |Dates(days)| == |days|
  {
    if |days| == 0 {
      assert Dates(days) == {};
    } else {
      var n := |days| - 1;
      LastDateIsNew(days);
      DatesSnoc(days[..n], days[n]);
      assert days == days[..n] + [days[n]];
      hide InDateOrder, Dates;
      DatesCounted(days[..n]);
    }
  }

  lemma MonthListIsSlice(c: Config, rows: seq<Day>, g: Key, days: seq<Day>) returns (lo: nat, hi: nat)
    requires SortedDays(rows) && MonthsInOrder(c.monthOf) && IsMonthList(c, rows, g, days)
    ensures IsGroupSlice(c, rows, g, lo, hi) && days == rows[lo..hi]
  {
    lo, hi := GroupSlice(c, rows, g);
    SliceMembers(c, rows, g, lo, hi);
    forall i, j | 0 <= i < j < |days| ensures DayLess(days[i], days[j]) {
      assert days[i] in days && days[j] in days;
    }
    var s := rows[lo..hi];
    forall i, j | 0 <= i < j < |s| ensures DayLess(s[i], s[j]) {
      assert DayLess(rows[lo + i], rows[lo + j]);
    }
    SortedSameMembers(days, s);
  }

  lemma MonthDates(c: Config, rows: seq<Day>, g: Key, days: seq<Day>)
    requires IsMonthList(c, rows, g, days)
    ensures |TradedDays(c, rows, g)| == |days|
  {
    DatesCounted(days);
    assert TradedDays(c, rows, g) == Dates(days);
  }

  /** The optional gate: too few pairs for it, or too small a share of the month's business days. */
  predicate Gated(c: Config, g: Key, pairs: nat, days: nat) {
    && c.strict.Some?
    && var s := c.strict.value;
       var bdays := s.bdays(g.month);
       pairs < s.minPairs || (bdays != 0 && (days as real) / (bdays as real) < s.minFraction)
  }

  lemma GateMeaning(c: Config, g: Key, pairs: nat, dates: set<int>)
    requires |dates| > 0
    ensures StrictFails(c, g, pairs, dates) <==> Gated(c, g, pairs, |dates|)
  {
  }

  /** The signal of a bond-month, from its own list of days: none without a middle day; missing
      with too few of them or behind the gate; otherwise the sign times the sample covariance of
      the log-price changes into the middle days with the changes out of them. */
  lemma SignalMeaning(c: Config, rows: seq<Day>, g: Key, days: seq<Day>, q: seq<nat>)
    requires SortedDays(rows) && MonthsInOrder(c.monthOf) && IsMonthList(c, rows, g, days)
    requires Lists(q, Middles(c, days, |days|))
    ensures SignalOf(c, rows, g) ==
      if |q| == 0 then None
      else if |q| < c.minPairs || Gated(c, g, |q|, |days|) then Some(NaN)
      else Some(Times(c.sign, Covariance(Into(c, days, q), OutOf(c, days, q), c.ddof)))
  {
    var lo, hi := MonthListIsSlice(c, rows, g, days);
    PairsStayInBondMonth(c, rows, g, lo, hi);
    forall k | 0 <= k < |days| ensures days[k].cusip == g.cusip && c.monthOf(days[k].date) == g.month {
      assert days[k] in days;
    }
    PairsMeaning(c, days, g, q);
    MonthDates(c, rows, g, days);
    var p := Pairs(c, rows, g);
    if |p| > 0 {
      assert q[0] in q && q[0] in Middles(c, days, |days|);
      GateMeaning(c, g, |p|, TradedDays(c, rows, g));
      CovarianceMeaning(c, p);
      assert Xs(p) == Into(c, days, q) && Ys(p) == OutOf(c, days, q);
    }
    hide Pairs, TradedDays, StrictFails, Gated, Covariance, GammaOf, Middle, LogChange, Times;
  }
}
