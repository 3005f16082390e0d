/** What the illiquidity signal means: a centred sample covariance over the change pairs of one
    bond-month, unaffected by any row outside it. */
module GammaTheorems {
  import opened Basics
  import opened Panel
  import opened Gamma

  // --- the one-pass formula -----------------------------------------------------------------

  function CentredSum(p: seq<Pair>, a: real, b: real): real {
    if |p| == 0 then 0.0 else CentredSum(p[..|p| - 1], a, b) + (p[|p| - 1].x - a) * (p[|p| - 1].y - b)
  }

  lemma {:induction false} CentredSumExpands(p: seq<Pair>, a: real, b: real)
    ensures CentredSum(p, a, b) == SumXY(p) - a * SumY(p) - b * SumX(p) + (|p| as real) * (a * b)
  {
    if |p| > 0 {
      var n := |p| - 1;
      CentredSumExpands(p[..n], a, b);
      var x, y, k := p[n].x, p[n].y, n as real;
      var sx, sy := SumX(p[..n]), SumY(p[..n]);
      assert (x - a) * (y - b) == x * y - a * y - b * x + a * b;
      assert a * (sy + y) == a * sy + a * y && b * (sx + x) == b * sx + b * x;
      assert (k + 1.0) * (a * b) == k * (a * b) + a * b;
      assert |p| as real == k + 1.0;
    }
  }

  lemma AtTheMeans(sxy: real, sx: real, sy: real, n: real, a: real, b: real)
    requires n > 0.0 && a == sx / n && b == sy / n
    ensures sxy - a * sy - b * sx + n * (a * b) == sxy - sx * sy / n
  {
    var c := sx * sy / n;
    assert a * n == sx && b * n == sy && c * n == sx * sy;
    assert (a * sy) * n == (a * n) * sy == c * n;
    assert (b * sx) * n == (b * n) * sx == c * n;
    assert (n * (a * b)) * n == (a * n) * (b * n) == c * n;
    Cancel(a * sy, c, n);
    Cancel(b * sx, c, n);
    Cancel(n * (a * b), c, n);
  }

  lemma Cancel(x: real, y: real, n: real)
    requires n > 0.0 && x * n == y * n
    ensures x == y
  {
    assert (x - y) * n == 0.0;
  }

  /** The sum of cross products about the means of x and of y. */
  function AboutMeans(p: seq<Pair>): real
    requires |p| > 0
  {
    CentredSum(p, SumX(p) / (|p| as real), SumY(p) / (|p| as real))
  }

  lemma OnePassIsCentred(p: seq<Pair>)
    requires |p| > 0
    ensures OnePass(MomentsOf(p)) == AboutMeans(p)
  {
    hide CentredSum, SumX, SumY, SumXY;
    var n := |p| as real;
    var a, b := SumX(p) / n, SumY(p) / n;
    CentredSumExpands(p, a, b);
    AtTheMeans(SumXY(p), SumX(p), SumY(p), n, a, b);
    assert AboutMeans(p) == CentredSum(p, a, b);
    assert CentredSum(p, a, b) == SumXY(p) - a * SumY(p) - b * SumX(p) + n * (a * b);
    assert MomentsOf(p) == Moments(|p|, SumX(p), SumY(p), SumXY(p));
    assert OnePass(MomentsOf(p)) == SumXY(p) - SumX(p) * SumY(p) / n;
  }

  /** The one-pass moment formula is the sign times the centred sample covariance. */
  lemma GammaIsCovariance(c: Config, p: seq<Pair>)
    requires |p| >= c.minPairs && |p| > 0
    ensures GammaOf(c, MomentsOf(p)) == Times(c.sign, Quot(AboutMeans(p), (|p| - c.ddof) as real))
  {
    OnePassIsCentred(p);
    hide AboutMeans, OnePass, SumX, SumY, SumXY;
  }

  // --- the masks stay inside one bond-month --------------------------------------------------

  predicate DayLess(a: Day, b: Day) { a.cusip < b.cusip || (a.cusip == b.cusip && a.date < b.date) }

  predicate SortedDays(rows: seq<Day>) { forall i, j :: 0 <= i < j < |rows| ==> DayLess(rows[i], rows[j]) }

  ghost predicate IsGroupSlice(c: Config, rows: seq<Day>, g: Key, lo: nat, hi: nat) {
    lo <= hi <= |rows| && forall i :: 0 <= i < |rows| ==> (lo <= i < hi <==> Group(c, rows[i]) == g)
  }

  lemma Between(c: Config, x: Day, y: Day, z: Day)
    requires MonthsInOrder(c.monthOf) && DayLess(x, y) && DayLess(y, z)
    ensures Group(c, x) == Group(c, z) ==> Group(c, y) == Group(c, x)
  {
  }

  /** On the sorted layer a bond-month is one contiguous stretch of rows. */
  lemma GroupSlice(c: Config, rows: seq<Day>, g: Key) returns (lo: nat, hi: nat)
    requires SortedDays(rows) && MonthsInOrder(c.monthOf)
    ensures IsGroupSlice(c, rows, g, lo, hi)
  {
    lo := 0;
    while lo < |rows| && Group(c, rows[lo]) != g
      invariant lo <= |rows| && forall i :: 0 <= i < lo ==> Group(c, rows[i]) != g
    {
      lo := lo + 1;
    }
    hi := lo;
    while hi < |rows| && Group(c, rows[hi]) == g
      invariant lo <= hi <= |rows| && forall i :: lo <= i < hi ==> Group(c, rows[i]) == g
    {
      hi := hi + 1;
    }
    forall i | hi <= i < |rows| ensures Group(c, rows[i]) != g {
      if hi < i && lo < hi {
        Between(c, rows[lo], rows[hi], rows[i]);
      }
    }
  }

  lemma {:induction false} NoPairsOutside(c: Config, rows: seq<Day>, g: Key, n: nat, m: nat)
    requires n <= m <= |rows| && forall i :: n <= i < m ==> Group(c, rows[i]) != g
    ensures PairsUpTo(c, rows, g, m) == PairsUpTo(c, rows, g, n)
  {
    if n < m {
      NoPairsOutside(c, rows, g, n, m - 1);
      PairsStep(c, rows, g, m - 1);
      hide PairsUpTo, PairValid, PairAt;
    }
  }

  lemma {:induction false} PairsOfSlice(c: Config, rows: seq<Day>, s: seq<Day>, g: Key, lo: nat, hi: nat, j: nat)
    requires IsGroupSlice(c, rows, g, lo, hi) && s == rows[lo..hi] && j <= hi - lo
    ensures PairsUpTo(c, rows, g, lo + j) == PairsUpTo(c, s, g, j)
  {
    if j == 0 {
      NoPairsOutside(c, rows, g, 0, lo);
    } else {
      hide PairsUpTo, PairValid, PairAt, Group;
      var i := lo + j - 1;
      PairsOfSlice(c, rows, s, g, lo, hi, j - 1);
      SamePairInSlice(c, rows, s, g, lo, hi, i, j - 1);
      SameStep(c, rows, s, g, i, j - 1);
      assert i + 1 == lo + j;
    }
  }

  lemma SameStep(c: Config, rows: seq<Day>, s: seq<Day>, g: Key, i: nat, j: nat)
    requires i < |rows| && j < |s| && PairsUpTo(c, rows, g, i) == PairsUpTo(c, s, g, j)
    requires Group(c, rows[i]) == Group(c, s[j]) && (PairValid(c, rows, i) <==> PairValid(c, s, j))
    requires PairValid(c, rows, i) ==> PairAt(c, rows, i) == PairAt(c, s, j)
    ensures PairsUpTo(c, rows, g, i + 1) == PairsUpTo(c, s, g, j + 1)
  {
    hide PairsUpTo, PairValid, PairAt, Group;
    PairsStep(c, rows, g, i);
    PairsStep(c, s, g, j);
  }

  lemma SamePairInSlice(c: Config, rows: seq<Day>, s: seq<Day>, g: Key, lo: nat, hi: nat, i: nat, j: nat)
    requires IsGroupSlice(c, rows, g, lo, hi) && lo <= i < hi && s == rows[lo..hi] && j == i - lo
    ensures j < |s| && Group(c, s[j]) == Group(c, rows[i])
    ensures PairValid(c, rows, i) <==> PairValid(c, s, j)
    ensures PairValid(c, rows, i) ==> PairAt(c, rows, i) == PairAt(c, s, j)
  {
    assert forall k :: 0 <= k < hi - lo ==> s[k] == rows[lo + k];
    assert i > lo ==> s[j - 1] == rows[i - 1];
    assert i + 1 < hi ==> s[j + 1] == rows[i + 1];
  }

  /** The pairs of a bond-month in the whole layer are the pairs of its own list of days. */
  lemma PairsStayInBondMonth(c: Config, rows: seq<Day>, g: Key, lo: nat, hi: nat)
    requires IsGroupSlice(c, rows, g, lo, hi)
    ensures Pairs(c, rows, g) == Pairs(c, rows[lo..hi], g)
  {
    PairsOfSlice(c, rows, rows[lo..hi], g, lo, hi, hi - lo);
    NoPairsOutside(c, rows, g, hi, |rows|);
  }

  /** Inside one bond-month's list, a pair sits at exactly the middle of three days, priced and
      within the gap limit of each other. */
  lemma PairMeansThreeDays(c: Config, days: seq<Day>, g: Key, i: nat)
    requires forall k :: 0 <= k < |days| ==> Group(c, days[k]) == g
    ensures PairValid(c, days, i) <==>
      && 1 <= i && i + 1 < |days|
      && (forall k :: i - 1 <= k <= i + 1 ==> days[k].price.Some? && days[k].price.value > 0.0)
      && c.busdays(days[i - 1].date, days[i].date) <= c.maxGap
      && c.busdays(days[i].date, days[i + 1].date) <= c.maxGap
  {
    if 1 <= i && i + 1 < |days| {
      assert LogPrice(c, days[i - 1]).Some? <==> days[i - 1].price.Some? && days[i - 1].price.value > 0.0;
      assert LogPrice(c, days[i]).Some? <==> days[i].price.Some? && days[i].price.value > 0.0;
      assert LogPrice(c, days[i + 1]).Some? <==> days[i + 1].price.Some? && days[i + 1].price.value > 0.0;
    }
  }

  // --- rows after a floor date change no earlier bond-month ----------------------------------

  ghost predicate ExtendsDays(dev: seq<Day>, all: seq<Day>, floorDate: int) {
    SortedDays(dev) && SortedDays(all) && forall d :: d in dev <==> d in all && d.date < floorDate
  }

  lemma {:induction false} SortedSameMembers(a: seq<Day>, b: seq<Day>)
    requires SortedDays(a) && SortedDays(b) && forall d :: d in a <==> d in b
    ensures a == b
  {
    if |a| == 0 {
      if b != [] {
        IsMember(b, 0);
      }
    } else {
      var x := a[|a| - 1];
      assert x in b;
      var j :| 0 <= j < |b| && b[j] == x;
      var y := b[|b| - 1];
      assert y in a;
      var i :| 0 <= i < |a| && a[i] == y;
      assert x == y;
      var a0, b0 := a[..|a| - 1], b[..|b| - 1];
      forall d ensures d in a0 <==> d in b0 {
        if d in a0 { assert d in a && d != x; }
        if d in b0 { assert d in b && d != y; }
      }
      SortedSameMembers(a0, b0);
    }
  }

  /** Before the floor month, every bond-month has the same pairs, hence the same signal, in the
      extended layer as in the development layer. */
  lemma GammaSeam(c: Config, dev: seq<Day>, all: seq<Day>, floorDate: int, floorMonth: Month, g: Key)
    requires ExtendsDays(dev, all, floorDate) && FloorIsMonthStart(c.monthOf, floorDate, floorMonth)
    requires g.month < floorMonth
    ensures Pairs(c, all, g) == Pairs(c, dev, g) && SignalOf(c, all, g) == SignalOf(c, dev, g)
  {
    hide PairsUpTo;
    var lo, hi := GroupSlice(c, dev, g);
    var lo2, hi2 := GroupSlice(c, all, g);
    var a, b := dev[lo..hi], all[lo2..hi2];
    SliceMembers(c, dev, g, lo, hi);
    SliceMembers(c, all, g, lo2, hi2);
    forall d ensures d in a <==> d in b {
      assert Group(c, d) == g ==> c.monthOf(d.date) < floorMonth;
    }
    SortedSameMembers(a, b);
    assert TradedDays(c, dev, g) == (set d | d in a :: d.date) == (set d | d in b :: d.date) == TradedDays(c, all, g);
    PairsStayInBondMonth(c, dev, g, lo, hi);
    PairsStayInBondMonth(c, all, g, lo2, hi2);
  }

  lemma SliceMembers(c: Config, rows: seq<Day>, g: Key, lo: nat, hi: nat)
    requires IsGroupSlice(c, rows, g, lo, hi)
    ensures forall d :: d in rows[lo..hi] <==> d in rows && Group(c, d) == g
  {
    forall d | d in rows && Group(c, d) == g ensures d in rows[lo..hi] {
      var i :| 0 <= i < |rows| && rows[i] == d;
      assert rows[lo..hi][i - lo] == d;
    }
  }
}
