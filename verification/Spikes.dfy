/** The spike and intraday filters, and the verdict of all four distressed filters on one bond:
    which of the minimum-length gates matter, and how far a verdict looks. */
module Spikes {
  import opened Basics
  import opened Ordering
  import opened Distressed

  datatype SpikeParams = SpikeParams(
    high: real, minRatio: real, recovery: real, intradayPrice: real, intradayRange: real)

  const ROUND_SPIKE_FLOOR: real := 0.50

  /** A price rounded to four decimals. */
  function Tick(k: int): real { k as real / 10000.0 }

  ghost predicate OnTick(x: real) { exists k :: x == Tick(k) }

  ghost predicate Rounded(prices: seq<Price>) {
    forall i :: 0 <= i < |prices| && prices[i].Some? ==> OnTick(prices[i].value)
  }

  lemma HalfTicksMissGuard(j: int, k: int)
    ensures (Tick(j) + Tick(k)) / 2.0 + GUARD != 0.0
  {
  }

  /** No division guard is ever cancelled: prices and medians of rounded prices stay clear. */
  lemma RoundedGuards(prices: seq<Price>)
    requires Rounded(prices)
    ensures GuardHolds(prices)
  {
    forall i | 0 <= i < |prices| && prices[i].Some? ensures prices[i].value + GUARD != 0.0 {
      var k :| prices[i].value == Tick(k);
      HalfTicksMissGuard(k, k);
    }
  }

  lemma MedianGuard(s: seq<real>)
    requires |s| > 0 && forall x :: x in s ==> OnTick(x)
    ensures Median(s) + GUARD != 0.0
  {
    SortSorts(s);
    hide Sort;
    var t, h := Sort(s), |s| / 2;
    assert t[h] in multiset(t);
    assert t[h] in multiset(s);
    assert OnTick(t[h]);
    var k :| t[h] == Tick(k);
    HalfTicksMissGuard(k, k);
    if |t| % 2 == 0 {
      assert t[h - 1] in multiset(t);
      assert t[h - 1] in multiset(s);
      assert OnTick(t[h - 1]);
      var j :| t[h - 1] == Tick(j);
      HalfTicksMissGuard(j, k);
    }
  }

  // --- spike --------------------------------------------------------------------------------

  predicate SpikeCandidate(P: Params, S: SpikeParams, p: Price) {
    p.Some? && (p.value > S.high || (IsRound(P, p) && p.value > ROUND_SPIKE_FLOOR))
  }

  /** The prices below `cur` at indices [lo, hi), in order. */
  function Below(prices: seq<Price>, cur: real, lo: int, hi: int): seq<real>
    requires 0 <= lo && hi <= |prices|
    decreases hi - lo
  {
    if hi <= lo then [] else Below(prices, cur, lo, hi - 1) + BelowAt(prices, cur, hi - 1)
  }

  function BelowAt(prices: seq<Price>, cur: real, j: int): seq<real>
    requires 0 <= j < |prices|
  {
    if prices[j].Some? && prices[j].value < cur then [prices[j].value] else []
  }

  lemma {:induction false} BelowOnTick(prices: seq<Price>, cur: real, lo: int, hi: int)
    requires 0 <= lo && hi <= |prices| && Rounded(prices)
    ensures forall x :: x in Below(prices, cur, lo, hi) ==> OnTick(x)
    decreases hi - lo
  {
    if lo < hi {
      BelowOnTick(prices, cur, lo, hi - 1);
    }
  }

  predicate FallsTo(prices: seq<Price>, level: real, lo: int, hi: int)
    requires 0 <= lo && hi <= |prices|
  {
    exists j :: lo <= j < hi && prices[j].Some? && prices[j].value <= level
  }

  function RecoveryLevel(S: SpikeParams, below: seq<real>): real
    requires |below| > 0
  {
    Median(below) * S.recovery
  }

  /** The median does not cancel the division guard. */
  predicate Guarded(below: seq<real>) { |below| > 0 ==> Median(below) + GUARD != 0.0 }

  /** `cur` is far above the median of the earlier prices below it. */
  predicate Overshoots(S: SpikeParams, below: seq<real>, cur: real)
    requires Guarded(below)
  {
    |below| > 0 && cur / (Median(below) + GUARD) >= S.minRatio
  }

  /** What day i's ratio divides by does not vanish; true of every rounded series. */
  predicate GuardedDay(P: Params, prices: seq<Price>, i: int)
    requires 0 <= i < |prices|
  {
    prices[i].Some? ==> Guarded(Below(prices, prices[i].value, WindowLo(P, i), i))
  }

  ghost predicate GuardedSeries(P: Params, prices: seq<Price>) {
    forall i :: 0 <= i < |prices| ==> GuardedDay(P, prices, i)
  }

  lemma RoundedIsGuarded(P: Params, prices: seq<Price>)
    requires Rounded(prices)
    ensures GuardedSeries(P, prices) && GuardHolds(prices)
  {
    RoundedGuards(prices);
    forall i | 0 <= i < |prices| && prices[i].Some? ensures GuardedDay(P, prices, i) {
      var below := Below(prices, prices[i].value, WindowLo(P, i), i);
      BelowOnTick(prices, prices[i].value, WindowLo(P, i), i);
      if |below| > 0 {
        MedianGuard(below);
      }
    }
  }

  ghost predicate SpikeDay(P: Params, S: SpikeParams, prices: seq<Price>, i: int)
    requires 0 <= i < |prices| && GuardedDay(P, prices, i)
  {
    && SpikeCandidate(P, S, prices[i])
    && var cur := prices[i].value;
       var below := Below(prices, cur, WindowLo(P, i), i);
       Overshoots(S, below, cur)
       && FallsTo(prices, RecoveryLevel(S, below), i + 1, WindowHi(P, |prices|, i))
  }

  /** Whether the price falls back to `level` inside [lo, hi). */
  method FindRecovery(prices: seq<Price>, level: real, lo: int, hi: int) returns (found: bool)
    requires 0 <= lo && hi <= |prices|
    ensures found <==> FallsTo(prices, level, lo, hi)
  {
    found := false;
    var j := lo;
    while j < hi && !found
      invariant lo <= j && (found <==> exists k :: lo <= k < j && k < hi && prices[k].Some? && prices[k].value <= level)
    {
      found := prices[j].Some? && prices[j].value <= level;
      j := j + 1;
    }
  }

  method FilterSpike(P: Params, S: SpikeParams, prices: seq<Price>, isRound: seq<bool>) returns (flag: array<bool>)
    requires isRound == RoundMask(P, prices) && GuardedSeries(P, prices)
    ensures fresh(flag) && flag.Length == |prices|
    ensures forall k :: 0 <= k < |prices| ==> (flag[k] <==> SpikeDay(P, S, prices, k))
  {
    hide Median;
    var n := |prices|;
    flag := new bool[n](_ => false);
    for i := 0 to n
      invariant fresh(flag) && flag.Length == n
      invariant forall k :: 0 <= k < i ==> (flag[k] <==> SpikeDay(P, S, prices, k))
      invariant forall k :: i <= k < n ==> !flag[k]
    {
      if !(prices[i].Some? && (prices[i].value > S.high || (isRound[i] && prices[i].value > ROUND_SPIKE_FLOOR))) {
        continue;
      }
      var cur := prices[i].value;
      var lo, hi := WindowLo(P, i), WindowHi(P, n, i);
      var below: seq<real> := [];
      var j := lo;
      while j < i
        invariant lo <= j && (j <= i || j == lo)
        invariant below == Below(prices, cur, lo, if j <= i then j else i)
      {
        if prices[j].Some? && prices[j].value < cur {
          below := below + [prices[j].value];
        }
        j := j + 1;
      }
      if |below| == 0 { continue; }
      assert GuardedDay(P, prices, i);
      var med := Median(below);
      if cur / (med + GUARD) < S.minRatio { continue; }
      var recovered := FindRecovery(prices, med * S.recovery, i + 1, hi);
      if recovered {
        flag[i] := true;
      }
    }
  }

  /** A spike needs a day before it and a day after it, so the three-day gate is redundant. */
  lemma SpikeGateRedundant(P: Params, S: SpikeParams, prices: seq<Price>, i: int)
    requires 0 <= i < |prices| && GuardedDay(P, prices, i) && SpikeDay(P, S, prices, i)
    ensures 0 < i && i + 1 < |prices|
  {
    NothingBelow(prices, WindowLo(P, i), i);
  }

  lemma NothingBelow(prices: seq<Price>, lo: int, hi: int)
    requires 0 <= lo && hi <= |prices|
    ensures hi <= lo ==> forall cur :: Below(prices, cur, lo, hi) == []
  {
  }

  // --- how far a flag looks -----------------------------------------------------------------

  lemma {:induction false} WindowOfSlice(x: seq<Price>, y: seq<Price>, s: int, i: int, cur: real, lo: int, hi: int)
    requires 0 <= s <= lo && s + |y| <= |x| && hi <= s + |y| && y == x[s..s + |y|]
    ensures Below(y, cur, lo - s, hi - s) == Below(x, cur, lo, hi)
    ensures Above(y, i - s, cur, lo - s, hi - s) == Above(x, i, cur, lo, hi)
    decreases hi - lo
  {
    if lo < hi {
      WindowOfSlice(x, y, s, i, cur, lo, hi - 1);
      assert y[hi - 1 - s] == x[hi - 1];
      hide Below, Above;
      BelowLast(x, cur, lo, hi);
      BelowLast(y, cur, lo - s, hi - s);
      AboveSnoc(x, i, cur, lo, hi);
      AboveSnoc(y, i - s, cur, lo - s, hi - s);
    }
  }

  lemma BelowLast(prices: seq<Price>, cur: real, lo: int, hi: int)
    requires 0 <= lo < hi <= |prices|
    ensures Below(prices, cur, lo, hi) == Below(prices, cur, lo, hi - 1) + BelowAt(prices, cur, hi - 1)
  {
  }

  lemma FallsToInSlice(x: seq<Price>, y: seq<Price>, s: int, level: real, lo: int, hi: int)
    requires 0 <= s <= lo && s + |y| <= |x| && hi <= s + |y| && y == x[s..s + |y|]
    ensures FallsTo(y, level, lo - s, hi - s) <==> FallsTo(x, level, lo, hi)
  {
    if FallsTo(x, level, lo, hi) {
      var j :| lo <= j < hi && x[j].Some? && x[j].value <= level;
      assert y[j - s] == x[j];
    }
  }

  /** `y` is x[s..s + |y|] and holds the whole window of day i. */
  ghost predicate HoldsWindow(P: Params, x: seq<Price>, y: seq<Price>, s: int, i: int) {
    && 0 <= i < |x| && 0 <= s && s + |y| <= |x| && y == x[s..s + |y|]
    && s <= WindowLo(P, i) && WindowHi(P, |x|, i) <= s + |y|
    && P.lookback >= 0 && P.lookforward >= 0
  }

  lemma SameWindow(P: Params, x: seq<Price>, y: seq<Price>, s: int, i: int)
    requires HoldsWindow(P, x, y, s, i)
    ensures s <= i < s + |y| && y[i - s] == x[i]
    ensures WindowLo(P, i - s) == WindowLo(P, i) - s && WindowHi(P, |y|, i - s) == WindowHi(P, |x|, i) - s
    ensures s <= WindowLo(P, i) <= i < WindowHi(P, |x|, i) <= s + |y|
  {
  }

  /** Spike and anomaly flags look no further than their window: cutting the series anywhere
      outside it leaves the day's flags alone. */
  lemma SpikeIsLocal(P: Params, S: SpikeParams, x: seq<Price>, y: seq<Price>, s: int, i: int)
    requires HoldsWindow(P, x, y, s, i) && GuardedDay(P, x, i)
    ensures s <= i < s + |y| && GuardedDay(P, y, i - s)
    ensures SpikeDay(P, S, y, i - s) <==> SpikeDay(P, S, x, i)
  {
    SameWindow(P, x, y, s, i);
    hide Below, Median, Guarded, Overshoots, FallsTo, WindowLo, WindowHi, IsRound;
    if x[i].Some? {
      var lo, hi := WindowLo(P, i), WindowHi(P, |x|, i);
      WindowOfSlice(x, y, s, i, x[i].value, lo, i);
      var below := Below(x, x[i].value, lo, i);
      if |below| > 0 {
        FallsToInSlice(x, y, s, RecoveryLevel(S, below), i + 1, hi);
      } else {
        NothingOvershoots(S, below, x[i].value);
      }
    }
  }

  lemma NothingOvershoots(S: SpikeParams, below: seq<real>, cur: real)
    requires |below| == 0
    ensures Guarded(below) && !Overshoots(S, below, cur)
  {
  }

  lemma AnomalyIsLocal(P: Params, x: seq<Price>, y: seq<Price>, s: int, i: int)
    requires GuardHolds(x) && HoldsWindow(P, x, y, s, i)
    ensures GuardHolds(y) && s <= i < s + |y|
    ensures AnomalyDay(P, y, i - s) <==> AnomalyDay(P, x, i)
  {
    forall k | 0 <= k < |y| && y[k].Some? ensures y[k].value + GUARD != 0.0 {
      assert y[k] == x[s + k];
    }
    SameWindow(P, x, y, s, i);
    hide Above, FarBelow, WindowLo, WindowHi, IsRound;
    if x[i].Some? {
      WindowOfSlice(x, y, s, i, x[i].value, WindowLo(P, i), WindowHi(P, |x|, i));
    }
  }

  // --- intraday and the verdict of all four --------------------------------------------------

  /** A low-priced day with a positive middle whose range exceeds its share of that middle. */
  predicate IntradayDay(S: SpikeParams, lo: Price, hi: Price) {
    && lo.Some? && hi.Some?
    && !(lo.value >= S.intradayPrice && hi.value >= S.intradayPrice)
    && lo.value + hi.value > 0.0
    && 2.0 * (hi.value - lo.value) > S.intradayRange * (lo.value + hi.value)
  }

  lemma RatioExceeds(x: real, m: real, g: real)
    requires m > 0.0
    ensures x / m > g <==> x > g * m
  {
    var q := x / m;
    assert q * m == x;
    if q > g {
      assert (q - g) * m > 0.0;
    } else {
      assert (g - q) * m >= 0.0;
    }
  }

  /** The test as coded, by its meaning. */
  lemma WideRange(lo: real, hi: real, g: real)
    ensures var mean := (lo + hi) / 2.0;
      mean > 0.0 && (hi - lo) / mean > g <==> lo + hi > 0.0 && 2.0 * (hi - lo) > g * (lo + hi)
  {
    var mean := (lo + hi) / 2.0;
    if mean > 0.0 {
      RatioExceeds(hi - lo, mean, g);
      assert g * mean == (g * (lo + hi)) / 2.0;
    }
  }

  method FilterIntraday(S: SpikeParams, mins: seq<Price>, maxs: seq<Price>) returns (flag: array<bool>)
    requires |mins| == |maxs|
    ensures fresh(flag) && flag.Length == |mins|
    ensures forall k :: 0 <= k < |mins| ==> (flag[k] <==> IntradayDay(S, mins[k], maxs[k]))
  {
    flag := new bool[|mins|](_ => false);
    for i := 0 to |mins|
      invariant fresh(flag) && flag.Length == |mins|
      invariant forall k :: 0 <= k < i ==> (flag[k] <==> IntradayDay(S, mins[k], maxs[k]))
      invariant forall k :: i <= k < |mins| ==> !flag[k]
    {
      var lo, hi := mins[i], maxs[i];
      if lo.None? || hi.None? { continue; }
      if !(lo.value < S.intradayPrice || hi.value < S.intradayPrice) { continue; }
      var mean := (lo.value + hi.value) / 2.0;
      WideRange(lo.value, hi.value, S.intradayRange);
      if mean > 0.0 && (hi.value - lo.value) / mean > S.intradayRange {
        flag[i] := true;
      }
    }
  }

  lemma GatesRedundant(P: Params, S: SpikeParams, prices: seq<Price>)
    requires GuardedSeries(P, prices) && GuardHolds(prices)
    ensures |prices| < 3 ==> forall k :: 0 <= k < |prices| ==> !SpikeDay(P, S, prices, k)
    ensures |prices| < P.minPlateauDays ==> forall k :: 0 <= k < |prices| ==> !PlateauDay(P, prices, k)
  {
    hide SpikeDay, PlateauDay, GuardedDay, GuardHolds;
    forall k | 0 <= k < |prices|
      ensures SpikeDay(P, S, prices, k) ==> |prices| >= 3
      ensures PlateauDay(P, prices, k) ==> |prices| >= P.minPlateauDays
    {
      if SpikeDay(P, S, prices, k) {
        SpikeGateRedundant(P, S, prices, k);
      }
      if |prices| < P.minPlateauDays {
        PlateauGateRedundant(P, prices, k);
      }
    }
  }

  /** The gated anomaly filter: nothing below three days. */
  method AnomalyFlags(P: Params, prices: seq<Price>, isRound: seq<bool>) returns (flags: seq<bool>)
    requires isRound == RoundMask(P, prices) && GuardHolds(prices)
    ensures |flags| == |prices|
    ensures forall k :: 0 <= k < |prices| ==> (flags[k] <==> |prices| >= 3 && AnomalyDay(P, prices, k))
  {
    hide AnomalyDay, GuardHolds, RoundMask;
    if |prices| < 3 { return seq(|prices|, _ => false); }
    var f := FilterAnomaly(P, prices, isRound);
    flags := f[..];
  }

  method SpikeFlags(P: Params, S: SpikeParams, prices: seq<Price>, isRound: seq<bool>) returns (flags: seq<bool>)
    requires isRound == RoundMask(P, prices) && GuardedSeries(P, prices)
    ensures |flags| == |prices|
    ensures forall k :: 0 <= k < |prices| ==> (flags[k] <==> |prices| >= 3 && SpikeDay(P, S, prices, k))
  {
    hide SpikeDay, GuardedDay, RoundMask;
    if |prices| < 3 { return seq(|prices|, _ => false); }
    var f := FilterSpike(P, S, prices, isRound);
    flags := f[..];
  }

  method PlateauFlags(P: Params, prices: seq<Price>, isRound: seq<bool>) returns (flags: seq<bool>)
    requires isRound == RoundMask(P, prices) && GuardHolds(prices)
    ensures |flags| == |prices|
    ensures forall k :: 0 <= k < |prices| ==> (flags[k] <==> |prices| >= P.minPlateauDays && PlateauDay(P, prices, k))
  {
    hide PlateauDay, GuardHolds, RoundMask;
    if |prices| < P.minPlateauDays { return seq(|prices|, _ => false); }
    var f := FilterPlateau(P, prices, isRound);
    flags := f[..];
  }

  method NoneOf(f1: seq<bool>, f2: seq<bool>, f3: seq<bool>, f4: seq<bool>) returns (keep: seq<bool>)
    requires |f1| == |f2| == |f3| == |f4|
    ensures |keep| == |f1| && forall k :: 0 <= k < |f1| ==> (keep[k] <==> !f1[k] && !f2[k] && !f3[k] && !f4[k])
  {
    keep := seq(|f1|, k requires 0 <= k < |f1| => !(f1[k] || f2[k] || f3[k] || f4[k]));
  }

  /** All four filters behind their minimum-length gates. Only the anomaly gate shows in the
      outcome. */
  method ApplyFilters(P: Params, S: SpikeParams, prices: seq<Price>, mins: seq<Price>, maxs: seq<Price>)
    returns (keep: seq<bool>)
    requires Rounded(prices) && |prices| == |mins| == |maxs|
    ensures GuardHolds(prices) && GuardedSeries(P, prices) && |keep| == |prices|
    ensures forall k :: 0 <= k < |prices| ==>
      (keep[k] <==> !(|prices| >= 3 && AnomalyDay(P, prices, k)) && !SpikeDay(P, S, prices, k)
                    && !PlateauDay(P, prices, k) && !IntradayDay(S, mins[k], maxs[k]))
  {
    RoundedIsGuarded(P, prices);
    GatesRedundant(P, S, prices);
    hide *;
    var roundMask := ComputeRoundMask(P, prices);
    var isRound := roundMask[..];
    var f1 := AnomalyFlags(P, prices, isRound);
    var f2 := SpikeFlags(P, S, prices, isRound);
    var f3 := PlateauFlags(P, prices, isRound);
    var f4 := FilterIntraday(S, mins, maxs);
    keep := NoneOf(f1, f2, f3, f4[..]);
  }

  /** The price at index `other` of a two-day series, if it is above `cur`. */
  lemma AboveOnTwoDays(P: Params, prices: seq<Price>, i: int, cur: real)
    requires |prices| == 2 && 0 <= i < 2
    ensures Above(prices, i, cur, WindowLo(P, i), WindowHi(P, 2, i))
         == if WindowLo(P, i) <= 1 - i < WindowHi(P, 2, i) then AboveAt(prices, i, cur, 1 - i) else []
  {
    var lo, hi := WindowLo(P, i), WindowHi(P, 2, i);
    NothingAbove(prices, i, lo, hi);
    if lo < hi {
      AboveSnoc(prices, i, cur, lo, hi);
      NothingAbove(prices, i, lo, hi - 1);
      if lo < hi - 1 {
        AboveSnoc(prices, i, cur, lo, hi - 1);
        NothingAbove(prices, i, lo, hi - 2);
      }
    }
    hide Above;
    assert AboveAt(prices, i, cur, i) == [];
  }

  lemma OneMedian(x: real)
    ensures Median([x]) == x
  {
    MedianBounded([x], x, x);
  }

  /** What the anomaly gate suppresses: on a series shorter than three days, exactly a candidate
      with one higher neighbour inside the window, the ratio of the two reaching the limit. */
  lemma AnomalyGateIff(P: Params, prices: seq<Price>, i: int)
    requires GuardHolds(prices) && 0 <= i < |prices| < 3
    ensures AnomalyDay(P, prices, i) <==>
      && |prices| == 2 && AnomalyCandidate(P, prices[i]) && prices[1 - i].Some?
      && prices[1 - i].value > prices[i].value
      && WindowLo(P, i) <= 1 - i < WindowHi(P, 2, i)
      && prices[1 - i].value / (prices[i].value + GUARD) >= P.minNormalRatio
  {
    if prices[i].Some? {
      var cur := prices[i].value;
      if |prices| == 2 {
        AboveOnTwoDays(P, prices, i, cur);
        if prices[1 - i].Some? {
          OneMedian(prices[1 - i].value);
        }
      } else {
        NoneAbove(prices, i, cur, WindowLo(P, i), WindowHi(P, 1, i));
      }
      hide Median, Above, IsRound, WindowLo, WindowHi;
    }
  }

  lemma {:induction false} NoneAbove(prices: seq<Price>, i: int, cur: real, lo: int, hi: int)
    requires 0 <= lo && hi <= |prices|
    requires forall j :: lo <= j < hi ==> |AboveAt(prices, i, cur, j)| == 0
    ensures |Above(prices, i, cur, lo, hi)| == 0
    decreases hi - lo
  {
    if lo < hi {
      hide Above, AboveAt;
      NoneAbove(prices, i, cur, lo, hi - 1);
      AboveSnoc(prices, i, cur, lo, hi);
    }
  }

  /** And the gate does suppress flags, at any positive ultra-low gate and any ratio: a rounded
      series of two days on which the filter would flag the second. */
  lemma AnomalyGateMatters(P: Params) returns (prices: seq<Price>)
    requires P.ultraLow > 0.0 && P.lookback >= 1 && P.lookforward >= 0
    ensures Rounded(prices) && GuardHolds(prices) && |prices| == 2 && AnomalyDay(P, prices, 1)
  {
    var k := TickAbove(P.minNormalRatio);
    prices := [Some(Tick(k)), Some(Tick(0))];
    assert OnTick(Tick(k)) && OnTick(Tick(0));
    assert Rounded(prices);
    RoundedGuards(prices);
    AnomalyGateIff(P, prices, 1);
    assert Tick(0) == 0.0 && WindowLo(P, 1) == 0 && WindowHi(P, 2, 1) == 2;
    hide AnomalyDay, IsRound;
  }

  /** A rounded price at least `ratio` times the division guard. */
  lemma TickAbove(ratio: real) returns (k: int)
    ensures k >= 1 && Tick(k) / (0.0 + GUARD) >= ratio
  {
    k := if ratio > 0.0 then ratio.Floor + 1 else 1;
    assert Tick(k) / GUARD == k as real * 1000000.0;
  }

  /** At the repository's thresholds: fifty cents, then five. */
  lemma AnomalyGateShipped(P: Params)
    requires P.ultraLow == 0.10 && P.minNormalRatio == 3.0 && P.lookback == 5 && P.lookforward == 5
    ensures GuardHolds([Some(0.50), Some(0.05)]) && AnomalyDay(P, [Some(0.50), Some(0.05)], 1)
  {
    AnomalyGateIff(P, [Some(0.50), Some(0.05)], 1);
    hide AnomalyDay, IsRound;
  }
}
