/** The plateau and anomaly filters on one bond's daily series: index loops that write flag
    arrays, their declarative meaning, and their behaviour under time reversal. */
module Distressed {
  import opened Basics
  import opened Ordering

  /** A daily price, rounded to four decimals; None where it is missing. */
  type Price = Option<real>

  datatype Params = Params(
    roundNumbers: seq<real>, roundTolerance: real,
    plateauUltraLow: real, minPlateauDays: int, prePostRatio: real,
    ultraLow: real, minNormalRatio: real, lookback: int, lookforward: int)

  const GUARD: real := 0.0000000001

  predicate IsRound(P: Params, p: Price) {
    p.Some? && exists r :: r in P.roundNumbers && Abs(p.value - r) < P.roundTolerance
  }

  function RoundMask(P: Params, prices: seq<Price>): seq<bool> {
    seq(|prices|, i requires 0 <= i < |prices| => IsRound(P, prices[i]))
  }

  /** No price cancels the division guard: true of any price rounded to four decimals. */
  predicate GuardHolds(prices: seq<Price>) {
    forall i :: 0 <= i < |prices| && prices[i].Some? ==> prices[i].value + GUARD != 0.0
  }

  method ComputeRoundMask(P: Params, prices: seq<Price>) returns (isRound: array<bool>)
    ensures isRound[..] == RoundMask(P, prices)
  {
    var n := |prices|;
    isRound := new bool[n](_ => false);
    for i := 0 to n
      invariant fresh(isRound) && isRound.Length == n
      invariant forall k :: 0 <= k < i ==> isRound[k] == IsRound(P, prices[k])
      invariant forall k :: i <= k < n ==> !isRound[k]
    {
      if prices[i].None? { continue; }
      label Row:
      for j := 0 to |P.roundNumbers|
        invariant forall k :: 0 <= k < j ==> !(Abs(prices[i].value - P.roundNumbers[k]) < P.roundTolerance)
        invariant forall k :: 0 <= k < n ==> isRound[k] == old@Row(isRound[k])
      {
        if Abs(prices[i].value - P.roundNumbers[j]) < P.roundTolerance {
          assert P.roundNumbers[j] in P.roundNumbers;
          isRound[i] := true;
          break;
        }
      }
    }
  }

  // --- plateau ------------------------------------------------------------------------------

  predicate PlateauCandidate(P: Params, p: Price) {
    p.Some? && (p.value < P.plateauUltraLow || IsRound(P, p))
  }

  /** [lo, hi) is a maximal run of exactly equal prices. */
  predicate MaximalRun(prices: seq<Price>, lo: int, hi: int) {
    && 0 <= lo < hi <= |prices|
    && (forall k :: lo <= k < hi ==> prices[k] == prices[lo])
    && (lo > 0 ==> prices[lo - 1] != prices[lo])
    && (hi < |prices| ==> prices[hi] != prices[lo])
  }

  /** The neighbour at index k exists and stands at a displaced level relative to `cur`. */
  predicate Displaced(P: Params, prices: seq<Price>, k: int, cur: real)
    requires cur + GUARD != 0.0
  {
    0 <= k < |prices| && prices[k].Some? && prices[k].value > 0.0 && prices[k].value / (cur + GUARD) >= P.prePostRatio
  }

  predicate SuspiciousRun(P: Params, prices: seq<Price>, lo: int, hi: int)
    requires 0 <= lo < hi <= |prices| && GuardHolds(prices)
  {
    && PlateauCandidate(P, prices[lo])
    && hi - lo >= P.minPlateauDays
    && (IsRound(P, prices[lo]) || Displaced(P, prices, lo - 1, prices[lo].value)
                               || Displaced(P, prices, hi, prices[lo].value))
  }

  /** Declaratively: the day's maximal run is a candidate, long enough, and round or displaced
      on either side. */
  ghost predicate PlateauDay(P: Params, prices: seq<Price>, i: int)
    requires GuardHolds(prices)
  {
    exists lo, hi :: lo <= i < hi && MaximalRun(prices, lo, hi) && SuspiciousRun(P, prices, lo, hi)
  }

  lemma RunUnique(prices: seq<Price>, lo: int, hi: int, lo2: int, hi2: int, i: int)
    requires MaximalRun(prices, lo, hi) && MaximalRun(prices, lo2, hi2)
    requires lo <= i < hi && lo2 <= i < hi2
    ensures lo == lo2 && hi == hi2
  {
    assert prices[lo] == prices[i] == prices[lo2];
  }

  /** The skip loop over two indices: it terminates and flags exactly the plateau days. */
  method FilterPlateau(P: Params, prices: seq<Price>, isRound: seq<bool>) returns (flag: array<bool>)
    requires isRound == RoundMask(P, prices) && GuardHolds(prices)
    ensures flag.Length == |prices|
    ensures forall k :: 0 <= k < |prices| ==> (flag[k] <==> PlateauDay(P, prices, k))
  {
    var n := |prices|;
    flag := new bool[n](_ => false);
    var i := 0;
    while i < n
      invariant fresh(flag) && flag.Length == n && 0 <= i <= n
      invariant 0 < i < n && prices[i - 1] == prices[i] ==> !PlateauCandidate(P, prices[i])
      invariant forall k :: 0 <= k < i ==> (flag[k] <==> PlateauDay(P, prices, k))
      invariant forall k :: i <= k < n ==> !flag[k]
    {
      if !(prices[i].Some? && (prices[i].value < P.plateauUltraLow || isRound[i])) {
        assert !PlateauDay(P, prices, i);
        i := i + 1;
        continue;
      }
      var cur := prices[i].value;
      var j := i + 1;
      while j < n && prices[j] == Some(cur)
        invariant i < j <= n
        invariant forall k :: i <= k < j ==> prices[k] == prices[i]
      {
        j := j + 1;
      }
      assert MaximalRun(prices, i, j);
      var suspicious := false;
      if j - i >= P.minPlateauDays {
        var prePrice := if i > 0 && prices[i - 1].Some? then prices[i - 1].value else -1.0;
        var postPrice := if j < n && prices[j].Some? then prices[j].value else -1.0;
        suspicious := isRound[i];
        if prePrice > 0.0 && prePrice / (cur + GUARD) >= P.prePostRatio {
          suspicious := true;
        }
        if postPrice > 0.0 && postPrice / (cur + GUARD) >= P.prePostRatio {
          suspicious := true;
        }
        if suspicious {
          forall k | i <= k < j {
            flag[k] := true;
          }
        }
      }
      RunDecidesDays(P, prices, i, j, suspicious);
      i := j;
    }
  }

  lemma RunDecidesDays(P: Params, prices: seq<Price>, lo: int, hi: int, suspicious: bool)
    requires GuardHolds(prices) && MaximalRun(prices, lo, hi)
    requires suspicious <==> SuspiciousRun(P, prices, lo, hi)
    ensures forall k :: lo <= k < hi ==> (PlateauDay(P, prices, k) <==> suspicious)
  {
    forall k | lo <= k < hi && PlateauDay(P, prices, k) ensures suspicious {
      var l, h :| l <= k < h && MaximalRun(prices, l, h) && SuspiciousRun(P, prices, l, h);
      RunUnique(prices, lo, hi, l, h, k);
    }
  }

  function Reverse<T>(s: seq<T>): (r: seq<T>)
    ensures |r| == |s| && forall k :: 0 <= k < |s| ==> r[k] == s[|s| - 1 - k]
  {
    seq(|s|, k requires 0 <= k < |s| => s[|s| - 1 - k])
  }

  lemma ReverseReverse<T>(s: seq<T>)
    ensures Reverse(Reverse(s)) == s
  {
  }

  lemma RunReversed(P: Params, prices: seq<Price>, lo: int, hi: int)
    requires GuardHolds(prices) && MaximalRun(prices, lo, hi)
    ensures GuardHolds(Reverse(prices))
    ensures var n := |prices|;
      && MaximalRun(Reverse(prices), n - hi, n - lo)
      && (SuspiciousRun(P, prices, lo, hi) ==> SuspiciousRun(P, Reverse(prices), n - hi, n - lo))
  {
    var n, r := |prices|, Reverse(prices);
    assert r[n - hi] == prices[hi - 1] == prices[lo];
    if hi < n { assert r[n - hi - 1] == prices[hi]; }
    if lo > 0 { assert r[n - lo] == prices[lo - 1]; }
  }

  /** Plateau flags commute with time reversal. */
  lemma PlateauTimeReversal(P: Params, prices: seq<Price>, i: int)
    requires GuardHolds(prices) && 0 <= i < |prices|
    ensures GuardHolds(Reverse(prices))
    ensures PlateauDay(P, Reverse(prices), |prices| - 1 - i) <==> PlateauDay(P, prices, i)
  {
    var n, r := |prices|, Reverse(prices);
    assert GuardHolds(r);
    if PlateauDay(P, prices, i) {
      var lo, hi :| lo <= i < hi && MaximalRun(prices, lo, hi) && SuspiciousRun(P, prices, lo, hi);
      RunReversed(P, prices, lo, hi);
    }
    if PlateauDay(P, r, n - 1 - i) {
      var lo, hi :| lo <= n - 1 - i < hi && MaximalRun(r, lo, hi) && SuspiciousRun(P, r, lo, hi);
      RunReversed(P, r, lo, hi);
      ReverseReverse(prices);
    }
  }

  /** The minimum-length gate in front of the filter changes nothing. */
  lemma PlateauGateRedundant(P: Params, prices: seq<Price>, i: int)
    requires GuardHolds(prices) && |prices| < P.minPlateauDays
    ensures !PlateauDay(P, prices, i)
  {
  }

  // --- anomaly ------------------------------------------------------------------------------

  predicate AnomalyCandidate(P: Params, p: Price) {
    p.Some? && (p.value < P.ultraLow || IsRound(P, p))
  }

  /** The prices above `cur` at indices [lo, hi) other than i, in order. */
  function Above(prices: seq<Price>, i: int, cur: real, lo: int, hi: int): seq<real>
    requires 0 <= lo && hi <= |prices|
    decreases hi - lo
  {
    if hi <= lo then []
    else Above(prices, i, cur, lo, hi - 1) + AboveAt(prices, i, cur, hi - 1)
  }

  function AboveAt(prices: seq<Price>, i: int, cur: real, j: int): seq<real>
    requires 0 <= j < |prices|
  {
    if j != i && prices[j].Some? && prices[j].value > cur then [prices[j].value] else []
  }

  function WindowLo(P: Params, i: int): int { if i - P.lookback > 0 then i - P.lookback else 0 }
  function WindowHi(P: Params, n: int, i: int): int {
    if i + P.lookforward + 1 < n then i + P.lookforward + 1 else n
  }

  /** The neighbours priced above `cur` are, at the median, far above it. */
  predicate FarBelow(P: Params, above: seq<real>, cur: real)
    requires cur + GUARD != 0.0
  {
    |above| > 0 && Median(above) / (cur + GUARD) >= P.minNormalRatio
  }

  ghost predicate AnomalyDay(P: Params, prices: seq<Price>, i: int)
    requires GuardHolds(prices) && 0 <= i < |prices|
  {
    && AnomalyCandidate(P, prices[i])
    && var cur := prices[i].value;
       FarBelow(P, Above(prices, i, cur, WindowLo(P, i), WindowHi(P, |prices|, i)), cur)
  }

  method FilterAnomaly(P: Params, prices: seq<Price>, isRound: seq<bool>) returns (flag: array<bool>)
    requires isRound == RoundMask(P, prices) && GuardHolds(prices)
    ensures flag.Length == |prices|
    ensures forall k :: 0 <= k < |prices| ==> (flag[k] <==> AnomalyDay(P, prices, k))
  {
    hide Sort, Median;
    var n := |prices|;
    flag := new bool[n](_ => false);
    for i := 0 to n
      invariant fresh(flag) && flag.Length == n
      invariant forall k :: 0 <= k < i ==> (flag[k] <==> AnomalyDay(P, prices, k))
      invariant forall k :: i <= k < n ==> !flag[k]
    {
      if !(prices[i].Some? && (prices[i].value < P.ultraLow || isRound[i])) { continue; }
      var cur := prices[i].value;
      var lo, hi := WindowLo(P, i), WindowHi(P, n, i);
      var above: seq<real> := [];
      var j := lo;
      while j < hi
        invariant lo <= j && (j <= hi || j == lo)
        invariant above == Above(prices, i, cur, lo, if j <= hi then j else hi)
      {
        if j != i && prices[j].Some? && prices[j].value > cur {
          above := above + [prices[j].value];
        }
        j := j + 1;
      }
      if |above| == 0 { continue; }
      var med := Median(above);
      if med / (cur + GUARD) >= P.minNormalRatio {
        flag[i] := true;
      }
    }
  }

  lemma {:induction false} AboveFromFront(prices: seq<Price>, i: int, cur: real, lo: int, hi: int)
    requires 0 <= lo < hi <= |prices|
    ensures Above(prices, i, cur, lo, hi) == AboveAt(prices, i, cur, lo) + Above(prices, i, cur, lo + 1, hi)
    decreases hi - lo
  {
    if hi - lo > 1 {
      AboveFromFront(prices, i, cur, lo, hi - 1);
    }
  }

  lemma AboveSnoc(prices: seq<Price>, i: int, cur: real, lo: int, hi: int)
    requires 0 <= lo < hi <= |prices|
    ensures Above(prices, i, cur, lo, hi) == Above(prices, i, cur, lo, hi - 1) + AboveAt(prices, i, cur, hi - 1)
  {
  }

  lemma SwappedUnion(x: seq<real>, a: seq<real>, b: seq<real>)
    requires multiset(a) == multiset(b)
    ensures multiset(x + a) == multiset(b + x)
  {
  }

  lemma {:induction false} AboveReversed(prices: seq<Price>, r: seq<Price>, i: int, cur: real, lo: int, hi: int)
    requires r == Reverse(prices) && 0 <= lo <= hi <= |prices|
    ensures var n := |prices|;
      multiset(Above(r, n - 1 - i, cur, n - hi, n - lo)) == multiset(Above(prices, i, cur, lo, hi))
    decreases hi - lo
  {
    hide Above;
    var n := |prices|;
    if lo < hi {
      AboveReversed(prices, r, i, cur, lo, hi - 1);
      AboveFromFront(r, n - 1 - i, cur, n - hi, n - lo);
      AboveSnoc(prices, i, cur, lo, hi);
      assert AboveAt(r, n - 1 - i, cur, n - hi) == AboveAt(prices, i, cur, hi - 1);
      hide AboveAt, Reverse;
      SwappedUnion(AboveAt(prices, i, cur, hi - 1), Above(r, n - 1 - i, cur, n - hi + 1, n - lo),
                   Above(prices, i, cur, lo, hi - 1));
    } else {
      NothingAbove(prices, i, lo, hi);
      NothingAbove(r, n - 1 - i, n - hi, n - lo);
    }
  }

  /** Anomaly flags commute with time reversal when the window is symmetric. */
  lemma AnomalyTimeReversal(P: Params, prices: seq<Price>, i: int)
    requires GuardHolds(prices) && 0 <= i < |prices| && P.lookback == P.lookforward
    ensures GuardHolds(Reverse(prices))
    ensures AnomalyDay(P, Reverse(prices), |prices| - 1 - i) <==> AnomalyDay(P, prices, i)
  {
    hide Above, Median;
    var n, r := |prices|, Reverse(prices);
    var lo, hi := WindowLo(P, i), WindowHi(P, n, i);
    assert GuardHolds(r) && r[n - 1 - i] == prices[i];
    if AnomalyCandidate(P, prices[i]) && lo <= hi {
      var cur := prices[i].value;
      assert WindowLo(P, n - 1 - i) == n - hi && WindowHi(P, n, n - 1 - i) == n - lo;
      AboveReversed(prices, r, i, cur, lo, hi);
      SameMedian(Above(r, n - 1 - i, cur, n - hi, n - lo), Above(prices, i, cur, lo, hi));
    } else {
      NothingAbove(prices, i, lo, hi);
      NothingAbove(r, n - 1 - i, WindowLo(P, n - 1 - i), WindowHi(P, n, n - 1 - i));
    }
  }

  lemma SameMedian(a: seq<real>, b: seq<real>)
    requires multiset(a) == multiset(b)
    ensures |a| == |b| && (|a| > 0 ==> Median(a) == Median(b))
  {
    assert |a| == |multiset(a)| && |b| == |multiset(b)|;
    if |a| > 0 {
      MedianIgnoresOrder(a, b);
    }
  }

  lemma NothingAbove(prices: seq<Price>, i: int, lo: int, hi: int)
    requires 0 <= lo && hi <= |prices|
    ensures hi <= lo ==> forall cur :: Above(prices, i, cur, lo, hi) == []
  {
  }
}
