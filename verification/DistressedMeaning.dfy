/** The distressed filters' flags in days and prices: which neighbours are compared, at which
    distance, and by which ratios. */
module DistressedMeaning {
  import opened Basics
  import opened Ordering
  import opened Distressed
  import opened Spikes

  /** Within the tolerance of some listed number. */
  ghost predicate NearListed(P: Params, x: real) {
    exists r :: r in P.roundNumbers && r - P.roundTolerance < x < r + P.roundTolerance
  }

  lemma RoundMeaning(P: Params, x: real)
    ensures IsRound(P, Some(x)) <==> NearListed(P, x)
  {
    if IsRound(P, Some(x)) {
      var r :| r in P.roundNumbers && Abs(x - r) < P.roundTolerance;
      assert r - P.roundTolerance < x < r + P.roundTolerance;
    }
    if NearListed(P, x) {
      var r :| r in P.roundNumbers && r - P.roundTolerance < x < r + P.roundTolerance;
      assert Abs(x - r) < P.roundTolerance;
    }
  }

  /** The prices on the days of q. */
  function PricesOn(prices: seq<Price>, q: seq<nat>): (v: seq<real>)
    ensures |v| == |q|
  {
    seq(|q|, k requires 0 <= k < |q| =>
      if q[k] < |prices| && prices[q[k]].Some? then prices[q[k]].value else 0.0)
  }

  lemma PricesSnoc(prices: seq<Price>, q: seq<nat>, j: nat)
    requires j < |prices| && prices[j].Some?
    ensures PricesOn(prices, q + [j]) == PricesOn(prices, q) + [prices[j].value]
  {
  }

  // --- anomaly --------------------------------------------------------------------------------

  /** The days from `lookback` before day i to `lookforward` after it with a higher price. */
  function HigherDays(P: Params, prices: seq<Price>, i: nat): set<nat>
    requires i < |prices|
  {
    set j: nat | j < |prices| && i - P.lookback <= j <= i + P.lookforward
                 && prices[i].Some? && prices[j].Some? && prices[j].value > prices[i].value
  }

  function HigherIn(prices: seq<Price>, cur: real, lo: int, hi: int): set<nat> {
    set j: nat | j < |prices| && lo <= j < hi && prices[j].Some? && prices[j].value > cur
  }

  lemma HigherStep(prices: seq<Price>, cur: real, lo: int, n: int)
    requires 0 <= lo <= n < |prices|
    ensures HigherIn(prices, cur, lo, n + 1) ==
      if prices[n].Some? && prices[n].value > cur then HigherIn(prices, cur, lo, n) + {n} else HigherIn(prices, cur, lo, n)
    ensures forall j :: j in HigherIn(prices, cur, lo, n) ==> j < n
  {
  }

  lemma AboveStep(prices: seq<Price>, i: nat, cur: real, lo: int, hi: int)
    requires 0 <= lo < hi <= |prices| && i < |prices| && prices[i] == Some(cur)
    ensures Above(prices, i, cur, lo, hi) ==
      if prices[hi - 1].Some? && prices[hi - 1].value > cur
      then Above(prices, i, cur, lo, hi - 1) + [prices[hi - 1].value] else Above(prices, i, cur, lo, hi - 1)
  {
    AboveSnoc(prices, i, cur, lo, hi);
    hide Above;
    assert Above(prices, i, cur, lo, hi - 1) + [] == Above(prices, i, cur, lo, hi - 1);
  }

  lemma NothingHigher(prices: seq<Price>, i: nat, cur: real, lo: int, hi: int)
    requires hi <= lo && 0 <= lo && hi <= |prices|
    ensures Lists([], HigherIn(prices, cur, lo, hi)) && Above(prices, i, cur, lo, hi) == PricesOn(prices, [])
  {
  }

  lemma {:induction false} AboveListed(prices: seq<Price>, i: nat, cur: real, lo: int, hi: int) returns (q: seq<nat>)
    requires 0 <= lo && hi <= |prices| && i < |prices| && prices[i] == Some(cur)
    ensures Lists(q, HigherIn(prices, cur, lo, hi)) && Above(prices, i, cur, lo, hi) == PricesOn(prices, q)
    decreases hi - lo
  {
    hide Above, HigherIn, PricesOn, Lists;
    if hi <= lo {
      q := [];
      NothingHigher(prices, i, cur, lo, hi);
    } else {
      q := AboveListed(prices, i, cur, lo, hi - 1);
      HigherStep(prices, cur, lo, hi - 1);
      AboveStep(prices, i, cur, lo, hi);
      if prices[hi - 1].Some? && prices[hi - 1].value > cur {
        ListsSnoc(q, HigherIn(prices, cur, lo, hi - 1), hi - 1);
        PricesSnoc(prices, q, hi - 1);
        q := q + [hi - 1];
      }
    }
  }

  /** A day is an anomaly iff it is priced, ultra low or near a listed number, and the median price
      of the higher days near it reaches the ratio over its own price. */
  lemma AnomalyMeaning(P: Params, prices: seq<Price>, i: nat, q: seq<nat>)
    requires GuardHolds(prices) && i < |prices| && Lists(q, HigherDays(P, prices, i))
    ensures AnomalyDay(P, prices, i) <==>
      && prices[i].Some? && (prices[i].value < P.ultraLow || NearListed(P, prices[i].value))
      && |q| > 0 && prices[i].value + 0.0000000001 != 0.0
      && Median(PricesOn(prices, q)) / (prices[i].value + 0.0000000001) >= P.minNormalRatio
  {
    if prices[i].Some? {
      var cur := prices[i].value;
      var lo, hi := WindowLo(P, i), WindowHi(P, |prices|, i);
      RoundMeaning(P, cur);
      var own := AboveListed(prices, i, cur, lo, hi);
      assert HigherIn(prices, cur, lo, hi) == HigherDays(P, prices, i);
      ListsUnique(q, own, HigherDays(P, prices, i));
      hide Median, Above, PricesOn, NearListed;
    }
  }

  // --- spike ----------------------------------------------------------------------------------

  /** The days up to `lookback` before day i with a lower price. */
  function LowerDays(P: Params, prices: seq<Price>, i: nat): set<nat>
    requires i < |prices|
  {
    set j: nat | j < i && i - P.lookback <= j
                 && prices[i].Some? && prices[j].Some? && prices[j].value < prices[i].value
  }

  function LowerIn(prices: seq<Price>, cur: real, lo: int, hi: int): set<nat> {
    set j: nat | j < |prices| && lo <= j < hi && prices[j].Some? && prices[j].value < cur
  }

  lemma LowerStep(prices: seq<Price>, cur: real, lo: int, n: int)
    requires 0 <= lo <= n < |prices|
    ensures LowerIn(prices, cur, lo, n + 1) ==
      if prices[n].Some? && prices[n].value < cur then LowerIn(prices, cur, lo, n) + {n} else LowerIn(prices, cur, lo, n)
    ensures forall j :: j in LowerIn(prices, cur, lo, n) ==> j < n
  {
  }

  lemma BelowStep(prices: seq<Price>, cur: real, lo: int, hi: int)
    requires 0 <= lo < hi <= |prices|
    ensures Below(prices, cur, lo, hi) ==
      if prices[hi - 1].Some? && prices[hi - 1].value < cur
      then Below(prices, cur, lo, hi - 1) + [prices[hi - 1].value] else Below(prices, cur, lo, hi - 1)
  {
    BelowLast(prices, cur, lo, hi);
    hide Below;
    assert Below(prices, cur, lo, hi - 1) + [] == Below(prices, cur, lo, hi - 1);
  }

  lemma NothingLower(prices: seq<Price>, cur: real, lo: int, hi: int)
    requires hi <= lo && 0 <= lo && hi <= |prices|
    ensures Lists([], LowerIn(prices, cur, lo, hi)) && Below(prices, cur, lo, hi) == PricesOn(prices, [])
  {
  }

  lemma {:induction false} BelowListed(prices: seq<Price>, cur: real, lo: int, hi: int) returns (q: seq<nat>)
    requires 0 <= lo && hi <= |prices|
    ensures Lists(q, LowerIn(prices, cur, lo, hi)) && Below(prices, cur, lo, hi) == PricesOn(prices, q)
    decreases hi - lo
  {
    hide Below, LowerIn, PricesOn, Lists;
    if hi <= lo {
      q := [];
      NothingLower(prices, cur, lo, hi);
    } else {
      q := BelowListed(prices, cur, lo, hi - 1);
      LowerStep(prices, cur, lo, hi - 1);
      BelowStep(prices, cur, lo, hi);
      if prices[hi - 1].Some? && prices[hi - 1].value < cur {
        ListsSnoc(q, LowerIn(prices, cur, lo, hi - 1), hi - 1);
        PricesSnoc(prices, q, hi - 1);
        q := q + [hi - 1];
      }
    }
  }

  /** On one of the next `lookforward` days the price is at the level or below. */
  ghost predicate FallsBack(P: Params, prices: seq<Price>, i: nat, level: real) {
    exists j :: i < j <= i + P.lookforward && j < |prices| && prices[j].Some? && prices[j].value <= level
  }

  /** A day is a spike iff it is priced, high or, above fifty cents, near a listed number; its price
      reaches the ratio over the median of the lower days before it; and the price falls back to
      the recovery share of that median in time. */
  lemma SpikeMeaning(P: Params, S: SpikeParams, prices: seq<Price>, i: nat, q: seq<nat>)
    requires i < |prices| && GuardedDay(P, prices, i) && Lists(q, LowerDays(P, prices, i))
    ensures |q| > 0 ==> Median(PricesOn(prices, q)) + 0.0000000001 != 0.0
    ensures SpikeDay(P, S, prices, i) <==>
      && prices[i].Some?
      && (prices[i].value > S.high || (NearListed(P, prices[i].value) && prices[i].value > 0.50))
      && |q| > 0
      && prices[i].value / (Median(PricesOn(prices, q)) + 0.0000000001) >= S.minRatio
      && FallsBack(P, prices, i, Median(PricesOn(prices, q)) * S.recovery)
  {
    if prices[i].Some? {
      var cur := prices[i].value;
      var lo, hi := WindowLo(P, i), WindowHi(P, |prices|, i);
      RoundMeaning(P, cur);
      var own := BelowListed(prices, cur, lo, i);
      assert LowerIn(prices, cur, lo, i) == LowerDays(P, prices, i);
      ListsUnique(q, own, LowerDays(P, prices, i));
      hide Median, Below, PricesOn, NearListed;
      if |q| > 0 {
        FallMeaning(P, prices, i, Median(PricesOn(prices, q)) * S.recovery);
      }
    } else {
      assert LowerDays(P, prices, i) == {};
      assert |q| > 0 ==> q[0] in q;
    }
  }

  lemma FallMeaning(P: Params, prices: seq<Price>, i: nat, level: real)
    requires i < |prices|
    ensures FallsTo(prices, level, i + 1, WindowHi(P, |prices|, i)) <==> FallsBack(P, prices, i, level)
  {
  }

  // --- plateau --------------------------------------------------------------------------------

  /** Days lo to hi, and no day next to them, have one price. */
  ghost predicate OnePrice(prices: seq<Price>, lo: nat, hi: nat, price: real) {
    && lo < hi <= |prices|
    && (forall k :: lo <= k < hi ==> prices[k] == Some(price))
    && (lo > 0 ==> prices[lo - 1] != Some(price)) && (hi < |prices| ==> prices[hi] != Some(price))
  }

  /** The price on day k is positive and reaches the ratio over `price`. */
  ghost predicate Towers(P: Params, prices: seq<Price>, k: int, price: real) {
    && 0 <= k < |prices| && prices[k].Some? && prices[k].value > 0.0 && price + 0.0000000001 != 0.0
    && prices[k].value / (price + 0.0000000001) >= P.prePostRatio
  }

  ghost predicate Plateau(P: Params, prices: seq<Price>, lo: nat, hi: nat, price: real) {
    && OnePrice(prices, lo, hi, price) && hi - lo >= P.minPlateauDays
    && (NearListed(P, price)
        || (price < P.plateauUltraLow && (Towers(P, prices, lo - 1, price) || Towers(P, prices, hi, price))))
  }

  /** A day is on a plateau iff it lies in a longest stretch of one price that lasts long enough and
      is near a listed number, or is ultra low with a towering day next to it. */
  lemma PlateauMeaning(P: Params, prices: seq<Price>, i: nat)
    requires GuardHolds(prices) && i < |prices|
    ensures PlateauDay(P, prices, i) <==>
      exists lo: nat, hi: nat, price :: lo <= i < hi && Plateau(P, prices, lo, hi, price)
  {
    hide NearListed, IsRound;
    if PlateauDay(P, prices, i) {
      var lo, hi :| lo <= i < hi && MaximalRun(prices, lo, hi) && SuspiciousRun(P, prices, lo, hi);
      RunMeaning(P, prices, lo, hi);
      assert Plateau(P, prices, lo, hi, prices[lo].value);
    }
    if lo: nat, hi: nat, price :| lo <= i < hi && Plateau(P, prices, lo, hi, price) {
      assert prices[lo] == Some(price);
      assert MaximalRun(prices, lo, hi);
      RunMeaning(P, prices, lo, hi);
    }
  }

  lemma RunMeaning(P: Params, prices: seq<Price>, lo: nat, hi: nat)
    requires GuardHolds(prices) && MaximalRun(prices, lo, hi)
    ensures SuspiciousRun(P, prices, lo, hi) <==> prices[lo].Some? && Plateau(P, prices, lo, hi, prices[lo].value)
  {
    if prices[lo].Some? {
      RoundMeaning(P, prices[lo].value);
    }
    hide NearListed;
  }

  // --- intraday -------------------------------------------------------------------------------

  /** A day is flagged intraday iff both its ends are there, one of them at least is below the gate,
      their middle is positive, and the range over the middle exceeds the limit. */
  lemma IntradayMeaning(S: SpikeParams, lo: Price, hi: Price)
    ensures IntradayDay(S, lo, hi) <==>
      && lo.Some? && hi.Some? && (lo.value < S.intradayPrice || hi.value < S.intradayPrice)
      && (lo.value + hi.value) / 2.0 > 0.0
      && (hi.value - lo.value) / ((lo.value + hi.value) / 2.0) > S.intradayRange
  {
    if lo.Some? && hi.Some? {
      WideRange(lo.value, hi.value, S.intradayRange);
    }
  }
}
