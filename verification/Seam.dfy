/** The development/holdout seam: the seeded build concatenates the two daily layers, and no
    value at a development key changes. */
module Seam {
  import opened Basics
  import opened Panel
  import opened History
  import V = Vwap
  import Momentum
  import VaR = ValueAtRisk
  import Vol = BondVolatility
  import G = Gamma
  import GT = GammaTheorems
  import TR = TotalReturn

  datatype SplitError = DevReachesFloor | HoldoutBeforeFloor

  predicate AllBefore(rows: seq<V.DayRow>, floorDate: int) {
    forall i :: 0 <= i < |rows| ==> rows[i].key.date < floorDate
  }

  predicate AllFrom(rows: seq<V.DayRow>, floorDate: int) {
    forall i :: 0 <= i < |rows| ==> rows[i].key.date >= floorDate
  }

  function MaxDate(rows: seq<V.DayRow>): int
    requires |rows| > 0
  {
    if |rows| == 1 then rows[0].key.date
    else
      var m := MaxDate(rows[..|rows| - 1]);
      if rows[|rows| - 1].key.date > m then rows[|rows| - 1].key.date else m
  }

  function MinDate(rows: seq<V.DayRow>): int
    requires |rows| > 0
  {
    if |rows| == 1 then rows[0].key.date
    else
      var m := MinDate(rows[..|rows| - 1]);
      if rows[|rows| - 1].key.date < m then rows[|rows| - 1].key.date else m
  }

  /** The two side checks, then the row union. An empty side passes. */
  function ConcatDaily(dev: seq<V.DayRow>, hold: seq<V.DayRow>, floorDate: int): Result<seq<V.DayRow>, SplitError> {
    if |dev| > 0 && MaxDate(dev) >= floorDate then Err(DevReachesFloor)
    else if |hold| > 0 && MinDate(hold) < floorDate then Err(HoldoutBeforeFloor)
    else Ok(dev + hold)
  }

  lemma {:induction false} MaxDateDecides(rows: seq<V.DayRow>, floorDate: int)
    requires |rows| > 0
    ensures MaxDate(rows) < floorDate <==> AllBefore(rows, floorDate)
  {
    if |rows| > 1 {
      MaxDateDecides(rows[..|rows| - 1], floorDate);
    }
  }

  lemma {:induction false} MinDateDecides(rows: seq<V.DayRow>, floorDate: int)
    requires |rows| > 0
    ensures MinDate(rows) >= floorDate <==> AllFrom(rows, floorDate)
  {
    if |rows| > 1 {
      MinDateDecides(rows[..|rows| - 1], floorDate);
    }
  }

  /** The concatenation succeeds iff the floor date separates the two layers. */
  lemma ConcatSucceedsIff(dev: seq<V.DayRow>, hold: seq<V.DayRow>, floorDate: int)
    ensures ConcatDaily(dev, hold, floorDate).Ok? <==> AllBefore(dev, floorDate) && AllFrom(hold, floorDate)
    ensures ConcatDaily(dev, hold, floorDate).Ok? ==> ConcatDaily(dev, hold, floorDate).value == dev + hold
  {
    if |dev| > 0 { MaxDateDecides(dev, floorDate); }
    if |hold| > 0 { MinDateDecides(hold, floorDate); }
  }

  // --- monthly prices -------------------------------------------------------------------------

  lemma {:induction false} NoRowsInMonth(c: V.Config, rows: seq<V.DayRow>, m: Key)
    requires forall i :: 0 <= i < |rows| ==> V.MonthOf(c, rows[i].key) != m
    ensures Filter(rows, V.RowInMonth(c, m)) == []
  {
    if |rows| > 0 {
      NoRowsInMonth(c, rows[..|rows| - 1], m);
    }
  }

  /** Concatenating later days leaves every earlier month's price, and its absence, as it was. */
  lemma PricesBeforeFloor(c: V.Config, dev: seq<V.DayRow>, hold: seq<V.DayRow>, floorDate: int, floorMonth: Month, m: Key)
    requires FloorIsMonthStart(c.monthOf, floorDate, floorMonth)
    requires AllBefore(dev, floorDate) && AllFrom(hold, floorDate)
    ensures var before, after := V.FamilyPrices(c, dev), V.FamilyPrices(c, dev + hold);
      && (m in before ==> m.month < floorMonth)
      && (m.month < floorMonth ==> (m in after <==> m in before) && PriceAt(after, m) == PriceAt(before, m))
  {
    if m.month < floorMonth {
      FilterConcat(dev, hold, V.RowInMonth(c, m));
      NoRowsInMonth(c, hold, m);
      hide Filter;
      assert Filter(dev, V.RowInMonth(c, m)) + [] == Filter(dev, V.RowInMonth(c, m));
      assert V.MonthPrice(c, dev + hold, m) == V.MonthPrice(c, dev, m);
      MonthsOfUnion(c, dev, hold, m);
    }
  }

  lemma MonthsOfUnion(c: V.Config, dev: seq<V.DayRow>, hold: seq<V.DayRow>, m: Key)
    requires forall i :: 0 <= i < |hold| ==> V.MonthOf(c, hold[i].key) != m
    ensures m in V.FamilyPrices(c, dev + hold) <==> m in V.FamilyPrices(c, dev)
  {
    var u := dev + hold;
    if m in V.FamilyPrices(c, u) {
      var r :| r in u && V.MonthOf(c, r.key) == m;
      assert r in dev;
    }
    if m in V.FamilyPrices(c, dev) {
      var r :| r in dev && V.MonthOf(c, r.key) == m;
      assert r in u;
    }
  }

  /** `after` agrees with `before` on all months before the floor. */
  ghost predicate AgreeBefore(before: Prices, after: Prices, floorMonth: Month) {
    && (forall m :: m in before ==> m.month < floorMonth)
    && (forall m: Key :: m.month < floorMonth ==> (m in after <==> m in before) && PriceAt(after, m) == PriceAt(before, m))
  }

  lemma PricesAgree(c: V.Config, dev: seq<V.DayRow>, hold: seq<V.DayRow>, floorDate: int, floorMonth: Month)
    requires FloorIsMonthStart(c.monthOf, floorDate, floorMonth)
    requires AllBefore(dev, floorDate) && AllFrom(hold, floorDate)
    ensures AgreeBefore(V.FamilyPrices(c, dev), V.FamilyPrices(c, dev + hold), floorMonth)
  {
    var before, after := V.FamilyPrices(c, dev), V.FamilyPrices(c, dev + hold);
    forall m | m in before ensures m.month < floorMonth {
      PricesBeforeFloor(c, dev, hold, floorDate, floorMonth, m);
    }
    forall m: Key | m.month < floorMonth ensures (m in after <==> m in before) && PriceAt(after, m) == PriceAt(before, m) {
      PricesBeforeFloor(c, dev, hold, floorDate, floorMonth, m);
    }
  }

  // --- the panel ------------------------------------------------------------------------------

  /** The sorted outer-joined grid of some families: raw and corrected, or the profiles. */
  ghost predicate IsGrid(keys: seq<Key>, families: seq<Prices>) {
    StrictlySorted(keys) && forall k :: k in keys <==> InSome(families, k)
  }

  ghost predicate InSome(families: seq<Prices>, k: Key) { exists f :: 0 <= f < |families| && k in families[f] }

  /** The return rows of the seeded panel extend those of the development panel. */
  lemma ReturnRowsExtend(devKeys: seq<Key>, allKeys: seq<Key>, dev: Prices, all: Prices, floorMonth: Month)
    requires Covers(devKeys, dev) && Covers(allKeys, all) && AgreeBefore(dev, all, floorMonth)
    requires forall k :: k in devKeys <==> k in allKeys && k.month < floorMonth
    ensures ExtendsFrom(Momentum.ReturnRows(devKeys, dev), Momentum.ReturnRows(allKeys, all), floorMonth)
  {
    var d, a := Momentum.ReturnRows(devKeys, dev), Momentum.ReturnRows(allKeys, all);
    forall r ensures r in d <==> r in a && r.key.month < floorMonth {
      if r in d {
        var i :| 0 <= i < |d| && d[i] == r;
        assert devKeys[i] in devKeys;
        var j :| 0 <= j < |allKeys| && allKeys[j] == devKeys[i];
        SameReturn(devKeys, allKeys, dev, all, floorMonth, i, j);
        assert a[j] == r;
      }
      if r in a && r.key.month < floorMonth {
        var j :| 0 <= j < |a| && a[j] == r;
        assert allKeys[j] in allKeys;
        var i :| 0 <= i < |devKeys| && devKeys[i] == allKeys[j];
        SameReturn(devKeys, allKeys, dev, all, floorMonth, i, j);
        assert d[i] == r;
      }
    }
  }

  lemma SameReturn(devKeys: seq<Key>, allKeys: seq<Key>, dev: Prices, all: Prices, floorMonth: Month, i: nat, j: nat)
    requires Covers(devKeys, dev) && Covers(allKeys, all) && AgreeBefore(dev, all, floorMonth)
    requires i < |devKeys| && j < |allKeys| && devKeys[i] == allKeys[j] && devKeys[i].month < floorMonth
    ensures ReturnAt(devKeys, Column(devKeys, dev), i) == ReturnAt(allKeys, Column(allKeys, all), j)
  {
    GridReturnIsCalendarReturn(devKeys, dev, i);
    GridReturnIsCalendarReturn(allKeys, all, j);
  }

  /** What the signal builders are configured with. */
  datatype Settings = Settings(
    months: nat, momObs: nat,
    varWindow: nat, varObs: nat, rank: nat, multiplier: real,
    volWindow: nat, volObs: nat, rf: Month -> Option<real>, sqrt: real -> real)
  {
    predicate Valid() { months >= 1 && rank >= 1 && volObs >= 2 }
  }

  /** Seam causality for one family: at every development key, the seeded build has that key
      with the same return history, and so the same return and signals. */
  lemma SeamCausality(devKeys: seq<Key>, allKeys: seq<Key>, dev: Prices, all: Prices, floorMonth: Month, i: nat, c: Settings)
    requires Covers(devKeys, dev) && Covers(allKeys, all) && AgreeBefore(dev, all, floorMonth)
    requires forall k :: k in devKeys <==> k in allKeys && k.month < floorMonth
    requires i < |devKeys| && c.Valid()
    ensures exists j: nat :: (
      && j < |allKeys| && allKeys[j] == devKeys[i]
      && SameSignals(Momentum.ReturnRows(devKeys, dev), i, Momentum.ReturnRows(allKeys, all), j, c))
  {
    var d, a := Momentum.ReturnRows(devKeys, dev), Momentum.ReturnRows(allKeys, all);
    assert devKeys[i] in devKeys;
    var j: nat :| j < |allKeys| && allKeys[j] == devKeys[i];
    ReturnRowsExtend(devKeys, allKeys, dev, all, floorMonth);
    SameReturn(devKeys, allKeys, dev, all, floorMonth, i, j);
    HistoriesAgree(d, a, floorMonth, i, j);
    SameHistorySameSignals(d, i, a, j, c);
  }

  ghost predicate SameSignals(d: seq<Row<Float>>, i: nat, a: seq<Row<Float>>, j: nat, c: Settings)
    requires i < |d| && j < |a| && c.Valid()
  {
    && d[i] == a[j] && Hist(d, i) == Hist(a, j)
    && Momentum.Signal(d, i, c.months, c.momObs) == Momentum.Signal(a, j, c.months, c.momObs)
    && VaR.Signal(d, i, c.varWindow, c.varObs, c.rank, c.multiplier)
         == VaR.Signal(a, j, c.varWindow, c.varObs, c.rank, c.multiplier)
    && Vol.Signal(d, i, c.rf, c.volWindow, c.volObs, c.sqrt) == Vol.Signal(a, j, c.rf, c.volWindow, c.volObs, c.sqrt)
  }

  lemma SameHistorySameSignals(d: seq<Row<Float>>, i: nat, a: seq<Row<Float>>, j: nat, c: Settings)
    requires i < |d| && j < |a| && c.Valid() && Hist(d, i) == Hist(a, j)
    ensures SameSignals(d, i, a, j, c)
  {
    hide Hist, Momentum.Signal, VaR.Signal, Vol.Signal;
    LastOfHist(d, i);
    LastOfHist(a, j);
    Momentum.SignalIsCausal(d, i, c.months, c.momObs);
    Momentum.SignalIsCausal(a, j, c.months, c.momObs);
    VaR.SignalIsCausal(d, i, c.varWindow, c.varObs, c.rank, c.multiplier);
    VaR.SignalIsCausal(a, j, c.varWindow, c.varObs, c.rank, c.multiplier);
    Vol.SignalIsCausal(d, i, c.rf, c.volWindow, c.volObs, c.sqrt);
    Vol.SignalIsCausal(a, j, c.rf, c.volWindow, c.volObs, c.sqrt);
  }

  lemma LastOfHist(rows: seq<Row<Float>>, i: nat)
    requires i < |rows|
    ensures Hist(rows, i)[|Hist(rows, i)| - 1] == rows[i]
  {
  }

  /** The families' monthly prices, each from its own daily layer. */
  function PricesOf(c: V.Config, layers: seq<seq<V.DayRow>>): (p: seq<Prices>)
    ensures |p| == |layers| && forall f :: 0 <= f < |layers| ==> p[f] == V.FamilyPrices(c, layers[f])
  {
    seq(|layers|, f requires 0 <= f < |layers| => V.FamilyPrices(c, layers[f]))
  }

  /** Each family's seeded layer is its development layer and its holdout layer, side checks
      passed. */
  ghost predicate Seeded(dev: seq<seq<V.DayRow>>, hold: seq<seq<V.DayRow>>, all: seq<seq<V.DayRow>>, floorDate: int) {
    && |dev| == |hold| == |all|
    && forall f :: 0 <= f < |dev| ==> ConcatDaily(dev[f], hold[f], floorDate) == Ok(all[f])
  }

  /** A development grid and a seeded grid over the same families. */
  ghost predicate SeededGrids(c: V.Config, floorDate: int, floorMonth: Month, dev: seq<seq<V.DayRow>>,
                              hold: seq<seq<V.DayRow>>, all: seq<seq<V.DayRow>>, devKeys: seq<Key>, allKeys: seq<Key>)
  {
    && FloorIsMonthStart(c.monthOf, floorDate, floorMonth)
    && Seeded(dev, hold, all, floorDate)
    && IsGrid(devKeys, PricesOf(c, dev)) && IsGrid(allKeys, PricesOf(c, all))
  }

  lemma SeededPricesAgree(c: V.Config, floorDate: int, floorMonth: Month, dev: seq<seq<V.DayRow>>,
                          hold: seq<seq<V.DayRow>>, all: seq<seq<V.DayRow>>, f: nat)
    requires FloorIsMonthStart(c.monthOf, floorDate, floorMonth) && Seeded(dev, hold, all, floorDate) && f < |dev|
    ensures AgreeBefore(PricesOf(c, dev)[f], PricesOf(c, all)[f], floorMonth)
  {
    assert ConcatDaily(dev[f], hold[f], floorDate) == Ok(all[f]);
    ConcatSucceedsIff(dev[f], hold[f], floorDate);
    PricesAgree(c, dev[f], hold[f], floorDate, floorMonth);
  }

  /** The development grid is the part of the seeded grid before the floor. */
  lemma GridsExtend(c: V.Config, floorDate: int, floorMonth: Month, dev: seq<seq<V.DayRow>>,
                    hold: seq<seq<V.DayRow>>, all: seq<seq<V.DayRow>>, devKeys: seq<Key>, allKeys: seq<Key>, f: nat)
    requires SeededGrids(c, floorDate, floorMonth, dev, hold, all, devKeys, allKeys) && f < |dev|
    ensures Covers(devKeys, PricesOf(c, dev)[f]) && Covers(allKeys, PricesOf(c, all)[f])
    ensures AgreeBefore(PricesOf(c, dev)[f], PricesOf(c, all)[f], floorMonth)
    ensures forall k :: k in devKeys <==> k in allKeys && k.month < floorMonth
  {
    var p, q := PricesOf(c, dev), PricesOf(c, all);
    forall g: nat | g < |dev| ensures AgreeBefore(p[g], q[g], floorMonth) {
      SeededPricesAgree(c, floorDate, floorMonth, dev, hold, all, g);
    }
    hide PricesOf, Seeded, FloorIsMonthStart;
    forall k: Key ensures InSome(p, k) <==> InSome(q, k) && k.month < floorMonth {
      if InSome(p, k) {
        var g :| 0 <= g < |p| && k in p[g];
        assert AgreeBefore(p[g], q[g], floorMonth);
        assert k in q[g];
      }
      if InSome(q, k) && k.month < floorMonth {
        var g :| 0 <= g < |q| && k in q[g];
        assert AgreeBefore(p[g], q[g], floorMonth);
        assert k in p[g];
      }
    }
    CoversFamily(devKeys, p, f);
    CoversFamily(allKeys, q, f);
  }

  lemma CoversFamily(keys: seq<Key>, families: seq<Prices>, f: nat)
    requires IsGrid(keys, families) && f < |families|
    ensures Covers(keys, families[f])
  {
    forall k | k in families[f] ensures k in keys {
      assert InSome(families, k);
    }
  }

  /** From the daily layers of any number of families: with the side checks passed, on the
      joined grids, every development key keeps its return history in every family, and with it
      its return, momentum, value-at-risk and volatility. */
  lemma SeededBuildKeepsDevelopment(
    c: V.Config, floorDate: int, floorMonth: Month, dev: seq<seq<V.DayRow>>, hold: seq<seq<V.DayRow>>,
    all: seq<seq<V.DayRow>>, devKeys: seq<Key>, allKeys: seq<Key>, f: nat, i: nat, settings: Settings)
    requires SeededGrids(c, floorDate, floorMonth, dev, hold, all, devKeys, allKeys)
    requires f < |dev| && i < |devKeys| && settings.Valid()
    ensures |all| == |dev| && exists j: nat :: (
      && j < |allKeys| && allKeys[j] == devKeys[i]
      && SameSignals(Momentum.ReturnRows(devKeys, PricesOf(c, dev)[f]), i,
                     Momentum.ReturnRows(allKeys, PricesOf(c, all)[f]), j, settings))
  {
    GridsExtend(c, floorDate, floorMonth, dev, hold, all, devKeys, allKeys, f);
    assert |all| == |dev|;
    hide SameSignals, PricesOf, SeededGrids, Covers, AgreeBefore;
    SeamCausality(devKeys, allKeys, PricesOf(c, dev)[f], PricesOf(c, all)[f], floorMonth, i, settings);
  }

  // --- the total-return layer -----------------------------------------------------------------

  /** The quotes of one family on a grid; accrued interest and coupons are given per row key. */
  function QuotesOn(keys: seq<Key>, P: Prices, accrued: Key -> Option<real>, coupon: Key -> Option<real>)
    : (q: seq<TR.Quote>)
    ensures |q| == |keys|
  {
    seq(|keys|, i requires 0 <= i < |keys| => TR.Quote(PriceAt(P, keys[i]), accrued(keys[i]), coupon(keys[i])))
  }

  lemma MonthBeforeIsPrevRow(keys: seq<Key>, i: nat)
    requires StrictlySorted(keys) && i < |keys|
    ensures i > 0 && NextMonth(keys[i - 1], keys[i]) <==> Before(keys[i]) in keys
    ensures Before(keys[i]) in keys ==> i > 0 && keys[i - 1] == Before(keys[i])
  {
    if Before(keys[i]) in keys {
      var j :| 0 <= j < |keys| && keys[j] == Before(keys[i]);
      assert j < i;
      NothingBetween(keys[i], keys[i - 1]);
    } else if i > 0 {
      assert keys[i - 1] in keys;
    }
  }

  /** One family: where the prices agree before the floor, so do the total returns. */
  lemma SameTotalReturn(devKeys: seq<Key>, allKeys: seq<Key>, dev: Prices, all: Prices,
                                    accrued: Key -> Option<real>, coupon: Key -> Option<real>, floorMonth: Month, i: nat)
    requires Covers(devKeys, dev) && Covers(allKeys, all) && AgreeBefore(dev, all, floorMonth)
    requires forall k :: k in devKeys <==> k in allKeys && k.month < floorMonth
    requires i < |devKeys|
    ensures exists j: nat :: (
      && j < |allKeys| && allKeys[j] == devKeys[i]
      && TR.KernelAt(devKeys, QuotesOn(devKeys, dev, accrued, coupon), i)
           == TR.KernelAt(allKeys, QuotesOn(allKeys, all, accrued, coupon), j))
  {
    assert devKeys[i] in devKeys;
    var j: nat :| j < |allKeys| && allKeys[j] == devKeys[i];
    MonthBeforeIsPrevRow(devKeys, i);
    MonthBeforeIsPrevRow(allKeys, j);
    var d, a := QuotesOn(devKeys, dev, accrued, coupon), QuotesOn(allKeys, all, accrued, coupon);
    hide TR.OfQuotes, Covers;
    assert d[i] == a[j];
    if Before(devKeys[i]) in devKeys {
      assert d[i - 1] == a[j - 1];
    }
    assert TR.KernelAt(devKeys, d, i) == TR.KernelAt(allKeys, a, j);
  }

  /** From the daily layers, as for the clean returns: every development key keeps its total
      return in every family. */
  lemma TotalReturnKeepsDevelopment(
    c: V.Config, floorDate: int, floorMonth: Month, dev: seq<seq<V.DayRow>>, hold: seq<seq<V.DayRow>>,
    all: seq<seq<V.DayRow>>, devKeys: seq<Key>, allKeys: seq<Key>, f: nat, i: nat,
    accrued: Key -> Option<real>, coupon: Key -> Option<real>)
    requires SeededGrids(c, floorDate, floorMonth, dev, hold, all, devKeys, allKeys)
    requires f < |dev| && i < |devKeys|
    ensures |all| == |dev| && exists j: nat :: (
      && j < |allKeys| && allKeys[j] == devKeys[i]
      && TR.KernelAt(devKeys, QuotesOn(devKeys, PricesOf(c, dev)[f], accrued, coupon), i)
           == TR.KernelAt(allKeys, QuotesOn(allKeys, PricesOf(c, all)[f], accrued, coupon), j))
  {
    GridsExtend(c, floorDate, floorMonth, dev, hold, all, devKeys, allKeys, f);
    assert |all| == |dev|;
    hide TR.KernelAt, QuotesOn, PricesOf, SeededGrids, Covers, AgreeBefore;
    SameTotalReturn(devKeys, allKeys, PricesOf(c, dev)[f], PricesOf(c, all)[f], accrued, coupon, floorMonth, i);
  }

  // --- the daily signal -----------------------------------------------------------------------

  function AsDay(r: V.DayRow): G.Day { G.Day(r.key.cusip, r.key.date, r.price) }

  /** `days` is the layer sorted by bond and date. */
  ghost predicate IsSortedLayer(days: seq<G.Day>, rows: seq<V.DayRow>) {
    GT.SortedDays(days) && forall d :: d in days <==> exists r :: r in rows && AsDay(r) == d
  }

  /** Every development bond-month keeps its illiquidity signal in the seeded build. */
  lemma SeededGammaKeepsDevelopment(
    g: G.Config, floorDate: int, floorMonth: Month, dev: seq<V.DayRow>, hold: seq<V.DayRow>,
    devDays: seq<G.Day>, allDays: seq<G.Day>, m: Key)
    requires FloorIsMonthStart(g.monthOf, floorDate, floorMonth)
    requires ConcatDaily(dev, hold, floorDate).Ok?
    requires IsSortedLayer(devDays, dev) && IsSortedLayer(allDays, ConcatDaily(dev, hold, floorDate).value)
    requires m.month < floorMonth
    ensures G.SignalOf(g, allDays, m) == G.SignalOf(g, devDays, m)
  {
    ConcatSucceedsIff(dev, hold, floorDate);
    hide ConcatDaily;
    forall d ensures d in devDays <==> d in allDays && d.date < floorDate {
      if d in devDays {
        var r :| r in dev && AsDay(r) == d;
        assert r in dev + hold;
      }
      if d in allDays && d.date < floorDate {
        var r :| r in dev + hold && AsDay(r) == d;
        assert r in dev;
      }
    }
    GT.GammaSeam(g, devDays, allDays, floorDate, floorMonth, m);
  }
}
