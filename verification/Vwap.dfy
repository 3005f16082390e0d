/** Trades to days to months: volume-weighted prices at two levels, and the trade-level mean
    they amount to. */
module Vwap {
  import opened Basics
  import opened Panel

  /** `cusip` is None where it is null or blank, `price` where it is null. */
  datatype Trade = Trade(
    cusip: Option<Cusip>, date: int, price: Option<real>, vol: Option<real>, product: Option<string>)

  datatype Config = Config(minVol: real, productsKept: set<string>, monthOf: int -> Month)

  datatype DayKey = DayKey(cusip: Cusip, date: int)

  /** One row of the daily layer. The price is None where it is NaN, on a day of no volume; the
      extremes are None on a day without a price. */
  datatype DayRow = DayRow(
    key: DayKey, price: Option<real>, vol: real, nTrades: nat, minPrice: Option<real>, maxPrice: Option<real>)

  predicate Keep(c: Config, t: Trade) {
    && t.cusip.Some? && t.vol.Some? && t.vol.value >= c.minVol
    && (t.product.None? || t.product.value in c.productsKept)
  }

  function KeepMask(c: Config): Trade -> bool { (t: Trade) => Keep(c, t) }

  function DayOf(t: Trade): DayKey { DayKey(if t.cusip.Some? then t.cusip.value else 0, t.date) }
  function MonthOf(c: Config, k: DayKey): Key { Key(k.cusip, c.monthOf(k.date)) }

  function InDay(k: DayKey): Trade -> bool { (t: Trade) => DayOf(t) == k }
  function NotInDay(k: DayKey): Trade -> bool { (t: Trade) => DayOf(t) != k }
  function TradeInMonth(c: Config, m: Key): Trade -> bool { (t: Trade) => MonthOf(c, DayOf(t)) == m }
  function RowInMonth(c: Config, m: Key): DayRow -> bool { (r: DayRow) => MonthOf(c, r.key) == m }

  function VolumeOf(t: Trade): real { if t.vol.Some? then t.vol.value else 0.0 }

  /** A null price contributes no notional, yet its volume counts. */
  function NotionalOf(t: Trade): real { if t.price.Some? then t.price.value * VolumeOf(t) else 0.0 }

  function Volume(ts: seq<Trade>): real {
    if |ts| == 0 then 0.0 else Volume(ts[..|ts| - 1]) + VolumeOf(ts[|ts| - 1])
  }

  function Notional(ts: seq<Trade>): real {
    if |ts| == 0 then 0.0 else Notional(ts[..|ts| - 1]) + NotionalOf(ts[|ts| - 1])
  }

  function Mean(notional: real, volume: real): real
    requires volume != 0.0
  {
    notional / volume
  }

  function Product(x: real, y: real): real { x * y }

  lemma MeanTimesVolume(x: real, v: real)
    requires v != 0.0
    ensures Product(Mean(x, v), v) == x
  {
  }

  /** Trades with a price: nulls are not counted. */
  function PricedCount(ts: seq<Trade>): nat {
    if |ts| == 0 then 0
    else PricedCount(ts[..|ts| - 1]) + (if ts[|ts| - 1].price.Some? then 1 else 0)
  }

  function Least(ts: seq<Trade>): Option<real> {
    if |ts| == 0 then None
    else
      var m, p := Least(ts[..|ts| - 1]), ts[|ts| - 1].price;
      if m.None? || (p.Some? && p.value < m.value) then p else m
  }

  function Greatest(ts: seq<Trade>): Option<real> {
    if |ts| == 0 then None
    else
      var m, p := Greatest(ts[..|ts| - 1]), ts[|ts| - 1].price;
      if m.None? || (p.Some? && p.value > m.value) then p else m
  }

  /** The daily aggregate of the trades of one day. */
  function DayRowOf(k: DayKey, ts: seq<Trade>): DayRow {
    DayRow(k, if Volume(ts) != 0.0 then Some(Mean(Notional(ts), Volume(ts))) else None,
           Volume(ts), PricedCount(ts), Least(ts), Greatest(ts))
  }

  /** `rows` is what `aggregate_daily` writes for `trades`, in any order: one row for each day
      with a kept trade, aggregating exactly that day's kept trades. */
  ghost predicate IsDailyLayer(c: Config, trades: seq<Trade>, rows: seq<DayRow>) {
    var kept := Filter(trades, KeepMask(c));
    && DistinctDays(rows)
    && CoversDays(kept, rows)
    && AllAggregate(kept, rows)
  }

  ghost predicate DistinctDays(rows: seq<DayRow>) {
    forall i, j :: 0 <= i < j < |rows| ==> rows[i].key != rows[j].key
  }

  ghost predicate DayAggregates(kept: seq<Trade>, r: DayRow) {
    var ts := Filter(kept, InDay(r.key));
    |ts| > 0 && r == DayRowOf(r.key, ts)
  }

  // --- the monthly level --------------------------------------------------------------------

  function RowsVolume(rows: seq<DayRow>): real {
    if |rows| == 0 then 0.0 else RowsVolume(rows[..|rows| - 1]) + rows[|rows| - 1].vol
  }

  /** None, for NaN, as soon as one day's price is NaN. */
  function RowsNotional(rows: seq<DayRow>): Option<real> {
    if |rows| == 0 then Some(0.0)
    else AddTo(RowsNotional(rows[..|rows| - 1]), RowNotional(rows[|rows| - 1]))
  }

  function RowNotional(r: DayRow): Option<real> { if r.price.Some? then Some(Product(r.price.value, r.vol)) else None }

  function AddTo(a: Option<real>, b: Option<real>): Option<real> {
    if a.Some? && b.Some? then Some(a.value + b.value) else None
  }

  /** `aggregate_family` at one bond-month: None where no volume defines a price, or where one of
      its days has none. */
  function MonthPrice(c: Config, rows: seq<DayRow>, m: Key): Option<real> {
    var r := Filter(rows, RowInMonth(c, m));
    var x := RowsNotional(r);
    if x.Some? && RowsVolume(r) != 0.0 then Some(Mean(x.value, RowsVolume(r))) else None
  }

  function FamilyPrices(c: Config, rows: seq<DayRow>): Prices {
    map m | m in (set r | r in rows :: MonthOf(c, r.key)) :: MonthPrice(c, rows, m)
  }

  // --- sums over days are sums over trades ---------------------------------------------------

  lemma {:induction false} SumsSplit(ts: seq<Trade>, k: DayKey)
    ensures Volume(ts) == Volume(Filter(ts, InDay(k))) + Volume(Filter(ts, NotInDay(k)))
    ensures Notional(ts) == Notional(Filter(ts, InDay(k))) + Notional(Filter(ts, NotInDay(k)))
  {
    if |ts| > 0 {
      var n := |ts| - 1;
      SumsSplit(ts[..n], k);
      SumsSnoc(Filter(ts[..n], InDay(k)), ts[n]);
      SumsSnoc(Filter(ts[..n], NotInDay(k)), ts[n]);
    }
  }

  lemma SumsSnoc(ts: seq<Trade>, t: Trade)
    ensures Volume(ts + [t]) == Volume(ts) + VolumeOf(t) && Notional(ts + [t]) == Notional(ts) + NotionalOf(t)
    ensures ts + [] == ts
  {
    assert (ts + [t])[..|ts|] == ts;
  }

  lemma {:induction false} OtherDaysUnaffected(ts: seq<Trade>, k: DayKey, other: DayKey)
    requires k != other
    ensures Filter(Filter(ts, NotInDay(k)), InDay(other)) == Filter(ts, InDay(other))
  {
    if |ts| > 0 {
      var n := |ts| - 1;
      OtherDaysUnaffected(ts[..n], k, other);
      FilterConcat(Filter(ts[..n], NotInDay(k)), [ts[n]], InDay(other));
      FilterOne(ts[n], InDay(other));
      assert Filter(ts[..n], NotInDay(k)) + [] == Filter(ts[..n], NotInDay(k));
    }
  }

  lemma FilterOne(t: Trade, p: Trade -> bool)
    ensures Filter([t], p) == if p(t) then [t] else []
  {
    assert [t][..0] == [];
  }

  ghost predicate CoversDays(ts: seq<Trade>, rows: seq<DayRow>) {
    forall t :: t in ts ==> exists i :: 0 <= i < |rows| && rows[i].key == DayOf(t)
  }

  ghost predicate AllAggregate(ts: seq<Trade>, rows: seq<DayRow>) {
    forall i :: 0 <= i < |rows| ==> DayAggregates(ts, rows[i])
  }

  predicate AllTraded(rows: seq<DayRow>) { forall i :: 0 <= i < |rows| ==> rows[i].vol != 0.0 }

  /** Distinct day rows that aggregate all of `ts` have its volume, and its notional unless a day
      has no volume. */
  lemma {:induction false} RowsCarryTradeSums(ts: seq<Trade>, rows: seq<DayRow>)
    requires DistinctDays(rows) && CoversDays(ts, rows) && AllAggregate(ts, rows)
    ensures RowsVolume(rows) == Volume(ts)
    ensures RowsNotional(rows) == if AllTraded(rows) then Some(Notional(ts)) else None
    decreases |rows|
  {
    hide *;
    if |rows| == 0 {
      NoTradesLeft(ts, rows);
    } else {
      var n := |rows| - 1;
      RowsLast(rows);
      LastDayOff(ts, rows);
      RowsCarryTradeSums(Filter(ts, NotInDay(rows[n].key)), rows[..n]);
      SumsSplit(ts, rows[n].key);
      DayNotional(ts, rows[n]);
      AllTradedStep(rows);
      var day, rest := Filter(ts, InDay(rows[n].key)), Filter(ts, NotInDay(rows[n].key));
      Added(RowsNotional(rows[..n]), RowNotional(rows[n]), AllTraded(rows[..n]), rows[n].vol != 0.0,
            Notional(rest), Notional(day));
    }
  }

  lemma RowsLast(rows: seq<DayRow>)
    requires |rows| > 0
    ensures var n := |rows| - 1;
      && RowsVolume(rows) == RowsVolume(rows[..n]) + rows[n].vol
      && RowsNotional(rows) == AddTo(RowsNotional(rows[..n]), RowNotional(rows[n]))
  {
  }

  lemma Added(a: Option<real>, b: Option<real>, p: bool, q: bool, x: real, y: real)
    requires a == (if p then Some(x) else None) && b == (if q then Some(y) else None)
    ensures AddTo(a, b) == if p && q then Some(y + x) else None
  {
  }

  lemma AllTradedStep(rows: seq<DayRow>)
    requires |rows| > 0
    ensures AllTraded(rows) <==> AllTraded(rows[..|rows| - 1]) && rows[|rows| - 1].vol != 0.0
  {
    var f := rows[..|rows| - 1];
    if AllTraded(f) && rows[|rows| - 1].vol != 0.0 {
      forall i | 0 <= i < |rows| ensures rows[i].vol != 0.0 {
        if i < |f| {
          assert f[i] == rows[i];
        }
      }
    }
  }

  lemma NoTradesLeft(ts: seq<Trade>, rows: seq<DayRow>)
    requires |rows| == 0 && CoversDays(ts, rows)
    ensures Volume(ts) == 0.0 && Notional(ts) == 0.0
    ensures RowsVolume(rows) == 0.0 && RowsNotional(rows) == Some(0.0) && AllTraded(rows)
  {
    if |ts| > 0 {
      IsMember(ts, 0);
    }
  }

  /** Without the last day's trades, the other rows still aggregate and cover. */
  lemma LastDayOff(ts: seq<Trade>, rows: seq<DayRow>)
    requires |rows| > 0 && DistinctDays(rows) && CoversDays(ts, rows) && AllAggregate(ts, rows)
    ensures var n := |rows| - 1;
      var rest := Filter(ts, NotInDay(rows[n].key));
      DistinctDays(rows[..n]) && CoversDays(rest, rows[..n]) && AllAggregate(rest, rows[..n])
      && DayAggregates(ts, rows[n])
  {
    hide Filter, Volume, Notional;
    var n := |rows| - 1;
    var r, rest := rows[n], Filter(ts, NotInDay(rows[n].key));
    forall t | t in rest ensures exists i :: 0 <= i < n && rows[..n][i].key == DayOf(t) {
      FilterMember(ts, NotInDay(r.key), t);
      var i :| 0 <= i < |rows| && rows[i].key == DayOf(t);
      assert rows[..n][i] == rows[i];
    }
    forall i | 0 <= i < n ensures DayAggregates(rest, rows[..n][i]) {
      assert DayAggregates(ts, rows[i]);
      OtherDaysUnaffected(ts, r.key, rows[i].key);
    }
  }

  lemma DayNotional(ts: seq<Trade>, r: DayRow)
    requires DayAggregates(ts, r)
    ensures r.vol == Volume(Filter(ts, InDay(r.key)))
    ensures RowNotional(r) == if r.vol != 0.0 then Some(Notional(Filter(ts, InDay(r.key)))) else None
  {
    hide Filter, Volume, Notional, PricedCount, Least, Greatest;
    if r.vol != 0.0 {
      MeanTimesVolume(Notional(Filter(ts, InDay(r.key))), r.vol);
    }
  }

  // --- the daily aggregation --------------------------------------------------------------------

  predicate PositiveVolumes(ts: seq<Trade>) { forall t :: t in ts ==> VolumeOf(t) > 0.0 }

  lemma {:induction false} VolumePositive(ts: seq<Trade>)
    requires PositiveVolumes(ts)
    ensures Volume(ts) >= 0.0 && (|ts| > 0 ==> Volume(ts) > 0.0)
  {
    if |ts| > 0 {
      assert ts[|ts| - 1] in ts;
      VolumePositive(ts[..|ts| - 1]);
    }
  }

  lemma FilterPositive(ts: seq<Trade>, p: Trade -> bool)
    requires PositiveVolumes(ts)
    ensures PositiveVolumes(Filter(ts, p))
  {
    forall t | t in Filter(ts, p) ensures VolumeOf(t) > 0.0 {
      FilterMember(ts, p, t);
    }
  }

  /** The last trade's own day has a trade, and setting it aside shortens the list. */
  lemma LastTradesDay(ts: seq<Trade>)
    requires |ts| > 0
    ensures var k := DayOf(ts[|ts| - 1]);
      |Filter(ts, InDay(k))| > 0 && |Filter(ts, NotInDay(k))| < |ts|
  {
  }

  /** Group by day and aggregate. */
  function DayRows(ts: seq<Trade>): seq<DayRow>
    decreases |ts|
  {
    if |ts| == 0 then []
    else
      var k := DayOf(ts[|ts| - 1]);
      LastTradesDay(ts);
      DayRows(Filter(ts, NotInDay(k))) + [DayRowOf(k, Filter(ts, InDay(k)))]
  }

  /** With volumes that are not negative, a day without volume has no notional either, and its
      quotient is NaN. */
  function AggregateDaily(c: Config, trades: seq<Trade>): seq<DayRow>
    requires c.minVol >= 0.0
  {
    DayRows(Filter(trades, KeepMask(c)))
  }

  lemma KeptTradesPositive(c: Config, trades: seq<Trade>)
    requires c.minVol > 0.0
    ensures PositiveVolumes(Filter(trades, KeepMask(c)))
  {
    forall t | t in Filter(trades, KeepMask(c)) ensures VolumeOf(t) > 0.0 {
      FilterMember(trades, KeepMask(c), t);
    }
  }

  ghost predicate TradedOn(ts: seq<Trade>, k: DayKey) { exists t :: t in ts && DayOf(t) == k }

  ghost predicate FromTrades(ts: seq<Trade>, rows: seq<DayRow>) {
    forall i :: 0 <= i < |rows| ==> TradedOn(ts, rows[i].key)
  }

  /** What the day rows of a list hold, as one invariant of the grouping. */
  ghost predicate Grouped(ts: seq<Trade>, rows: seq<DayRow>) {
    DistinctDays(rows) && CoversDays(ts, rows) && AllAggregate(ts, rows) && FromTrades(ts, rows)
  }

  lemma CoverStep(ts: seq<Trade>, rest: seq<Trade>, r0: seq<DayRow>, row: DayRow)
    requires rest == Filter(ts, NotInDay(row.key)) && CoversDays(rest, r0)
    ensures CoversDays(ts, r0 + [row])
  {
    hide Filter;
    var rows := r0 + [row];
    forall t | t in ts ensures exists i :: 0 <= i < |rows| && rows[i].key == DayOf(t) {
      if DayOf(t) == row.key {
        assert rows[|r0|].key == DayOf(t);
      } else {
        FilterMember(ts, NotInDay(row.key), t);
        var i :| 0 <= i < |r0| && r0[i].key == DayOf(t);
        assert rows[i].key == DayOf(t);
      }
    }
  }

  lemma OneDayOff(ts: seq<Trade>, rest: seq<Trade>, r: DayRow, k: DayKey)
    requires rest == Filter(ts, NotInDay(k)) && DayAggregates(rest, r) && TradedOn(rest, r.key)
    ensures r.key != k && TradedOn(ts, r.key) && DayAggregates(ts, r)
  {
    hide Filter, Volume, Notional;
    var t :| t in rest && DayOf(t) == r.key;
    FilterMember(ts, NotInDay(k), t);
    OtherDaysUnaffected(ts, k, r.key);
  }

  lemma GroupedStep(ts: seq<Trade>, rest: seq<Trade>, r0: seq<DayRow>, row: DayRow)
    requires rest == Filter(ts, NotInDay(row.key)) && Grouped(rest, r0)
    requires DayAggregates(ts, row) && TradedOn(ts, row.key)
    ensures Grouped(ts, r0 + [row])
  {
    CoverStep(ts, rest, r0, row);
    hide Filter, DayAggregates, CoversDays, TradedOn;
    forall i | 0 <= i < |r0| ensures r0[i].key != row.key && DayAggregates(ts, r0[i]) && TradedOn(ts, r0[i].key) {
      OneDayOff(ts, rest, r0[i], row.key);
    }
    DistinctSnoc(r0, row);
    AllSnoc(ts, r0, row);
    hide DistinctDays, AllAggregate, FromTrades;
  }

  lemma DistinctSnoc(r0: seq<DayRow>, row: DayRow)
    requires DistinctDays(r0) && forall i :: 0 <= i < |r0| ==> r0[i].key != row.key
    ensures DistinctDays(r0 + [row])
  {
  }

  lemma AllSnoc(ts: seq<Trade>, r0: seq<DayRow>, row: DayRow)
    requires forall i :: 0 <= i < |r0| ==> DayAggregates(ts, r0[i]) && TradedOn(ts, r0[i].key)
    requires DayAggregates(ts, row) && TradedOn(ts, row.key)
    ensures AllAggregate(ts, r0 + [row]) && FromTrades(ts, r0 + [row])
  {
    hide DayAggregates, TradedOn;
  }

  lemma DayRowsStep(ts: seq<Trade>)
    requires |ts| > 0
    ensures var k := DayOf(ts[|ts| - 1]);
      && |Filter(ts, NotInDay(k))| < |ts| && |Filter(ts, InDay(k))| > 0
      && DayRows(ts) == DayRows(Filter(ts, NotInDay(k))) + [DayRowOf(k, Filter(ts, InDay(k)))]
  {
    LastTradesDay(ts);
  }

  lemma {:induction false} DayRowsGrouped(ts: seq<Trade>)
    ensures Grouped(ts, DayRows(ts))
    decreases |ts|
  {
    if |ts| > 0 {
      DayRowsStep(ts);
      IsMember(ts, |ts| - 1);
      hide DayRows, Filter, Volume, Notional, Grouped;
      var t := ts[|ts| - 1];
      var k := DayOf(t);
      assert TradedOn(ts, k);
      DayRowsGrouped(Filter(ts, NotInDay(k)));
      GroupedStep(ts, Filter(ts, NotInDay(k)), DayRows(Filter(ts, NotInDay(k))), DayRowOf(k, Filter(ts, InDay(k))));
    }
  }

  /** The aggregation delivers a daily layer: one row for each day with a kept trade, and it
      aggregates exactly that day's kept trades. */
  lemma AggregateIsDailyLayer(c: Config, trades: seq<Trade>)
    requires c.minVol >= 0.0
    ensures IsDailyLayer(c, trades, AggregateDaily(c, trades))
  {
    DayRowsGrouped(Filter(trades, KeepMask(c)));
  }

  // --- the month ------------------------------------------------------------------------------

  /** A day outside the month has no trade in it; one inside has all its trades in it. */
  lemma {:induction false} DayWithinMonth(c: Config, ts: seq<Trade>, k: DayKey)
    ensures Filter(Filter(ts, TradeInMonth(c, MonthOf(c, k))), InDay(k)) == Filter(ts, InDay(k))
  {
    if |ts| > 0 {
      var n, m := |ts| - 1, MonthOf(c, k);
      DayWithinMonth(c, ts[..n], k);
      FilterConcat(Filter(ts[..n], TradeInMonth(c, m)), [ts[n]], InDay(k));
      FilterOne(ts[n], InDay(k));
      assert Filter(ts[..n], TradeInMonth(c, m)) + [] == Filter(ts[..n], TradeInMonth(c, m));
    }
  }

  lemma {:induction false} FilterKeepsDistinct(rows: seq<DayRow>, p: DayRow -> bool)
    requires DistinctDays(rows)
    ensures DistinctDays(Filter(rows, p))
  {
    if |rows| > 0 {
      var n := |rows| - 1;
      FilterKeepsDistinct(rows[..n], p);
      var f := Filter(rows[..n], p);
      forall i | 0 <= i < |f| ensures f[i].key != rows[n].key {
        FilterMember(rows[..n], p, f[i]);
        var j :| 0 <= j < n && rows[..n][j] == f[i];
        assert rows[j] == f[i];
      }
    }
  }

  lemma MonthRowsAggregate(c: Config, kept: seq<Trade>, rows: seq<DayRow>, m: Key)
    requires DistinctDays(rows) && CoversDays(kept, rows) && AllAggregate(kept, rows)
    ensures var ts, rs := Filter(kept, TradeInMonth(c, m)), Filter(rows, RowInMonth(c, m));
      DistinctDays(rs) && CoversDays(ts, rs) && AllAggregate(ts, rs)
  {
    hide Filter, Volume, Notional;
    var ts, rs := Filter(kept, TradeInMonth(c, m)), Filter(rows, RowInMonth(c, m));
    FilterKeepsDistinct(rows, RowInMonth(c, m));
    forall t | t in ts ensures exists i :: 0 <= i < |rs| && rs[i].key == DayOf(t) {
      FilterMember(kept, TradeInMonth(c, m), t);
      var i :| 0 <= i < |rows| && rows[i].key == DayOf(t);
      FilterMember(rows, RowInMonth(c, m), rows[i]);
      var j :| 0 <= j < |rs| && rs[j] == rows[i];
    }
    forall i | 0 <= i < |rs| ensures DayAggregates(ts, rs[i]) {
      FilterMember(rows, RowInMonth(c, m), rs[i]);
      var j :| 0 <= j < |rows| && rows[j] == rs[i];
      assert DayAggregates(kept, rows[j]);
      DayWithinMonth(c, kept, rs[i].key);
    }
  }

  /** A day on which bonds changed hands without volume. */
  ghost predicate SomeIdleDay(ts: seq<Trade>) { exists t :: t in ts && IdleDay(ts, DayOf(t)) }

  predicate IdleDay(ts: seq<Trade>, k: DayKey) { Volume(Filter(ts, InDay(k))) == 0.0 }

  lemma IdleRows(ts: seq<Trade>, rows: seq<DayRow>)
    requires CoversDays(ts, rows) && AllAggregate(ts, rows)
    ensures AllTraded(rows) <==> !SomeIdleDay(ts)
  {
    hide Filter, Volume, Notional;
    if !AllTraded(rows) {
      var i :| 0 <= i < |rows| && rows[i].vol == 0.0;
      assert DayAggregates(ts, rows[i]);
      var t := Filter(ts, InDay(rows[i].key))[0];
      FilterMember(ts, InDay(rows[i].key), t);
      DayNotional(ts, rows[i]);
      assert t in ts && IdleDay(ts, DayOf(t));
    }
    if SomeIdleDay(ts) {
      var t :| t in ts && IdleDay(ts, DayOf(t));
      var i :| 0 <= i < |rows| && rows[i].key == DayOf(t);
      assert DayAggregates(ts, rows[i]);
      DayNotional(ts, rows[i]);
    }
  }

  /** Two-level VWAP: the monthly price built from the daily layer is the notional over the
      volume of the month's kept trades, and missing iff there is no volume or a day without. */
  lemma MonthPriceIsTradeLevel(c: Config, trades: seq<Trade>, rows: seq<DayRow>, m: Key)
    requires IsDailyLayer(c, trades, rows)
    ensures var ts := Filter(Filter(trades, KeepMask(c)), TradeInMonth(c, m));
      MonthPrice(c, rows, m) ==
        if Volume(ts) != 0.0 && !SomeIdleDay(ts) then Some(Mean(Notional(ts), Volume(ts))) else None
  {
    hide Filter, Volume, Notional, RowsNotional, RowsVolume, AllTraded, SomeIdleDay;
    var kept := Filter(trades, KeepMask(c));
    MonthRowsAggregate(c, kept, rows, m);
    RowsCarryTradeSums(Filter(kept, TradeInMonth(c, m)), Filter(rows, RowInMonth(c, m)));
    IdleRows(Filter(kept, TradeInMonth(c, m)), Filter(rows, RowInMonth(c, m)));
  }

  lemma NoIdleDay(ts: seq<Trade>)
    requires PositiveVolumes(ts)
    ensures !SomeIdleDay(ts)
  {
    forall t | t in ts ensures !IdleDay(ts, DayOf(t)) {
      FilterMember(ts, InDay(DayOf(t)), t);
      FilterPositive(ts, InDay(DayOf(t)));
      VolumePositive(Filter(ts, InDay(DayOf(t))));
    }
  }

  /** With a positive minimum volume no day is without volume. */
  lemma MonthPriceOnPositiveVolumes(c: Config, trades: seq<Trade>, rows: seq<DayRow>, m: Key)
    requires IsDailyLayer(c, trades, rows) && c.minVol > 0.0
    ensures var ts := Filter(Filter(trades, KeepMask(c)), TradeInMonth(c, m));
      MonthPrice(c, rows, m) == if Volume(ts) != 0.0 then Some(Mean(Notional(ts), Volume(ts))) else None
  {
    MonthPriceIsTradeLevel(c, trades, rows, m);
    KeptTradesPositive(c, trades);
    FilterPositive(Filter(trades, KeepMask(c)), TradeInMonth(c, m));
    NoIdleDay(Filter(Filter(trades, KeepMask(c)), TradeInMonth(c, m)));
    hide *;
  }

  // --- what the trade-level mean is -----------------------------------------------------------

  /** The volume of the trades that carry a price. */
  function PricedVolume(ts: seq<Trade>): real {
    if |ts| == 0 then 0.0
    else PricedVolume(ts[..|ts| - 1]) + PricedVolumeOf(ts[|ts| - 1])
  }

  function PricedVolumeOf(t: Trade): real { if t.price.Some? then VolumeOf(t) else 0.0 }

  ghost predicate PricesWithin(ts: seq<Trade>, lo: real, hi: real) {
    forall t :: t in ts && t.price.Some? ==> lo <= t.price.value <= hi
  }

  ghost predicate Between(lo: real, x: real, hi: real, v: real) { lo * v <= x <= hi * v }

  lemma {:induction false} NotionalBounded(ts: seq<Trade>, lo: real, hi: real)
    requires PositiveVolumes(ts) && PricesWithin(ts, lo, hi)
    ensures Between(lo, Notional(ts), hi, PricedVolume(ts))
  {
    if |ts| > 0 {
      var n := |ts| - 1;
      var t := ts[n];
      assert t in ts && forall x :: x in ts[..n] ==> x in ts;
      NotionalBounded(ts[..n], lo, hi);
      TradeBounded(t, lo, hi);
      hide Between;
      BoundsAdd(lo, Notional(ts[..n]), hi, PricedVolume(ts[..n]), NotionalOf(t), PricedVolumeOf(t));
    }
  }

  lemma TradeBounded(t: Trade, lo: real, hi: real)
    requires VolumeOf(t) > 0.0 && (t.price.Some? ==> lo <= t.price.value <= hi)
    ensures Between(lo, NotionalOf(t), hi, PricedVolumeOf(t))
  {
    if t.price.Some? {
      var p, v := t.price.value, VolumeOf(t);
      assert (p - lo) * v >= 0.0 && (hi - p) * v >= 0.0;
    }
  }

  lemma BoundsAdd(lo: real, x: real, hi: real, v: real, y: real, w: real)
    requires Between(lo, x, hi, v) && Between(lo, y, hi, w)
    ensures Between(lo, x + y, hi, v + w)
  {
    assert lo * (v + w) == lo * v + lo * w && hi * (v + w) == hi * v + hi * w;
  }

  lemma {:induction false} PricedShare(ts: seq<Trade>)
    requires PositiveVolumes(ts)
    ensures 0.0 <= PricedVolume(ts) <= Volume(ts)
    ensures PricedVolume(ts) == Volume(ts) <==> forall t :: t in ts ==> t.price.Some?
  {
    if |ts| > 0 {
      var n := |ts| - 1;
      assert ts[n] in ts && forall x :: x in ts <==> x in ts[..n] || x == ts[n];
      PricedShare(ts[..n]);
    }
  }

  lemma Strict(a: real, b: real, v: real)
    requires a < b && v > 0.0
    ensures a * v < b * v
  {
  }

  ghost predicate NonePriced(ts: seq<Trade>) { forall t :: t in ts ==> t.price.None? }

  predicate HasPrice(ts: seq<Trade>, x: real) { exists t :: t in ts && t.price == Some(x) }

  lemma {:induction false} Extremes(ts: seq<Trade>)
    ensures PricedCount(ts) == 0 <==> NonePriced(ts)
    ensures Least(ts).Some? <==> PricedCount(ts) > 0
    ensures Greatest(ts).Some? <==> PricedCount(ts) > 0
    ensures Least(ts).Some? ==>
      HasPrice(ts, Least(ts).value) && HasPrice(ts, Greatest(ts).value)
      && PricesWithin(ts, Least(ts).value, Greatest(ts).value)
  {
    if |ts| > 0 {
      var f, t := ts[..|ts| - 1], ts[|ts| - 1];
      Extremes(f);
      assert forall x :: x in ts <==> x in f || x == t;
      if Least(f).Some? {
        var a :| a in f && a.price == Some(Least(f).value);
        var b :| b in f && b.price == Some(Greatest(f).value);
        assert a in ts && b in ts && t in ts;
      }
    }
  }

  /** A day row with every trade priced: the price lies between the day's own extremes, which
      are prices that were paid. */
  lemma DayPriceWithinExtremes(c: Config, trades: seq<Trade>, r: DayRow)
    requires c.minVol > 0.0 && r in AggregateDaily(c, trades)
    requires AllPriced(Filter(Filter(trades, KeepMask(c)), InDay(r.key)))
    ensures var ts := Filter(Filter(trades, KeepMask(c)), InDay(r.key));
      && r.nTrades == PricedCount(ts) > 0 && r.minPrice.Some? && r.maxPrice.Some?
      && HasPrice(ts, r.minPrice.value) && HasPrice(ts, r.maxPrice.value)
      && r.price.Some? && r.minPrice.value <= r.price.value <= r.maxPrice.value
  {
    var kept := Filter(trades, KeepMask(c));
    var ts := Filter(kept, InDay(r.key));
    AggregateIsDailyLayer(c, trades);
    KeptTradesPositive(c, trades);
    FilterPositive(kept, InDay(r.key));
    hide AggregateDaily, Filter;
    assert DayAggregates(kept, r);
    PricedDay(ts, r);
  }

  lemma PricedDay(ts: seq<Trade>, r: DayRow)
    requires PositiveVolumes(ts) && AllPriced(ts) && |ts| > 0 && r == DayRowOf(r.key, ts)
    ensures r.nTrades == PricedCount(ts) > 0 && r.minPrice.Some? && r.maxPrice.Some?
    ensures HasPrice(ts, r.minPrice.value) && HasPrice(ts, r.maxPrice.value)
    ensures r.price.Some? && r.minPrice.value <= r.price.value <= r.maxPrice.value
  {
    NothingToPrice(ts);
    VolumePositive(ts);
    Extremes(ts);
    if |ts| > 0 {
      IsMember(ts, 0);
    }
    PricedShare(ts);
    MeanTimesVolume(Notional(ts), Volume(ts));
    hide Notional, Volume, PricedVolume, PricedCount, Least, Greatest, Mean, HasPrice;
    NotionalBounded(ts, r.minPrice.value, r.maxPrice.value);
    QuotientWithin(r.minPrice.value, r.price.value, Notional(ts), r.maxPrice.value, Volume(ts));
  }

  /** The kept trades of a bond-month. */
  function MonthTrades(c: Config, trades: seq<Trade>, m: Key): seq<Trade> {
    Filter(Filter(trades, KeepMask(c)), TradeInMonth(c, m))
  }

  predicate AllPriced(ts: seq<Trade>) { forall t :: t in ts ==> t.price.Some? }

  /** The volume-weighted mean of the trades that carry a price. */
  function PricedMean(ts: seq<Trade>): Option<real> {
    if PricedVolume(ts) > 0.0 then Some(Mean(Notional(ts), PricedVolume(ts))) else None
  }

  /** The fraction of the volume that carries a price. */
  function PricedFraction(ts: seq<Trade>): real
    requires Volume(ts) != 0.0
  {
    Mean(PricedVolume(ts), Volume(ts))
  }

  lemma KeptHavePositiveVolume(c: Config, trades: seq<Trade>, m: Key)
    requires c.minVol > 0.0
    ensures var ts := MonthTrades(c, trades, m);
      PositiveVolumes(ts) && Volume(ts) >= 0.0 && (|ts| > 0 <==> Volume(ts) > 0.0)
  {
    KeptTradesPositive(c, trades);
    FilterPositive(Filter(trades, KeepMask(c)), TradeInMonth(c, m));
    VolumePositive(MonthTrades(c, trades, m));
  }

  /** A month with a kept trade has a price, and price times volume is the notional. */
  lemma PriceTimesVolume(c: Config, trades: seq<Trade>, rows: seq<DayRow>, m: Key)
    requires IsDailyLayer(c, trades, rows) && c.minVol > 0.0 && |MonthTrades(c, trades, m)| > 0
    ensures Volume(MonthTrades(c, trades, m)) > 0.0 && MonthPrice(c, rows, m).Some?
    ensures Product(MonthPrice(c, rows, m).value, Volume(MonthTrades(c, trades, m))) == Notional(MonthTrades(c, trades, m))
  {
    KeptHavePositiveVolume(c, trades, m);
    MonthPriceOnPositiveVolumes(c, trades, rows, m);
    MeanTimesVolume(Notional(MonthTrades(c, trades, m)), Volume(MonthTrades(c, trades, m)));
    hide *;
  }

  /** The monthly price lies between any bounds of the priced trades, scaled by the fraction of
      the volume that is priced; with every trade priced, between the bounds themselves. */
  lemma MonthPriceBounded(c: Config, trades: seq<Trade>, rows: seq<DayRow>, m: Key, lo: real, hi: real)
    requires IsDailyLayer(c, trades, rows) && c.minVol > 0.0
    requires |MonthTrades(c, trades, m)| > 0 && PricesWithin(MonthTrades(c, trades, m), lo, hi)
    ensures Volume(MonthTrades(c, trades, m)) > 0.0 && MonthPrice(c, rows, m).Some?
    ensures var ts, price := MonthTrades(c, trades, m), MonthPrice(c, rows, m).value;
      && Between(lo, price, hi, PricedFraction(ts))
      && 0.0 <= PricedFraction(ts) <= 1.0 && (PricedFraction(ts) == 1.0 <==> AllPriced(ts))
      && (AllPriced(ts) ==> lo <= price <= hi)
  {
    var ts := MonthTrades(c, trades, m);
    KeptHavePositiveVolume(c, trades, m);
    PriceTimesVolume(c, trades, rows, m);
    NotionalBounded(ts, lo, hi);
    PricedShare(ts);
    FractionTimesVolume(ts);
    hide *;
    ScaledBounds(lo, MonthPrice(c, rows, m).value, hi, PricedFraction(ts), Notional(ts), PricedVolume(ts), Volume(ts));
  }

  lemma FractionTimesVolume(ts: seq<Trade>)
    requires Volume(ts) != 0.0
    ensures Product(PricedFraction(ts), Volume(ts)) == PricedVolume(ts)
  {
    MeanTimesVolume(PricedVolume(ts), Volume(ts));
    hide PricedVolume, Volume, Mean, Product;
  }

  /** Bounds of a notional x over a priced volume p, as bounds of x / v by the fraction p / v. */
  lemma ScaledBounds(lo: real, q: real, hi: real, f: real, x: real, p: real, v: real)
    requires v > 0.0 && 0.0 <= p <= v && Between(lo, x, hi, p)
    requires Product(q, v) == x && Product(f, v) == p
    ensures Between(lo, q, hi, f) && 0.0 <= f <= 1.0 && (f == 1.0 <==> p == v)
    ensures p == v ==> lo <= q <= hi
  {
    FromBelow(lo, q, f, x, p, v);
    FromAbove(q, hi, f, x, p, v);
    Fraction(f, p, v);
  }

  lemma Fraction(f: real, p: real, v: real)
    requires v > 0.0 && 0.0 <= p <= v && Product(f, v) == p
    ensures 0.0 <= f <= 1.0 && (f == 1.0 <==> p == v)
  {
    if f < 0.0 { Strict(f, 0.0, v); }
    if 1.0 < f { Strict(1.0, f, v); }
    if f < 1.0 { Strict(f, 1.0, v); }
  }

  lemma FromBelow(lo: real, q: real, f: real, x: real, p: real, v: real)
    requires v > 0.0 && Product(q, v) == x && Product(f, v) == p && lo * p <= x
    ensures lo * f <= q
  {
    assert (lo * f) * v == lo * (f * v);
    if q < lo * f { Strict(q, lo * f, v); }
  }

  lemma FromAbove(q: real, hi: real, f: real, x: real, p: real, v: real)
    requires v > 0.0 && Product(q, v) == x && Product(f, v) == p && x <= hi * p
    ensures q <= hi * f
  {
    assert (hi * f) * v == hi * (f * v);
    if hi * f < q { Strict(hi * f, q, v); }
  }

  /** Exactly when the monthly price lies within given bounds, priced trades or not. */
  lemma MonthPriceWithinIff(c: Config, trades: seq<Trade>, rows: seq<DayRow>, m: Key, lo: real, hi: real)
    requires IsDailyLayer(c, trades, rows) && c.minVol > 0.0 && |MonthTrades(c, trades, m)| > 0
    ensures MonthPrice(c, rows, m).Some?
    ensures var ts := MonthTrades(c, trades, m);
      lo <= MonthPrice(c, rows, m).value <= hi <==> Between(lo, Notional(ts), hi, Volume(ts))
  {
    var ts := MonthTrades(c, trades, m);
    PriceTimesVolume(c, trades, rows, m);
    hide *;
    QuotientWithin(lo, MonthPrice(c, rows, m).value, Notional(ts), hi, Volume(ts));
  }

  lemma QuotientWithin(lo: real, q: real, x: real, hi: real, v: real)
    requires v > 0.0 && Product(q, v) == x
    ensures lo <= q <= hi <==> Between(lo, x, hi, v)
  {
    if q < lo { Strict(q, lo, v); } else if lo < q { Strict(lo, q, v); }
    if hi < q { Strict(hi, q, v); } else if q < hi { Strict(q, hi, v); }
  }

  /** Null prices dilute: the monthly price is the volume-weighted mean of the priced trades
      exactly when every kept trade of the month is priced, or that mean exists and is zero. */
  lemma MonthPriceIsMeanIff(c: Config, trades: seq<Trade>, rows: seq<DayRow>, m: Key)
    requires IsDailyLayer(c, trades, rows) && c.minVol > 0.0
    ensures var ts := MonthTrades(c, trades, m);
      MonthPrice(c, rows, m) == PricedMean(ts) <==> AllPriced(ts) || PricedMean(ts) == Some(0.0)
  {
    var ts := MonthTrades(c, trades, m);
    KeptHavePositiveVolume(c, trades, m);
    PricedShare(ts);
    MonthPriceOnPositiveVolumes(c, trades, rows, m);
    NothingToPrice(ts);
    hide MonthTrades, Notional, PricedVolume, Volume, MonthPrice, IsDailyLayer, AllPriced;
    if PricedVolume(ts) > 0.0 {
      SameMeanIff(Notional(ts), Volume(ts), PricedVolume(ts));
      ZeroMeanIff(Notional(ts), PricedVolume(ts));
    }
  }

  lemma NothingToPrice(ts: seq<Trade>)
    ensures |ts| == 0 ==> Volume(ts) == 0.0 && PricedVolume(ts) == 0.0 && AllPriced(ts)
  {
  }

  lemma ZeroMeanIff(x: real, v: real)
    requires v > 0.0
    ensures Mean(x, v) == 0.0 <==> x == 0.0
  {
    MeanTimesVolume(x, v);
  }

  lemma SameMeanIff(x: real, a: real, b: real)
    requires a > 0.0 && b > 0.0
    ensures Mean(x, a) == Mean(x, b) <==> a == b || x == 0.0
  {
    MeanTimesVolume(x, a);
    MeanTimesVolume(x, b);
    ZeroMeanIff(x, a);
    hide Mean;
    var p := Mean(x, a);
    if p == Mean(x, b) && x != 0.0 {
      assert p * (a - b) == 0.0;
    }
    if x == 0.0 {
      ZeroMeanIff(x, b);
    }
  }

  // --- months without a price -------------------------------------------------------------------

  lemma {:induction false} NoNotional(ts: seq<Trade>)
    requires NonePriced(ts)
    ensures Notional(ts) == 0.0
  {
    if |ts| > 0 {
      assert ts[|ts| - 1] in ts;
      NoNotional(ts[..|ts| - 1]);
    }
  }

  /** A bond-month that trades without any price is priced at zero, not missing. */
  lemma UnpricedMonthIsZero(c: Config, trades: seq<Trade>, rows: seq<DayRow>, m: Key)
    requires IsDailyLayer(c, trades, rows) && c.minVol > 0.0
    requires |MonthTrades(c, trades, m)| > 0 && NonePriced(MonthTrades(c, trades, m))
    ensures MonthPrice(c, rows, m) == Some(0.0)
  {
    KeptHavePositiveVolume(c, trades, m);
    MonthPriceOnPositiveVolumes(c, trades, rows, m);
    NoNotional(MonthTrades(c, trades, m));
    hide MonthTrades, Notional, Volume, MonthPrice, IsDailyLayer;
    ZeroMeanIff(0.0, Volume(MonthTrades(c, trades, m)));
  }

  lemma FamilyPriceAt(c: Config, rows: seq<DayRow>, m: Key)
    ensures PriceAt(FamilyPrices(c, rows), m) == MonthPrice(c, rows, m)
  {
    if m !in FamilyPrices(c, rows) {
      var r := Filter(rows, RowInMonth(c, m));
      if |r| > 0 {
        FilterMember(rows, RowInMonth(c, m), r[0]);
      }
    }
  }

  lemma GrowthAtZero(p: real)
    requires p != 0.0
    ensures GrowthOf(Some(0.0), Some(p)) == Fin(-1.0) && GrowthOf(Some(p), Some(0.0)) == Inf(p > 0.0)
  {
    MinusOne(p);
  }

  lemma MinusOne(p: real)
    requires p != 0.0
    ensures (0.0 - p) / p == -1.0
  {
    MeanTimesVolume(0.0 - p, p);
    var q := Mean(0.0 - p, p);
    assert (q + 1.0) * p == 0.0;
  }

  /** Into such a month the return is a total loss. */
  lemma ReturnIntoUnpricedMonth(c: Config, trades: seq<Trade>, rows: seq<DayRow>, m: Key)
    requires IsDailyLayer(c, trades, rows) && c.minVol > 0.0
    requires |MonthTrades(c, trades, m)| > 0 && NonePriced(MonthTrades(c, trades, m))
    requires var q := PriceAt(FamilyPrices(c, rows), Before(m)); q.Some? && q.value != 0.0
    ensures CalendarReturn(FamilyPrices(c, rows), m) == Fin(-1.0)
  {
    UnpricedMonthIsZero(c, trades, rows, m);
    FamilyPriceAt(c, rows, m);
    GrowthAtZero(PriceAt(FamilyPrices(c, rows), Before(m)).value);
    hide FamilyPrices, MonthPrice, MonthTrades, IsDailyLayer, GrowthOf, PriceAt;
  }

  /** Out of it the return is infinite. */
  lemma ReturnOutOfUnpricedMonth(c: Config, trades: seq<Trade>, rows: seq<DayRow>, m: Key)
    requires IsDailyLayer(c, trades, rows) && c.minVol > 0.0
    requires |MonthTrades(c, trades, Before(m))| > 0 && NonePriced(MonthTrades(c, trades, Before(m)))
    requires var p := PriceAt(FamilyPrices(c, rows), m); p.Some? && p.value != 0.0
    ensures CalendarReturn(FamilyPrices(c, rows), m) == Inf(PriceAt(FamilyPrices(c, rows), m).value > 0.0)
  {
    UnpricedMonthIsZero(c, trades, rows, Before(m));
    FamilyPriceAt(c, rows, Before(m));
    GrowthAtZero(PriceAt(FamilyPrices(c, rows), m).value);
    hide FamilyPrices, MonthPrice, MonthTrades, IsDailyLayer, GrowthOf, PriceAt;
  }

  /** Two trades of one volume, one of them without a price. */
  function NullPair(v: real): seq<Trade> {
    [Trade(Some(0), 0, Some(100.0), Some(v), None), Trade(Some(0), 0, None, Some(v), None)]
  }

  /** The month is priced at half the price that was paid. */
  lemma NullPriceHalves(c: Config, v: real)
    requires c.minVol > 0.0 && v >= c.minVol
    ensures var m := MonthOf(c, DayKey(0, 0));
      && MonthPrice(c, AggregateDaily(c, NullPair(v)), m) == Some(50.0)
      && PricedMean(MonthTrades(c, NullPair(v), m)) == Some(100.0)
  {
    hide *;
    NullPairKept(c, v);
    HalfPricedSums(v);
    Halves(v);
    AggregateIsDailyLayer(c, NullPair(v));
    MonthPriceOnPositiveVolumes(c, NullPair(v), AggregateDaily(c, NullPair(v)), MonthOf(c, DayKey(0, 0)));
    MonthTradesAre(c, NullPair(v), MonthOf(c, DayKey(0, 0)));
  }

  lemma MonthTradesAre(c: Config, trades: seq<Trade>, m: Key)
    ensures MonthTrades(c, trades, m) == Filter(Filter(trades, KeepMask(c)), TradeInMonth(c, m))
  {
  }

  lemma NullPairKept(c: Config, v: real)
    requires v >= c.minVol
    ensures MonthTrades(c, NullPair(v), MonthOf(c, DayKey(0, 0))) == NullPair(v)
  {
    hide Filter;
    var ts := NullPair(v);
    KeepsBoth(ts[0], ts[1], KeepMask(c));
    KeepsBoth(ts[0], ts[1], TradeInMonth(c, MonthOf(c, DayKey(0, 0))));
    assert ts == [ts[0], ts[1]];
  }

  lemma HalfPricedSums(v: real)
    requires v > 0.0
    ensures var ts := NullPair(v);
      Volume(ts) == v + v && Notional(ts) == 100.0 * v && PricedVolume(ts) == v
      && PricedMean(ts) == Some(Mean(100.0 * v, v))
  {
    var ts := NullPair(v);
    assert ts[..1] == [ts[0]] && [ts[0]][..0] == [];
    assert Volume([ts[0]]) == v && Notional([ts[0]]) == 100.0 * v && PricedVolume([ts[0]]) == v;
  }

  lemma Halves(v: real)
    requires v > 0.0
    ensures Mean(100.0 * v, v + v) == 50.0 && Mean(100.0 * v, v) == 100.0
  {
  }

  lemma KeepsBoth(t0: Trade, t1: Trade, p: Trade -> bool)
    requires p(t0) && p(t1)
    ensures Filter([t0, t1], p) == [t0, t1]
  {
    assert [t0, t1][..1] == [t0] && [t0][..0] == [];
  }
}
