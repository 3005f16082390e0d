/** The daily and the monthly aggregate in terms of the trades' own columns: which trades enter, and
    the sums over exactly those. */
module VwapMeaning {
  import opened Basics
  import opened Panel
  import V = Vwap

  /** The trade enters the layer: it has a CUSIP, volume enough, and no product or one that is kept. */
  predicate Enters(c: V.Config, t: V.Trade) {
    && t.cusip.Some? && t.vol.Some? && t.vol.value >= c.minVol
    && (t.product.None? || t.product.value in c.productsKept)
  }

  /** The trades of one bond on one day that enter. */
  function DayDeals(c: V.Config, trades: seq<V.Trade>, cusip: Cusip, date: int): set<nat> {
    set j: nat | j < |trades| && Enters(c, trades[j]) && trades[j].cusip.value == cusip && trades[j].date == date
  }

  function MonthDeals(c: V.Config, trades: seq<V.Trade>, m: Key): set<nat> {
    set j: nat | j < |trades| && Enters(c, trades[j]) && trades[j].cusip.value == m.cusip
                 && c.monthOf(trades[j].date) == m.month
  }

  function Vol(t: V.Trade): real { if t.vol.Some? then t.vol.value else 0.0 }

  /** Price times volume, zero without a price. */
  function Paid(t: V.Trade): real { if t.price.Some? && t.vol.Some? then t.price.value * t.vol.value else 0.0 }

  function Vols(ts: seq<V.Trade>): (v: seq<real>)
    ensures |v| == |ts|
  {
    seq(|ts|, k requires 0 <= k < |ts| => Vol(ts[k]))
  }

  function AllPaid(ts: seq<V.Trade>): (v: seq<real>)
    ensures |v| == |ts|
  {
    seq(|ts|, k requires 0 <= k < |ts| => Paid(ts[k]))
  }

  predicate InRange(q: seq<nat>, n: nat) { forall k :: 0 <= k < |q| ==> q[k] < n }

  function Deals(trades: seq<V.Trade>, q: seq<nat>): (ts: seq<V.Trade>)
    requires InRange(q, |trades|)
    ensures |ts| == |q|
  {
    seq(|q|, k requires 0 <= k < |q| => trades[q[k]])
  }

  // --- the filters by position ----------------------------------------------------------------

  lemma {:induction false} FilterTwice(s: seq<V.Trade>, f: V.Trade -> bool, g: V.Trade -> bool, both: V.Trade -> bool)
    requires forall t :: both(t) <==> f(t) && g(t)
    ensures Filter(Filter(s, f), g) == Filter(s, both)
  {
    if |s| > 0 {
      var n := |s| - 1;
      FilterTwice(s[..n], f, g, both);
      FilterSnoc(Filter(s[..n], f), s[n], g);
      assert Filter(s[..n], f) + [] == Filter(s[..n], f);
      assert Filter(s[..n], both) + [] == Filter(s[..n], both);
    }
  }

  lemma Listed(trades: seq<V.Trade>, at: set<nat>, part: seq<V.Trade>, q: seq<nat>)
    requires IsPart(trades, at, part) && Lists(q, at)
    ensures InRange(q, |trades|) && part == Deals(trades, q)
  {
    PartListed(trades, at, part, q);
  }

  lemma MonthListed(c: V.Config, trades: seq<V.Trade>, m: Key, q: seq<nat>)
    requires Lists(q, MonthDeals(c, trades, m))
    ensures InRange(q, |trades|) && V.MonthTrades(c, trades, m) == Deals(trades, q)
  {
    var both := (t: V.Trade) => V.Keep(c, t) && V.MonthOf(c, V.DayOf(t)) == m;
    FilterTwice(trades, V.KeepMask(c), V.TradeInMonth(c, m), both);
    FilterPositions(trades, both, MonthDeals(c, trades, m));
    Listed(trades, MonthDeals(c, trades, m), Filter(trades, both), q);
  }

  lemma DayListed(c: V.Config, trades: seq<V.Trade>, k: V.DayKey, q: seq<nat>)
    requires Lists(q, DayDeals(c, trades, k.cusip, k.date))
    ensures InRange(q, |trades|) && Filter(Filter(trades, V.KeepMask(c)), V.InDay(k)) == Deals(trades, q)
  {
    var both := (t: V.Trade) => V.Keep(c, t) && V.DayOf(t) == k;
    FilterTwice(trades, V.KeepMask(c), V.InDay(k), both);
    FilterPositions(trades, both, DayDeals(c, trades, k.cusip, k.date));
    Listed(trades, DayDeals(c, trades, k.cusip, k.date), Filter(trades, both), q);
  }

  // --- the sums -------------------------------------------------------------------------------

  lemma ColumnsLast(ts: seq<V.Trade>)
    requires |ts| > 0
    ensures var n := |ts| - 1;
      Total(Vols(ts)) == Total(Vols(ts[..n])) + Vol(ts[n]) && Total(AllPaid(ts)) == Total(AllPaid(ts[..n])) + Paid(ts[n])
  {
    hide Vol, Paid;
    var n := |ts| - 1;
    assert Vols(ts)[..n] == Vols(ts[..n]) && AllPaid(ts)[..n] == AllPaid(ts[..n]);
  }

  lemma {:induction false} SumsAreTotals(ts: seq<V.Trade>)
    ensures V.Volume(ts) == Total(Vols(ts)) && V.Notional(ts) == Total(AllPaid(ts))
  {
    if |ts| > 0 {
      var n := |ts| - 1;
      SumsAreTotals(ts[..n]);
      ColumnsLast(ts);
      hide Total, Vols, AllPaid;
      assert Vol(ts[n]) == V.VolumeOf(ts[n]) && Paid(ts[n]) == V.NotionalOf(ts[n]);
    }
  }

  predicate IsQuotient(price: real, volume: real, paid: real) { volume != 0.0 && price * volume == paid }

  lemma MeanIsQuotient(paid: real, volume: real)
    requires volume != 0.0
    ensures IsQuotient(V.Mean(paid, volume), volume, paid)
  {
  }

  // --- the month ------------------------------------------------------------------------------

  /** The monthly price, by trades: there is one iff some trade of the bond enters in the month, and
      price times volume is what was paid, summed over exactly those trades. */
  lemma MonthPriceMeaning(c: V.Config, trades: seq<V.Trade>, rows: seq<V.DayRow>, m: Key, q: seq<nat>)
    requires V.IsDailyLayer(c, trades, rows) && c.minVol > 0.0 && Lists(q, MonthDeals(c, trades, m))
    ensures InRange(q, |trades|)
    ensures V.MonthPrice(c, rows, m).Some? <==> |q| > 0
    ensures |q| > 0 ==> var ts := Deals(trades, q);
      IsQuotient(V.MonthPrice(c, rows, m).value, Total(Vols(ts)), Total(AllPaid(ts)))
  {
    MonthListed(c, trades, m, q);
    V.KeptHavePositiveVolume(c, trades, m);
    V.MonthPriceOnPositiveVolumes(c, trades, rows, m);
    MonthTradesAre(c, trades, m);
    var ts := Deals(trades, q);
    SumsAreTotals(ts);
    hide V.IsDailyLayer, V.MonthPrice, V.Volume, V.Notional, V.MonthTrades, Total, Vols, AllPaid, Deals, IsQuotient;
    if |q| > 0 {
      MeanIsQuotient(V.Notional(ts), V.Volume(ts));
    }
    hide V.Mean;
  }

  lemma MonthTradesAre(c: V.Config, trades: seq<V.Trade>, m: Key)
    ensures V.MonthTrades(c, trades, m) == Filter(Filter(trades, V.KeepMask(c)), V.TradeInMonth(c, m))
  {
  }

  // --- the day --------------------------------------------------------------------------------

  ghost predicate HasRow(rows: seq<V.DayRow>, k: V.DayKey) { exists i :: 0 <= i < |rows| && rows[i].key == k }

  lemma RowHasDeals(c: V.Config, trades: seq<V.Trade>, r: V.DayRow)
    requires V.DayAggregates(Filter(trades, V.KeepMask(c)), r)
    ensures DayDeals(c, trades, r.key.cusip, r.key.date) != {}
  {
    hide Filter, V.DayRowOf;
    var kept := Filter(trades, V.KeepMask(c));
    var t := Filter(kept, V.InDay(r.key))[0];
    FilterMember(kept, V.InDay(r.key), t);
    FilterMember(trades, V.KeepMask(c), t);
    var j :| 0 <= j < |trades| && trades[j] == t;
    assert j in DayDeals(c, trades, r.key.cusip, r.key.date);
  }

  lemma DealsHaveRow(c: V.Config, trades: seq<V.Trade>, rows: seq<V.DayRow>, k: V.DayKey)
    requires V.CoversDays(Filter(trades, V.KeepMask(c)), rows) && DayDeals(c, trades, k.cusip, k.date) != {}
    ensures HasRow(rows, k)
  {
    hide Filter;
    var j :| j in DayDeals(c, trades, k.cusip, k.date);
    FilterMember(trades, V.KeepMask(c), trades[j]);
    assert V.DayOf(trades[j]) == k;
  }

  /** The layer has one row for each bond and day with a trade that enters, and no other. */
  lemma DaysMeaning(c: V.Config, trades: seq<V.Trade>, k: V.DayKey)
    requires c.minVol >= 0.0
    ensures var rows := V.AggregateDaily(c, trades);
      && (HasRow(rows, k) <==> DayDeals(c, trades, k.cusip, k.date) != {})
      && forall i, j :: 0 <= i < j < |rows| ==> rows[i].key != rows[j].key
  {
    var rows := V.AggregateDaily(c, trades);
    V.AggregateIsDailyLayer(c, trades);
    hide V.AggregateDaily, Filter, V.DayAggregates, V.CoversDays, DayDeals;
    if HasRow(rows, k) {
      var i :| 0 <= i < |rows| && rows[i].key == k;
      RowHasDeals(c, trades, rows[i]);
    }
    if DayDeals(c, trades, k.cusip, k.date) != {} {
      DealsHaveRow(c, trades, rows, k);
    }
  }

  function PricedOf(trades: seq<V.Trade>, at: set<nat>): set<nat> {
    set j | j in at && j < |trades| && trades[j].price.Some?
  }

  lemma {:induction false} PricedCounted(trades: seq<V.Trade>, q: seq<nat>, at: set<nat>)
    requires Lists(q, at) && InRange(q, |trades|)
    ensures V.PricedCount(Deals(trades, q)) == |PricedOf(trades, at)|
  {
    if |q| == 0 {
      assert at == {} && PricedOf(trades, at) == {};
    } else {
      var n := |q| - 1;
      ButLast(q, at);
      PricedCounted(trades, q[..n], at - {q[n]});
      assert Deals(trades, q)[..n] == Deals(trades, q[..n]);
      assert q[n] in q;
      CardStep(PricedOf(trades, at), PricedOf(trades, at - {q[n]}), q[n], trades[q[n]].price.Some?);
    }
  }

  /** A row of the layer, by trades: its volume and what was paid are summed over exactly the day's
      trades that enter, the number of trades counts the priced ones, and the price is missing only
      on a day without volume. */
  lemma DayRowMeaning(c: V.Config, trades: seq<V.Trade>, r: V.DayRow, q: seq<nat>)
    requires c.minVol >= 0.0 && r in V.AggregateDaily(c, trades) && Lists(q, DayDeals(c, trades, r.key.cusip, r.key.date))
    ensures InRange(q, |trades|)
    ensures var ts := Deals(trades, q);
      && r.vol == Total(Vols(ts))
      && r.nTrades == |PricedOf(trades, DayDeals(c, trades, r.key.cusip, r.key.date))|
      && (r.price.Some? <==> r.vol != 0.0)
      && (r.price.Some? ==> IsQuotient(r.price.value, Total(Vols(ts)), Total(AllPaid(ts))))
  {
    var kept := Filter(trades, V.KeepMask(c));
    V.AggregateIsDailyLayer(c, trades);
    assert V.DayAggregates(kept, r);
    hide V.AggregateDaily, V.IsDailyLayer;
    DayListed(c, trades, r.key, q);
    var ts := Deals(trades, q);
    SumsAreTotals(ts);
    PricedCounted(trades, q, DayDeals(c, trades, r.key.cusip, r.key.date));
    hide Filter, V.Volume, V.Notional, Total, Vols, AllPaid, Deals, V.PricedCount, V.Least, V.Greatest;
    hide IsQuotient, DayDeals;
    if r.vol != 0.0 {
      MeanIsQuotient(V.Notional(ts), V.Volume(ts));
    }
    hide V.Mean;
  }
}
