/** The monthly panel: per-family returns by grouped shift and calendar adjacency, computed on
    the outer-joined grid, and their calendar meaning. */
module Panel {
  import opened Basics

  /** CUSIPs are numbered in the order the panel is sorted by. */
  type Cusip = nat
  type Month = int

  /** Later dates fall in later or equal calendar months. */
  ghost predicate MonthsInOrder(monthOf: int -> Month) { forall a, b :: a <= b ==> monthOf(a) <= monthOf(b) }

  /** The floor date is the first day of the floor month. */
  ghost predicate FloorIsMonthStart(monthOf: int -> Month, floorDate: int, floorMonth: Month) {
    MonthsInOrder(monthOf) && forall d :: d < floorDate <==> monthOf(d) < floorMonth
  }

  datatype Key = Key(cusip: Cusip, month: Month)

  predicate KeyLess(a: Key, b: Key) {
    a.cusip < b.cusip || (a.cusip == b.cusip && a.month < b.month)
  }

  /** The order `sort_values(["cusip_id", "year_month"])` delivers on unique keys. */
  predicate StrictlySorted(keys: seq<Key>) {
    forall i, j :: 0 <= i < j < |keys| ==> KeyLess(keys[i], keys[j])
  }

  /** A float result: a division by zero is infinite, or NaN where the numerator is zero. */
  datatype Float = NaN | Fin(v: real) | Inf(positive: bool)

  function Quot(x: real, y: real): Float {
    if y != 0.0 then Fin(x / y) else if x == 0.0 then NaN else Inf(x > 0.0)
  }

  function Times(factor: real, f: Float): Float {
    match f
    case Fin(v) => Fin(factor * v)
    case NaN => NaN
    case Inf(positive) => if factor == 0.0 then NaN else Inf(positive == (factor > 0.0))
  }

  /** (p - q) / q with NaN for a missing operand. */
  function GrowthOf(p: Option<real>, q: Option<real>): Float {
    if p.Some? && q.Some? then Quot(p.value - q.value, q.value) else NaN
  }

  predicate NextMonth(a: Key, b: Key) { a.cusip == b.cusip && b.month == a.month + 1 }

  // --- the array form -----------------------------------------------------------------------

  /** The return at row i: growth over the previous row, if that is the same bond one month
      earlier. */
  function ReturnAt(keys: seq<Key>, price: seq<Option<real>>, i: nat): Float
    requires i < |keys| == |price|
  {
    if i > 0 && NextMonth(keys[i - 1], keys[i]) then GrowthOf(price[i], price[i - 1]) else NaN
  }

  function Returns(keys: seq<Key>, price: seq<Option<real>>): seq<Float>
    requires |keys| == |price|
  {
    seq(|keys|, i requires 0 <= i < |keys| => ReturnAt(keys, price, i))
  }

  /** Row i of `groupby("cusip_id").shift(1)` on the sorted panel. */
  function Lagged<T>(keys: seq<Key>, col: seq<T>, missing: T, i: nat): T
    requires i < |keys| == |col|
  {
    if i > 0 && keys[i - 1].cusip == keys[i].cusip then col[i - 1] else missing
  }

  function Months(keys: seq<Key>): seq<Option<Month>> {
    seq(|keys|, i requires 0 <= i < |keys| => Some(keys[i].month))
  }

  /** The last value seen of each bond. */
  ghost predicate LastSeen<T>(keys: seq<Key>, col: seq<T>, n: nat, last: map<Cusip, T>)
    requires n <= |keys| == |col|
  {
    && (forall i :: 0 <= i < n ==> keys[i].cusip in last)
    && (forall c :: c in last ==> exists i :: IsLastOf(keys, n, c, i) && last[c] == col[i])
  }

  ghost predicate IsLastOf(keys: seq<Key>, n: nat, c: Cusip, i: int)
    requires n <= |keys|
  {
    0 <= i < n && keys[i].cusip == c && forall j :: i < j < n ==> keys[j].cusip != c
  }

  /** The shift inside each bond's group; on the sorted panel that is the row above. */
  method GroupShift<T>(keys: seq<Key>, col: seq<T>, missing: T) returns (out: seq<T>)
    requires |keys| == |col| && StrictlySorted(keys)
    ensures |out| == |keys| && forall k :: 0 <= k < |keys| ==> out[k] == Lagged(keys, col, missing, k)
  {
    hide StrictlySorted, LastSeen, Lagged;
    var last: map<Cusip, T> := map[];
    out := [];
    NothingSeen(keys, col);
    for i := 0 to |keys|
      invariant |out| == i && forall k :: 0 <= k < i ==> out[k] == Lagged(keys, col, missing, k)
      invariant LastSeen(keys, col, i, last)
    {
      var c := keys[i].cusip;
      LastIsRowAbove(keys, col, missing, i, last);
      SeenNext(keys, col, i, last);
      out := out + [if c in last then last[c] else missing];
      last := last[c := col[i]];
    }
  }

  lemma NothingSeen<T>(keys: seq<Key>, col: seq<T>)
    requires |keys| == |col|
    ensures LastSeen(keys, col, 0, map[])
  {
  }

  /** On the sorted panel the last row of the bond, if any, is the row directly above. */
  lemma LastIsRowAbove<T>(keys: seq<Key>, col: seq<T>, missing: T, i: nat, last: map<Cusip, T>)
    requires i < |keys| == |col| && StrictlySorted(keys) && LastSeen(keys, col, i, last)
    ensures Lagged(keys, col, missing, i) == if keys[i].cusip in last then last[keys[i].cusip] else missing
  {
    var c := keys[i].cusip;
    if c in last {
      var j :| IsLastOf(keys, i, c, j) && last[c] == col[j];
      SameBondBetween(keys, j, i - 1, i);
    }
  }

  lemma SameBondBetween(keys: seq<Key>, i: int, j: int, k: int)
    requires StrictlySorted(keys) && 0 <= i <= j < k < |keys| && keys[i].cusip == keys[k].cusip
    ensures keys[j].cusip == keys[i].cusip
  {
    assert KeyLess(keys[j], keys[k]) && (i < j ==> KeyLess(keys[i], keys[j]));
  }

  lemma SeenNext<T>(keys: seq<Key>, col: seq<T>, i: nat, last: map<Cusip, T>)
    requires i < |keys| == |col| && LastSeen(keys, col, i, last)
    ensures LastSeen(keys, col, i + 1, last[keys[i].cusip := col[i]])
  {
    var next := last[keys[i].cusip := col[i]];
    forall c | c in next ensures exists j :: IsLastOf(keys, i + 1, c, j) && next[c] == col[j] {
      if c == keys[i].cusip {
        assert IsLastOf(keys, i + 1, c, i);
      } else {
        var j :| IsLastOf(keys, i, c, j) && last[c] == col[j];
        assert IsLastOf(keys, i + 1, c, j);
      }
    }
  }

  /** Growth over the lag column, then the adjacency mask written over it. */
  method MaskedGrowth(keys: seq<Key>, price: seq<Option<real>>, lag: seq<Option<real>>, prevMonth: seq<Option<Month>>)
    returns (ret: seq<Float>)
    requires |price| == |keys| == |lag| == |prevMonth|
    requires forall k :: 0 <= k < |keys| ==> lag[k] == Lagged(keys, price, None, k)
    requires forall k :: 0 <= k < |keys| ==> prevMonth[k] == Lagged(keys, Months(keys), None, k)
    ensures |ret| == |keys|
    ensures forall k :: 0 <= k < |keys| ==> ret[k] == ReturnAt(keys, price, k)
  {
    hide GrowthOf, Lagged, ReturnAt, Months;
    var r := new Float[|keys|](_ => NaN);
    for i := 0 to |keys|
      invariant forall k :: 0 <= k < i ==> r[k] == GrowthOf(price[k], lag[k])
    {
      r[i] := GrowthOf(price[i], lag[i]);
    }
    for i := 0 to |keys|
      invariant forall k :: 0 <= k < i ==> r[k] == ReturnAt(keys, price, k)
      invariant forall k :: i <= k < |keys| ==> r[k] == GrowthOf(price[k], lag[k])
    {
      MaskIsAdjacency(keys, price, i);
      if prevMonth[i].None? || keys[i].month - prevMonth[i].value != 1 {
        r[i] := NaN;
      }
    }
    ret := r[..];
  }

  /** Masked where the lagged month is missing or not the month before: the return by
      adjacent rows. */
  lemma MaskIsAdjacency(keys: seq<Key>, price: seq<Option<real>>, i: nat)
    requires i < |keys| == |price|
    ensures var prevMonth := Lagged(keys, Months(keys), None, i);
      ReturnAt(keys, price, i) ==
        if prevMonth.None? || keys[i].month - prevMonth.value != 1 then NaN
        else GrowthOf(price[i], Lagged(keys, price, None, i))
  {
    hide GrowthOf;
  }

  datatype Family = Raw | Corr

  class MonthlyPanel {
    const keys: seq<Key>
    const price: map<Family, seq<Option<real>>>
    var ret: map<Family, seq<Float>>

    ghost predicate Valid() {
      && StrictlySorted(keys) && Raw in price && Corr in price
      && |price[Raw]| == |keys| && |price[Corr]| == |keys|
    }

    constructor (keys: seq<Key>, raw: seq<Option<real>>, corr: seq<Option<real>>)
      requires StrictlySorted(keys) && |raw| == |keys| && |corr| == |keys|
      ensures Valid() && this.keys == keys && price == map[Raw := raw, Corr := corr] && ret == map[]
    {
      this.keys, price, ret := keys, map[Raw := raw, Corr := corr], map[];
    }

    /** The body of the per-family loop: lag and previous month by grouped shift, growth, then
        the adjacency mask. */
    method AddFamilyReturns(f: Family)
      requires Valid()
      modifies this
      ensures ret == old(ret)[f := Returns(keys, price[f])]
    {
      var lag := GroupShift(keys, price[f], None);
      var prevMonth := GroupShift(keys, Months(keys), None);
      var r := MaskedGrowth(keys, price[f], lag, prevMonth);
      assert r == Returns(keys, price[f]);
      ret := ret[f := r];
    }

    method AddReturns()
      requires Valid()
      modifies this
      ensures ret == old(ret)[Raw := Returns(keys, price[Raw])][Corr := Returns(keys, price[Corr])]
    {
      var families := [Raw, Corr];
      for i := 0 to |families|
        invariant i == 0 ==> ret == old(ret)
        invariant i == 1 ==> ret == old(ret)[Raw := Returns(keys, price[Raw])]
        invariant i == 2 ==> ret == old(ret)[Raw := Returns(keys, price[Raw])][Corr := Returns(keys, price[Corr])]
      {
        AddFamilyReturns(families[i]);
      }
    }
  }

  // --- the calendar meaning -----------------------------------------------------------------

  /** One family's month-end prices; None where the month has rows but no defined price. */
  type Prices = map<Key, Option<real>>

  function PriceAt(P: Prices, k: Key): Option<real> { if k in P then P[k] else None }

  /** A family's column on a joined grid. */
  function Column(keys: seq<Key>, P: Prices): (c: seq<Option<real>>)
    ensures |c| == |keys|
  {
    seq(|keys|, i requires 0 <= i < |keys| => PriceAt(P, keys[i]))
  }

  function Before(k: Key): Key { Key(k.cusip, k.month - 1) }

  /** The return by calendar: this month's price over last month's, both in this family. */
  function CalendarReturn(P: Prices, k: Key): Float { GrowthOf(PriceAt(P, k), PriceAt(P, Before(k))) }

  /** A grid of the panel holds every month the family has. */
  ghost predicate Covers(keys: seq<Key>, P: Prices) {
    StrictlySorted(keys) && forall k :: k in P ==> k in keys
  }

  lemma NothingBetween(k: Key, x: Key)
    ensures !(KeyLess(Before(k), x) && KeyLess(x, k))
  {
  }

  /** On any grid that holds the family's months, whatever else it holds, the shifted-array
      return is the calendar return. */
  lemma GridReturnIsCalendarReturn(keys: seq<Key>, P: Prices, i: nat)
    requires Covers(keys, P) && i < |keys|
    ensures ReturnAt(keys, Column(keys, P), i) == CalendarReturn(P, keys[i])
  {
    var b := Before(keys[i]);
    if b in keys {
      var j :| 0 <= j < |keys| && keys[j] == b;
      assert j < i;
      NothingBetween(keys[i], keys[i - 1]);
    } else {
      assert b !in P;
    }
  }

  /** Family independence: the return is the same on any two grids that hold the family's
      months, so the joined raw/corr panel and the single-family panel agree. */
  lemma FamilyIndependence(joined: seq<Key>, own: seq<Key>, P: Prices, i: nat, j: nat)
    requires Covers(joined, P) && Covers(own, P)
    requires i < |joined| && j < |own| && joined[i] == own[j]
    ensures ReturnAt(joined, Column(joined, P), i) == ReturnAt(own, Column(own, P), j)
  {
    GridReturnIsCalendarReturn(joined, P, i);
    GridReturnIsCalendarReturn(own, P, j);
  }

  /** A return is present at a grid row iff this family, by itself, is priced in that month
      and in the month before, with a non-zero earlier price or a non-zero change. */
  lemma ReturnPresentIff(keys: seq<Key>, P: Prices, i: nat)
    requires Covers(keys, P) && i < |keys|
    ensures var p, q := PriceAt(P, keys[i]), PriceAt(P, Before(keys[i]));
      && (ReturnAt(keys, Column(keys, P), i) != NaN
          <==> p.Some? && q.Some? && (q.value != 0.0 || p.value != 0.0))
  {
    GridReturnIsCalendarReturn(keys, P, i);
  }

  lemma GrowthFrom(p: real, q: real)
    requires q != 0.0
    ensures (1.0 + (p - q) / q) * q == p
  {
    var r := (p - q) / q;
    assert r * q == p - q;
  }

  /** The return at a grid row, by the family's own prices: NaN without a price in this month or the
      month before, or where both are zero; infinite, with the sign of this month's price, out of a
      price of zero; otherwise the growth that takes last month's price to this month's. */
  lemma ReturnMeaning(keys: seq<Key>, P: Prices, i: nat, now: Key, before: Key)
    requires Covers(keys, P) && i < |keys| && now == keys[i] && before == Key(now.cusip, now.month - 1)
    ensures var ret := ReturnAt(keys, Column(keys, P), i);
      if !(now in P && before in P && P[now].Some? && P[before].Some?) then ret == NaN
      else
        var p, q := P[now].value, P[before].value;
        if q == 0.0 then ret == if p == 0.0 then NaN else Inf(p > 0.0)
        else ret.Fin? && (1.0 + ret.v) * q == p
  {
    GridReturnIsCalendarReturn(keys, P, i);
    assert Before(now) == before;
    if now in P && before in P && P[now].Some? && P[before].Some? && P[before].value != 0.0 {
      GrowthFrom(P[now].value, P[before].value);
    }
  }
}
