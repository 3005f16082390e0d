/** The total-return kernel over the panel's shifted arrays, its agreement with the clean
    return, and the self-financing meaning of compounding it. */
module TotalReturn {
  import opened Basics
  import opened Panel

  /** A month's clean price, accrued interest and coupon; None where NaN. */
  datatype Quote = Quote(price: Option<real>, accrued: Option<real>, coupon: Option<real>)

  function Dirty(q: Quote): Option<real> {
    if q.price.Some? && q.accrued.Some? then Some(q.price.value + q.accrued.value) else None
  }

  /** The kernel at row i: defined on adjacent months with a positive earlier dirty price. */
  function KernelAt(keys: seq<Key>, quotes: seq<Quote>, i: nat): Option<real>
    requires i < |keys| == |quotes|
  {
    if i > 0 && NextMonth(keys[i - 1], keys[i]) then OfQuotes(quotes[i - 1], quotes[i]) else None
  }

  function OfQuotes(before: Quote, now: Quote): Option<real> {
    var d0, d1 := Dirty(before), Dirty(now);
    if d0.Some? && d1.Some? && now.coupon.Some? && d0.value > 0.0
    then Some((d1.value + now.coupon.value - d0.value) / d0.value) else None
  }

  /** The array form: shifted columns, the adjacency mask, then the masked formula. */
  method TotalReturnOneFamily(keys: seq<Key>, quotes: seq<Quote>) returns (ret: seq<Option<real>>)
    requires |keys| == |quotes|
    ensures |ret| == |keys| && forall i :: 0 <= i < |keys| ==> ret[i] == KernelAt(keys, quotes, i)
  {
    var n := |keys|;
    var missing := Quote(None, None, None);
    var prev := seq(n, i requires 0 <= i < n => if i > 0 then quotes[i - 1] else missing);
    var adj := new bool[n](_ => false);
    if n > 0 {
      for i := 1 to n
        invariant !adj[0] && forall k :: 1 <= k < i ==> adj[k] == NextMonth(keys[k - 1], keys[k])
      {
        adj[i] := keys[i].cusip == keys[i - 1].cusip && keys[i].month - keys[i - 1].month == 1;
      }
    }
    ret := [];
    for i := 0 to n
      invariant |ret| == i && forall k :: 0 <= k < i ==> ret[k] == KernelAt(keys, quotes, k)
    {
      var denom := Dirty(prev[i]);
      var now := Dirty(quotes[i]);
      var c := quotes[i].coupon;
      ret := ret + [
        if adj[i] && denom.Some? && now.Some? && c.Some? && denom.value > 0.0
        then Some((now.value + c.value - denom.value) / denom.value) else None];
    }
  }

  // --- agreement with the clean return --------------------------------------------------------

  function CleanPrices(quotes: seq<Quote>): (p: seq<Option<real>>)
    ensures |p| == |quotes|
  {
    seq(|quotes|, i requires 0 <= i < |quotes| => quotes[i].price)
  }

  /** The accrual engine reports no accrual and no coupon at row i, nor accrual at the bond's
      row before it; what other rows and other bonds carry does not matter. */
  predicate FlatRow(keys: seq<Key>, quotes: seq<Quote>, i: nat)
    requires i < |keys| == |quotes|
  {
    && quotes[i].accrued == Some(0.0) && quotes[i].coupon == Some(0.0)
    && (i > 0 && keys[i - 1].cusip == keys[i].cusip ==> quotes[i - 1].accrued == Some(0.0))
  }

  /** On such a row the kernel is the grouped-shift clean return, if the earlier price is
      positive, and otherwise missing. */
  lemma FlatKernelIsCleanReturn(keys: seq<Key>, quotes: seq<Quote>, i: nat)
    requires i < |keys| == |quotes| && FlatRow(keys, quotes, i)
    ensures KernelAt(keys, quotes, i) ==
      var clean := ReturnAt(keys, CleanPrices(quotes), i);
      if clean.Fin? && quotes[i - 1].price.value > 0.0 then Some(clean.v) else None
  {
  }

  /** The check before the returns are replaced: on the rows of zero-coupon bonds where both
      returns are finite, clean and total return agree. */
  predicate InvarianceHolds(keys: seq<Key>, quotes: seq<Quote>, zeroCoupon: Cusip -> bool)
    requires |keys| == |quotes|
  {
    forall i :: 0 <= i < |keys| && zeroCoupon(keys[i].cusip) ==> CheckedRow(keys, quotes, i)
  }

  predicate CheckedRow(keys: seq<Key>, quotes: seq<Quote>, i: nat)
    requires i < |keys| == |quotes|
  {
    var clean, total := ReturnAt(keys, CleanPrices(quotes), i), KernelAt(keys, quotes, i);
    clean.Fin? && total.Some? ==> clean.v == total.value
  }

  /** On any panel, coupon bonds included, the check passes if the accrual engine reports zero on
      every row of the zero-coupon bonds. */
  lemma InvarianceCheckPasses(keys: seq<Key>, quotes: seq<Quote>, zeroCoupon: Cusip -> bool)
    requires |keys| == |quotes|
    requires forall i :: 0 <= i < |keys| && zeroCoupon(keys[i].cusip) ==>
      quotes[i].accrued == Some(0.0) && quotes[i].coupon == Some(0.0)
    ensures InvarianceHolds(keys, quotes, zeroCoupon)
  {
    hide ReturnAt, KernelAt;
    forall i: nat | i < |keys| && zeroCoupon(keys[i].cusip) ensures CheckedRow(keys, quotes, i) {
      FlatKernelIsCleanReturn(keys, quotes, i);
    }
  }

  // --- compounding is self-financing ----------------------------------------------------------

  /** Rows lo to hi form a chain: each has a total return, and dirty prices are positive. */
  ghost predicate Chain(keys: seq<Key>, quotes: seq<Quote>, lo: nat, hi: nat)
    requires |keys| == |quotes|
  {
    && lo <= hi < |keys|
    && (forall k :: lo <= k <= hi ==> Dirty(quotes[k]).Some? && Dirty(quotes[k]).value > 0.0)
    && (forall k :: lo < k <= hi ==> KernelAt(keys, quotes, k).Some?)
  }

  function Compounded(keys: seq<Key>, quotes: seq<Quote>, lo: nat, hi: nat): real
    requires |keys| == |quotes| && hi < |keys|
    decreases hi
  {
    if hi <= lo then 1.0
    else
      var r := KernelAt(keys, quotes, hi);
      Compounded(keys, quotes, lo, hi - 1) * (1.0 + if r.Some? then r.value else 0.0)
  }

  function Coupon(q: Quote): real { if q.coupon.Some? then q.coupon.value else 0.0 }

  /** Bonds held after buying one at row lo and spending every coupon on more at P + AI. */
  ghost function Units(keys: seq<Key>, quotes: seq<Quote>, lo: nat, hi: nat): real
    requires |keys| == |quotes| && Chain(keys, quotes, lo, hi)
    decreases hi
  {
    if hi == lo then 1.0
    else
      var held := Units(keys, quotes, lo, hi - 1);
      held + Reinvested(held, Coupon(quotes[hi]), Dirty(quotes[hi]).value)
  }

  /** What `held` coupons buy at the dirty price. */
  function Reinvested(held: real, coupon: real, dirty: real): real
    requires dirty > 0.0
  {
    held * coupon / dirty
  }

  lemma OneMonth(held: real, d0: real, d1: real, c: real)
    requires d0 > 0.0 && d1 > 0.0
    ensures (held + Reinvested(held, c, d1)) * d1 == held * d0 * (1.0 + Growth(d0, d1, c))
  {
    var r := Growth(d0, d1, c);
    assert r * d0 == d1 + c - d0;
    assert held * d0 * (1.0 + r) == held * (d0 + r * d0) == held * (d1 + c);
    assert Reinvested(held, c, d1) * d1 == held * c;
  }

  function Growth(d0: real, d1: real, c: real): real
    requires d0 > 0.0
  {
    (d1 + c - d0) / d0
  }

  function Grown(m: real, d0: real, d1: real, c: real): real
    requires d0 > 0.0
  {
    m * (1.0 + Growth(d0, d1, c))
  }

  /** The holder's wealth is the starting price times the compounded return. */
  predicate Balanced(units: real, dirty: real, start: real, compounded: real) {
    units * dirty == start * compounded
  }

  /** One more month of the chain: units, and the compounding factor, in terms of the quotes. */
  lemma UnitsStep(keys: seq<Key>, quotes: seq<Quote>, lo: nat, hi: nat)
    requires |keys| == |quotes| && Chain(keys, quotes, lo, hi) && lo < hi
    ensures var held := Units(keys, quotes, lo, hi - 1);
      Units(keys, quotes, lo, hi) == held + Reinvested(held, Coupon(quotes[hi]), Dirty(quotes[hi]).value)
    ensures Compounded(keys, quotes, lo, hi)
         == Grown(Compounded(keys, quotes, lo, hi - 1), Dirty(quotes[hi - 1]).value, Dirty(quotes[hi]).value,
                  Coupon(quotes[hi]))
  {
  }

  lemma BalancedStep(held: real, start: real, d0: real, d1: real, c: real, m: real)
    requires d0 > 0.0 && d1 > 0.0 && Balanced(held, d0, start, m)
    ensures Balanced(held + Reinvested(held, c, d1), d1, start, Grown(m, d0, d1, c))
  {
    hide Reinvested;
    OneMonth(held, d0, d1, c);
    var g := 1.0 + Growth(d0, d1, c);
    assert held * d0 * g == start * m * g == start * (m * g);
  }

  lemma {:induction false} HolderStaysBalanced(keys: seq<Key>, quotes: seq<Quote>, lo: nat, hi: nat)
    requires |keys| == |quotes| && Chain(keys, quotes, lo, hi)
    ensures Balanced(Units(keys, quotes, lo, hi), Dirty(quotes[hi]).value,
                     Dirty(quotes[lo]).value, Compounded(keys, quotes, lo, hi))
    decreases hi
  {
    if lo < hi {
      hide Units, Compounded, Dirty, Reinvested, Grown, Balanced, OfQuotes;
      HolderStaysBalanced(keys, quotes, lo, hi - 1);
      UnitsStep(keys, quotes, lo, hi);
      BalancedStep(Units(keys, quotes, lo, hi - 1), Dirty(quotes[lo]).value, Dirty(quotes[hi - 1]).value,
                   Dirty(quotes[hi]).value, Coupon(quotes[hi]), Compounded(keys, quotes, lo, hi - 1));
    }
  }

  /** Closing wealth over opening wealth, for one bond bought at the opening dirty price. */
  function WealthRatio(units: real, dirty: real, start: real): real
    requires start > 0.0
  {
    units * dirty / start
  }

  /** Self-financing: the compounded total return over a chain is the wealth, at its end, of the
      reinvesting holder per unit of money put in at its start. */
  lemma CompoundingIsWealthRatio(keys: seq<Key>, quotes: seq<Quote>, lo: nat, hi: nat)
    requires |keys| == |quotes| && Chain(keys, quotes, lo, hi)
    ensures Compounded(keys, quotes, lo, hi)
         == WealthRatio(Units(keys, quotes, lo, hi), Dirty(quotes[hi]).value, Dirty(quotes[lo]).value)
  {
    hide Units, Compounded, KernelAt, OfQuotes, Balanced, WealthRatio;
    HolderStaysBalanced(keys, quotes, lo, hi);
    Undo(Units(keys, quotes, lo, hi), Dirty(quotes[hi]).value, Dirty(quotes[lo]).value, Compounded(keys, quotes, lo, hi));
  }

  lemma Undo(units: real, dirty: real, start: real, m: real)
    requires start > 0.0 && Balanced(units, dirty, start, m)
    ensures m == WealthRatio(units, dirty, start)
  {
  }

  // --- the kernel in columns --------------------------------------------------------------------

  lemma GrowthTimes(d0: real, d1: real, c: real, r: real)
    requires d0 > 0.0 && r == (d1 + c - d0) / d0
    ensures (1.0 + r) * d0 == d1 + c
  {
    assert r * d0 == d1 + c - d0;
  }

  /** The total return at a row, by its columns: there is one iff the row above is the bond's month
      before, clean price and accrued interest of both rows and the coupon are known, and P + AI of
      the row above is positive; then it takes that P + AI to this month's P + AI plus the coupon. */
  lemma KernelMeaning(keys: seq<Key>, quotes: seq<Quote>, i: nat)
    requires i < |keys| == |quotes|
    ensures KernelAt(keys, quotes, i).Some? <==>
      && i > 0 && keys[i].cusip == keys[i - 1].cusip && keys[i].month - keys[i - 1].month == 1
      && quotes[i - 1].price.Some? && quotes[i - 1].accrued.Some?
      && quotes[i].price.Some? && quotes[i].accrued.Some? && quotes[i].coupon.Some?
      && quotes[i - 1].price.value + quotes[i - 1].accrued.value > 0.0
    ensures KernelAt(keys, quotes, i).Some? ==>
      (1.0 + KernelAt(keys, quotes, i).value) * (quotes[i - 1].price.value + quotes[i - 1].accrued.value)
        == quotes[i].price.value + quotes[i].accrued.value + quotes[i].coupon.value
  {
    if KernelAt(keys, quotes, i).Some? {
      GrowthTimes(quotes[i - 1].price.value + quotes[i - 1].accrued.value, quotes[i].price.value + quotes[i].accrued.value,
                  quotes[i].coupon.value, KernelAt(keys, quotes, i).value);
    }
  }
}
