/** The momentum signal: run ids by cumulative sum and a rolling window inside each run, and
    what the value means in calendar time. */
module Momentum {
  import opened Basics
  import opened Panel
  import opened History

  /** 1 + ret where it may enter the compounding chain; NaN, infinite and <= -1 returns may
      not (a rolling sum treats an infinite term as missing). */
  function Factor(ret: Float): Option<real> {
    if ret.Fin? && ret.v > -1.0 then Some(1.0 + ret.v) else None
  }

  predicate Adjacent(rows: seq<Row<Float>>, i: nat)
    requires i < |rows|
  {
    i > 0 && NextMonth(rows[i - 1].key, rows[i].key)
  }

  // --- the specification --------------------------------------------------------------------

  /** Where row i's run of consecutive months of one bond starts. */
  function RunStart(rows: seq<Row<Float>>, i: nat): (s: nat)
    requires i < |rows|
    ensures s <= i
  {
    if Adjacent(rows, i) then RunStart(rows, i - 1) else i
  }

  function WindowStart(rows: seq<Row<Float>>, i: nat, months: nat): nat
    requires i < |rows| && months >= 1
  {
    if RunStart(rows, i) + months <= i + 1 then i + 1 - months else RunStart(rows, i)
  }

  function Compound(rows: seq<Row<Float>>, lo: nat, hi: nat): real
    requires hi <= |rows|
    decreases hi - lo
  {
    if lo >= hi then 1.0
    else
      var f := Factor(rows[lo].value);
      (if f.Some? then f.value else 1.0) * Compound(rows, lo + 1, hi)
  }

  function ValidCount(rows: seq<Row<Float>>, lo: nat, hi: nat): nat
    requires hi <= |rows|
    decreases hi - lo
  {
    if lo >= hi then 0
    else (if Factor(rows[lo].value).Some? then 1 else 0) + ValidCount(rows, lo + 1, hi)
  }

  /** Compounded return over the last `months` rows of the run, given `minObs` valid ones. */
  function Signal(rows: seq<Row<Float>>, i: nat, months: nat, minObs: nat): Option<real>
    requires i < |rows| && months >= 1
  {
    var lo := WindowStart(rows, i, months);
    if ValidCount(rows, lo, i + 1) >= minObs then Some(Compound(rows, lo, i + 1) - 1.0) else None
  }

  // --- the array form -----------------------------------------------------------------------

  datatype Failure = BadMonths | BadMinObs | EmptyPanel

  function RunId(rows: seq<Row<Float>>, i: nat): nat
    requires i < |rows|
  {
    (if i > 0 then RunId(rows, i - 1) else 0) + (if Adjacent(rows, i) then 0 else 1)
  }

  lemma {:induction false} RunIdsGrow(rows: seq<Row<Float>>, j: nat, i: nat)
    requires j <= i < |rows|
    ensures RunId(rows, j) <= RunId(rows, i)
  {
    if j < i {
      RunIdsGrow(rows, j, i - 1);
    }
  }

  /** Rows share a run id iff they lie in one run. */
  lemma {:induction false} RunIdMeansRun(rows: seq<Row<Float>>, j: nat, i: nat)
    requires j <= i < |rows|
    ensures RunId(rows, j) == RunId(rows, i) <==> RunStart(rows, i) <= j
  {
    if j < i {
      RunIdMeansRun(rows, j, i - 1);
      RunIdsGrow(rows, j, i - 1);
    }
  }

  function Factors(rows: seq<Row<Float>>): (f: seq<Option<real>>)
    ensures |f| == |rows| && forall k :: 0 <= k < |rows| ==> f[k] == Factor(rows[k].value)
  {
    seq(|rows|, i requires 0 <= i < |rows| => Factor(rows[i].value))
  }

  function RunIdColumn(rows: seq<Row<Float>>): (ids: seq<nat>)
    ensures |ids| == |rows| && forall k :: 0 <= k < |rows| ==> ids[k] == RunId(rows, k)
  {
    seq(|rows|, i requires 0 <= i < |rows| => RunId(rows, i))
  }

  /** One rolling window: the rows of row i's run among the last `months` rows. */
  method RollingWindow(rows: seq<Row<Float>>, runId: seq<nat>, factor: seq<Option<real>>, i: nat, months: nat, minObs: nat)
    returns (value: Option<real>)
    requires i < |rows| && months >= 1
    requires runId == RunIdColumn(rows) && factor == Factors(rows)
    ensures value == Signal(rows, i, months, minObs)
  {
    hide RunStart, RunId, Compound, ValidCount;
    var count, product := 0, 1.0;
    var first := if i + 1 >= months then i + 1 - months else 0;
    var j := i + 1;
    ghost var lo := WindowStart(rows, i, months);
    SumStep(rows, i + 1, i + 1);
    while j > first
      invariant first <= lo <= i && first <= j <= i + 1
      invariant var from := if j > lo then j else lo;
        count == ValidCount(rows, from, i + 1) && product == Compound(rows, from, i + 1)
    {
      j := j - 1;
      RunIdMeansRun(rows, j, i);
      SumStep(rows, j, i + 1);
      if runId[j] == runId[i] && factor[j].Some? {
        count, product := count + 1, factor[j].value * product;
      }
    }
    value := if count >= minObs then Some(product - 1.0) else None;
  }

  lemma SumStep(rows: seq<Row<Float>>, lo: nat, hi: nat)
    requires lo <= hi <= |rows|
    ensures lo == hi ==> ValidCount(rows, lo, hi) == 0 && Compound(rows, lo, hi) == 1.0
    ensures lo < hi ==> var f := Factor(rows[lo].value);
      && ValidCount(rows, lo, hi) == ValidCount(rows, lo + 1, hi) + (if f.Some? then 1 else 0)
      && Compound(rows, lo, hi) == (if f.Some? then f.value * Compound(rows, lo + 1, hi) else Compound(rows, lo + 1, hi))
  {
  }

  predicate SameCusip(rows: seq<Row<Float>>, k: nat)
    requires k < |rows|
  {
    k > 0 && rows[k].key.cusip == rows[k - 1].key.cusip
  }

  predicate Consecutive(rows: seq<Row<Float>>, k: nat)
    requires k < |rows|
  {
    k > 0 && rows[k].key.month - rows[k - 1].key.month == 1
  }

  /** Where a new run starts: the two comparison arrays, written by slices. */
  method NewRuns(rows: seq<Row<Float>>) returns (newRun: seq<bool>)
    requires |rows| > 0
    ensures |newRun| == |rows| && forall k :: 0 <= k < |rows| ==> newRun[k] == !Adjacent(rows, k)
  {
    var n := |rows|;
    var sameCusip := new bool[n](_ => false);
    var consecutive := new bool[n](_ => false);
    for i := 1 to n
      invariant forall k :: 0 <= k < i ==> sameCusip[k] == SameCusip(rows, k) && consecutive[k] == Consecutive(rows, k)
    {
      sameCusip[i] := rows[i].key.cusip == rows[i - 1].key.cusip;
      consecutive[i] := rows[i].key.month - rows[i - 1].key.month == 1;
    }
    newRun := seq(n, i requires 0 <= i < n reads sameCusip, consecutive => !(sameCusip[i] && consecutive[i]));
  }

  /** Run ids by cumulative sum of the run starts. */
  method RunIds(rows: seq<Row<Float>>) returns (runId: seq<nat>)
    requires |rows| > 0
    ensures runId == RunIdColumn(rows)
  {
    hide Adjacent;
    var newRun := NewRuns(rows);
    runId := [];
    for i := 0 to |rows|
      invariant |runId| == i && forall k :: 0 <= k < i ==> runId[k] == RunId(rows, k)
    {
      runId := runId + [(if i > 0 then runId[i - 1] else 0) + (if newRun[i] then 1 else 0)];
    }
  }

  method RollingSum(rows: seq<Row<Float>>, runId: seq<nat>, factor: seq<Option<real>>, months: nat, minObs: nat)
    returns (out: seq<Option<real>>)
    requires months >= 1
    requires runId == RunIdColumn(rows) && factor == Factors(rows)
    ensures |out| == |rows| && forall k :: 0 <= k < |rows| ==> out[k] == Signal(rows, k, months, minObs)
  {
    hide Signal, RunId, Factor;
    out := [];
    for i := 0 to |rows|
      invariant |out| == i && forall k :: 0 <= k < i ==> out[k] == Signal(rows, k, months, minObs)
    {
      var v := RollingWindow(rows, runId, factor, i, months, minObs);
      out := out + [v];
    }
  }

  method ComputeSignal(rows: seq<Row<Float>>, formationMonths: int, minObs: int)
    returns (r: Result<seq<Option<real>>, Failure>)
    ensures r == Err(BadMonths) <==> formationMonths < 1
    ensures r == Err(BadMinObs) <==> formationMonths >= 1 && (minObs < 1 || minObs > formationMonths)
    ensures r == Err(EmptyPanel) <==> 1 <= minObs <= formationMonths && |rows| == 0
    ensures r.Ok? ==> |r.value| == |rows|
    ensures r.Ok? ==> forall i :: 0 <= i < |rows| ==> r.value[i] == Signal(rows, i, formationMonths, minObs)
  {
    if formationMonths < 1 { return Err(BadMonths); }
    if minObs < 1 || minObs > formationMonths { return Err(BadMinObs); }
    if |rows| == 0 { return Err(EmptyPanel); }
    hide Signal, RunId, Factor;
    var runId := RunIds(rows);
    var out := RollingSum(rows, runId, Factors(rows), formationMonths, minObs);
    r := Ok(out);
  }

  // --- locality -----------------------------------------------------------------------------

  lemma {:induction false} RunInBlock(rows: seq<Row<Float>>, i: nat)
    requires i < |rows|
    ensures BlockStart(rows, i) <= RunStart(rows, i)
  {
    if Adjacent(rows, i) {
      RunInBlock(rows, i - 1);
    }
  }

  lemma {:induction false} RunStartOfSlice(rows: seq<Row<Float>>, s: nat, e: nat, i: nat)
    requires s <= i < e <= |rows| && s <= RunStart(rows, i)
    ensures RunStart(rows[s..e], i - s) == RunStart(rows, i) - s
  {
    if Adjacent(rows, i) {
      RunStartOfSlice(rows, s, e, i - 1);
    }
  }

  lemma {:induction false} SumsOfSlice(rows: seq<Row<Float>>, s: nat, e: nat, lo: nat, hi: nat)
    requires s <= lo <= hi <= e <= |rows|
    ensures Compound(rows[s..e], lo - s, hi - s) == Compound(rows, lo, hi)
    ensures ValidCount(rows[s..e], lo - s, hi - s) == ValidCount(rows, lo, hi)
    decreases hi - lo
  {
    if lo < hi {
      SumsOfSlice(rows, s, e, lo + 1, hi);
    }
  }

  /** The signal at a row is the signal at the end of the row's own history. */
  lemma SignalIsCausal(rows: seq<Row<Float>>, i: nat, months: nat, minObs: nat)
    requires i < |rows| && months >= 1
    ensures Signal(rows, i, months, minObs) == Signal(Hist(rows, i), |Hist(rows, i)| - 1, months, minObs)
  {
    hide RunStart, Compound, ValidCount;
    var s := BlockStart(rows, i);
    RunInBlock(rows, i);
    RunStartOfSlice(rows, s, i + 1, i);
    SumsOfSlice(rows, s, i + 1, WindowStart(rows, i, months), i + 1);
  }

  // --- calendar meaning ---------------------------------------------------------------------

  function Back(k: Key, d: nat): Key { Key(k.cusip, k.month - d) }

  /** The panel rows of one family on a grid. */
  function ReturnRows(keys: seq<Key>, P: Prices): seq<Row<Float>> {
    seq(|keys|, i requires 0 <= i < |keys| => Row(keys[i], ReturnAt(keys, Column(keys, P), i)))
  }

  function PriceOf(P: Prices, k: Key): real { if PriceAt(P, k).Some? then PriceAt(P, k).value else 0.0 }

  /** The bond is priced in month k and the `d` months before it. */
  ghost predicate PricedBack(P: Prices, k: Key, d: nat) {
    forall t :: 0 <= t <= d ==> PriceAt(P, Back(k, t)).Some?
  }

  /** Two prices of one sign, neither of them zero. */
  predicate SameSign(p: real, q: real) { p * q > 0.0 }

  /** Besides, no price of the stretch is zero and none changes sign: the returns inside it are
      above -1 and finite. */
  ghost predicate Unbroken(P: Prices, k: Key, d: nat) {
    PricedBack(P, k, d) && forall t :: 0 <= t < d ==> SameSign(PriceOf(P, Back(k, t)), PriceOf(P, Back(k, t + 1)))
  }

  /** a / b, and 1 where the division is not defined: the empty stretch of an unpriced month. */
  function Ratio(a: real, b: real): real { if b != 0.0 then a / b else 1.0 }

  /** An unbroken stretch occupies consecutive rows of one run, and compounds to a price ratio. */
  lemma {:induction false} PricedStretch(keys: seq<Key>, P: Prices, i: nat, d: nat)
    requires Covers(keys, P) && i < |keys| && Unbroken(P, keys[i], d)
    ensures var rows := ReturnRows(keys, P);
      && d <= i && keys[i - d] == Back(keys[i], d)
      && RunStart(rows, i) <= i - d
      && ValidCount(rows, i - d + 1, i + 1) == d
      && Compound(rows, i - d + 1, i + 1) == Ratio(PriceOf(P, keys[i]), PriceOf(P, Back(keys[i], d)))
    decreases d
  {
    hide RunStart, Compound, ValidCount;
    var rows := ReturnRows(keys, P);
    assert Back(keys[i], 0) == keys[i];
    assert PriceAt(P, Back(keys[i], 0)).Some?;
    SumStep(rows, i + 1, i + 1);
    if d == 0 {
      RunStartsByRow(rows, i);
    } else {
      assert Unbroken(P, keys[i], d - 1);
      PricedStretch(keys, P, i, d - 1);
      var t := i - d + 1;
      assert Before(keys[t]) == Back(keys[i], d);
      assert PriceAt(P, Back(keys[i], d)).Some? && PriceAt(P, Back(keys[i], d - 1)).Some?;
      assert SameSign(PriceOf(P, Back(keys[i], d - 1)), PriceOf(P, Back(keys[i], d - 1 + 1)));
      RowBefore(keys, P, t);
      RunReaches(rows, i, t);
      FactorIsPriceRatio(keys, P, t);
      SumStep(rows, t, i + 1);
      hide SameSign, Ratio, Unbroken, PricedBack, Covers, Factor;
      StretchStep(PriceOf(P, keys[i]), PriceOf(P, keys[t]), PriceOf(P, keys[t - 1]));
    }
  }

  lemma RunStartsByRow(rows: seq<Row<Float>>, i: nat)
    requires i < |rows|
    ensures RunStart(rows, i) <= i
  {
  }

  lemma QuotientIs(a: real, b: real, c: real)
    requires b != 0.0 && c * b == a
    ensures a / b == c
  {
  }

  lemma ProductSign(x: real, r: real)
    requires r != 0.0
    ensures x > 0.0 <==> (x * r) * r > 0.0
  {
    assert r * r > 0.0;
    assert (x * r) * r == x * (r * r);
    if x > 0.0 {
      assert x * (r * r) > 0.0;
    } else {
      assert (-x) * (r * r) >= 0.0;
    }
  }

  /** A growth from q to p may enter the chain iff the two prices have one sign, and then the
      factor is their ratio. */
  lemma GrowthFactor(p: real, q: real)
    ensures Factor(Quot(p - q, q)).Some? <==> SameSign(p, q)
    ensures SameSign(p, q) ==> q != 0.0 && Factor(Quot(p - q, q)) == Some(Ratio(p, q))
  {
    if q != 0.0 {
      var x := p / q;
      assert x * q == p;
      assert (x - 1.0) * q == p - q;
      QuotientIs(p - q, q, x - 1.0);
      ProductSign(x, q);
    } else {
      assert p * q == 0.0;
    }
  }

  /** A row's return may enter the chain iff this month and the month before are priced, with
      prices of one sign. */
  lemma FactorIff(keys: seq<Key>, P: Prices, t: nat)
    requires Covers(keys, P) && t < |keys|
    ensures var p, q := PriceAt(P, keys[t]), PriceAt(P, Before(keys[t]));
      Factor(ReturnRows(keys, P)[t].value).Some? <==> p.Some? && q.Some? && SameSign(p.value, q.value)
  {
    GridReturnIsCalendarReturn(keys, P, t);
    var p, q := PriceAt(P, keys[t]), PriceAt(P, Before(keys[t]));
    if p.Some? && q.Some? {
      GrowthFactor(p.value, q.value);
    }
  }

  lemma FactorIsPriceRatio(keys: seq<Key>, P: Prices, t: nat)
    requires Covers(keys, P) && 0 < t < |keys| && keys[t - 1] == Before(keys[t])
    requires PriceAt(P, keys[t]).Some? && PriceAt(P, keys[t - 1]).Some?
    requires SameSign(PriceOf(P, keys[t]), PriceOf(P, keys[t - 1]))
    ensures Factor(ReturnRows(keys, P)[t].value) == Some(Ratio(PriceOf(P, keys[t]), PriceOf(P, keys[t - 1])))
  {
    GridReturnIsCalendarReturn(keys, P, t);
    GrowthFactor(PriceOf(P, keys[t]), PriceOf(P, keys[t - 1]));
  }

  lemma StretchStep(p: real, q: real, r: real)
    requires SameSign(q, r)
    ensures Ratio(q, r) * Ratio(p, q) == Ratio(p, r)
  {
    assert q != 0.0 && r != 0.0;
    var x, y := q / r, p / q;
    assert x * r == q && y * q == p;
    assert (x * y) * r == y * (x * r) == p;
    QuotientIs(p, r, x * y);
  }

  lemma RowBefore(keys: seq<Key>, P: Prices, t: nat)
    requires Covers(keys, P) && t < |keys| && Before(keys[t]) in P
    ensures t > 0 && keys[t - 1] == Before(keys[t])
  {
    var j :| 0 <= j < |keys| && keys[j] == Before(keys[t]);
    assert j < t;
    NothingBetween(keys[t], keys[t - 1]);
  }

  /** A run that reaches back to row t reaches to t - 1 if those rows are adjacent. */
  lemma {:induction false} RunReaches(rows: seq<Row<Float>>, i: nat, t: nat)
    requires t <= i < |rows| && RunStart(rows, i) <= t && Adjacent(rows, t)
    ensures RunStart(rows, i) <= t - 1
  {
    if t < i {
      RunReaches(rows, i - 1, t);
    }
  }

  /** Inside a run, rows step back by exactly one month. */
  lemma {:induction false} RunIsCalendar(rows: seq<Row<Float>>, i: nat, d: nat)
    requires i < |rows| && d <= i - RunStart(rows, i)
    ensures rows[i - d].key == Back(rows[i].key, d)
    decreases d
  {
    if d > 0 {
      RunIsCalendar(rows, i - 1, d - 1);
    }
  }

  lemma {:induction false} FullCount(rows: seq<Row<Float>>, lo: nat, hi: nat, j: nat)
    requires lo <= hi <= |rows|
    ensures ValidCount(rows, lo, hi) <= hi - lo
    ensures ValidCount(rows, lo, hi) == hi - lo && lo <= j < hi ==> Factor(rows[j].value).Some?
    decreases hi - lo
  {
    if lo < hi {
      FullCount(rows, lo + 1, hi, j);
    }
  }

  lemma SignalWhenUnbroken(keys: seq<Key>, P: Prices, i: nat, months: nat)
    requires Covers(keys, P) && i < |keys| && months >= 1 && Unbroken(P, keys[i], months)
    ensures Signal(ReturnRows(keys, P), i, months, months)
         == Some(Ratio(PriceOf(P, keys[i]), PriceOf(P, Back(keys[i], months))) - 1.0)
  {
    PricedStretch(keys, P, i, months);
    hide RunStart, Compound, ValidCount, ReturnRows, PriceOf, Unbroken, Covers, Ratio;
    assert WindowStart(ReturnRows(keys, P), i, months) == i - months + 1;
  }

  /** A full count means a full window of valid returns, all inside the run. */
  lemma FullWindow(rows: seq<Row<Float>>, i: nat, months: nat, d: nat)
    requires i < |rows| && d < months && Signal(rows, i, months, months).Some?
    ensures RunStart(rows, i) + months <= i + 1
    ensures Factor(rows[i - d].value).Some?
  {
    hide RunStart, Compound, ValidCount;
    var lo := WindowStart(rows, i, months);
    FullCount(rows, lo, i + 1, i);
    FullCount(rows, lo, i + 1, i - d);
  }

  lemma FullWindowIsPriced(keys: seq<Key>, P: Prices, i: nat, months: nat, d: nat)
    requires Covers(keys, P) && i < |keys| && months >= 1 && d < months
    requires var rows := ReturnRows(keys, P);
      RunStart(rows, i) + months <= i + 1 && Factor(rows[i - d].value).Some?
    ensures PriceAt(P, Back(keys[i], d)).Some? && PriceAt(P, Back(keys[i], d + 1)).Some?
    ensures SameSign(PriceOf(P, Back(keys[i], d)), PriceOf(P, Back(keys[i], d + 1)))
  {
    var rows := ReturnRows(keys, P);
    RunIsCalendar(rows, i, d);
    FactorIff(keys, P, i - d);
    hide RunStart, SameSign;
    assert Before(Back(keys[i], d)) == Back(keys[i], d + 1);
  }

  lemma UnbrokenWhenSignal(keys: seq<Key>, P: Prices, i: nat, months: nat)
    requires Covers(keys, P) && i < |keys| && months >= 1
    requires Signal(ReturnRows(keys, P), i, months, months).Some?
    ensures Unbroken(P, keys[i], months)
  {
    hide Signal, SameSign;
    forall t | 0 <= t <= months ensures PriceAt(P, Back(keys[i], t)).Some? {
      var d := if t < months then t else t - 1;
      FullWindow(ReturnRows(keys, P), i, months, d);
      FullWindowIsPriced(keys, P, i, months, d);
    }
    forall t | 0 <= t < months ensures SameSign(PriceOf(P, Back(keys[i], t)), PriceOf(P, Back(keys[i], t + 1))) {
      FullWindow(ReturnRows(keys, P), i, months, t);
      FullWindowIsPriced(keys, P, i, months, t);
    }
  }

  /** Exactly what the signal is with every month required, on any prices: it exists iff the
      bond is priced in the formation month and each of the `months` calendar months before it,
      with no zero and no change of sign among neighbours, and then it is the price relative
      over the whole stretch. */
  lemma SignalIsPriceRelative(keys: seq<Key>, P: Prices, i: nat, months: nat)
    requires Covers(keys, P) && i < |keys| && months >= 1
    ensures Signal(ReturnRows(keys, P), i, months, months) ==
      if Unbroken(P, keys[i], months)
      then Some(Ratio(PriceOf(P, keys[i]), PriceOf(P, Back(keys[i], months))) - 1.0)
      else None
    ensures Unbroken(P, keys[i], months) ==> PriceOf(P, Back(keys[i], months)) != 0.0
  {
    if Unbroken(P, keys[i], months) {
      SignalWhenUnbroken(keys, P, i, months);
      assert SameSign(PriceOf(P, Back(keys[i], months - 1)), PriceOf(P, Back(keys[i], months - 1 + 1)));
    } else if Signal(ReturnRows(keys, P), i, months, months).Some? {
      UnbrokenWhenSignal(keys, P, i, months);
    }
    hide Signal, ReturnRows, PriceOf, Unbroken, Back, Covers, Ratio;
  }

  /** Where the stretch's own prices are positive, it is enough that they are all there. */
  lemma SignalOnPositivePrices(keys: seq<Key>, P: Prices, i: nat, months: nat)
    requires Covers(keys, P) && i < |keys| && months >= 1
    requires forall t :: 0 <= t <= months && PriceAt(P, Back(keys[i], t)).Some? ==> PriceOf(P, Back(keys[i], t)) > 0.0
    ensures Signal(ReturnRows(keys, P), i, months, months) ==
      if PricedBack(P, keys[i], months)
      then Some(PriceOf(P, keys[i]) / PriceOf(P, Back(keys[i], months)) - 1.0)
      else None
  {
    SignalIsPriceRelative(keys, P, i, months);
    if PricedBack(P, keys[i], months) {
      forall t | 0 <= t < months ensures SameSign(PriceOf(P, Back(keys[i], t)), PriceOf(P, Back(keys[i], t + 1))) {
        assert PriceAt(P, Back(keys[i], t)).Some? && PriceAt(P, Back(keys[i], t + 1)).Some?;
        PositiveProduct(PriceOf(P, Back(keys[i], t)), PriceOf(P, Back(keys[i], t + 1)));
      }
    }
    hide Signal, ReturnRows, PriceOf, Covers, Back;
  }

  lemma PositiveProduct(p: real, q: real)
    requires p > 0.0 && q > 0.0
    ensures SameSign(p, q)
  {
  }
}
