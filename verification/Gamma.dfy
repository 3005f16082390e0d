/** The illiquidity signal: shifted masks over the sorted daily layer select change pairs, and
    a one-pass formula turns each bond-month's pairs into a covariance. */
module Gamma {
  import opened Basics
  import opened Panel

  datatype Day = Day(cusip: Cusip, date: int, price: Option<real>)

  /** `ln` is the natural logarithm, `busdays(a, b)` the business days in [a, b), `monthOf` the
      calendar month of a date: all given. */
  datatype Config = Config(
    monthOf: int -> Month, ln: real -> real, busdays: (int, int) -> int,
    maxGap: int, minPairs: int, sign: real, ddof: int, strict: Option<Strict>)

  /** The optional stricter gate: its own number of pairs, and a share of the month's business
      days (`bdays` of them) with a trade. */
  datatype Strict = Strict(minPairs: int, minFraction: real, bdays: Month -> int)

  function Group(c: Config, d: Day): Key { Key(d.cusip, c.monthOf(d.date)) }

  function LogPrice(c: Config, d: Day): Option<real> {
    if d.price.Some? && d.price.value > 0.0 then Some(c.ln(d.price.value)) else None
  }

  // --- the masks ----------------------------------------------------------------------------

  predicate SameGroupPrev(c: Config, rows: seq<Day>, i: int) {
    0 < i < |rows| && Group(c, rows[i - 1]) == Group(c, rows[i])
  }

  /** The log-price change into row i from the bond's previous trade day of the month. */
  function Change(c: Config, rows: seq<Day>, i: int): Option<real> {
    if SameGroupPrev(c, rows, i) && LogPrice(c, rows[i]).Some? && LogPrice(c, rows[i - 1]).Some?
    then Some(LogPrice(c, rows[i]).value - LogPrice(c, rows[i - 1]).value) else None
  }

  predicate ChangeValid(c: Config, rows: seq<Day>, i: int) {
    SameGroupPrev(c, rows, i) && c.busdays(rows[i - 1].date, rows[i].date) <= c.maxGap && Change(c, rows, i).Some?
  }

  /** The change into row i pairs with the change into row i + 1. */
  predicate PairValid(c: Config, rows: seq<Day>, i: int) {
    ChangeValid(c, rows, i) && SameGroupPrev(c, rows, i + 1) && ChangeValid(c, rows, i + 1)
  }

  datatype Pair = Pair(x: real, y: real)

  function PairAt(c: Config, rows: seq<Day>, i: int): Pair
    requires PairValid(c, rows, i)
  {
    Pair(Change(c, rows, i).value, Change(c, rows, i + 1).value)
  }

  /** The pairs of group g among the first n rows. */
  function PairsUpTo(c: Config, rows: seq<Day>, g: Key, n: nat): seq<Pair>
    requires n <= |rows|
  {
    if n == 0 then []
    else PairsUpTo(c, rows, g, n - 1) + PairOfGroupAt(c, rows, g, n - 1)
  }

  function PairOfGroupAt(c: Config, rows: seq<Day>, g: Key, i: nat): seq<Pair>
    requires i < |rows|
  {
    if PairValid(c, rows, i) && Group(c, rows[i]) == g then [PairAt(c, rows, i)] else []
  }

  function Pairs(c: Config, rows: seq<Day>, g: Key): seq<Pair> { PairsUpTo(c, rows, g, |rows|) }

  // --- the moments --------------------------------------------------------------------------

  function SumX(p: seq<Pair>): real { if |p| == 0 then 0.0 else SumX(p[..|p| - 1]) + p[|p| - 1].x }
  function SumY(p: seq<Pair>): real { if |p| == 0 then 0.0 else SumY(p[..|p| - 1]) + p[|p| - 1].y }
  function SumXY(p: seq<Pair>): real { if |p| == 0 then 0.0 else SumXY(p[..|p| - 1]) + p[|p| - 1].x * p[|p| - 1].y }

  datatype Moments = Moments(n: nat, sx: real, sy: real, sxy: real)

  function MomentsOf(p: seq<Pair>): Moments { Moments(|p|, SumX(p), SumY(p), SumXY(p)) }

  const NO_MOMENTS := Moments(0, 0.0, 0.0, 0.0)

  function AddPair(m: Moments, p: Pair): Moments {
    Moments(m.n + 1, m.sx + p.x, m.sy + p.y, m.sxy + p.x * p.y)
  }

  /** Sum of cross products about the means, in one pass. */
  function OnePass(m: Moments): real
    requires m.n > 0
  {
    m.sxy - m.sx * m.sy / (m.n as real)
  }

  /** The signal from the accumulated moments. */
  function GammaOf(c: Config, m: Moments): Float
    requires m.n > 0
  {
    if m.n < c.minPairs then NaN
    else Times(c.sign, Quot(OnePass(m), (m.n - c.ddof) as real))
  }

  /** The distinct dates of a bond-month, priced or not. */
  function TradedDays(c: Config, rows: seq<Day>, g: Key): set<int> {
    set d | d in rows && Group(c, d) == g :: d.date
  }

  predicate BelowFloat(f: Float, x: real) { (f.Fin? && f.v < x) || f == Inf(false) }

  /** Whether the stricter gate, if it is on, blanks a bond-month of n pairs and these dates. */
  predicate StrictFails(c: Config, g: Key, n: nat, dates: set<int>) {
    && c.strict.Some?
    && var s := c.strict.value;
       n < s.minPairs || BelowFloat(Quot(|dates| as real, s.bdays(g.month) as real), s.minFraction)
  }

  /** A bond-month's signal: none without a change pair. */
  function SignalOf(c: Config, rows: seq<Day>, g: Key): Option<Float> {
    var p := Pairs(c, rows, g);
    if |p| == 0 then None
    else if StrictFails(c, g, |p|, TradedDays(c, rows, g)) then Some(NaN)
    else Some(GammaOf(c, MomentsOf(p)))
  }

  // --- the array form -----------------------------------------------------------------------

  method SameGroupMask(c: Config, rows: seq<Day>) returns (same: array<bool>)
    requires |rows| > 0
    ensures same.Length == |rows| && forall i :: 0 <= i < |rows| ==> same[i] == SameGroupPrev(c, rows, i)
  {
    same := new bool[|rows|](_ => false);
    for i := 1 to |rows|
      invariant forall k :: 0 <= k < i ==> same[k] == SameGroupPrev(c, rows, k)
    {
      same[i] := Group(c, rows[i - 1]) == Group(c, rows[i]);
    }
  }

  method Changes(c: Config, rows: seq<Day>, same: seq<bool>) returns (change: array<Option<real>>, valid: array<bool>)
    requires |same| == |rows| && forall i :: 0 <= i < |rows| ==> same[i] == SameGroupPrev(c, rows, i)
    ensures change.Length == valid.Length == |rows|
    ensures forall i :: 0 <= i < |rows| ==> change[i] == Change(c, rows, i) && valid[i] == ChangeValid(c, rows, i)
  {
    hide LogPrice, Group;
    var n := |rows|;
    change := new Option<real>[n](_ => None);
    valid := new bool[n](_ => false);
    for i := 0 to n
      invariant forall k :: 0 <= k < i ==> change[k] == Change(c, rows, k) && valid[k] == ChangeValid(c, rows, k)
    {
      if same[i] {
        var now, before := LogPrice(c, rows[i]), LogPrice(c, rows[i - 1]);
        change[i] := if now.Some? && before.Some? then Some(now.value - before.value) else None;
        valid[i] := c.busdays(rows[i - 1].date, rows[i].date) <= c.maxGap && change[i].Some?;
      } else {
        change[i], valid[i] := None, false;
      }
    }
  }

  /** The pair mask over two shifted masks. */
  method PairMask(c: Config, rows: seq<Day>, same: seq<bool>, valid: seq<bool>) returns (pairValid: array<bool>)
    requires |same| == |valid| == |rows| && |rows| > 0
    requires forall i :: 0 <= i < |rows| ==> same[i] == SameGroupPrev(c, rows, i) && valid[i] == ChangeValid(c, rows, i)
    ensures pairValid.Length == |rows|
    ensures forall i :: 0 <= i < |rows| ==> pairValid[i] == PairValid(c, rows, i)
  {
    hide Group, Change;
    var n := |rows|;
    pairValid := new bool[n](_ => false);
    for i := 0 to n - 1
      invariant forall k :: 0 <= k < i ==> pairValid[k] == PairValid(c, rows, k)
      invariant forall k :: i <= k < n ==> !pairValid[k]
    {
      pairValid[i] := valid[i] && same[i + 1] && valid[i + 1];
    }
  }

  predicate Accumulated(c: Config, rows: seq<Day>, n: nat, agg: map<Key, Moments>)
    requires n <= |rows|
  {
    && (forall g :: g in agg ==> |PairsUpTo(c, rows, g, n)| > 0 && agg[g] == MomentsOf(PairsUpTo(c, rows, g, n)))
    && (forall i :: 0 <= i < n && PairValid(c, rows, i) ==> Group(c, rows[i]) in agg)
  }

  /** Group-by aggregation in one pass over the selected pairs. */
  method Accumulate(c: Config, rows: seq<Day>, change: seq<Option<real>>, pairValid: seq<bool>)
    returns (agg: map<Key, Moments>)
    requires |change| == |pairValid| == |rows|
    requires forall i :: 0 <= i < |rows| ==> change[i] == Change(c, rows, i) && pairValid[i] == PairValid(c, rows, i)
    ensures Accumulated(c, rows, |rows|, agg)
  {
    hide Group, Change, PairsUpTo;
    agg := map[];
    for i := 0 to |rows|
      invariant Accumulated(c, rows, i, agg)
    {
      ghost var before := agg;
      if pairValid[i] {
        assert PairValid(c, rows, i) && change[i + 1] == Change(c, rows, i + 1);
        var g := Group(c, rows[i]);
        var m := if g in agg then agg[g] else NO_MOMENTS;
        agg := agg[g := AddPair(m, Pair(change[i].value, change[i + 1].value))];
      }
      AccumulateStep(c, rows, i, before, agg);
    }
  }

  lemma AccumulateStep(c: Config, rows: seq<Day>, i: nat, before: map<Key, Moments>, after: map<Key, Moments>)
    requires i < |rows| && Accumulated(c, rows, i, before)
    requires !PairValid(c, rows, i) ==> after == before
    requires PairValid(c, rows, i) ==>
      var g := Group(c, rows[i]);
      after == before[g := AddPair(if g in before then before[g] else NO_MOMENTS, PairAt(c, rows, i))]
    ensures Accumulated(c, rows, i + 1, after)
  {
    hide Group, Change, PairsUpTo, AddPair, MomentsOf;
    forall g | g in after
      ensures |PairsUpTo(c, rows, g, i + 1)| > 0 && after[g] == MomentsOf(PairsUpTo(c, rows, g, i + 1))
    {
      var p0 := PairsUpTo(c, rows, g, i);
      PairsStep(c, rows, g, i);
      if PairValid(c, rows, i) && Group(c, rows[i]) == g {
        if g !in before {
          NoPairsYet(c, rows, g, i, before);
          NoMomentsYet();
        }
        MomentsSnoc(p0, PairAt(c, rows, i));
      }
    }
  }

  lemma NoMomentsYet()
    ensures MomentsOf([]) == NO_MOMENTS
  {
  }

  lemma PairsStep(c: Config, rows: seq<Day>, g: Key, i: nat)
    requires i < |rows|
    ensures PairsUpTo(c, rows, g, i + 1) ==
      if PairValid(c, rows, i) && Group(c, rows[i]) == g
      then PairsUpTo(c, rows, g, i) + [PairAt(c, rows, i)] else PairsUpTo(c, rows, g, i)
  {
    assert PairsUpTo(c, rows, g, i) + [] == PairsUpTo(c, rows, g, i);
  }

  lemma {:induction false} NoPairsYet(c: Config, rows: seq<Day>, g: Key, n: nat, agg: map<Key, Moments>)
    requires n <= |rows| && g !in agg
    requires forall i :: 0 <= i < n && PairValid(c, rows, i) ==> Group(c, rows[i]) in agg
    ensures PairsUpTo(c, rows, g, n) == []
  {
    if n > 0 {
      NoPairsYet(c, rows, g, n - 1, agg);
    }
  }

  lemma MomentsSnoc(p: seq<Pair>, q: Pair)
    ensures MomentsOf(p + [q]) == AddPair(MomentsOf(p), q)
  {
    assert (p + [q])[..|p|] == p;
  }

  datatype Failure = MissingColumn | BadMinPairs | EmptyLayer

  /** The whole computation: a value for exactly the bond-months that have a pair, the one-pass
      formula over exactly that bond-month's pairs. */
  method ComputeGamma(c: Config, hasColumns: bool, rows: seq<Day>) returns (gamma: Result<map<Key, Float>, Failure>)
    ensures gamma == Err(MissingColumn) <==> !hasColumns
    ensures gamma == Err(BadMinPairs) <==> hasColumns && c.minPairs < 2
    ensures gamma == Err(EmptyLayer) <==> hasColumns && c.minPairs >= 2 && |rows| == 0
    ensures gamma.Ok? ==> forall g ::
      if g in gamma.value then SignalOf(c, rows, g) == Some(gamma.value[g]) else SignalOf(c, rows, g) == None
  {
    if !hasColumns { return Err(MissingColumn); }
    if c.minPairs < 2 { return Err(BadMinPairs); }
    if |rows| == 0 { return Err(EmptyLayer); }
    var same := SameGroupMask(c, rows);
    var change, valid := Changes(c, rows, same[..]);
    var pairValid := PairMask(c, rows, same[..], valid[..]);
    var agg := Accumulate(c, rows, change[..], pairValid[..]);
    hide Group, Change, PairsUpTo, GammaOf;
    forall g | |Pairs(c, rows, g)| > 0 ensures g in agg {
      if g !in agg {
        NoPairsYet(c, rows, g, |rows|, agg);
      }
    }
    var relaxed := map g | g in agg :: GammaOf(c, agg[g]);
    if c.strict.None? {
      gamma := Ok(relaxed);
    } else {
      gamma := Ok(map g | g in relaxed ::
        if StrictFails(c, g, agg[g].n, TradedDays(c, rows, g)) then NaN else relaxed[g]);
    }
  }
}
