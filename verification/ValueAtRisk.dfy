/** The value-at-risk signal: nested loops over bond blocks and rows that write the n-th lowest
    return of a trailing window. */
module ValueAtRisk {
  import opened Basics
  import opened Ordering
  import opened Panel
  import opened History

  type ReturnRow = Row<Float>

  datatype Failure = BadWindow | BadMinObs | BadRank | EmptyPanel

  /** The returns that are not NaN; infinite ones count. */
  function ValidReturns(rows: seq<ReturnRow>): (v: seq<Float>)
    ensures NaN !in v
  {
    if |rows| == 0 then []
    else
      var f := rows[|rows| - 1].value;
      ValidReturns(rows[..|rows| - 1]) + (if f != NaN then [f] else [])
  }

  // --- order statistics of floats, infinite ones at the ends -----------------------------------

  predicate Less(a: Float, b: Float) {
    match (a, b)
    case (Fin(x), Fin(y)) => x < y
    case (Inf(p), Inf(q)) => !p && q
    case (Inf(p), Fin(_)) => !p
    case (Fin(_), Inf(q)) => q
    case _ => false
  }

  function BelowIn(s: seq<Float>, x: Float): nat {
    if |s| == 0 then 0 else BelowIn(s[1..], x) + (if Less(s[0], x) then 1 else 0)
  }

  function AboveIn(s: seq<Float>, x: Float): nat {
    if |s| == 0 then 0 else AboveIn(s[1..], x) + (if Less(x, s[0]) then 1 else 0)
  }

  /** x is a value of the list with fewer than `rank` values below it and at least `rank` not
      above it. */
  ghost predicate IsOrderStatistic(s: seq<Float>, rank: nat, x: Float) {
    x in s && BelowIn(s, x) < rank <= |s| - AboveIn(s, x)
  }

  function Finite(s: seq<Float>): seq<real> {
    if |s| == 0 then [] else (if s[0].Fin? then [s[0].v] else []) + Finite(s[1..])
  }

  function Lowest(s: seq<Float>): nat {
    if |s| == 0 then 0 else Lowest(s[1..]) + (if s[0] == Inf(false) then 1 else 0)
  }

  /** The `rank`-th lowest value: negative infinities first, positive ones last. */
  function KthLowest(s: seq<Float>, rank: nat): Float
    requires 1 <= rank <= |s|
  {
    var low, fin := Lowest(s), Finite(s);
    if rank <= low then Inf(false)
    else if rank <= low + |fin| then Fin(Kth(fin, rank - low))
    else Inf(true)
  }

  /** Counts over floats by counts over their finite part. */
  lemma {:induction false} CountsByParts(s: seq<Float>, x: real)
    requires NaN !in s
    ensures BelowIn(s, Fin(x)) == Lowest(s) + CountBelow(Finite(s), x)
    ensures |s| - AboveIn(s, Fin(x)) == Lowest(s) + CountUpTo(Finite(s), x)
    ensures BelowIn(s, Inf(false)) == 0 && |s| - AboveIn(s, Inf(false)) == Lowest(s)
    ensures BelowIn(s, Inf(true)) == Lowest(s) + |Finite(s)| && AboveIn(s, Inf(true)) == 0
    ensures Lowest(s) + |Finite(s)| <= |s|
  {
    if |s| > 0 {
      assert s[0] in s && forall f :: f in s[1..] ==> f in s;
      CountsByParts(s[1..], x);
      if s[0].Fin? {
        assert ([s[0].v] + Finite(s[1..]))[1..] == Finite(s[1..]);
      } else {
        assert [] + Finite(s[1..]) == Finite(s[1..]);
      }
    }
  }

  lemma {:induction false} PartsAreMembers(s: seq<Float>, x: real)
    requires NaN !in s
    ensures x in Finite(s) ==> Fin(x) in s
    ensures Lowest(s) > 0 ==> Inf(false) in s
    ensures Lowest(s) + |Finite(s)| < |s| ==> Inf(true) in s
  {
    if |s| > 0 {
      assert s[0] in s && forall f :: f in s[1..] ==> f in s;
      PartsAreMembers(s[1..], x);
    }
  }

  lemma KthLowestIsOrderStatistic(s: seq<Float>, rank: nat)
    requires 1 <= rank <= |s| && NaN !in s
    ensures IsOrderStatistic(s, rank, KthLowest(s, rank))
  {
    hide Finite, Lowest, BelowIn, AboveIn, CountBelow, CountUpTo, Kth;
    var low, fin := Lowest(s), Finite(s);
    CountsByParts(s, 0.0);
    PartsAreMembers(s, 0.0);
    if low < rank <= low + |fin| {
      var x := Kth(fin, rank - low);
      KthIsOrderStatistic(fin, rank - low);
      CountsByParts(s, x);
      PartsAreMembers(s, x);
    }
  }

  // --- the signal -------------------------------------------------------------------------------

  predicate Enough(valid: seq<Float>, minObs: nat, rank: nat) { |valid| >= minObs && |valid| >= rank }

  /** The `rank`-th lowest of the valid returns, scaled; NaN with too few of them. */
  function OfWindow(rows: seq<ReturnRow>, minObs: nat, rank: nat, multiplier: real): Float
    requires rank >= 1
  {
    var valid := ValidReturns(rows);
    if Enough(valid, minObs, rank) then Times(multiplier, KthLowest(valid, rank)) else NaN
  }

  /** The signal at row i: a function of the bond's own history only. */
  function Signal(rows: seq<ReturnRow>, i: nat, window: nat, minObs: nat, rank: nat, multiplier: real): Float
    requires i < |rows| && rank >= 1
  {
    OfWindow(Recent(Hist(rows, i), window), minObs, rank, multiplier)
  }

  ghost predicate IsBlock(rows: seq<ReturnRow>, s: nat, e: nat) {
    && s < e <= |rows|
    && (forall k :: s <= k < e ==> rows[k].key.cusip == rows[s].key.cusip)
    && (s > 0 ==> rows[s - 1].key.cusip != rows[s].key.cusip)
  }

  lemma HistInBlock(rows: seq<ReturnRow>, s: nat, e: nat, i: nat)
    requires IsBlock(rows, s, e) && s <= i < e
    ensures Hist(rows, i) == rows[s..i + 1]
  {
    var b := BlockStart(rows, i);
    assert b == s;
  }

  lemma BlockInRange(rows: seq<ReturnRow>, s: nat, e: nat)
    requires IsBlock(rows, s, e)
    ensures s < e <= |rows|
  {
  }

  ghost predicate BlockCuts(rows: seq<ReturnRow>, starts: seq<nat>) {
    && |starts| > 0 && starts[0] == 0
    && (forall j :: 0 <= j < |starts| ==> starts[j] <= |rows|)
    && (forall j, k :: 0 <= j < k < |starts| && k == j + 1 ==> IsBlock(rows, starts[j], starts[k]))
  }

  /** Where the blocks start, closed by the length. */
  method BlockStarts(rows: seq<ReturnRow>) returns (starts: seq<nat>)
    requires |rows| > 0
    ensures BlockCuts(rows, starts) && |starts| >= 2 && starts[|starts| - 1] == |rows|
  {
    starts := [0];
    for i := 1 to |rows|
      invariant BlockCuts(rows, starts) && IsBlock(rows, starts[|starts| - 1], i)
    {
      if rows[i].key.cusip != rows[i - 1].key.cusip {
        starts := starts + [i];
      }
    }
    starts := starts + [|rows|];
  }

  /** One row of a block: mask, count, partition. */
  method RowSignal(rows: seq<ReturnRow>, s: nat, e: nat, i: nat, window: nat, minObs: nat, rank: nat, multiplier: real)
    returns (value: Float)
    requires IsBlock(rows, s, e) && s <= i < e && window >= 1 && rank >= 1
    ensures value == Signal(rows, i, window, minObs, rank, multiplier)
  {
    hide Hist;
    HistInBlock(rows, s, e, i);
    var lo := if i - s - window + 1 > 0 then i - window + 1 else s;
    var sl := rows[lo..i + 1];
    assert sl == Recent(rows[s..i + 1], window);
    assert Signal(rows, i, window, minObs, rank, multiplier) == OfWindow(sl, minObs, rank, multiplier);
    var valid := ValidReturns(sl);
    value := NaN;
    if |valid| >= minObs && |valid| >= rank {
      value := Times(multiplier, KthLowest(valid, rank));
    }
  }

  method FillBlock(rows: seq<ReturnRow>, s: nat, e: nat, window: nat, minObs: nat, rank: nat, multiplier: real,
                   varOut: array<Float>)
    requires IsBlock(rows, s, e) && window >= 1 && rank >= 1 && varOut.Length == |rows|
    modifies varOut
    ensures forall k :: s <= k < e ==> varOut[k] == Signal(rows, k, window, minObs, rank, multiplier)
    ensures forall k :: 0 <= k < s || e <= k < |rows| ==> varOut[k] == old(varOut[k])
  {
    hide Signal, IsBlock;
    BlockInRange(rows, s, e);
    for i := s to e
      invariant forall k :: s <= k < i ==> varOut[k] == Signal(rows, k, window, minObs, rank, multiplier)
      invariant forall k :: 0 <= k < s || i <= k < |rows| ==> varOut[k] == old(varOut[k])
    {
      varOut[i] := RowSignal(rows, s, e, i, window, minObs, rank, multiplier);
    }
  }

  method ComputeSignal(rows: seq<ReturnRow>, window: int, minObs: int, rank: int, multiplier: real)
    returns (r: Result<seq<Float>, Failure>)
    ensures r == Err(BadWindow) <==> window < 1
    ensures r == Err(BadMinObs) <==> window >= 1 && (minObs < 1 || minObs > window)
    ensures r == Err(BadRank) <==> 1 <= minObs <= window && rank < 1
    ensures r == Err(EmptyPanel) <==> 1 <= minObs <= window && rank >= 1 && |rows| == 0
    ensures r.Ok? ==> |r.value| == |rows|
    ensures r.Ok? ==> forall i :: 0 <= i < |rows| ==> r.value[i] == Signal(rows, i, window, minObs, rank, multiplier)
  {
    if window < 1 { return Err(BadWindow); }
    if minObs < 1 || minObs > window { return Err(BadMinObs); }
    if rank < 1 { return Err(BadRank); }
    if |rows| == 0 { return Err(EmptyPanel); }
    hide Signal, IsBlock;
    var out := new Float[|rows|](_ => NaN);
    var starts := BlockStarts(rows);
    for b := 0 to |starts| - 1
      invariant starts[b] <= |rows|
      invariant forall k :: 0 <= k < starts[b] ==> out[k] == Signal(rows, k, window, minObs, rank, multiplier)
    {
      assert IsBlock(rows, starts[b], starts[b + 1]);
      FillBlock(rows, starts[b], starts[b + 1], window, minObs, rank, multiplier, out);
    }
    r := Ok(out[..]);
  }

  /** With enough valid returns the value is `multiplier` times an actual return of the window,
      possibly infinite, with fewer than `rank` valid returns below it and at least `rank` not
      above it; otherwise it is NaN. */
  lemma SignalIsOrderStatistic(rows: seq<ReturnRow>, i: nat, window: nat, minObs: nat, rank: nat, multiplier: real)
    requires i < |rows| && rank >= 1
    ensures var valid := ValidReturns(Recent(Hist(rows, i), window));
      var value := Signal(rows, i, window, minObs, rank, multiplier);
      if Enough(valid, minObs, rank)
      then exists x :: IsOrderStatistic(valid, rank, x) && value == Times(multiplier, x)
      else value == NaN
  {
    var valid := ValidReturns(Recent(Hist(rows, i), window));
    if Enough(valid, minObs, rank) {
      hide Hist, ValidReturns, Recent, KthLowest, IsOrderStatistic, Times;
      KthLowestIsOrderStatistic(valid, rank);
    }
  }

  /** The signal at a row is the signal at the end of the row's own history. */
  lemma SignalIsCausal(rows: seq<ReturnRow>, i: nat, window: nat, minObs: nat, rank: nat, multiplier: real)
    requires i < |rows| && rank >= 1
    ensures Signal(rows, i, window, minObs, rank, multiplier)
         == Signal(Hist(rows, i), |Hist(rows, i)| - 1, window, minObs, rank, multiplier)
  {
    hide Hist;
    HistOfHist(rows, i);
  }
}
