/** The volatility signal: the sample deviation of a bond's excess returns over a trailing window
    of its rows. */
module BondVolatility {
  import opened Basics
  import opened Panel
  import opened History

  /** Return less the month's risk-free rate; NaN without a rate. */
  function Excess(ret: Float, rf: Option<real>): Float {
    match ret
    case Fin(v) => if rf.Some? then Fin(v - rf.value) else NaN
    case Inf(_) => if rf.Some? then ret else NaN
    case NaN => NaN
  }

  function ExcessRows(rows: seq<Row<Float>>, rf: Month -> Option<real>): (x: seq<Row<Float>>)
    ensures |x| == |rows|
  {
    seq(|rows|, i requires 0 <= i < |rows| => Row(rows[i].key, Excess(rows[i].value, rf(rows[i].key.month))))
  }

  /** The finite values: a rolling window treats an infinite one as missing. */
  function Finites(rows: seq<Row<Float>>): seq<real> {
    if |rows| == 0 then []
    else
      var f := rows[|rows| - 1].value;
      Finites(rows[..|rows| - 1]) + (if f.Fin? then [f.v] else [])
  }

  function Square(x: real): real { x * x }

  function SquaresAbout(v: seq<real>, m: real): real {
    if |v| == 0 then 0.0 else SquaresAbout(v[..|v| - 1], m) + Square(v[|v| - 1] - m)
  }

  function MeanOf(v: seq<real>): real
    requires |v| > 0
  {
    Total(v) / (|v| as real)
  }

  /** The sample variance, with |v| - 1 degrees of freedom. */
  function Variance(v: seq<real>): real
    requires |v| >= 2
  {
    SquaresAbout(v, MeanOf(v)) / ((|v| - 1) as real)
  }

  /** The root of the variance; None with fewer than `minObs` finite values. */
  function OfWindow(rows: seq<Row<Float>>, minObs: nat, sqrt: real -> real): Option<real>
    requires minObs >= 2
  {
    var v := Finites(rows);
    if |v| >= minObs then Some(sqrt(Variance(v))) else None
  }

  function Signal(rows: seq<Row<Float>>, i: nat, rf: Month -> Option<real>, window: nat, minObs: nat, sqrt: real -> real)
    : Option<real>
    requires i < |rows| && minObs >= 2
  {
    OfWindow(Recent(Hist(ExcessRows(rows, rf), i), window), minObs, sqrt)
  }

  lemma {:induction false} BlockOfExcess(rows: seq<Row<Float>>, rf: Month -> Option<real>, i: nat)
    requires i < |rows|
    ensures BlockStart(ExcessRows(rows, rf), i) == BlockStart(rows, i)
  {
    if HasPredecessor(rows, i) {
      BlockOfExcess(rows, rf, i - 1);
    }
  }

  lemma HistOfExcess(rows: seq<Row<Float>>, rf: Month -> Option<real>, i: nat)
    requires i < |rows|
    ensures Hist(ExcessRows(rows, rf), i) == ExcessRows(Hist(rows, i), rf)
  {
    BlockOfExcess(rows, rf, i);
  }

  /** The signal at a row is the signal at the end of the row's own history. */
  lemma SignalIsCausal(rows: seq<Row<Float>>, i: nat, rf: Month -> Option<real>,
                       window: nat, minObs: nat, sqrt: real -> real)
    requires i < |rows| && minObs >= 2
    ensures Signal(rows, i, rf, window, minObs, sqrt)
         == Signal(Hist(rows, i), |Hist(rows, i)| - 1, rf, window, minObs, sqrt)
  {
    var h := Hist(rows, i);
    HistOfExcess(rows, rf, i);
    HistOfExcess(h, rf, |h| - 1);
    HistOfHist(rows, i);
    hide Hist, ExcessRows, OfWindow, Recent;
  }

  // --- a constant rate does not matter ---------------------------------------------------------

  function Shifted(v: seq<real>, a: real): (s: seq<real>)
    ensures |s| == |v|
  {
    seq(|v|, i requires 0 <= i < |v| => v[i] - a)
  }

  lemma {:induction false} ShiftedSums(v: seq<real>, a: real, m: real)
    ensures Total(Shifted(v, a)) == Total(v) - (|v| as real) * a
    ensures SquaresAbout(Shifted(v, a), m - a) == SquaresAbout(v, m)
  {
    if |v| > 0 {
      var n := |v| - 1;
      ShiftedSums(v[..n], a, m);
      assert Shifted(v, a)[..n] == Shifted(v[..n], a);
      OneMore(n, a);
    }
  }

  lemma OneMore(n: nat, a: real)
    ensures ((n + 1) as real) * a == (n as real) * a + a
  {
    assert (n + 1) as real == n as real + 1.0;
  }

  lemma ShiftedMean(v: seq<real>, a: real)
    requires |v| > 0
    ensures MeanOf(Shifted(v, a)) == MeanOf(v) - a
  {
    ShiftedSums(v, a, 0.0);
    hide Total, Shifted;
    var n := |v| as real;
    var m, k := MeanOf(v), MeanOf(Shifted(v, a));
    assert m * n == Total(v) && k * n == Total(v) - n * a;
    assert (k - (m - a)) * n == 0.0;
  }

  /** Subtracting one rate from every return of the window leaves the variance as it is. */
  lemma ConstantRateIsIrrelevant(v: seq<real>, a: real)
    requires |v| >= 2
    ensures Variance(Shifted(v, a)) == Variance(v)
  {
    ShiftedMean(v, a);
    ShiftedSums(v, a, MeanOf(v));
    hide Shifted, Total, SquaresAbout, MeanOf;
  }
}
