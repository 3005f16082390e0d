/** What the two written files hold, row by row: on the sorted stream every row is decided by the
    filter on its own bond's prices, and on nothing else. */
module SegmentsMeaning {
  import opened Basics
  import opened BounceBack
  import opened Segments

  /** The rows lo to hi are those of row i's bond, and x are their prices. */
  ghost predicate IsBond(rows: seq<Trade>, i: nat, lo: nat, hi: nat, x: seq<real>) {
    && lo <= i < hi <= |rows|
    && (forall k :: 0 <= k < |rows| ==> (lo <= k < hi <==> rows[k].segKey == rows[i].segKey))
    && |x| == hi - lo && forall k :: 0 <= k < |x| ==> rows[lo + k].price == Some(x[k])
  }

  /** The part a row lies in, and its place there. */
  lemma {:induction false} PartOf(P: Params, parts: seq<seq<Trade>>, i: nat) returns (j: nat, t: nat)
    requires i < |Flatten(parts)|
    ensures j < |parts| && t < |parts[j]| && Offset(parts, j) + t == i
    ensures MasksOf(P, parts)[i] == MaskOf(P, parts[j])[t]
  {
    var n := |parts| - 1;
    var before := Flatten(parts[..n]);
    hide MaskOf;
    if i < |before| {
      j, t := PartOf(P, parts[..n], i);
      assert parts[..n][..j] == parts[..j];
    } else {
      j, t := n, i - |before|;
    }
  }

  lemma RowsOfPart(rows: seq<Trade>, parts: seq<seq<Trade>>, j: nat, k: nat)
    requires MaximalRuns(rows, parts) && j < |parts|
    requires Offset(parts, j) <= k < Offset(parts, j) + |parts[j]|
    ensures k < |rows| && rows[k] == parts[j][k - Offset(parts, j)] && rows[k].segKey == parts[j][0].segKey
  {
    PartIsSlice(rows, parts, j);
    hide Offset, Flatten;
    assert rows[Offset(parts, j)..Offset(parts, j) + |parts[j]|][k - Offset(parts, j)] == rows[k];
    assert OneKey(parts[j]);
  }

  /** Rows of one key lie in one part. */
  lemma SamePart(P: Params, rows: seq<Trade>, parts: seq<seq<Trade>>, j: nat, k: nat)
    requires MaximalRuns(rows, parts) && KeysPairwiseDifferent(parts) && j < |parts| && |parts[j]| > 0
    requires k < |rows| && rows[k].segKey == parts[j][0].segKey
    ensures Offset(parts, j) <= k < Offset(parts, j) + |parts[j]|
  {
    var j', t := PartOf(P, parts, k);
    RowsOfPart(rows, parts, j', k);
    hide Offset, MaximalRuns;
  }

  /** A bond's block is its part. */
  lemma BlockIsPart(P: Params, rows: seq<Trade>, parts: seq<seq<Trade>>, i: nat, lo: nat, hi: nat, x: seq<real>,
                    j: nat, t: nat)
    requires MaximalRuns(rows, parts) && KeysPairwiseDifferent(parts) && IsBond(rows, i, lo, hi, x)
    requires j < |parts| && t < |parts[j]| && Offset(parts, j) + t == i
    ensures lo == Offset(parts, j) && hi == lo + |parts[j]|
  {
    var from, n := Offset(parts, j), |parts[j]|;
    RowsOfPart(rows, parts, j, i);
    RowsOfPart(rows, parts, j, from);
    RowsOfPart(rows, parts, j, from + n - 1);
    hide Offset, MaximalRuns, KeysPairwiseDifferent;
    SamePart(P, rows, parts, j, lo);
    SamePart(P, rows, parts, j, hi - 1);
  }

  lemma BlockPrices(rows: seq<Trade>, parts: seq<seq<Trade>>, i: nat, lo: nat, hi: nat, x: seq<real>, j: nat)
    requires MaximalRuns(rows, parts) && IsBond(rows, i, lo, hi, x)
    requires j < |parts| && lo == Offset(parts, j) && hi == lo + |parts[j]|
    ensures Prices(parts[j]) == x
  {
    hide Offset, MaximalRuns;
    forall k: nat | k < |parts[j]| ensures parts[j][k].price == Some(x[k]) {
      RowsOfPart(rows, parts, j, lo + k);
    }
  }

  lemma RowDecided(P: Params, rows: seq<Trade>, parts: seq<seq<Trade>>, i: nat, lo: nat, hi: nat, x: seq<real>)
    requires MaximalRuns(rows, parts) && KeysPairwiseDifferent(parts) && IsBond(rows, i, lo, hi, x)
    ensures Flatten(parts) == rows && lo <= i < |rows| && i - lo < |x| && MasksOf(P, parts)[i] == KeepMask(P, x)[i - lo]
  {
    var j, t := PartOf(P, parts, i);
    BlockIsPart(P, rows, parts, i, lo, hi, x, j, t);
    BlockPrices(rows, parts, i, lo, hi, x, j);
    hide Offset, MaximalRuns, KeysPairwiseDifferent, KeepMask, MasksOf;
  }

  /** Each row is kept or dropped, by the filter's decision on its own bond's prices. */
  ghost predicate DecidedByBond(P: Params, rows: seq<Trade>, kept: set<nat>, dropped: set<nat>) {
    && (forall i: nat :: i in kept || i in dropped <==> i < |rows|)
    && (forall i: nat :: !(i in kept && i in dropped))
    && forall i: nat, lo: nat, hi: nat, x: seq<real> :: IsBond(rows, i, lo, hi, x) ==> KeptInBond(P, kept, i, lo, x)
  }

  ghost predicate KeptInBond(P: Params, kept: set<nat>, i: nat, lo: nat, x: seq<real>) {
    lo <= i < lo + |x| && (i in kept <==> KeepMask(P, x)[i - lo])
  }

  lemma MaskDecides(P: Params, rows: seq<Trade>, parts: seq<seq<Trade>>, mask: seq<bool>)
    requires MaximalRuns(rows, parts) && KeysPairwiseDifferent(parts) && mask == MasksOf(P, parts) && |mask| == |rows|
    ensures DecidedByBond(P, rows, At(mask, true), At(mask, false))
  {
    hide MaximalRuns, KeysPairwiseDifferent, IsBond, KeepMask, MasksOf;
    forall i: nat, lo: nat, hi: nat, x: seq<real> | IsBond(rows, i, lo, hi, x)
      ensures KeptInBond(P, At(mask, true), i, lo, x)
    {
      RowDecided(P, rows, parts, i, lo, hi, x);
    }
  }

  /** The two files on the sorted stream: the kept file holds, in order, the rows that the filter
      keeps on their own bond's prices, and the dropped file the others. */
  lemma FilesMeaning(P: Params, rows: seq<Trade>, before: (string, string) -> bool)
    returns (kept: set<nat>, dropped: set<nat>)
    requires StrictTotalOrder(before) && SortedNullsLast(rows, before)
    ensures DecidedByBond(P, rows, kept, dropped)
    ensures IsPart(rows, kept, WrittenFrom(P, CutSegments(rows), true))
    ensures IsPart(rows, dropped, WrittenFrom(P, CutSegments(rows), false))
  {
    hide *;
    SortedStreamIsCutByBond(rows, before);
    KeptAndDroppedInterleave(P, rows);
    var mask := MasksOf(P, CutSegments(rows));
    SelectIsPart(rows, mask, true);
    SelectIsPart(rows, mask, false);
    MaskDecides(P, rows, CutSegments(rows), mask);
    kept, dropped := At(mask, true), At(mask, false);
  }
}
