/** The streaming segmenter around the bounce-back filter: bonds accumulate across read
    batches and are flushed one at a time. */
module Segments {
  import opened Basics
  import opened BounceBack
  import opened BounceBackTheorems

  /** `segKey` is the CUSIP, or the bond id where that is blank; None where both are missing.
      `price` is None where it is null or not finite. */
  datatype Trade = Trade(segKey: Option<string>, price: Option<real>, rest: string)

  function Prices(seg: seq<Trade>): seq<real> {
    seq(|seg|, i requires 0 <= i < |seg| => if seg[i].price.Some? then seg[i].price.value else 0.0)
  }

  function MaskOf(P: Params, seg: seq<Trade>): (mask: seq<bool>)
    ensures |mask| == |seg|
  {
    KeepMask(P, Prices(seg))
  }

  /** What flushing a list of segments writes to the kept (want) or dropped (!want) file. */
  function WrittenFrom(P: Params, segs: seq<seq<Trade>>, want: bool): seq<Trade> {
    if |segs| == 0 then []
    else
      var seg := segs[|segs| - 1];
      WrittenFrom(P, segs[..|segs| - 1], want) + Select(seg, MaskOf(P, seg), want)
  }

  // --- what the loop over runs of rows amounts to, row by row --------------------------------

  /** Flushed segments, the open one, and the key it is accumulating (None before the first
      row, and while the open key is missing). */
  datatype Cut = Cut(flushed: seq<seq<Trade>>, open: seq<Trade>, current: Option<string>)

  function CutRow(s: Cut, r: Trade): Cut {
    if s.current.None? || r.segKey == s.current then Cut(s.flushed, s.open + [r], r.segKey)
    else Cut(s.flushed + [s.open], [r], r.segKey)
  }

  function CutRows(rows: seq<Trade>): Cut {
    if |rows| == 0 then Cut([], [], None) else CutRow(CutRows(rows[..|rows| - 1]), rows[|rows| - 1])
  }

  /** The segments the filter is run on. */
  function CutSegments(rows: seq<Trade>): seq<seq<Trade>> {
    var s := CutRows(rows);
    if |s.open| == 0 then s.flushed else s.flushed + [s.open]
  }

  /** The maximal runs of equal keys, in order. */
  function Runs(rows: seq<Trade>): seq<seq<Trade>> {
    if |rows| == 0 then []
    else
      var t := Runs(rows[..|rows| - 1]);
      var r := rows[|rows| - 1];
      if |t| > 0 && rows[|rows| - 2].segKey == r.segKey && |rows| > 1
      then t[..|t| - 1] + [t[|t| - 1] + [r]]
      else t + [[r]]
  }

  // --- the streaming loop -------------------------------------------------------------------

  datatype Outcome =
    | NonFinitePrice
    | RemovedEveryRow
    | Written(kept: seq<Trade>, dropped: seq<Trade>, inputRows: nat, keptRows: nat, droppedRows: nat)

  /** The rows of one bond that are written to the kept and to the dropped file. */
  method FilterSegment(P: Params, sub: seq<Trade>) returns (keptSub: seq<Trade>, droppedSub: seq<Trade>)
    ensures keptSub == Select(sub, MaskOf(P, sub), true)
    ensures droppedSub == Select(sub, MaskOf(P, sub), false)
  {
    hide KeepMask, Select, Count;
    var flags, nBb := ApplyBounceBackLoop(P, Prices(sub));
    var mask := flags[..];
    CountsAreLengths(sub, mask);
    keptSub, droppedSub := [], [];
    if true in mask {
      keptSub := Select(sub, mask, true);
    } else {
      NoneOf(sub, mask, true);
    }
    if nBb > 0 {
      droppedSub := Select(sub, mask, false);
    }
  }

  /** The variables `process_partition` and its flush share. */
  class Partition {
    const P: Params
    var bondSegments: seq<seq<Trade>>
    var currentSegKey: Option<string>
    var kept: seq<Trade>
    var dropped: seq<Trade>
    var keptRows: nat
    var droppedRows: nat
    ghost var flushed: seq<seq<Trade>>

    ghost predicate Valid()
      reads this
    {
      && kept == WrittenFrom(P, flushed, true) && keptRows == |kept|
      && dropped == WrittenFrom(P, flushed, false) && droppedRows == |dropped|
    }

    /** The state as a cut of the rows seen so far. */
    ghost function View(): Cut
      reads this
    {
      Cut(flushed, Flatten(bondSegments), currentSegKey)
    }

    constructor (P: Params)
      ensures this.P == P && Valid() && View() == Cut([], [], None) && bondSegments == []
    {
      this.P := P;
      bondSegments, currentSegKey := [], None;
      kept, dropped, keptRows, droppedRows, flushed := [], [], 0, 0, [];
    }

    method FlushCurrentBond()
      requires Valid()
      modifies this
      ensures Valid()
      ensures bondSegments == old(bondSegments) && currentSegKey == old(currentSegKey)
      ensures flushed == if |bondSegments| == 0 then old(flushed) else old(flushed) + [Flatten(bondSegments)]
    {
      hide KeepMask, Select, WrittenFrom, Flatten;
      if |bondSegments| == 0 {
        return;
      }
      var sub := Flatten(bondSegments);
      var keptSub, droppedSub := FilterSegment(P, sub);
      FlushedSnoc(P, flushed, sub, true);
      FlushedSnoc(P, flushed, sub, false);
      flushed := flushed + [sub];
      kept, keptRows := kept + keptSub, keptRows + |keptSub|;
      dropped, droppedRows := dropped + droppedSub, droppedRows + |droppedSub|;
    }

    /** One run of equal keys within a batch. */
    method AddRun(seg: seq<Trade>)
      requires Valid() && |seg| > 0
      requires forall i :: 0 <= i < |seg| ==> seg[i].segKey == seg[0].segKey
      requires currentSegKey.Some? ==> |bondSegments| > 0
      modifies this
      ensures Valid()
      ensures View() == CutFrom(old(View()), seg)
      ensures |bondSegments| > 0
    {
      hide CutFrom, Flatten, WrittenFrom;
      CutRun(View(), seg);
      FlattenSnoc(bondSegments, seg);
      if currentSegKey.None? || seg[0].segKey == currentSegKey {
        bondSegments := bondSegments + [seg];
        currentSegKey := seg[0].segKey;
      } else {
        FlushCurrentBond();
        bondSegments := [seg];
        currentSegKey := seg[0].segKey;
      }
    }
  }

  lemma FlattenSnoc<T>(chunks: seq<seq<T>>, chunk: seq<T>)
    ensures Flatten(chunks + [chunk]) == Flatten(chunks) + chunk
    ensures Flatten([chunk]) == chunk
  {
    assert (chunks + [chunk])[..|chunks|] == chunks;
    assert [chunk][..0] == [];
  }

  function CutFrom(s: Cut, rows: seq<Trade>): Cut {
    if |rows| == 0 then s else CutRow(CutFrom(s, rows[..|rows| - 1]), rows[|rows| - 1])
  }

  lemma {:induction false} CutFromStart(rows: seq<Trade>)
    ensures CutFrom(Cut([], [], None), rows) == CutRows(rows)
  {
    if |rows| > 0 {
      CutFromStart(rows[..|rows| - 1]);
    }
  }

  lemma {:induction false} CutFromConcat(s: Cut, a: seq<Trade>, b: seq<Trade>)
    ensures CutFrom(s, a + b) == CutFrom(CutFrom(s, a), b)
    decreases |b|
  {
    if |b| == 0 {
      assert a + b == a;
    } else {
      assert (a + b)[..|a + b| - 1] == a + b[..|b| - 1];
      CutFromConcat(s, a, b[..|b| - 1]);
    }
  }

  /** Adding a run of equal keys at once is adding its rows one by one. */
  lemma {:induction false} CutRun(s: Cut, seg: seq<Trade>)
    requires |seg| > 0 && forall i :: 0 <= i < |seg| ==> seg[i].segKey == seg[0].segKey
    ensures CutFrom(s, seg) ==
      if s.current.None? || seg[0].segKey == s.current
      then Cut(s.flushed, s.open + seg, seg[0].segKey)
      else Cut(s.flushed + [s.open], seg, seg[0].segKey)
  {
    var n := |seg| - 1;
    if n == 0 {
      assert seg == [seg[0]] && CutFrom(s, seg[..0]) == s;
    } else {
      CutRun(s, seg[..n]);
      assert seg == seg[..n] + [seg[n]];
      assert s.open + seg == (s.open + seg[..n]) + [seg[n]];
    }
  }

  lemma FlushedSnoc(P: Params, segs: seq<seq<Trade>>, seg: seq<Trade>, want: bool)
    ensures WrittenFrom(P, segs + [seg], want) == WrittenFrom(P, segs, want) + Select(seg, MaskOf(P, seg), want)
  {
    assert (segs + [seg])[..|segs|] == segs;
  }

  lemma {:induction false} CountsAreLengths<T>(s: seq<T>, mask: seq<bool>)
    requires |s| == |mask|
    ensures Count(mask, true) == |Select(s, mask, true)| && Count(mask, false) == |Select(s, mask, false)|
  {
    if |s| > 0 {
      CountsAreLengths(s[..|s| - 1], mask[..|s| - 1]);
    }
  }

  lemma {:induction false} NoneOf<T>(s: seq<T>, mask: seq<bool>, want: bool)
    requires |s| == |mask| && want !in mask
    ensures Select(s, mask, want) == []
  {
    if |s| > 0 {
      NoneOf(s[..|s| - 1], mask[..|s| - 1], want);
    }
  }

  predicate AllFinite(rows: seq<Trade>) { forall i :: 0 <= i < |rows| ==> rows[i].price.Some? }

  ghost predicate SameKeys(batch: seq<Trade>, s: nat, e: nat)
    requires e <= |batch|
  {
    forall i :: s <= i < e ==> batch[i].segKey == batch[s].segKey
  }

  /** Cut points of a batch into non-empty runs of equal keys. */
  ghost predicate CutPoints(batch: seq<Trade>, starts: seq<nat>) {
    && |starts| > 0 && starts[0] == 0
    && (forall j :: 0 <= j < |starts| ==> starts[j] <= |batch|)
    && (forall j, k :: 0 <= j < k < |starts| ==> starts[j] < starts[k])
    && (forall j, k :: 0 <= j < k < |starts| && k == j + 1 ==> SameKeys(batch, starts[j], starts[k]))
  }

  /** Where the runs of equal keys of a batch start, closed by its length. */
  method RunStarts(batch: seq<Trade>) returns (starts: seq<nat>)
    requires |batch| > 0
    ensures CutPoints(batch, starts) && |starts| >= 2 && starts[|starts| - 1] == |batch|
  {
    starts := [0];
    for i := 1 to |batch|
      invariant CutPoints(batch, starts) && starts[|starts| - 1] < i
      invariant SameKeys(batch, starts[|starts| - 1], i)
    {
      if batch[i].segKey != batch[i - 1].segKey {
        starts := starts + [i];
      }
    }
    starts := starts + [|batch|];
  }

  method AddBatch(part: Partition, batch: seq<Trade>)
    requires part.Valid() && |batch| > 0
    requires part.currentSegKey.Some? ==> |part.bondSegments| > 0
    modifies part
    ensures part.Valid() && |part.bondSegments| > 0
    ensures part.View() == CutFrom(old(part.View()), batch)
  {
    hide CutFrom, WrittenFrom, Flatten;
    var starts := RunStarts(batch);
    CutFromNothing(part.View());
    assert batch[..starts[0]] == [];
    for j := 0 to |starts| - 1
      invariant starts[j] <= |batch|
      invariant part.Valid() && (j > 0 ==> |part.bondSegments| > 0)
      invariant part.currentSegKey.Some? ==> |part.bondSegments| > 0
      invariant part.View() == CutFrom(old(part.View()), batch[..starts[j]])
    {
      var s, e := starts[j], starts[j + 1];
      assert SameKeys(batch, s, e);
      var seg := batch[s..e];
      assert forall i :: 0 <= i < |seg| ==> seg[i] == batch[s + i];
      part.AddRun(seg);
      CutFromConcat(old(part.View()), batch[..s], seg);
      assert batch[..e] == batch[..s] + seg;
    }
    assert batch[..|batch|] == batch;
  }

  lemma CutFromNothing(s: Cut)
    ensures CutFrom(s, []) == s
  {
  }

  /** The whole partition. Its outcome depends on the rows alone, not on how they are batched;
      the "removed every row" failure is raised on an empty input and on no other. */
  method ProcessPartition(P: Params, batches: seq<seq<Trade>>) returns (out: Outcome)
    ensures var rows := Flatten(batches);
      out == if !AllFinite(rows) then NonFinitePrice
             else if |rows| == 0 then RemovedEveryRow
             else
               var kept, dropped := WrittenFrom(P, CutSegments(rows), true), WrittenFrom(P, CutSegments(rows), false);
               Written(kept, dropped, |rows|, |kept|, |dropped|)
  {
    hide CutRows, CutFrom, WrittenFrom, Flatten;
    var part := new Partition(P);
    ghost var start := part.View();
    var rows := Flatten(batches);   // the sorted file; its metadata gives the input row count
    CutFromNothing(start);
    FlattenNothing<Trade>();
    for i := 0 to |batches|
      invariant fresh(part) && part.P == P && part.Valid()
      invariant part.currentSegKey.Some? ==> |part.bondSegments| > 0
      invariant part.View() == CutFrom(start, Flatten(batches[..i]))
      invariant |Flatten(batches[..i])| > 0 ==> |part.bondSegments| > 0
      invariant |Flatten(batches[..i])| == 0 ==> part.bondSegments == []
      invariant AllFinite(Flatten(batches[..i]))
    {
      var batch := batches[i];
      FlattenStep(batches, i);
      if |batch| == 0 {
        assert Flatten(batches[..i]) + [] == Flatten(batches[..i]);
        continue;
      }
      if !AllFinite(batch) {
        NotAllFinite(batches, i);
        return NonFinitePrice;
      }
      CutFromConcat(start, Flatten(batches[..i]), batch);
      AddBatch(part, batch);
    }
    assert batches[..|batches|] == batches;
    CutFromStart(rows);
    part.FlushCurrentBond();
    OpenSegment(rows);
    assert part.flushed == CutSegments(rows);
    NothingLost(P, rows);
    if part.keptRows == 0 {
      return RemovedEveryRow;
    }
    out := Written(part.kept, part.dropped, |rows|, part.keptRows, part.droppedRows);
  }

  lemma FlattenNothing<T>()
    ensures Flatten<T>([]) == []
  {
  }

  lemma OpenSegment(rows: seq<Trade>)
    ensures |CutRows(rows).open| > 0 <==> |rows| > 0
  {
  }

  lemma NotAllFinite(batches: seq<seq<Trade>>, i: nat)
    requires i < |batches| && !AllFinite(batches[i])
    ensures !AllFinite(Flatten(batches))
  {
    FlattenPrefix(batches, i);
    var k :| 0 <= k < |batches[i]| && batches[i][k].price.None?;
    var before := Flatten(batches[..i]);
    assert Flatten(batches)[|before| + k] == batches[i][k];
  }

  // --- what the written files hold ----------------------------------------------------------

  function MasksOf(P: Params, segs: seq<seq<Trade>>): (mask: seq<bool>)
    ensures |mask| == |Flatten(segs)|
  {
    if |segs| == 0 then [] else MasksOf(P, segs[..|segs| - 1]) + MaskOf(P, segs[|segs| - 1])
  }

  lemma {:induction false} CutLosesNothing(rows: seq<Trade>)
    ensures var s := CutRows(rows); Flatten(s.flushed) + s.open == rows
  {
    if |rows| == 0 {
      FlattenNothing<Trade>();
      assert CutRows(rows) == Cut([], [], None);
    } else {
      var n := |rows| - 1;
      hide Flatten, CutRows;
      CutLosesNothing(rows[..n]);
      CutRowsStep(rows);
      CutRowLosesNothing(CutRows(rows[..n]), rows[n], rows[..n]);
      hide CutRow;
      Unsnoc(rows);
    }
  }

  lemma CutRowsStep(rows: seq<Trade>)
    requires |rows| > 0
    ensures CutRows(rows) == CutRow(CutRows(rows[..|rows| - 1]), rows[|rows| - 1])
  {
  }

  lemma CutRowLosesNothing(s: Cut, r: Trade, seen: seq<Trade>)
    requires Flatten(s.flushed) + s.open == seen
    ensures var t := CutRow(s, r); Flatten(t.flushed) + t.open == seen + [r]
  {
    hide Flatten;
    FlattenSnoc(s.flushed, s.open);
    assert Flatten(s.flushed) + (s.open + [r]) == (Flatten(s.flushed) + s.open) + [r];
  }

  lemma SegmentsCoverRows(rows: seq<Trade>)
    ensures Flatten(CutSegments(rows)) == rows
  {
    var s := CutRows(rows);
    hide CutRows;
    CutLosesNothing(rows);
    FlattenSnoc(s.flushed, s.open);
  }

  lemma {:induction false} WrittenIsSelected(P: Params, segs: seq<seq<Trade>>, want: bool)
    ensures WrittenFrom(P, segs, want) == Select(Flatten(segs), MasksOf(P, segs), want)
  {
    hide KeepMask, Select;
    if |segs| == 0 {
      NoneOf<Trade>([], [], want);
    } else {
      var n := |segs| - 1;
      WrittenIsSelected(P, segs[..n], want);
      SelectConcat(Flatten(segs[..n]), segs[n], MasksOf(P, segs[..n]), MaskOf(P, segs[n]), want);
    }
  }

  /** The kept and the dropped file interleave back to the input: one mask over the input rows
      selects both, and their row counts add up. */
  lemma KeptAndDroppedInterleave(P: Params, rows: seq<Trade>)
    ensures var mask := MasksOf(P, CutSegments(rows));
      && |mask| == |rows|
      && WrittenFrom(P, CutSegments(rows), true) == Select(rows, mask, true)
      && WrittenFrom(P, CutSegments(rows), false) == Select(rows, mask, false)
      && |WrittenFrom(P, CutSegments(rows), true)| + |WrittenFrom(P, CutSegments(rows), false)| == |rows|
      && multiset(WrittenFrom(P, CutSegments(rows), true)) + multiset(WrittenFrom(P, CutSegments(rows), false))
           == multiset(rows)
  {
    hide KeepMask, Select, CutSegments, MasksOf, WrittenFrom;
    SegmentsCoverRows(rows);
    WrittenIsSelected(P, CutSegments(rows), true);
    WrittenIsSelected(P, CutSegments(rows), false);
    SelectPartition(rows, MasksOf(P, CutSegments(rows)));
    assert |rows| == |multiset(rows)|;
  }

  /** Some row is always kept: the first trade of every segment is. */
  lemma NothingLost(P: Params, rows: seq<Trade>)
    ensures |WrittenFrom(P, CutSegments(rows), true)| > 0 <==> |rows| > 0
  {
    hide KeepMask, Select;
    var segs := CutSegments(rows);
    if |rows| > 0 {
      var seg := CutRows(rows).open;
      FirstTradeKept(P, Prices(seg));
      SelectedFirst(seg, MaskOf(P, seg));
    }
  }

  lemma {:induction false} SelectedFirst<T>(s: seq<T>, mask: seq<bool>)
    requires |s| == |mask| && |s| > 0 && mask[0]
    ensures |Select(s, mask, true)| > 0
  {
    if |s| > 1 {
      SelectedFirst(s[..|s| - 1], mask[..|s| - 1]);
    }
  }

  // --- when the segments are the bonds ------------------------------------------------------

  ghost predicate OneKey(seg: seq<Trade>) {
    forall i, j :: 0 <= i < |seg| && 0 <= j < |seg| ==> seg[i].segKey == seg[j].segKey
  }

  /** A row without a key directly before a row with one. */
  ghost predicate MissingThenKey(rows: seq<Trade>) {
    exists i :: 0 < i < |rows| && rows[i - 1].segKey.None? && rows[i].segKey.Some?
  }

  lemma {:induction false} RunsEndWithLastRow(rows: seq<Trade>)
    requires |rows| > 0
    ensures var t := Runs(rows);
      && |t| > 0 && |t[|t| - 1]| > 0
      && t[|t| - 1][|t[|t| - 1]| - 1] == rows[|rows| - 1]
      && forall s :: s in t ==> OneKey(s)
  {
    var n := |rows| - 1;
    if n > 0 {
      RunsEndWithLastRow(rows[..n]);
      var t0, t, r := Runs(rows[..n]), Runs(rows), rows[n];
      var last := t0[|t0| - 1];
      if rows[n - 1].segKey == r.segKey {
        assert t == t0[..|t0| - 1] + [last + [r]];
        assert OneKey(last) && OneKey(last + [r]);
        assert forall s :: s in t ==> s in t0 || s == last + [r];
      } else {
        assert t == t0 + [[r]] && OneKey([r]);
      }
    } else {
      assert Runs(rows[..0]) == [] && Runs(rows) == [[rows[0]]];
    }
  }

  lemma {:induction false} CutIsRunsSoFar(rows: seq<Trade>)
    requires !MissingThenKey(rows) && |rows| > 0
    ensures var s := CutRows(rows);
      s.flushed + [s.open] == Runs(rows) && s.current == rows[|rows| - 1].segKey
  {
    var n := |rows| - 1;
    if n > 0 {
      CutIsRunsSoFar(rows[..n]);
      RunsStep(rows);
      CutRowsStep(rows);
      assert !(rows[n - 1].segKey.None? && rows[n].segKey.Some?);
      OneMoreRow(CutRows(rows[..n]), Runs(rows[..n]), rows[n - 1], rows[n]);
      hide CutRows, Runs, CutRow;
    } else {
      assert Runs(rows[..0]) == [] && Runs(rows) == [[rows[0]]];
      var s := CutRows(rows);
      assert CutRows(rows[..0]) == Cut([], [], None);
      assert s == CutRow(CutRows(rows[..0]), rows[0]);
      assert s.open == [rows[0]] && s.flushed == [];
      assert s.flushed + [s.open] == [s.open];
    }
  }

  lemma RunsStep(rows: seq<Trade>)
    requires |rows| > 1
    ensures var n := |rows| - 1;
      |Runs(rows[..n])| > 0 && Runs(rows) == RunsWith(Runs(rows[..n]), rows[n - 1], rows[n])
  {
    RunsEndWithLastRow(rows[..|rows| - 1]);
  }

  function RunsWith(t: seq<seq<Trade>>, last: Trade, r: Trade): seq<seq<Trade>>
    requires |t| > 0
  {
    if last.segKey == r.segKey then t[..|t| - 1] + [t[|t| - 1] + [r]] else t + [[r]]
  }

  lemma OneMoreRow(s: Cut, t: seq<seq<Trade>>, last: Trade, r: Trade)
    requires |t| > 0 && s.flushed + [s.open] == t && s.current == last.segKey
    requires last.segKey.None? ==> r.segKey.None?
    ensures var s' := CutRow(s, r); s'.flushed + [s'.open] == RunsWith(t, last, r) && s'.current == r.segKey
  {
    assert s.flushed == t[..|t| - 1] && s.open == t[|t| - 1];
  }

  /** A cut segment that mixes a missing key with a present one stays mixed. */
  ghost predicate SomeMixed(s: Cut) { !OneKey(s.open) || exists seg :: seg in s.flushed && !OneKey(seg) }

  lemma {:induction false} MixedForGood(rows: seq<Trade>)
    requires MissingThenKey(rows)
    ensures SomeMixed(CutRows(rows))
  {
    var n := |rows| - 1;
    var s0, s := CutRows(rows[..n]), CutRows(rows);
    if MissingThenKey(rows[..n]) {
      MixedForGood(rows[..n]);
      if !OneKey(s0.open) {
        if s.flushed == s0.flushed {
          assert forall i :: 0 <= i < |s0.open| ==> s.open[i] == s0.open[i];
        } else {
          assert s0.open in s.flushed;
        }
      } else {
        var seg :| seg in s0.flushed && !OneKey(seg);
        assert seg in s.flushed;
      }
    } else {
      assert rows[n - 1].segKey.None? && rows[n].segKey.Some?;
      OpenEndsWithLastRow(rows[..n]);
      assert s.open == s0.open + [rows[n]];
      assert s.open[|s0.open| - 1] == rows[n - 1] && s.open[|s0.open|] == rows[n];
    }
  }

  lemma OpenEndsWithLastRow(rows: seq<Trade>)
    requires |rows| > 0
    ensures var s := CutRows(rows);
      && |s.open| > 0 && s.open[|s.open| - 1] == rows[|rows| - 1] && s.current == rows[|rows| - 1].segKey
  {
  }

  // --- what the runs are ---------------------------------------------------------------------

  /** The parts cut the rows into non-empty stretches of one key, each followed by another key. */
  ghost predicate MaximalRuns(rows: seq<Trade>, parts: seq<seq<Trade>>) {
    && Flatten(parts) == rows
    && (forall i :: 0 <= i < |parts| ==> |parts[i]| > 0 && OneKey(parts[i]))
    && (forall i :: 0 <= i < |parts| - 1 ==> Turns(parts[i], parts[i + 1]))
  }

  /** The key changes from one part to the next. */
  ghost predicate Turns(a: seq<Trade>, b: seq<Trade>) {
    |a| > 0 && |b| > 0 && a[|a| - 1].segKey != b[0].segKey
  }

  lemma FlattenLast(parts: seq<seq<Trade>>, r: Trade)
    requires |parts| > 0
    ensures var n := |parts| - 1;
      Flatten(parts[..n] + [parts[n] + [r]]) == Flatten(parts) + [r]
  {
    var n := |parts| - 1;
    FlattenSnoc(parts[..n], parts[n] + [r]);
    FlattenSnoc(parts[..n], parts[n]);
    Unsnoc(parts);
    hide Flatten;
    assert Flatten(parts[..n]) + (parts[n] + [r]) == (Flatten(parts[..n]) + parts[n]) + [r];
  }

  lemma {:induction false} LastOfFlatten(parts: seq<seq<Trade>>)
    requires |parts| > 0 && |parts[|parts| - 1]| > 0
    ensures var last := parts[|parts| - 1];
      |Flatten(parts)| > 0 && Flatten(parts)[|Flatten(parts)| - 1] == last[|last| - 1]
  {
  }

  /** Extending maximal runs by one row, into the last part or as a new one. */
  lemma MaximalStep(rows: seq<Trade>, parts: seq<seq<Trade>>, r: Trade)
    requires MaximalRuns(rows, parts) && |parts| > 0
    ensures |rows| > 0
    ensures var last := rows[|rows| - 1];
      MaximalRuns(rows + [r], RunsWith(parts, last, r))
  {
    var n := |parts| - 1;
    LastOfFlatten(parts);
    FlattenLast(parts, r);
    FlattenSnoc(parts, [r]);
    hide Flatten;
    var next := RunsWith(parts, rows[|rows| - 1], r);
    if rows[|rows| - 1].segKey == r.segKey {
      GrownRun(parts[n], r);
      assert forall i :: 0 <= i < n ==> next[i] == parts[i];
      assert next[n] == parts[n] + [r] && next[n][0] == parts[n][0];
      forall i | 0 <= i < |next| - 1 ensures Turns(next[i], next[i + 1]) {
        assert Turns(parts[i], parts[i + 1]);
      }
    } else {
      assert forall i :: 0 <= i <= n ==> next[i] == parts[i];
      assert next[n + 1] == [r] && OneKey([r]);
      forall i | 0 <= i < |next| - 1 ensures Turns(next[i], next[i + 1]) {
        if i < n {
          assert Turns(parts[i], parts[i + 1]);
        }
      }
    }
  }

  lemma GrownRun(seg: seq<Trade>, r: Trade)
    requires |seg| > 0 && OneKey(seg) && seg[|seg| - 1].segKey == r.segKey
    ensures OneKey(seg + [r])
  {
  }

  /** The runs are maximal runs: nothing lost, one key each, the key changing at every cut. */
  lemma {:induction false} RunsAreMaximal(rows: seq<Trade>)
    ensures MaximalRuns(rows, Runs(rows))
  {
    var n := |rows| - 1;
    if n > 0 {
      RunsAreMaximal(rows[..n]);
      RunsStep(rows);
      Unsnoc(rows);
      hide Runs, MaximalRuns, RunsWith;
      MaximalStep(rows[..n], Runs(rows[..n]), rows[n]);
    } else if n == 0 {
      assert rows[..0] == [] && Runs(rows[..0]) == [] && Runs(rows) == [[rows[0]]];
      FlattenSnoc<Trade>([], [rows[0]]);
      assert rows == [rows[0]];
    }
  }

  /** The filter runs on exactly the maximal equal-key runs, in order, iff no keyless row
      directly precedes a keyed one. */
  lemma SegmentsAreRunsIff(rows: seq<Trade>)
    ensures MaximalRuns(rows, CutSegments(rows)) <==> !MissingThenKey(rows)
    ensures CutSegments(rows) == Runs(rows) <==> !MissingThenKey(rows)
  {
    RunsAreMaximal(rows);
    if |rows| == 0 {
      assert CutSegments(rows) == Runs(rows) == [];
    } else if MissingThenKey(rows) {
      SomeSegmentIsMixed(rows);
    } else {
      OpenEndsWithLastRow(rows);
      CutIsRunsSoFar(rows);
    }
    hide CutSegments, Runs, Flatten;
  }

  lemma SomeSegmentIsMixed(rows: seq<Trade>)
    requires MissingThenKey(rows)
    ensures exists i :: 0 <= i < |CutSegments(rows)| && !OneKey(CutSegments(rows)[i])
  {
    var s := CutRows(rows);
    MixedForGood(rows);
    OpenEndsWithLastRow(rows);
    var segs := s.flushed + [s.open];
    assert CutSegments(rows) == segs;
    if !OneKey(s.open) {
      assert segs[|s.flushed|] == s.open;
    } else {
      var seg :| seg in s.flushed && !OneKey(seg);
      var i :| 0 <= i < |s.flushed| && s.flushed[i] == seg;
      assert segs[i] == seg;
    }
  }

  /** Where part i starts in the rows. */
  function Offset(parts: seq<seq<Trade>>, i: nat): nat
    requires i <= |parts|
  {
    |Flatten(parts[..i])|
  }

  lemma PartIsSlice(rows: seq<Trade>, parts: seq<seq<Trade>>, i: nat)
    requires MaximalRuns(rows, parts) && i < |parts|
    ensures Offset(parts, i) + |parts[i]| <= |rows|
    ensures rows[Offset(parts, i)..Offset(parts, i) + |parts[i]|] == parts[i]
  {
    FlattenPrefix(parts, i);
    hide Flatten;
    var before := Flatten(parts[..i]);
    assert (before + parts[i])[|before|..] == parts[i];
  }

  lemma {:induction false} OffsetsGrow(parts: seq<seq<Trade>>, i: nat, j: nat)
    requires i < j <= |parts| && forall k :: 0 <= k < |parts| ==> |parts[k]| > 0
    ensures Offset(parts, i) + |parts[i]| <= Offset(parts, j)
    decreases j
  {
    FlattenStep(parts, j - 1);
    if i < j - 1 {
      OffsetsGrow(parts, i, j - 1);
    }
  }

  // --- the sorted stream ----------------------------------------------------------------------

  /** `before` is a strict total order of keys. */
  ghost predicate StrictTotalOrder(before: (string, string) -> bool) {
    && (forall x, y :: before(x, y) ==> !before(y, x))
    && (forall x, y, z :: before(x, y) && before(y, z) ==> before(x, z))
    && (forall x, y :: x != y ==> before(x, y) || before(y, x))
  }

  /** The order the sorted stream arrives in: keys in order, missing keys last. */
  ghost predicate SortedNullsLast(rows: seq<Trade>, before: (string, string) -> bool) {
    forall i, j :: 0 <= i < j < |rows| ==>
      rows[j].segKey.Some? ==> rows[i].segKey.Some? && !before(rows[j].segKey.value, rows[i].segKey.value)
  }

  /** On the sorted stream, rows of one key have no other key between them. */
  lemma KeysAreContiguous(rows: seq<Trade>, before: (string, string) -> bool, a: nat, c: nat, b: nat)
    requires StrictTotalOrder(before) && SortedNullsLast(rows, before)
    requires a < c < b < |rows| && rows[a].segKey == rows[b].segKey
    ensures rows[c].segKey == rows[a].segKey
  {
    assert rows[c].segKey.Some? ==> rows[a].segKey.Some?;
    assert rows[b].segKey.Some? ==> rows[c].segKey.Some?;
  }

  ghost predicate DifferentKeys(a: seq<Trade>, b: seq<Trade>) {
    |a| > 0 && |b| > 0 && a[0].segKey != b[0].segKey
  }

  /** No bond has two segments, nor have the keyless rows. */
  ghost predicate KeysPairwiseDifferent(parts: seq<seq<Trade>>) {
    forall i, j :: 0 <= i < j < |parts| ==> DifferentKeys(parts[i], parts[j])
  }

  lemma RunsOfDifferentKeys(rows: seq<Trade>, parts: seq<seq<Trade>>, before: (string, string) -> bool, i: nat, j: nat)
    requires StrictTotalOrder(before) && SortedNullsLast(rows, before) && MaximalRuns(rows, parts)
    requires i < j < |parts|
    ensures DifferentKeys(parts[i], parts[j])
  {
    assert Turns(parts[i], parts[i + 1]) && OneKey(parts[i]);
    if i + 1 < j {
      PartIsSlice(rows, parts, i);
      PartIsSlice(rows, parts, i + 1);
      PartIsSlice(rows, parts, j);
      OffsetsGrow(parts, i, i + 1);
      OffsetsGrow(parts, i + 1, j);
      hide Offset, MaximalRuns, SortedNullsLast, StrictTotalOrder;
      var a, c, b := Offset(parts, i), Offset(parts, i + 1), Offset(parts, j);
      assert rows[a] == parts[i][0] && rows[c] == parts[i + 1][0] && rows[b] == parts[j][0];
      if parts[i][0].segKey == parts[j][0].segKey {
        KeysAreContiguous(rows, before, a, c, b);
      }
    }
  }

  /** On the sorted stream the filter runs once per bond: the segments cover the stream, each
      holds one key, and no two hold the same. */
  lemma SortedStreamIsCutByBond(rows: seq<Trade>, before: (string, string) -> bool)
    requires StrictTotalOrder(before) && SortedNullsLast(rows, before)
    ensures CutSegments(rows) == Runs(rows)
    ensures MaximalRuns(rows, CutSegments(rows)) && KeysPairwiseDifferent(CutSegments(rows))
  {
    SegmentsAreRunsIff(rows);
    PartsHoldDifferentKeys(rows, CutSegments(rows), before);
  }

  lemma PartsHoldDifferentKeys(rows: seq<Trade>, parts: seq<seq<Trade>>, before: (string, string) -> bool)
    requires StrictTotalOrder(before) && SortedNullsLast(rows, before) && MaximalRuns(rows, parts)
    ensures KeysPairwiseDifferent(parts)
  {
    hide MaximalRuns, StrictTotalOrder, SortedNullsLast;
    hide DifferentKeys;
    forall i, j | 0 <= i < j < |parts| ensures DifferentKeys(parts[i], parts[j]) {
      RunsOfDifferentKeys(rows, parts, before, i, j);
    }
  }
}
