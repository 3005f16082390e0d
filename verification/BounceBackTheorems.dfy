/** What the bounce-back filter guarantees: bounded lookahead, bounded deletion, and the
    exact configurations for which deletion is bounded. */
module BounceBackTheorems {
  import opened Basics
  import opened Ordering
  import opened BounceBack

  // --- bounded lookahead --------------------------------------------------------------------

  lemma {:induction false} SamePrefixSameRun(P: Params, x: seq<real>, y: seq<real>, m: nat, i: nat)
    requires m <= |x| && m <= |y| && x[..m] == y[..m]
    requires i == 0 || i + P.Reach() <= m
    requires i <= m
    ensures Run(P, x, i) == Run(P, y, i)
  {
    if i > 0 {
      SamePrefixSameRun(P, x, y, m, i - 1);
      SameVerdict(P, x, y, m, i - 1, Run(P, x, i - 1));
      RunSnoc(P, x, i - 1);
      RunSnoc(P, y, i - 1);
      hide Run, VerdictAt;
    }
  }

  /** From the same state, the verdict on trade i needs no trade from m on. */
  lemma SameVerdict(P: Params, x: seq<real>, y: seq<real>, m: nat, i: nat, s: State)
    requires m <= |x| && m <= |y| && x[..m] == y[..m]
    requires i + 1 + P.Reach() <= m && |s.keep| == i
    ensures VerdictAt(P, x, i, s) == VerdictAt(P, y, i, s)
  {
    hide Judge, Select, Anchors;
    var r := i + 1 + P.Reach();
    assert x[..i] == x[..m][..i] && y[..i] == y[..m][..i];
    assert x[i] == x[..m][i] && y[i] == y[..m][i];
    SliceOfPrefix(x, m, i + 1, r);
    SliceOfPrefix(y, m, i + 1, r);
    assert Ahead(P, x, i) == x[i + 1..r] && Ahead(P, y, i) == y[i + 1..r];
  }

  lemma SliceOfPrefix(s: seq<real>, m: nat, i: nat, r: nat)
    requires i <= r <= m <= |s|
    ensures s[i..r] == s[..m][i..r]
  {
  }

  lemma {:induction false} RunIsPrefix(P: Params, x: seq<real>, i: nat, n: nat)
    requires i <= n <= |x|
    ensures Run(P, x, n).keep[..i] == Run(P, x, i).keep
    decreases n
  {
    hide Run, Select, Count, VerdictAt;
    if i < n {
      RunIsPrefix(P, x, i, n - 1);
      RunSnoc(P, x, n - 1);
      assert Run(P, x, n).keep[..n - 1] == Run(P, x, n - 1).keep;
      assert Run(P, x, n).keep[..i] == Run(P, x, n).keep[..n - 1][..i];
    }
  }

  /** Series that agree on their first m trades get the same decision wherever the recovery
      test ends before m, whatever follows. */
  lemma BoundedLookahead(P: Params, x: seq<real>, y: seq<real>, m: nat, i: nat)
    requires m <= |x| && m <= |y| && x[..m] == y[..m]
    requires i + 1 + P.Reach() <= m
    ensures KeepMask(P, x)[i] == KeepMask(P, y)[i]
  {
    SamePrefixSameRun(P, x, y, m, i + 1);
    RunIsPrefix(P, x, i + 1, |x|);
    RunIsPrefix(P, y, i + 1, |y|);
    assert KeepMask(P, x)[i] == KeepMask(P, x)[..i + 1][i];
    assert KeepMask(P, y)[i] == KeepMask(P, y)[..i + 1][i];
  }

  // --- first and last trades ----------------------------------------------------------------

  lemma FirstTradeKept(P: Params, x: seq<real>)
    requires |x| > 0
    ensures KeepMask(P, x)[0]
  {
    RunIsPrefix(P, x, 1, |x|);
    RunSnoc(P, x, 0);
    assert KeepMask(P, x)[0] == KeepMask(P, x)[..1][0];
    assert Run(P, x, 0) == State([], 0) && x[..0] == [];
    assert Select(x[..0], [], true) == [];
  }

  lemma LastTradeKept(P: Params, x: seq<real>)
    requires |x| > 0
    ensures KeepMask(P, x)[|x| - 1]
  {
    var n := |x| - 1;
    RunSnoc(P, x, n);
    hide Run, Select, Anchors, NearParRun, Median;
    assert Ahead(P, x, n) == [];
  }

  // --- runs of consecutive drops ------------------------------------------------------------

  ghost predicate AllDropped(mask: seq<bool>, i: nat, j: nat)
    requires j <= |mask|
  {
    forall t :: i <= t < j ==> !mask[t]
  }

  /** No run of consecutive drops is longer than `bound`. */
  ghost predicate RunsBounded(mask: seq<bool>, bound: nat) {
    forall i: nat, j: nat :: i <= j <= |mask| && AllDropped(mask, i, j) ==> j - i <= bound
  }

  /** While trades are dropped without arming a cooldown, neither the kept history nor the
      cooldown state moves. */
  lemma {:induction false} FrozenWhileDropping(P: Params, x: seq<real>, i: nat, j: nat)
    requires i <= j <= |x| && AllDropped(KeepMask(P, x), i, j)
    requires Run(P, x, i).cooldown <= 0
    requires i < j ==> VerdictAt(P, x, i, Run(P, x, i)) == Drop(false) || P.parCooldown <= 0
    ensures Select(x[..j], Run(P, x, j).keep, true) == Select(x[..i], Run(P, x, i).keep, true)
    ensures Run(P, x, j).cooldown <= 0
    decreases j
  {
    hide Select, Median, NearParRun, Recovers, LastN, Collapse, Run;
    if i < j {
      var t := j - 1;
      FrozenWhileDropping(P, x, i, t);
      RunSnoc(P, x, t);
      RunIsPrefix(P, x, j, |x|);
      assert Run(P, x, j).keep[t] == KeepMask(P, x)[..j][t] == KeepMask(P, x)[t];
    }
  }

  /** What a drop at trade i says: no cooldown was on, and a trade ahead is near the median. */
  lemma DropEvidence(P: Params, x: seq<real>, i: nat, s: State, m: real)
    requires i < |x| && |s.keep| == i && VerdictAt(P, x, i, s).Drop?
    requires m == var anchors := Anchors(P, Select(x[..i], s.keep, true)); if |anchors| == 0 then 0.0 else Median(anchors)
    ensures s.cooldown <= 0
    ensures exists j :: i < j <= i + P.Reach() && j < |x| && Abs(x[j] - m) <= P.RecoveryTol()
  {
    hide Select, NearParRun, LastN, Collapse, Run, Sort;
    var ahead := Ahead(P, x, i);
    var d :| 0 <= d < |ahead| && Abs(ahead[d] - m) <= P.RecoveryTol();
    assert x[i + 1 + d] == ahead[d];
  }

  // --- the parameters under which deletion is bounded ----------------------------------------

  /** The par snap can come on: some anchors of two or more entries, without adjacent repeats,
      are near par. */
  predicate SnapReachable(P: Params) {
    if P.parMinRun >= 2 then P.parMinRun <= P.window && P.parBand > 0.0
    else if P.parMinRun == 1 || P.parMinRun == -1 then P.parBand >= 0.0
    else P.parMinRun < 0 || P.parBand > 0.0
  }

  /** The par snap can be on with the median anywhere: the near-par run need not be a majority
      of the window. A run length below zero asks nothing of the oldest entries. */
  predicate SnapAnywhere(P: Params) {
    if P.parMinRun >= 1 then 2 * P.parMinRun <= P.window else P.parMinRun < 0
  }

  /** A run length so far below zero that no entry is ever asked about. */
  predicate AlwaysSnaps(P: Params) { P.parOn && P.window <= -P.parMinRun }

  /** At the par anchor, a flagged trade cannot be its own recovery evidence for long: a
      cooldown follows, or the snap never comes on, or it comes on only with a median so near
      par that a trade near the median is within the threshold of par. */
  predicate SnapSafe(P: Params) {
    || !P.parOn || P.parCooldown >= 1 || !SnapReachable(P)
    || (!SnapAnywhere(P) && P.parBand + P.RecoveryTol() <= P.thresholdAbs)
  }

  /** The filter cannot drop at all, or nothing passes as recovery, or neither anchor can flag
      the trades that count as recovery. */
  predicate DeletionIsBounded(P: Params) {
    || P.window < 2 || P.lookahead < 1 || P.RecoveryTol() < 0.0
    || ((P.RecoveryTol() <= P.thresholdAbs || AlwaysSnaps(P)) && SnapSafe(P))
  }

  predicate NoRepeats(s: seq<real>) { forall i :: 0 < i < |s| ==> s[i - 1] != s[i] }

  lemma {:induction false} CollapseHasNoRepeats(s: seq<real>)
    ensures NoRepeats(Collapse(s))
  {
    if |s| > 0 {
      CollapseHasNoRepeats(s[..|s| - 1]);
    }
  }

  lemma AnchorsHaveNoRepeats(P: Params, kept: seq<real>)
    ensures NoRepeats(Anchors(P, kept)) && |Anchors(P, kept)| <= P.window
  {
    hide Collapse;
    CollapseHasNoRepeats(kept);
  }

  /** The last entries of the anchors that the near-par test looks at. */
  lemma NearParEntries(P: Params, a: seq<real>, i: nat)
    requires NearParRun(P, a) && i < |a|
    requires if P.parMinRun >= 1 then i >= |a| - P.parMinRun else i >= -P.parMinRun
    ensures Abs(a[i] - P.parLevel) <= P.parBand
  {
    var tail := TailSlice(a, P.parMinRun);
    var from := if P.parMinRun >= 1 then |a| - P.parMinRun else -P.parMinRun;
    assert tail == a[from..];
    assert tail[i - from] == a[i] && a[i] in tail;
  }

  lemma SnapMeansReachable(P: Params, a: seq<real>)
    requires NoRepeats(a) && 2 <= |a| <= P.window && NearParRun(P, a)
    ensures SnapReachable(P)
  {
    if P.parMinRun >= -1 {
      NearParEntries(P, a, |a| - 1);
    }
    if P.parMinRun >= 2 || P.parMinRun == 0 {
      NearParEntries(P, a, |a| - 2);
      assert a[|a| - 2] != a[|a| - 1];
    }
  }

  /** A snap that needs a majority of the anchors keeps the median within the band. */
  lemma SnapHoldsMedian(P: Params, a: seq<real>)
    requires NoRepeats(a) && 2 <= |a| <= P.window && NearParRun(P, a) && !SnapAnywhere(P)
    ensures Abs(Median(a) - P.parLevel) <= P.parBand
  {
    var k := if P.parMinRun >= 1 then P.parMinRun else |a|;
    assert k <= |a|;
    hide Median, NearParRun;
    forall i | |a| - k <= i < |a| ensures P.parLevel - P.parBand <= a[i] <= P.parLevel + P.parBand {
      NearParEntries(P, a, i);
    }
    MajorityHoldsMedian(a, k, P.parLevel - P.parBand, P.parLevel + P.parBand);
  }

  function FlagAnchor(P: Params, a: seq<real>): real
    requires |a| > 0
  {
    if P.parOn && NearParRun(P, a) then P.parLevel else Median(a)
  }

  /** The key fact: a trade near the median is not flagged, at whichever anchor. */
  lemma RecoveryUnflagged(P: Params, a: seq<real>, p: real)
    requires DeletionIsBounded(P) && P.lookahead >= 1 && NoRepeats(a) && 2 <= |a| <= P.window
    requires P.parOn && NearParRun(P, a) ==> P.parCooldown <= 0
    requires Abs(p - Median(a)) <= P.RecoveryTol()
    ensures Abs(p - FlagAnchor(P, a)) <= P.thresholdAbs
  {
    hide Median;
    if P.parOn && NearParRun(P, a) {
      SnapMeansReachable(P, a);
      SnapHoldsMedian(P, a);
    } else {
      assert !AlwaysSnaps(P);
    }
  }

  /** So once trades are dropped at frozen anchors, a trade near their median is kept. */
  lemma NearMedianKept(P: Params, x: seq<real>, j: nat, s: State, kept: seq<real>)
    requires DeletionIsBounded(P) && P.lookahead >= 1 && j < |x| && |s.keep| == j
    requires kept == Select(x[..j], s.keep, true) && |Anchors(P, kept)| >= 2
    requires Abs(x[j] - Median(Anchors(P, kept))) <= P.RecoveryTol()
    requires P.parOn && NearParRun(P, Anchors(P, kept)) ==> P.parCooldown <= 0
    ensures VerdictAt(P, x, j, s) == Keep
  {
    AnchorsHaveNoRepeats(P, kept);
    RecoveryUnflagged(P, Anchors(P, kept), x[j]);
    hide Select, NearParRun, Anchors, Median, Recovers, DeletionIsBounded;
  }

  lemma KeptAsJudged(P: Params, x: seq<real>, i: nat)
    requires i < |x|
    ensures KeepMask(P, x)[i] <==> VerdictAt(P, x, i, Run(P, x, i)).Keep?
  {
    hide Run, Select, Count, VerdictAt;
    RunIsPrefix(P, x, i + 1, |x|);
    RunSnoc(P, x, i);
    assert KeepMask(P, x)[i] == KeepMask(P, x)[..i + 1][i];
  }

  lemma DropAnchors(P: Params, x: seq<real>, i: nat, s: State)
    requires i < |x| && |s.keep| == i && VerdictAt(P, x, i, s).Drop?
    ensures var a := Anchors(P, Select(x[..i], s.keep, true));
      |a| >= 2 && (VerdictAt(P, x, i, s) == Drop(true) <==> P.parOn && NearParRun(P, a))
  {
    hide Select, NearParRun, Anchors, Median, Recovers;
  }

  /** The key step: after a drop, a cooling trade or the recovering trade itself is kept. */
  lemma DropIsFollowedByKeep(P: Params, x: seq<real>, i: nat)
    requires i < |x| && !KeepMask(P, x)[i] && DeletionIsBounded(P)
    ensures exists j :: i < j <= i + P.Reach() && j < |x| && KeepMask(P, x)[j]
  {
    hide Select, Run, VerdictAt, Count, KeepMask, Median, Anchors, NearParRun, DeletionIsBounded;
    var s := Run(P, x, i);
    KeptAsJudged(P, x, i);
    DropAnchors(P, x, i, s);
    var kept := Select(x[..i], s.keep, true);
    var m := Median(Anchors(P, kept));
    DropEvidence(P, x, i, s, m);
    var j :| i < j <= i + P.Reach() && j < |x| && Abs(x[j] - m) <= P.RecoveryTol();
    if VerdictAt(P, x, i, s) == Drop(true) && P.parCooldown >= 1 {
      KeptAsJudged(P, x, i + 1);
      ParDropCoolsDown(P, x, i);
    } else if AllDropped(KeepMask(P, x), i, j) {
      FrozenWhileDropping(P, x, i, j);
      KeptAsJudged(P, x, j);
      NearMedianKept(P, x, j, Run(P, x, j), kept);
    } else {
      var t :| i <= t < j && KeepMask(P, x)[t];
    }
  }

  lemma ParDropCoolsDown(P: Params, x: seq<real>, i: nat)
    requires i + 1 < |x| && P.parCooldown >= 1
    requires VerdictAt(P, x, i, Run(P, x, i)) == Drop(true)
    ensures VerdictAt(P, x, i + 1, Run(P, x, i + 1)) == Keep
  {
    hide Select, NearParRun, LastN, Collapse, Run, Sort, Median, Recovers;
    RunSnoc(P, x, i);
  }

  /** Bounded deletion: no run of consecutive drops exceeds the lookahead. */
  lemma DropRunsBounded(P: Params, x: seq<real>)
    requires DeletionIsBounded(P)
    ensures RunsBounded(KeepMask(P, x), P.Reach())
  {
    hide KeepMask;
    var mask := KeepMask(P, x);
    forall i: nat, j: nat | i <= j <= |mask| && AllDropped(mask, i, j) ensures j - i <= P.Reach() {
      if i < j {
        DropIsFollowedByKeep(P, x, i);
      }
    }
  }

  function TrailingDrops(mask: seq<bool>): nat {
    if |mask| == 0 || mask[|mask| - 1] then 0 else 1 + TrailingDrops(mask[..|mask| - 1])
  }

  lemma {:induction false} TrailingRun(mask: seq<bool>)
    ensures TrailingDrops(mask) <= |mask| && AllDropped(mask, |mask| - TrailingDrops(mask), |mask|)
  {
    if !(|mask| == 0 || mask[|mask| - 1]) {
      TrailingRun(mask[..|mask| - 1]);
    }
  }

  /** Runs of drops no longer than `bound`, after a kept first trade, bound their number. */
  lemma {:induction false} BoundedRunsBoundDrops(mask: seq<bool>, bound: nat)
    requires |mask| > 0 && mask[0] && RunsBounded(mask, bound)
    ensures Count(mask, true) >= 1
    ensures Count(mask, false) <= bound * (Count(mask, true) - 1) + TrailingDrops(mask)
    ensures TrailingDrops(mask) <= bound
  {
    TrailingRun(mask);
    var n := |mask| - 1;
    if n > 0 {
      var m0 := mask[..n];
      forall i: nat, j: nat | i <= j <= |m0| && AllDropped(m0, i, j) ensures j - i <= bound {
        assert AllDropped(mask, i, j);
      }
      BoundedRunsBoundDrops(m0, bound);
      Distribute(bound, Count(m0, true));
    }
  }

  lemma Distribute(a: nat, k: nat)
    ensures a * (k + 1 - 1) == a * (k - 1) + a
  {
  }

  /** Hence at most `lookahead` drops per kept trade but one, on any non-empty series. */
  lemma DeletionBounded(P: Params, x: seq<real>)
    requires |x| > 0 && DeletionIsBounded(P)
    ensures Count(KeepMask(P, x), false) <= P.Reach() * (Count(KeepMask(P, x), true) - 1)
  {
    DropRunsBounded(P, x);
    FirstTradeKept(P, x);
    LastTradeKept(P, x);
    hide KeepMask;
    BoundedRunsBoundDrops(KeepMask(P, x), P.Reach());
  }
}
