/** Exactly when the bounce-back filter can delete without bound: for every parameter setting
    outside the bounded ones, a series that it drops trade after trade. */
module BounceBackExact {
  import opened Basics
  import opened Ordering
  import opened BounceBack
  import opened BounceBackTheorems

  function Times(x: real, n: nat): (s: seq<real>)
    ensures |s| == n && forall i :: 0 <= i < n ==> s[i] == x
  {
    seq(n, _ => x)
  }

  /** The anchors, by the collapsed kept prices of the first i trades. */
  function History(P: Params, x: seq<real>, i: nat): seq<real>
    requires i <= |x|
  {
    Collapse(Select(x[..i], Run(P, x, i).keep, true))
  }

  /** After the first i trades the collapsed kept prices are `h`, and no cooldown is on. */
  ghost predicate Reaches(P: Params, x: seq<real>, i: nat, h: seq<real>)
    requires i <= |x|
  {
    History(P, x, i) == h && Run(P, x, i).cooldown <= 0
  }

  /** One trade, by the collapsed history it meets. */
  lemma ReachesStep(P: Params, x: seq<real>, i: nat, h: seq<real>)
    requires i < |x| && Reaches(P, x, i, h)
    ensures var v := Judge(P, LastN(h, P.window), 0, x[i], Ahead(P, x, i));
      && (KeepMask(P, x)[i] <==> v.Keep?)
      && (v == Drop(true) ==> P.parOn && NearParRun(P, LastN(h, P.window)))
      && (v != Drop(true) || P.parCooldown <= 0
          ==> Reaches(P, x, i + 1, if v.Drop? || (|h| > 0 && h[|h| - 1] == x[i]) then h else h + [x[i]]))
  {
    hide Run, Select, Count, Collapse, LastN, Judge, NearParRun, KeepMask;
    var s := Run(P, x, i);
    var kept := Select(x[..i], s.keep, true);
    KeptAsJudged(P, x, i);
    RunSnoc(P, x, i);
    CollapseSnoc(kept, x[i]);
    NoCooldown(P, LastN(h, P.window), s.cooldown, x[i], Ahead(P, x, i));
  }

  lemma NoCooldown(P: Params, a: seq<real>, cooldown: int, p: real, ahead: seq<real>)
    requires cooldown <= 0
    ensures Judge(P, a, cooldown, p, ahead) == Judge(P, a, 0, p, ahead)
    ensures Judge(P, a, 0, p, ahead) == Drop(true) ==> P.parOn && NearParRun(P, a)
  {
    hide Median, NearParRun, Recovers;
  }

  lemma StartReaches(P: Params, x: seq<real>)
    ensures Reaches(P, x, 0, [])
  {
    assert x[..0] == [];
  }

  // --- sitting at a flagged price that is its own recovery evidence ---------------------------

  /** `d` is flagged at anchors `a`, counts as recovery there, and arms no cooldown. */
  ghost predicate Sticks(P: Params, a: seq<real>, d: real) {
    && |a| >= 2
    && Abs(d - Median(a)) <= P.RecoveryTol()
    && Abs(d - FlagAnchor(P, a)) > P.thresholdAbs
    && (P.parOn && NearParRun(P, a) ==> P.parCooldown <= 0)
  }

  lemma StuckVerdict(P: Params, a: seq<real>, d: real, ahead: seq<real>)
    requires Sticks(P, a, d) && |ahead| > 0 && ahead[0] == d
    ensures Judge(P, a, 0, d, ahead) == Drop(P.parOn && NearParRun(P, a))
  {
    hide Median, NearParRun;
    assert Abs(ahead[0] - Median(a)) <= P.RecoveryTol();
  }

  /** Trades at `d` from trade p on are dropped one after the other, up to the last. */
  lemma {:induction false} SittingIsDropped(P: Params, x: seq<real>, p: nat, h: seq<real>, d: real, t: nat)
    requires P.lookahead >= 1 && p <= t < |x| && (forall i :: p <= i < |x| ==> x[i] == d)
    requires Reaches(P, x, p, h) && Sticks(P, LastN(h, P.window), d)
    ensures Reaches(P, x, t, h) && AllDropped(KeepMask(P, x), p, t)
    decreases t
  {
    hide Reaches, Sticks, KeepMask, Judge, LastN;
    if p < t {
      SittingIsDropped(P, x, p, h, d, t - 1);
      ReachesStep(P, x, t - 1, h);
      var ahead := Ahead(P, x, t - 1);
      assert |ahead| > 0 && ahead[0] == x[t];
      StuckVerdict(P, LastN(h, P.window), d, ahead);
      SticksArmsNothing(P, LastN(h, P.window), d);
    }
  }

  lemma SticksArmsNothing(P: Params, a: seq<real>, d: real)
    requires Sticks(P, a, d)
    ensures P.parOn && NearParRun(P, a) ==> P.parCooldown <= 0
  {
  }

  /** Series x has a run of drops longer than the lookahead. */
  ghost predicate Excessive(P: Params, x: seq<real>) { !RunsBounded(KeepMask(P, x), P.Reach()) }

  predicate AllPositive(s: seq<real>) { forall i :: 0 <= i < |s| ==> s[i] > 0.0 }

  /** So a history at which a price sticks is enough for unbounded deletion. */
  lemma StuckIsUnbounded(P: Params, pre: seq<real>, h: seq<real>, d: real) returns (x: seq<real>)
    requires P.lookahead >= 1 && Sticks(P, LastN(h, P.window), d)
    requires Reaches(P, pre + Times(d, P.Reach() + 2), |pre|, h)
    ensures Excessive(P, x)
    ensures AllPositive(pre) && d > 0.0 ==> AllPositive(x)
  {
    x := pre + Times(d, P.Reach() + 2);
    var p := |pre|;
    hide Reaches, Sticks, KeepMask, LastN;
    SittingIsDropped(P, x, p, h, d, |x| - 1);
    assert AllDropped(KeepMask(P, x), p, |x| - 1);
    assert !RunsBounded(KeepMask(P, x), P.Reach());
  }

  // --- the median anchor: a climb in steps wider than the tolerance ---------------------------

  function Ladder(b: real, step: real, n: nat): (s: seq<real>)
    ensures |s| == n
  {
    seq(n, i => b + (i as real) * step)
  }

  ghost predicate Climbs(s: seq<real>, gap: real) {
    gap >= 0.0 && forall i, j :: 0 <= i < j < |s| ==> s[j] - s[i] > gap
  }

  lemma LadderClimbs(b: real, gap: real, n: nat)
    requires gap >= 0.0
    ensures var s := Ladder(b, gap + 1.0, n); Climbs(s, gap) && forall i :: 0 <= i < n ==> s[i] >= b
  {
    var s, step := Ladder(b, gap + 1.0, n), gap + 1.0;
    forall i, j | 0 <= i < j < n ensures s[j] - s[i] > gap {
      Rung(j - i, step);
      assert (j as real) * step - (i as real) * step == ((j - i) as real) * step;
    }
    forall i | 0 <= i < n ensures s[i] >= b {
      if i > 0 {
        Rung(i, step);
      }
    }
  }

  lemma Rung(k: int, step: real)
    requires k >= 1 && step > 0.0
    ensures (k as real) * step >= step
  {
    assert ((k as real) - 1.0) * step >= 0.0;
  }

  /** A longer climb has a higher median, and every later rung is further than `gap` above the
      median so far. */
  lemma MediansClimb(s: seq<real>, gap: real, k: nat)
    requires Climbs(s, gap) && 2 <= k <= |s|
    ensures k < |s| ==> Median(s[..k]) < Median(s)
    ensures forall j :: k <= j < |s| ==> s[j] - Median(s[..k]) > gap
  {
    hide Median;
    var a := s[..k];
    assert Sorted(a) && Sorted(s);
    MedianOfSorted(a);
    MedianOfSorted(s);
    if k < |s| {
      var i0, i1, j0, j1 := (k - 1) / 2, k / 2, (|s| - 1) / 2, |s| / 2;
      assert i0 <= j0 && i1 <= j1 && (i0 < j0 || i1 < j1);
      assert a[i0] == s[i0] && a[i1] == s[i1];
    }
    MedianBounded(a, a[0], a[k - 1]);
  }

  lemma {:induction false} ClimbCollapses(s: seq<real>)
    requires NoRepeats(s)
    ensures Collapse(s) == s
  {
    if |s| > 0 {
      ClimbCollapses(s[..|s| - 1]);
      Unsnoc(s);
    }
  }

  /** A climb is kept whole: nothing ahead is near any of its medians. */
  lemma {:induction false} ClimbIsKept(P: Params, a: seq<real>, d: real, n: nat, i: nat)
    requires Climbs(a, P.RecoveryTol()) && 2 <= |a| <= P.window && d == Median(a) + P.RecoveryTol() && i <= |a|
    ensures Reaches(P, a + Times(d, n), i, a[..i])
  {
    var x := a + Times(d, n);
    hide Reaches, Median, Judge, KeepMask;
    if i == 0 {
      StartReaches(P, x);
      assert a[..0] == [];
    } else {
      var k := i - 1;
      ClimbIsKept(P, a, d, n, k);
      ReachesStep(P, x, k, a[..k]);
      assert LastN(a[..k], P.window) == a[..k] && x[k] == a[k] && a[..i] == a[..k] + [a[k]];
      ClimbVerdict(P, a, d, n, k);
      assert k > 0 ==> a[k] - a[k - 1] > P.RecoveryTol();
    }
  }

  lemma ClimbVerdict(P: Params, a: seq<real>, d: real, n: nat, k: nat)
    requires Climbs(a, P.RecoveryTol()) && k < |a| && d == Median(a) + P.RecoveryTol()
    ensures var x := a + Times(d, n);
      Judge(P, a[..k], 0, x[k], Ahead(P, x, k)) == Keep
  {
    hide Median, NearParRun;
    var x := a + Times(d, n);
    if k >= 2 {
      MediansClimb(a, P.RecoveryTol(), k);
      var ahead := Ahead(P, x, k);
      forall t | 0 <= t < |ahead| ensures Abs(ahead[t] - Median(a[..k])) > P.RecoveryTol() {
        assert ahead[t] == x[k + 1 + t];
      }
    }
  }

  /** If the tolerance exceeds the threshold and some anchors do not snap, deletion is
      unbounded. */
  lemma MedianAnchorUnbounded(P: Params) returns (x: seq<real>)
    requires P.window >= 2 && P.lookahead >= 1 && P.RecoveryTol() >= 0.0
    requires P.RecoveryTol() > P.thresholdAbs && !AlwaysSnaps(P)
    ensures Excessive(P, x)
    ensures AllPositive(x)
  {
    var n: nat := if P.parOn && 1 - P.parMinRun > 2 then 1 - P.parMinRun else 2;
    var b := Abs(P.parLevel) + Abs(P.parBand) + 1.0;
    var a := Ladder(b, P.RecoveryTol() + 1.0, n);
    LadderClimbs(b, P.RecoveryTol(), n);
    if P.parOn {
      FarNewestIsNotNear(P, a);
    }
    hide Ladder, NearParRun, AlwaysSnaps;
    x := ClimbUnbounded(P, a);
  }

  lemma FarNewestIsNotNear(P: Params, a: seq<real>)
    requires |a| > 0 && 1 - P.parMinRun <= |a| && a[|a| - 1] > P.parLevel + P.parBand
    ensures !NearParRun(P, a)
  {
    if NearParRun(P, a) {
      NearParEntries(P, a, |a| - 1);
    }
  }

  lemma ClimbUnbounded(P: Params, a: seq<real>) returns (x: seq<real>)
    requires P.lookahead >= 1 && P.RecoveryTol() >= 0.0 && P.RecoveryTol() > P.thresholdAbs
    requires Climbs(a, P.RecoveryTol()) && 2 <= |a| <= P.window && !(P.parOn && NearParRun(P, a))
    ensures Excessive(P, x)
    ensures AllPositive(a) ==> AllPositive(x)
  {
    MedianBounded(a, a[0], a[|a| - 1]);
    var d := Median(a) + P.RecoveryTol();
    ClimbIsKept(P, a, d, P.Reach() + 2, |a|);
    assert a[..|a|] == a && LastN(a, P.window) == a;
    hide Median, NearParRun, Reaches, LastN;
    x := StuckIsUnbounded(P, a, a, d);
  }

  // --- the par anchor: each anchor repeated until the lookahead sees nothing else -------------

  /** Each price of `a`, followed by `lookahead` repeats of it. */
  function Stretch(P: Params, a: seq<real>): seq<real> {
    if |a| == 0 then [] else Stretch(P, a[..|a| - 1]) + Times(a[|a| - 1], P.Reach() + 1)
  }

  lemma {:induction false} StretchPositive(P: Params, a: seq<real>)
    requires AllPositive(a)
    ensures AllPositive(Stretch(P, a))
  {
    if |a| > 0 {
      StretchPositive(P, a[..|a| - 1]);
    }
  }

  /** Repeats of the newest price change no history, kept or dropped. */
  lemma {:induction false} RepeatsChangeNothing(P: Params, x: seq<real>, p: nat, h: seq<real>, k: nat)
    requires P.parCooldown <= 0 && p + k <= |x| && |h| > 0 && Reaches(P, x, p, h)
    requires forall i :: p <= i < p + k ==> x[i] == h[|h| - 1]
    ensures Reaches(P, x, p + k, h)
    decreases k
  {
    hide Reaches, Judge, KeepMask;
    if k > 0 {
      RepeatsChangeNothing(P, x, p, h, k - 1);
      ReachesStep(P, x, p + k - 1, h);
    }
  }

  /** The anchors short of all of `a` do not snap. */
  ghost predicate Quiet(P: Params, a: seq<real>) {
    NoRepeats(a)
    && (|a| > 2 ==> P.RecoveryTol() <= P.thresholdAbs)
    && forall k :: 2 <= k < |a| ==> !NearParRun(P, LastN(a[..k], P.window))
  }

  lemma QuietPrefix(P: Params, a: seq<real>)
    requires Quiet(P, a) && |a| > 0
    ensures Quiet(P, a[..|a| - 1])
  {
    var f := a[..|a| - 1];
    forall k | 2 <= k < |f| ensures !NearParRun(P, LastN(f[..k], P.window)) {
      assert f[..k] == a[..k];
    }
  }

  /** With only repeats of itself to look ahead to, a trade at an anchor that does not snap is
      either within the threshold or without recovery. */
  lemma FreshIsKept(P: Params, h: seq<real>, p: real, ahead: seq<real>)
    requires |h| >= 2 ==> P.RecoveryTol() <= P.thresholdAbs && !NearParRun(P, LastN(h, P.window))
    requires forall i :: 0 <= i < |ahead| ==> ahead[i] == p
    ensures Judge(P, LastN(h, P.window), 0, p, ahead) == Keep
  {
    hide Median, NearParRun;
  }

  /** The stretched series leads to the history `a`. */
  lemma {:induction false} StretchReaches(P: Params, a: seq<real>, x: seq<real>)
    requires P.parCooldown <= 0 && Quiet(P, a) && Stretch(P, a) <= x
    ensures Reaches(P, x, |Stretch(P, a)|, a)
    decreases |a|
  {
    if |a| == 0 {
      StartReaches(P, x);
    } else {
      var f, v := a[..|a| - 1], a[|a| - 1];
      var p, q := |Stretch(P, f)|, |Stretch(P, a)|;
      assert Stretch(P, a) == Stretch(P, f) + Times(v, P.Reach() + 1);
      assert forall i :: p <= i < q ==> x[i] == Stretch(P, a)[i] == v;
      assert Stretch(P, f) <= x by {
        assert x[..p] == Stretch(P, a)[..p] == Stretch(P, f);
      }
      QuietPrefix(P, a);
      hide Stretch;
      StretchReaches(P, f, x);
      StretchStep(P, a, x, p, q);
    }
  }

  lemma StretchStep(P: Params, a: seq<real>, x: seq<real>, p: nat, q: nat)
    requires P.parCooldown <= 0 && Quiet(P, a) && |a| > 0 && q == p + P.Reach() + 1 <= |x|
    requires Reaches(P, x, p, a[..|a| - 1]) && forall i :: p <= i < q ==> x[i] == a[|a| - 1]
    ensures Reaches(P, x, q, a)
  {
    hide Reaches, Judge, NearParRun, LastN, NoRepeats;
    var f, v := a[..|a| - 1], a[|a| - 1];
    var ahead := Ahead(P, x, p);
    assert forall i :: 0 <= i < |ahead| ==> ahead[i] == x[p + 1 + i] == v;
    QuietFront(P, a);
    FreshIsKept(P, f, v, ahead);
    ReachesStep(P, x, p, f);
    Unsnoc(a);
    hide Quiet, Ahead;
    RepeatsChangeNothing(P, x, p + 1, a, P.Reach());
  }

  lemma QuietFront(P: Params, a: seq<real>)
    requires Quiet(P, a) && |a| > 0
    ensures var f := a[..|a| - 1];
      && (|f| >= 2 ==> P.RecoveryTol() <= P.thresholdAbs && !NearParRun(P, LastN(f, P.window)))
      && (|f| > 0 ==> f[|f| - 1] != a[|a| - 1])
  {
    hide NearParRun, LastN;
    assert |a| > 1 ==> a[|a| - 2] != a[|a| - 1];
  }

  /** A snapping history reached quietly, with a price that sticks there, is enough. */
  lemma SnapUnbounded(P: Params, a: seq<real>, d: real) returns (x: seq<real>)
    requires P.lookahead >= 1 && P.parCooldown <= 0
    requires Quiet(P, a) && Sticks(P, LastN(a, P.window), d)
    ensures Excessive(P, x)
    ensures AllPositive(a) && d > 0.0 ==> AllPositive(x)
  {
    hide Quiet, Sticks, Stretch, LastN, Reaches;
    var pre := Stretch(P, a);
    if AllPositive(a) {
      StretchPositive(P, a);
    }
    StretchReaches(P, a, pre + Times(d, P.Reach() + 2));
    x := StuckIsUnbounded(P, pre, a, d);
  }

  // --- snapping histories ---------------------------------------------------------------------

  lemma PairMedian(u: real, v: real)
    ensures Median([u, v]) == (u + v) / 2.0
  {
    assert [u, v][1..] == [v] && Sort([v]) == [v];
    assert [v][1..] == [] && Insert(u, []) == [u];
    assert Sort([u, v]) == Insert(u, [v]) == if u <= v then [u, v] else [v, u];
  }

  /** Two anchors with the newer one anywhere the near-par test allows. */
  lemma PairUnbounded(P: Params, u: real, v: real, d: real) returns (x: seq<real>)
    requires P.window >= 2 && P.lookahead >= 1 && P.parOn && P.parCooldown <= 0 && u != v
    requires NearParRun(P, [u, v])
    requires Abs(d - (u + v) / 2.0) <= P.RecoveryTol() && Abs(d - P.parLevel) > P.thresholdAbs
    ensures Excessive(P, x)
    ensures u > 0.0 && v > 0.0 && d > 0.0 ==> AllPositive(x)
  {
    var a := [u, v];
    assert LastN(a, P.window) == a;
    PairMedian(u, v);
    hide Median, NearParRun, LastN;
    x := SnapUnbounded(P, a, d);
  }

  /** A run length below zero: the oldest entry is never asked about. */
  lemma NegativeRunUnbounded(P: Params) returns (x: seq<real>)
    requires P.window >= 2 && P.lookahead >= 1 && P.RecoveryTol() >= 0.0 && P.parOn && P.parCooldown <= 0
    requires P.parMinRun < 0 && SnapReachable(P)
    ensures Excessive(P, x)
    ensures P.parLevel > 0.0 ==> AllPositive(x)
  {
    var far := P.parLevel + 2.0 * Abs(P.thresholdAbs) + 2.0;
    var a := [far, P.parLevel];
    assert TailSlice(a, P.parMinRun) == if P.parMinRun == -1 then [P.parLevel] else [];
    x := PairUnbounded(P, far, P.parLevel, P.parLevel + Abs(P.thresholdAbs) + 1.0);
  }

  function Alternate(u: real, v: real, n: nat): (s: seq<real>)
    ensures |s| == n && forall i :: 0 <= i < n ==> s[i] == if i % 2 == 0 then u else v
  {
    seq(n, i => if i % 2 == 0 then u else v)
  }

  lemma NearAtTheEnd(P: Params, a: seq<real>, q: nat)
    requires q <= |a| && (P.parMinRun == q >= 1 || (P.parMinRun == 0 && q == |a|))
    requires forall i :: |a| - q <= i < |a| ==> Abs(a[i] - P.parLevel) <= P.parBand
    ensures NearParRun(P, a)
  {
    assert TailSlice(a, P.parMinRun) == a[|a| - q..];
  }

  lemma EdgeIsQuiet(P: Params, u: real, v: real, n: nat)
    requires n >= 2 && n <= P.window && u != v
    requires Abs(u - P.parLevel) <= P.parBand && Abs(v - P.parLevel) <= P.parBand
    requires P.parMinRun == n || (P.parMinRun == 0 && n == 2)
    requires n > 2 ==> P.RecoveryTol() <= P.thresholdAbs
    ensures var a := Alternate(u, v, n);
      Quiet(P, a) && NearParRun(P, a) && LastN(a, P.window) == a
  {
    var a := Alternate(u, v, n);
    hide Alternate;
    assert NoRepeats(a);
    NearAtTheEnd(P, a, n);
    hide NoRepeats;
    forall k | 2 <= k < n ensures !NearParRun(P, LastN(a[..k], P.window)) {
    }
  }

  /** `n` entries at the upper edge of the band: the median is as far from par as a majority
      allows. */
  lemma EdgeUnbounded(P: Params) returns (x: seq<real>)
    requires P.window >= 2 && P.lookahead >= 1 && P.RecoveryTol() >= 0.0 && P.parOn && P.parCooldown <= 0
    requires SnapReachable(P) && P.parBand > 0.0 && (P.parMinRun == 0 || P.parMinRun >= 2)
    requires P.parBand + P.RecoveryTol() > P.thresholdAbs
    requires P.parMinRun > 2 ==> P.RecoveryTol() <= P.thresholdAbs
    ensures Excessive(P, x)
    ensures P.parLevel > 0.0 ==> AllPositive(x)
  {
    var slack := (P.parBand + P.RecoveryTol() - P.thresholdAbs) / 2.0;
    var e := if slack < P.parBand then slack else P.parBand;
    var edge := P.parLevel + P.parBand;
    var n: nat := if P.parMinRun == 0 then 2 else P.parMinRun;
    x := EdgeAt(P, edge, edge - e, n);
  }

  lemma EdgeAt(P: Params, hi: real, lo: real, n: nat) returns (x: seq<real>)
    requires P.lookahead >= 1 && P.RecoveryTol() >= 0.0 && P.parOn && P.parCooldown <= 0
    requires n >= 2 && n <= P.window && lo < hi
    requires Abs(lo - P.parLevel) <= P.parBand && Abs(hi - P.parLevel) <= P.parBand
    requires lo + P.RecoveryTol() > P.parLevel + P.thresholdAbs
    requires P.parMinRun == n || (P.parMinRun == 0 && n == 2)
    requires n > 2 ==> P.RecoveryTol() <= P.thresholdAbs
    ensures Excessive(P, x)
    ensures lo > 0.0 ==> AllPositive(x)
  {
    EdgeIsQuiet(P, hi, lo, n);
    var a := Alternate(hi, lo, n);
    assert forall x :: x in a ==> lo <= x <= hi;
    EdgePositive(a, lo, hi);
    hide *;
    EdgeSticks(P, a, lo, hi);
    x := SnapUnbounded(P, a, Median(a) + P.RecoveryTol());
  }

  lemma EdgePositive(a: seq<real>, lo: real, hi: real)
    requires |a| > 0 && forall x :: x in a ==> lo <= x <= hi
    ensures lo <= Median(a) && (lo > 0.0 ==> AllPositive(a))
  {
    MedianBounded(a, lo, hi);
    forall i | 0 <= i < |a| ensures lo <= a[i] {
      assert a[i] in a;
    }
    hide Median;
  }

  lemma EdgeSticks(P: Params, a: seq<real>, lo: real, hi: real)
    requires |a| >= 2 && P.parOn && P.parCooldown <= 0 && NearParRun(P, a) && P.RecoveryTol() >= 0.0
    requires (forall x :: x in a ==> lo <= x <= hi) && lo + P.RecoveryTol() > P.parLevel + P.thresholdAbs
    ensures Sticks(P, a, Median(a) + P.RecoveryTol())
  {
    MedianBounded(a, lo, hi);
    hide Median, NearParRun;
  }

  /** Far entries, then as many near par as the test asks for. */
  function FarThenNear(P: Params, far: real, q: nat): (s: seq<real>)
    ensures |s| == 2 * q
  {
    Alternate(far, far + 1.0, q) + Alternate(P.parLevel, P.parLevel + P.parBand, q)
  }

  lemma FarThenNearIsQuiet(P: Params, far: real, q: nat)
    requires P.parMinRun == q && 1 <= q && 2 * q <= P.window && SnapReachable(P)
    requires far > P.parLevel + P.parBand && P.RecoveryTol() <= P.thresholdAbs
    ensures Quiet(P, FarThenNear(P, far, q)) && NearParRun(P, LastN(FarThenNear(P, far, q), P.window))
  {
    var a := FarThenNear(P, far, q);
    assert LastN(a, P.window) == a;
    FarThenNearEntries(P, far, q);
    NearAtTheEnd(P, a, q);
    hide FarThenNear, Alternate, NoRepeats, NearParRun, LastN;
    forall k | 2 <= k < 2 * q ensures !NearParRun(P, LastN(a[..k], P.window)) {
      FarPrefixIsNotNear(P, a, far, q, k);
    }
  }

  lemma FarThenNearEntries(P: Params, far: real, q: nat)
    requires q >= 1 && P.parBand >= 0.0 && (q >= 2 ==> P.parBand > 0.0) && far > P.parLevel + P.parBand
    ensures var a := FarThenNear(P, far, q);
      && NoRepeats(a)
      && (forall i :: 0 <= i < q ==> a[i] >= far)
      && (forall i :: q <= i < 2 * q ==> P.parLevel <= a[i] <= P.parLevel + P.parBand)
  {
    var a, u, v := FarThenNear(P, far, q), Alternate(far, far + 1.0, q), Alternate(P.parLevel, P.parLevel + P.parBand, q);
    assert a == u + v;
    hide FarThenNear, Alternate;
    forall i | 0 < i < 2 * q ensures a[i - 1] != a[i] {
      assert a[i] == if i < q then u[i] else v[i - q];
      assert a[i - 1] == if i - 1 < q then u[i - 1] else v[i - 1 - q];
    }
  }

  lemma FarPrefixIsNotNear(P: Params, a: seq<real>, far: real, q: nat, k: nat)
    requires P.parMinRun == q && 1 <= q && k < |a| == 2 * q <= P.window
    requires far > P.parLevel + P.parBand && forall i :: 0 <= i < q ==> a[i] >= far
    ensures !NearParRun(P, LastN(a[..k], P.window))
  {
    var f := a[..k];
    assert LastN(f, P.window) == f;
    if k >= q {
      assert f[k - q] == a[k - q] >= far;
      if NearParRun(P, f) {
        NearParEntries(P, f, k - q);
      }
    }
  }

  /** Where the near-par run need not be a majority, the median can be anywhere. */
  lemma MinorityUnbounded(P: Params) returns (x: seq<real>)
    requires P.window >= 2 && P.lookahead >= 1 && P.RecoveryTol() >= 0.0 && P.parOn && P.parCooldown <= 0
    requires P.RecoveryTol() <= P.thresholdAbs && P.parMinRun >= 1 && SnapReachable(P) && SnapAnywhere(P)
    ensures Excessive(P, x)
    ensures P.parLevel > 0.0 ==> AllPositive(x)
  {
    var q: nat := P.parMinRun;
    var far := P.parLevel + P.parBand + 2.0 * P.thresholdAbs + 2.0;
    var a := FarThenNear(P, far, q);
    FarThenNearEntries(P, far, q);
    FarThenNearIsQuiet(P, far, q);
    HalfLiftsMedian(a, far, P.parLevel);
    assert LastN(a, P.window) == a;
    hide Median, NearParRun, LastN, Quiet, FarThenNear;
    x := SnapUnbounded(P, a, Median(a));
  }

  /** If the par anchor is not safe, deletion is unbounded. */
  lemma ParAnchorUnbounded(P: Params) returns (x: seq<real>)
    requires P.window >= 2 && P.lookahead >= 1 && P.RecoveryTol() >= 0.0 && !SnapSafe(P)
    requires P.RecoveryTol() <= P.thresholdAbs || AlwaysSnaps(P)
    ensures Excessive(P, x)
    ensures P.parLevel > 0.0 ==> AllPositive(x)
  {
    if P.parMinRun < 0 {
      x := NegativeRunUnbounded(P);
    } else if P.parMinRun >= 1 && SnapAnywhere(P) {
      x := MinorityUnbounded(P);
    } else {
      x := EdgeUnbounded(P);
    }
  }

  /** Outside the bounded parameters there is an excessive series, of positive prices if the par
      level is one. */
  lemma UnboundedWitness(P: Params) returns (x: seq<real>)
    requires !DeletionIsBounded(P)
    ensures Excessive(P, x)
    ensures (P.parOn ==> P.parLevel > 0.0) ==> AllPositive(x)
  {
    if P.RecoveryTol() <= P.thresholdAbs || AlwaysSnaps(P) {
      x := ParAnchorUnbounded(P);
    } else {
      x := MedianAnchorUnbounded(P);
    }
  }

  /** Exactly when deletion is bounded: every series has drop runs within the lookahead iff the
      parameters pass the check. */
  lemma DeletionBoundedIff(P: Params)
    ensures (forall x :: RunsBounded(KeepMask(P, x), P.Reach())) <==> DeletionIsBounded(P)
  {
    hide RunsBounded, KeepMask;
    if DeletionIsBounded(P) {
      forall x ensures RunsBounded(KeepMask(P, x), P.Reach()) {
        DropRunsBounded(P, x);
      }
    } else {
      var x := UnboundedWitness(P);
    }
  }

  /** The same over series of positive prices, which is what the filter is given. */
  lemma DeletionBoundedOnPositivePricesIff(P: Params)
    requires P.parOn ==> P.parLevel > 0.0
    ensures (forall x :: AllPositive(x) ==> RunsBounded(KeepMask(P, x), P.Reach())) <==> DeletionIsBounded(P)
  {
    hide RunsBounded, KeepMask;
    if DeletionIsBounded(P) {
      forall x | AllPositive(x) ensures RunsBounded(KeepMask(P, x), P.Reach()) {
        DropRunsBounded(P, x);
      }
    } else {
      var x := UnboundedWitness(P);
    }
  }

  /** The repository's thresholds, whatever the cooldown: the near-par run of three is a majority
      of the window of five, and band and tolerance together fit the threshold. */
  lemma ShippedValuesBounded(parCooldown: int, x: seq<real>)
    ensures var P := Params(35.0, 5, 5, 0.25, 1.0, parCooldown, true, 100.0, 15.0, 3);
      RunsBounded(KeepMask(P, x), 5)
  {
    DropRunsBounded(Params(35.0, 5, 5, 0.25, 1.0, parCooldown, true, 100.0, 15.0, 3), x);
  }
}
