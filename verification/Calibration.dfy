/** The relocator's acceptance bar: the sweep that fills the ROC table and the registered rule
    that chooses a bar from it. */
module Calibration {
  import opened Basics

  /** A usable positive: its score, whether it was located correctly, and its tier. */
  datatype Positive = Positive(score: real, locatedOk: bool, light: bool)

  datatype Recall = Recall(hits: nat, total: nat)

  datatype RocRow = RocRow(fa: nat, light: Recall, moderate: Recall)

  /** The table in the order its keys were inserted. */
  datatype Entry = Entry(bar: real, row: RocRow)

  datatype Status = BarOk | RecallFloorUnmet | NoZeroFaBar

  datatype Choice = Choice(bar: Option<real>, status: Status)

  function Accepted(scores: seq<real>, bar: real): nat {
    if |scores| == 0 then 0
    else Accepted(scores[..|scores| - 1], bar) + (if scores[|scores| - 1] >= bar then 1 else 0)
  }

  function Hits(positives: seq<Positive>, light: bool, bar: real): nat {
    if |positives| == 0 then 0
    else
      var p := positives[|positives| - 1];
      Hits(positives[..|positives| - 1], light, bar) + (if p.light == light && p.score >= bar && p.locatedOk then 1 else 0)
  }

  function InTier(positives: seq<Positive>, light: bool): nat {
    if |positives| == 0 then 0
    else InTier(positives[..|positives| - 1], light) + (if positives[|positives| - 1].light == light then 1 else 0)
  }

  function RowAt(negatives: seq<real>, positives: seq<Positive>, bar: real): RocRow {
    RocRow(Accepted(negatives, bar),
           Recall(Hits(positives, true, bar), InTier(positives, true)),
           Recall(Hits(positives, false, bar), InTier(positives, false)))
  }

  ghost predicate Swept(roc: seq<Entry>, negatives: seq<real>, positives: seq<Positive>, grid: seq<real>) {
    && |roc| == |grid|
    && forall i :: 0 <= i < |roc| ==> roc[i] == Entry(grid[i], RowAt(negatives, positives, grid[i]))
  }

  /** One bar: false accepts over the negatives, hits and totals of each tier over the positives. */
  method CountAt(negatives: seq<real>, positives: seq<Positive>, bar: real) returns (row: RocRow)
    ensures row == RowAt(negatives, positives, bar)
  {
    var fa := 0;
    for i := 0 to |negatives|
      invariant fa == Accepted(negatives[..i], bar)
    {
      assert negatives[..i + 1][..i] == negatives[..i];
      if negatives[i] >= bar {
        fa := fa + 1;
      }
    }
    assert negatives[..|negatives|] == negatives;
    var light := RecallAt(positives, true, bar);
    var moderate := RecallAt(positives, false, bar);
    row := RocRow(fa, light, moderate);
  }

  method RecallAt(positives: seq<Positive>, light: bool, bar: real) returns (r: Recall)
    ensures r == Recall(Hits(positives, light, bar), InTier(positives, light))
  {
    var k, n := 0, 0;
    for i := 0 to |positives|
      invariant k == Hits(positives[..i], light, bar) && n == InTier(positives[..i], light)
    {
      assert positives[..i + 1][..i] == positives[..i];
      var p := positives[i];
      if p.light == light {
        n := n + 1;
        if p.score >= bar && p.locatedOk {
          k := k + 1;
        }
      }
    }
    assert positives[..|positives|] == positives;
    r := Recall(k, n);
  }

  /** The sweep: one table row per grid bar. */
  method Sweep(negatives: seq<real>, positives: seq<Positive>, grid: seq<real>) returns (roc: seq<Entry>)
    ensures Swept(roc, negatives, positives, grid)
  {
    hide RowAt;
    roc := [];
    for i := 0 to |grid|
      invariant Swept(roc, negatives, positives, grid[..i])
    {
      var row := CountAt(negatives, positives, grid[i]);
      roc := roc + [Entry(grid[i], row)];
    }
    assert grid[..|grid|] == grid;
  }

  /** k / n, and 0 for an empty tier. */
  function Ratio(r: Recall): real {
    if r.total > 0 then r.hits as real / r.total as real else 0.0
  }

  predicate ZeroFa(e: Entry) { e.row.fa == 0 }

  predicate Feasible(e: Entry, floorLight: real, floorModerate: real) {
    ZeroFa(e) && Ratio(e.row.light) >= floorLight && Ratio(e.row.moderate) >= floorModerate
  }

  function ZeroFaMask(): Entry -> bool { (e: Entry) => ZeroFa(e) }

  function FeasibleMask(floorLight: real, floorModerate: real): Entry -> bool {
    (e: Entry) => Feasible(e, floorLight, floorModerate)
  }

  function MaxBar(s: seq<Entry>): real
    requires |s| > 0
  {
    if |s| == 1 then s[0].bar
    else if s[0].bar > MaxBar(s[1..]) then s[0].bar else MaxBar(s[1..])
  }

  function MinBar(s: seq<Entry>): real
    requires |s| > 0
  {
    if |s| == 1 then s[0].bar
    else if s[0].bar < MinBar(s[1..]) then s[0].bar else MinBar(s[1..])
  }

  /** The registered rule. */
  function ChooseBar(roc: seq<Entry>, floorLight: real, floorModerate: real): Choice {
    var zeroFa := Filter(roc, ZeroFaMask());
    if |zeroFa| == 0 then Choice(None, NoZeroFaBar)
    else
      var feasible := Filter(zeroFa, FeasibleMask(floorLight, floorModerate));
      if |feasible| > 0 then Choice(Some(MaxBar(feasible)), BarOk)
      else Choice(Some(MinBar(zeroFa)), RecallFloorUnmet)
  }

  // --- extremes -----------------------------------------------------------------------------

  lemma {:induction false} MaxBarIsMax(s: seq<Entry>)
    requires |s| > 0
    ensures exists i :: 0 <= i < |s| && s[i].bar == MaxBar(s)
    ensures forall i :: 0 <= i < |s| ==> s[i].bar <= MaxBar(s)
  {
    if |s| > 1 {
      MaxBarIsMax(s[1..]);
      var i :| 0 <= i < |s| - 1 && s[1..][i].bar == MaxBar(s[1..]);
      assert s[i + 1].bar == MaxBar(s[1..]);
      assert s[0].bar == MaxBar(s) || s[i + 1].bar == MaxBar(s);
      assert forall k :: 1 <= k < |s| ==> s[k] == s[1..][k - 1];
    } else {
      assert s[0].bar == MaxBar(s);
    }
  }

  lemma {:induction false} MinBarIsMin(s: seq<Entry>)
    requires |s| > 0
    ensures exists i :: 0 <= i < |s| && s[i].bar == MinBar(s)
    ensures forall i :: 0 <= i < |s| ==> MinBar(s) <= s[i].bar
  {
    if |s| > 1 {
      MinBarIsMin(s[1..]);
      var i :| 0 <= i < |s| - 1 && s[1..][i].bar == MinBar(s[1..]);
      assert s[i + 1].bar == MinBar(s[1..]);
      assert s[0].bar == MinBar(s) || s[i + 1].bar == MinBar(s);
      assert forall k :: 1 <= k < |s| ==> s[k] == s[1..][k - 1];
    } else {
      assert s[0].bar == MinBar(s);
    }
  }

  // --- the sweep is antitone ------------------------------------------------------------------

  lemma {:induction false} AcceptedAntitone(scores: seq<real>, a: real, b: real)
    requires a <= b
    ensures Accepted(scores, b) <= Accepted(scores, a)
  {
    if |scores| > 0 {
      AcceptedAntitone(scores[..|scores| - 1], a, b);
    }
  }

  lemma {:induction false} HitsAntitone(positives: seq<Positive>, light: bool, a: real, b: real)
    requires a <= b
    ensures Hits(positives, light, b) <= Hits(positives, light, a)
  {
    if |positives| > 0 {
      HitsAntitone(positives[..|positives| - 1], light, a, b);
    }
  }

  lemma RatioMonotone(a: Recall, b: Recall)
    requires a.total == b.total && a.hits <= b.hits
    ensures Ratio(a) <= Ratio(b)
  {
    if a.total > 0 {
      QuotientsInOrder(a.hits as real, b.hits as real, a.total as real);
    }
  }

  lemma QuotientsInOrder(x: real, y: real, n: real)
    requires n > 0.0 && x <= y
    ensures x / n <= y / n
  {
    var p, q := x / n, y / n;
    assert p * n == x && q * n == y;
    if p > q {
      ProductPositive(p - q, n);
    }
  }

  lemma ProductPositive(a: real, b: real)
    requires a > 0.0 && b > 0.0
    ensures a * b > 0.0
  {
  }

  /** Raising the bar lowers false accepts and both recalls. */
  lemma RaisingTheBar(negatives: seq<real>, positives: seq<Positive>, a: real, b: real)
    requires a <= b
    ensures var ra, rb := RowAt(negatives, positives, a), RowAt(negatives, positives, b);
      rb.fa <= ra.fa && Ratio(rb.light) <= Ratio(ra.light) && Ratio(rb.moderate) <= Ratio(ra.moderate)
  {
    AcceptedAntitone(negatives, a, b);
    HitsAntitone(positives, true, a, b);
    HitsAntitone(positives, false, a, b);
    RatioMonotone(RowAt(negatives, positives, b).light, RowAt(negatives, positives, a).light);
    RatioMonotone(RowAt(negatives, positives, b).moderate, RowAt(negatives, positives, a).moderate);
  }

  /** `max(scores, default=0.0)` */
  function FaCeiling(scores: seq<real>): real {
    if |scores| == 0 then 0.0
    else if |scores| == 1 then scores[0]
    else
      var m := FaCeiling(scores[..|scores| - 1]);
      if scores[|scores| - 1] > m then scores[|scores| - 1] else m
  }

  /** With negatives present, a bar has no false accept iff it lies above the reported ceiling;
      with none, every bar has none. */
  lemma {:induction false} ZeroFaIffAboveCeiling(negatives: seq<real>, bar: real)
    ensures Accepted(negatives, bar) == 0 <==> |negatives| == 0 || bar > FaCeiling(negatives)
  {
    if |negatives| > 0 {
      ZeroFaIffAboveCeiling(negatives[..|negatives| - 1], bar);
    }
  }

  // --- the chosen bar -------------------------------------------------------------------------

  ghost predicate GridBar(roc: seq<Entry>, bar: real, e: Entry) { e in roc && e.bar == bar }

  /** What the rule returns, on any table: the greatest feasible bar, else the least bar without
      a false accept, else nothing. */
  lemma ChoiceMeaning(roc: seq<Entry>, floorLight: real, floorModerate: real)
    ensures var c := ChooseBar(roc, floorLight, floorModerate);
      && (c.status == BarOk <==> exists e :: e in roc && Feasible(e, floorLight, floorModerate))
      && (c.status == NoZeroFaBar <==> forall e :: e in roc ==> !ZeroFa(e))
      && (c.status == NoZeroFaBar <==> c.bar == None)
      && (c.status == BarOk ==>
            && (exists e :: GridBar(roc, c.bar.value, e) && Feasible(e, floorLight, floorModerate))
            && (forall e :: e in roc && Feasible(e, floorLight, floorModerate) ==> e.bar <= c.bar.value))
      && (c.status == RecallFloorUnmet ==>
            && (exists e :: GridBar(roc, c.bar.value, e) && ZeroFa(e))
            && (forall e :: e in roc && ZeroFa(e) ==> c.bar.value <= e.bar))
  {
    hide Ratio;
    var zeroFa := Filter(roc, ZeroFaMask());
    var feasible := Filter(zeroFa, FeasibleMask(floorLight, floorModerate));
    forall e ensures (e in zeroFa <==> e in roc && ZeroFa(e))
                  && (e in feasible <==> e in roc && Feasible(e, floorLight, floorModerate)) {
      FilterMember(roc, ZeroFaMask(), e);
      FilterMember(zeroFa, FeasibleMask(floorLight, floorModerate), e);
    }
    hide Filter;
    if |feasible| > 0 {
      MaxBarIsMax(feasible);
      assert feasible[0] in feasible;
      var i :| 0 <= i < |feasible| && feasible[i].bar == MaxBar(feasible);
      assert feasible[i] in feasible && GridBar(roc, MaxBar(feasible), feasible[i]);
    }
    if |zeroFa| > 0 {
      MinBarIsMin(zeroFa);
      assert zeroFa[0] in zeroFa;
      var i :| 0 <= i < |zeroFa| && zeroFa[i].bar == MinBar(zeroFa);
      assert zeroFa[i] in zeroFa && GridBar(roc, MinBar(zeroFa), zeroFa[i]);
    }
  }

  lemma SweptRow(roc: seq<Entry>, negatives: seq<real>, positives: seq<Positive>, grid: seq<real>, e: Entry)
    requires Swept(roc, negatives, positives, grid) && e in roc
    ensures e.bar in grid && e.row == RowAt(negatives, positives, e.bar)
  {
  }

  /** On a swept table the feasible bars are an interval of the zero-false-accept bars: exactly
      those up to the chosen one. */
  lemma FeasibleBarsAreAnInterval(roc: seq<Entry>, negatives: seq<real>, positives: seq<Positive>, grid: seq<real>,
                                  floorLight: real, floorModerate: real, e: Entry)
    requires Swept(roc, negatives, positives, grid) && e in roc
    requires ChooseBar(roc, floorLight, floorModerate).status == BarOk
    ensures Feasible(e, floorLight, floorModerate)
       <==> ZeroFa(e) && e.bar <= ChooseBar(roc, floorLight, floorModerate).bar.value
  {
    ChoiceMeaning(roc, floorLight, floorModerate);
    hide ChooseBar, RowAt, Ratio;
    var c := ChooseBar(roc, floorLight, floorModerate);
    var best :| GridBar(roc, c.bar.value, best) && Feasible(best, floorLight, floorModerate);
    SweptRow(roc, negatives, positives, grid, e);
    SweptRow(roc, negatives, positives, grid, best);
    if e.bar <= best.bar {
      RaisingTheBar(negatives, positives, e.bar, best.bar);
    }
  }

  /** When no bar meets the floors, the returned bar has the greatest recall of both tiers among
      the bars without a false accept. */
  lemma UnmetBarHasGreatestRecall(roc: seq<Entry>, negatives: seq<real>, positives: seq<Positive>, grid: seq<real>,
                                  floorLight: real, floorModerate: real, e: Entry)
    requires Swept(roc, negatives, positives, grid) && e in roc && ZeroFa(e)
    requires ChooseBar(roc, floorLight, floorModerate).status == RecallFloorUnmet
    ensures var b := ChooseBar(roc, floorLight, floorModerate).bar.value;
      var row := RowAt(negatives, positives, b);
      row.fa == 0 && Ratio(e.row.light) <= Ratio(row.light) && Ratio(e.row.moderate) <= Ratio(row.moderate)
  {
    ChoiceMeaning(roc, floorLight, floorModerate);
    hide ChooseBar, RowAt, Ratio;
    var c := ChooseBar(roc, floorLight, floorModerate);
    var least :| GridBar(roc, c.bar.value, least) && ZeroFa(least);
    SweptRow(roc, negatives, positives, grid, e);
    SweptRow(roc, negatives, positives, grid, least);
    RaisingTheBar(negatives, positives, least.bar, e.bar);
  }

  // --- the choice, from the scores ------------------------------------------------------------

  /** No negative reaches the bar. */
  ghost predicate Clean(negatives: seq<real>, bar: real) {
    forall i :: 0 <= i < |negatives| ==> negatives[i] < bar
  }

  function TierOf(positives: seq<Positive>, light: bool): set<nat> {
    set i: nat | i < |positives| && positives[i].light == light
  }

  /** The positives of the tier that are located correctly with a score of at least the bar. */
  function LocatedOf(positives: seq<Positive>, light: bool, bar: real): set<nat> {
    set i: nat | i < |positives| && positives[i].light == light && positives[i].locatedOk && positives[i].score >= bar
  }

  /** The tier's recall reaches the floor; an empty tier has a recall of zero. */
  predicate Reaches(positives: seq<Positive>, light: bool, bar: real, floor: real) {
    if |TierOf(positives, light)| == 0 then floor <= 0.0
    else |LocatedOf(positives, light, bar)| as real >= floor * (|TierOf(positives, light)| as real)
  }

  ghost predicate Acceptable(negatives: seq<real>, positives: seq<Positive>, bar: real,
                             floorLight: real, floorModerate: real)
  {
    && Clean(negatives, bar)
    && Reaches(positives, true, bar, floorLight) && Reaches(positives, false, bar, floorModerate)
  }

  lemma {:induction false} NoneAccepted(scores: seq<real>, bar: real)
    ensures Accepted(scores, bar) == 0 <==> Clean(scores, bar)
  {
    if |scores| > 0 {
      var n := |scores| - 1;
      NoneAccepted(scores[..n], bar);
      assert Clean(scores, bar) <==> Clean(scores[..n], bar) && scores[n] < bar by {
        assert forall i :: 0 <= i < n ==> scores[..n][i] == scores[i];
      }
    }
  }

  lemma {:induction false} TierCounted(positives: seq<Positive>, light: bool)
    ensures InTier(positives, light) == |TierOf(positives, light)|
  {
    if |positives| > 0 {
      var n := |positives| - 1;
      TierCounted(positives[..n], light);
      assert TierOf(positives, light) == TierOf(positives[..n], light) + (if positives[n].light == light then {n} else {});
    } else {
      assert TierOf(positives, light) == {};
    }
  }

  lemma {:induction false} HitsCounted(positives: seq<Positive>, light: bool, bar: real)
    ensures Hits(positives, light, bar) == |LocatedOf(positives, light, bar)|
  {
    if |positives| > 0 {
      var n, p := |positives| - 1, positives[|positives| - 1];
      HitsCounted(positives[..n], light, bar);
      CardStep(LocatedOf(positives, light, bar), LocatedOf(positives[..n], light, bar), n,
               p.light == light && p.locatedOk && p.score >= bar);
    } else {
      assert LocatedOf(positives, light, bar) == {};
    }
  }

  lemma QuotientReaches(x: real, n: real, floor: real)
    requires n > 0.0
    ensures x / n >= floor <==> x >= floor * n
  {
    var q := x / n;
    assert q * n == x;
    if q >= floor {
      assert (q - floor) * n >= 0.0;
    } else {
      ProductPositive(floor - q, n);
    }
  }

  lemma RecallMeaning(positives: seq<Positive>, light: bool, bar: real, floor: real)
    ensures Ratio(Recall(Hits(positives, light, bar), InTier(positives, light))) >= floor
       <==> Reaches(positives, light, bar, floor)
  {
    TierCounted(positives, light);
    HitsCounted(positives, light, bar);
    hide Hits, InTier, TierOf, LocatedOf;
    var n := InTier(positives, light);
    if n > 0 {
      QuotientReaches(Hits(positives, light, bar) as real, n as real, floor);
    }
  }

  lemma RowMeaning(negatives: seq<real>, positives: seq<Positive>, e: Entry, floorLight: real, floorModerate: real)
    requires e.row == RowAt(negatives, positives, e.bar)
    ensures ZeroFa(e) <==> Clean(negatives, e.bar)
    ensures Feasible(e, floorLight, floorModerate) <==> Acceptable(negatives, positives, e.bar, floorLight, floorModerate)
  {
    NoneAccepted(negatives, e.bar);
    RecallMeaning(positives, true, e.bar, floorLight);
    RecallMeaning(positives, false, e.bar, floorModerate);
    hide Accepted, Hits, InTier, Ratio, Reaches, Clean;
  }

  lemma BarSwept(roc: seq<Entry>, negatives: seq<real>, positives: seq<Positive>, grid: seq<real>, bar: real)
    returns (e: Entry)
    requires Swept(roc, negatives, positives, grid) && bar in grid
    ensures e in roc && e.bar == bar && e.row == RowAt(negatives, positives, bar)
  {
    var i :| 0 <= i < |grid| && grid[i] == bar;
    e := roc[i];
  }

  /** What the chosen bar is, from the scores and the grid alone: the greatest bar that no negative
      reaches and at which both tiers' recalls reach their floors; failing that, the least bar that
      no negative reaches; failing that, none. */
  lemma ChoiceFromScores(roc: seq<Entry>, negatives: seq<real>, positives: seq<Positive>, grid: seq<real>,
                         floorLight: real, floorModerate: real)
    requires Swept(roc, negatives, positives, grid)
    ensures var c := ChooseBar(roc, floorLight, floorModerate);
      match c
      case Choice(Some(bar), BarOk) =>
        && bar in grid && Acceptable(negatives, positives, bar, floorLight, floorModerate)
        && forall b :: b in grid && Acceptable(negatives, positives, b, floorLight, floorModerate) ==> b <= bar
      case Choice(Some(bar), RecallFloorUnmet) =>
        && bar in grid && Clean(negatives, bar)
        && (forall b :: b in grid ==> !Acceptable(negatives, positives, b, floorLight, floorModerate))
        && (forall b :: b in grid && Clean(negatives, b) ==> bar <= b)
      case Choice(None, NoZeroFaBar) => forall b :: b in grid ==> !Clean(negatives, b)
      case _ => false
  {
    ChoiceMeaning(roc, floorLight, floorModerate);
    hide ChooseBar, RowAt, Acceptable, Feasible, ZeroFa, Clean;
    forall b | b in grid
      ensures exists e :: (&& GridBar(roc, b, e) && (ZeroFa(e) <==> Clean(negatives, b))
        && (Feasible(e, floorLight, floorModerate) <==> Acceptable(negatives, positives, b, floorLight, floorModerate)))
    {
      var e := BarSwept(roc, negatives, positives, grid, b);
      RowMeaning(negatives, positives, e, floorLight, floorModerate);
      assert GridBar(roc, b, e);
    }
    forall e | e in roc
      ensures e.bar in grid && (ZeroFa(e) <==> Clean(negatives, e.bar))
      ensures Feasible(e, floorLight, floorModerate) <==> Acceptable(negatives, positives, e.bar, floorLight, floorModerate)
    {
      SweptRow(roc, negatives, positives, grid, e);
      RowMeaning(negatives, positives, e, floorLight, floorModerate);
    }
  }
}
