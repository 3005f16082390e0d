/** Which trades the bounce-back filter drops, read off the prices and the decisions alone: the
    trades that stand in the window, the anchor, the cooldown and the recovery are all given by
    positions. */
module BounceBackMeaning {
  import opened Basics
  import opened Ordering
  import opened BounceBack
  import opened BounceBackTheorems

  // --- the window, by position ----------------------------------------------------------------

  ghost predicate LastKeptBefore(mask: seq<bool>, k: nat, j: nat)
    requires j <= |mask|
  {
    k < j && mask[k] && forall l :: k < l < j ==> !mask[l]
  }

  /** Trade j was kept at another price than the trade kept before it. */
  ghost predicate Entry(x: seq<real>, mask: seq<bool>, j: nat)
    requires j < |x| == |mask|
  {
    mask[j] && forall k: nat :: LastKeptBefore(mask, k, j) ==> x[k] != x[j]
  }

  ghost function EntriesBetween(x: seq<real>, mask: seq<bool>, j: nat, i: nat): set<nat>
    requires i <= |x| == |mask|
  {
    set k: nat | j < k < i && Entry(x, mask, k)
  }

  /** The trades that stand in the window before trade i: the newest `window` entries. */
  ghost function Window(P: Params, x: seq<real>, mask: seq<bool>, i: nat): set<nat>
    requires i <= |x| == |mask|
  {
    set j: nat | j < i && Entry(x, mask, j) && |EntriesBetween(x, mask, j, i)| < P.window
  }

  function Newer(w: set<nat>, j: nat): set<nat> { set k | k in w && k > j }
  function Older(w: set<nat>, j: nat): set<nat> { set k | k in w && k < j }

  /** Whether the near-par test asks about trade j of the window: it is one of the newest
      `parMinRun`, or, for a run length of m <= 0, not one of the oldest -m. */
  ghost predicate Asked(P: Params, w: set<nat>, j: nat) {
    if P.parMinRun > 0 then |Newer(w, j)| < P.parMinRun else |Older(w, j)| >= -P.parMinRun
  }

  /** The window is long enough, and every trade asked about is in the band around par. */
  ghost predicate NearPar(P: Params, x: seq<real>, mask: seq<bool>, i: nat)
    requires i <= |x| == |mask|
  {
    var w := Window(P, x, mask, i);
    && |w| >= P.parMinRun
    && forall j :: j in w && Asked(P, w, j) ==> P.parLevel - P.parBand <= x[j] <= P.parLevel + P.parBand
  }

  /** A trade dropped at the par anchor. */
  ghost predicate DroppedAtPar(P: Params, x: seq<real>, mask: seq<bool>, j: nat)
    requires j < |x| == |mask|
  {
    !mask[j] && P.parOn && NearPar(P, x, mask, j)
  }

  /** At most `parCooldown` trades ago one was dropped at par. */
  ghost predicate Cooling(P: Params, x: seq<real>, mask: seq<bool>, i: nat)
    requires i <= |x| == |mask|
  {
    exists j :: 0 <= j < i && i - j <= P.parCooldown && DroppedAtPar(P, x, mask, j)
  }

  // --- the entries are the collapsed history --------------------------------------------------

  ghost function EntryList(x: seq<real>, mask: seq<bool>, i: nat): (e: seq<nat>)
    requires i <= |x| == |mask|
    ensures forall k :: 0 <= k < |e| ==> e[k] < i
  {
    if i == 0 then []
    else EntryList(x, mask, i - 1) + (if Entry(x, mask, i - 1) then [i - 1] else [])
  }

  ghost function EntrySet(x: seq<real>, mask: seq<bool>, i: nat): set<nat>
    requires i <= |x| == |mask|
  {
    set j: nat | j < i && Entry(x, mask, j)
  }

  lemma {:induction false} EntriesListed(x: seq<real>, mask: seq<bool>, i: nat)
    requires i <= |x| == |mask|
    ensures Lists(EntryList(x, mask, i), EntrySet(x, mask, i))
  {
    if i > 0 {
      hide Entry;
      EntriesListed(x, mask, i - 1);
      var e, s := EntryList(x, mask, i - 1), EntrySet(x, mask, i - 1);
      if Entry(x, mask, i - 1) {
        ListsSnoc(e, s, i - 1);
        assert EntrySet(x, mask, i) == s + {i - 1};
      } else {
        assert EntrySet(x, mask, i) == s;
        assert EntryList(x, mask, i) == e;
      }
    }
  }

  ghost predicate EndsAt(x: seq<real>, mask: seq<bool>, i: nat, kept: seq<real>, k: nat)
    requires i <= |x| == |mask|
  {
    LastKeptBefore(mask, k, i) && |kept| > 0 && kept[|kept| - 1] == x[k]
  }

  /** The kept history is empty, or it ends with the price of the last kept trade. */
  lemma {:induction false} HistoryEnds(x: seq<real>, mask: seq<bool>, i: nat)
    requires i <= |x| == |mask|
    ensures var kept := Select(x[..i], mask[..i], true);
      if |kept| == 0 then forall k: nat :: !LastKeptBefore(mask, k, i)
      else exists k: nat :: EndsAt(x, mask, i, kept, k)
  {
    var kept := Select(x[..i], mask[..i], true);
    if i > 0 {
      HistoryEnds(x, mask, i - 1);
      assert x[..i][..i - 1] == x[..i - 1] && mask[..i][..i - 1] == mask[..i - 1];
      if mask[i - 1] {
        assert EndsAt(x, mask, i, kept, i - 1);
      } else {
        assert kept == Select(x[..i - 1], mask[..i - 1], true);
        if |kept| == 0 {
          assert forall k: nat :: LastKeptBefore(mask, k, i) ==> LastKeptBefore(mask, k, i - 1);
        } else {
          var k: nat :| EndsAt(x, mask, i - 1, kept, k);
          assert EndsAt(x, mask, i, kept, k);
        }
      }
    }
  }

  lemma LastKeptUnique(mask: seq<bool>, j: nat, k: nat, i: nat)
    requires i <= |mask| && LastKeptBefore(mask, j, i) && LastKeptBefore(mask, k, i)
    ensures j == k
  {
  }

  /** A kept trade is an entry iff its price does not repeat the end of the history. */
  lemma EntryExtends(x: seq<real>, mask: seq<bool>, i: nat)
    requires i < |x| == |mask| && mask[i]
    ensures var kept := Select(x[..i], mask[..i], true);
      Entry(x, mask, i) <==> |kept| == 0 || kept[|kept| - 1] != x[i]
  {
    HistoryEnds(x, mask, i);
    var kept := Select(x[..i], mask[..i], true);
    hide Select;
    if |kept| > 0 {
      var k: nat :| EndsAt(x, mask, i, kept, k);
      forall j: nat | LastKeptBefore(mask, j, i) ensures j == k {
        LastKeptUnique(mask, j, k, i);
      }
    }
  }

  lemma {:induction false} CollapseEnds(s: seq<real>)
    ensures |Collapse(s)| == 0 <==> |s| == 0
    ensures |s| > 0 ==> Collapse(s)[|Collapse(s)| - 1] == s[|s| - 1]
  {
  }

  lemma SelectedNext(x: seq<real>, mask: seq<bool>, i: nat)
    requires i < |x| == |mask|
    ensures Select(x[..i + 1], mask[..i + 1], true)
         == if mask[i] then Select(x[..i], mask[..i], true) + [x[i]] else Select(x[..i], mask[..i], true)
  {
    assert x[..i + 1][..i] == x[..i] && mask[..i + 1][..i] == mask[..i];
  }

  lemma EntriesNext(x: seq<real>, mask: seq<bool>, i: nat)
    requires i < |x| == |mask|
    ensures EntriesAt(x, EntryList(x, mask, i + 1))
         == if Entry(x, mask, i) then EntriesAt(x, EntryList(x, mask, i)) + [x[i]] else EntriesAt(x, EntryList(x, mask, i))
  {
    var e := EntryList(x, mask, i);
    hide Entry;
    assert e + [] == e;
  }

  lemma NoHistory(x: seq<real>, mask: seq<bool>)
    requires |x| == |mask|
    ensures Collapse(Select(x[..0], mask[..0], true)) == EntriesAt(x, EntryList(x, mask, 0))
  {
  }

  lemma HistoryStep(x: seq<real>, mask: seq<bool>, i: nat)
    requires i < |x| == |mask|
    requires Collapse(Select(x[..i], mask[..i], true)) == EntriesAt(x, EntryList(x, mask, i))
    ensures Collapse(Select(x[..i + 1], mask[..i + 1], true)) == EntriesAt(x, EntryList(x, mask, i + 1))
  {
    SelectedNext(x, mask, i);
    EntriesNext(x, mask, i);
    var kept := Select(x[..i], mask[..i], true);
    if mask[i] {
      EntryExtends(x, mask, i);
      CollapseSnoc(kept, x[i]);
      CollapseEnds(kept);
      hide *;
    } else {
      assert !Entry(x, mask, i);
      hide *;
    }
  }

  lemma {:induction false} EntriesAreHistory(x: seq<real>, mask: seq<bool>, i: nat)
    requires i <= |x| == |mask|
    ensures Collapse(Select(x[..i], mask[..i], true)) == EntriesAt(x, EntryList(x, mask, i))
  {
    hide *;
    if i > 0 {
      EntriesAreHistory(x, mask, i - 1);
      HistoryStep(x, mask, i - 1);
    } else {
      NoHistory(x, mask);
    }
  }

  // --- the window is the deque ----------------------------------------------------------------

  lemma After(q: seq<nat>, at: set<nat>, a: nat)
    requires Lists(q, at) && a < |q|
    ensures |Newer(at, q[a])| == |q| - 1 - a && |Older(at, q[a])| == a
  {
    forall k ensures (k in q[a + 1..] <==> k in Newer(at, q[a])) && (k in q[..a] <==> k in Older(at, q[a])) {
      if k in q[a + 1..] || k in q[..a] {
        assert k in q;
      }
      if k in at {
        var b :| 0 <= b < |q| && q[b] == k;
        assert b > a ==> q[a + 1..][b - a - 1] == k;
        assert b < a ==> q[..a][b] == k;
      }
    }
    ListsCount(q[a + 1..], Newer(at, q[a]));
    ListsCount(q[..a], Older(at, q[a]));
  }

  lemma NewerEntries(x: seq<real>, mask: seq<bool>, i: nat, j: nat)
    requires i <= |x| == |mask|
    ensures Newer(EntrySet(x, mask, i), j) == EntriesBetween(x, mask, j, i)
  {
    hide Entry;
  }

  ghost function WindowList(P: Params, x: seq<real>, mask: seq<bool>, i: nat): (q: seq<nat>)
    requires i <= |x| == |mask|
    ensures forall k :: 0 <= k < |q| ==> q[k] < i
  {
    var e := EntryList(x, mask, i);
    if |e| > P.window then e[|e| - P.window..] else e
  }

  lemma WindowListed(P: Params, x: seq<real>, mask: seq<bool>, i: nat)
    requires i <= |x| == |mask|
    ensures Lists(WindowList(P, x, mask, i), Window(P, x, mask, i))
  {
    var e, s := EntryList(x, mask, i), EntrySet(x, mask, i);
    EntriesListed(x, mask, i);
    var from := if |e| > P.window then |e| - P.window else 0;
    var q := WindowList(P, x, mask, i);
    assert q == e[from..];
    hide Entry, EntryList, WindowList;
    forall j ensures j in q <==> j in Window(P, x, mask, i) {
      if j in s {
        assert j in e;
        var a :| 0 <= a < |e| && e[a] == j;
        After(e, s, a);
        NewerEntries(x, mask, i, j);
        if a >= from {
          assert q[a - from] == j;
        } else {
          assert j !in q;
        }
      } else if j in q {
        assert j in e;
      }
    }
  }

  lemma AnchorsAre(P: Params, x: seq<real>, mask: seq<bool>, i: nat)
    requires i <= |x| == |mask|
    ensures Anchors(P, Select(x[..i], mask[..i], true)) == EntriesAt(x, WindowList(P, x, mask, i))
  {
    EntriesAreHistory(x, mask, i);
    hide Collapse, Select, EntryList;
  }

  /** Position k of n entries, oldest first, is one the test asks about. */
  predicate InTail(P: Params, n: nat, k: nat) { if P.parMinRun > 0 then n - 1 - k < P.parMinRun else k >= -P.parMinRun }

  lemma TailEntry(P: Params, a: seq<real>, k: nat)
    requires P.parMinRun <= |a| && k < |a|
    requires InTail(P, |a|, k)
    ensures a[k] in TailSlice(a, P.parMinRun)
  {
    var m := P.parMinRun;
    var from := if m > 0 then |a| - m else -m;
    assert TailSlice(a, m) == a[from..];
    assert a[from..][k - from] == a[k];
  }

  lemma AskedByIndex(P: Params, w: set<nat>, q: seq<nat>, k: nat)
    requires Lists(q, w) && k < |q|
    ensures Asked(P, w, q[k]) <==> InTail(P, |q|, k)
  {
    After(q, w, k);
  }

  lemma NearParMeaning(P: Params, x: seq<real>, mask: seq<bool>, i: nat)
    requires i <= |x| == |mask|
    ensures NearParRun(P, Anchors(P, Select(x[..i], mask[..i], true))) <==> NearPar(P, x, mask, i)
  {
    AnchorsAre(P, x, mask, i);
    WindowListed(P, x, mask, i);
    var q, w := WindowList(P, x, mask, i), Window(P, x, mask, i);
    ListsCount(q, w);
    var a := EntriesAt(x, q);
    hide Anchors, Select, Window, WindowList, Asked, TailSlice, NearParRun;
    if NearParRun(P, a) {
      forall j | j in w && Asked(P, w, j) ensures P.parLevel - P.parBand <= x[j] <= P.parLevel + P.parBand {
        assert j in q;
        var k :| 0 <= k < |q| && q[k] == j;
        AskedByIndex(P, w, q, k);
        NearParTail(P, a, k);
      }
    }
    if NearPar(P, x, mask, i) {
      forall k: nat | k < |a| && InTail(P, |a|, k) ensures Abs(a[k] - P.parLevel) <= P.parBand
      {
        AskedByIndex(P, w, q, k);
        assert q[k] in q;
      }
      TailNearPar(P, a);
    }
  }

  lemma NearParTail(P: Params, a: seq<real>, k: nat)
    requires NearParRun(P, a) && k < |a|
    requires InTail(P, |a|, k)
    ensures P.parLevel - P.parBand <= a[k] <= P.parLevel + P.parBand
  {
    TailEntry(P, a, k);
  }

  lemma TailNearPar(P: Params, a: seq<real>)
    requires |a| >= P.parMinRun
    requires forall k: nat :: k < |a| && InTail(P, |a|, k) ==> Abs(a[k] - P.parLevel) <= P.parBand
    ensures NearParRun(P, a)
  {
    var t := TailSlice(a, P.parMinRun);
    var from := |a| - |t|;
    assert t == a[from..];
    hide TailSlice, Abs;
    forall v | v in t ensures Abs(v - P.parLevel) <= P.parBand {
      var b: nat :| b < |t| && t[b] == v;
      assert a[from + b] == v && InTail(P, |a|, from + b);
    }
  }

  // --- the cooldown ---------------------------------------------------------------------------

  lemma MaskSoFar(P: Params, x: seq<real>, i: nat)
    requires i <= |x|
    ensures Run(P, x, i).keep == KeepMask(P, x)[..i]
  {
    RunIsPrefix(P, x, i, |x|);
  }

  lemma ParDropMeaning(P: Params, x: seq<real>, i: nat)
    requires i < |x|
    ensures VerdictAt(P, x, i, Run(P, x, i)) == Drop(true) <==> DroppedAtPar(P, x, KeepMask(P, x), i)
  {
    var mask := KeepMask(P, x);
    MaskSoFar(P, x, i);
    KeptAsJudged(P, x, i);
    NearParMeaning(P, x, mask, i);
    if VerdictAt(P, x, i, Run(P, x, i)).Drop? {
      DropAnchors(P, x, i, Run(P, x, i));
    }
    hide Run, Select, Anchors, NearParRun, NearPar, VerdictAt, KeepMask;
  }

  lemma ParDropNotCooling(P: Params, x: seq<real>, i: nat)
    requires i < |x|
    ensures VerdictAt(P, x, i, Run(P, x, i)).Drop? ==> Run(P, x, i).cooldown <= 0
  {
    hide Run, Select, Anchors, NearParRun, Median, Recovers;
  }

  /** The counter is what is left of the last par drop's cooldown. */
  ghost predicate CooledBy(P: Params, x: seq<real>, mask: seq<bool>, i: nat, left: int)
    requires i <= |x| == |mask|
  {
    && (left > 0 ==> exists j: nat :: j < i && DroppedAtPar(P, x, mask, j) && left == P.parCooldown - (i - 1 - j))
    && (forall j: nat :: j < i && DroppedAtPar(P, x, mask, j) && i - j <= P.parCooldown
          ==> left == P.parCooldown - (i - 1 - j))
  }

  lemma CooldownStep(P: Params, x: seq<real>, mask: seq<bool>, i: nat, left: int)
    requires i < |x| == |mask| && CooledBy(P, x, mask, i, left)
    requires DroppedAtPar(P, x, mask, i) ==> left <= 0
    ensures CooledBy(P, x, mask, i + 1,
      if left > 0 then left - 1 else if DroppedAtPar(P, x, mask, i) then P.parCooldown else left)
  {
    hide DroppedAtPar;
    if left > 0 {
      var j: nat :| j < i && DroppedAtPar(P, x, mask, j) && left == P.parCooldown - (i - 1 - j);
      assert left - 1 == P.parCooldown - (i + 1 - 1 - j);
    } else if DroppedAtPar(P, x, mask, i) {
      assert P.parCooldown == P.parCooldown - (i + 1 - 1 - i);
    }
  }

  lemma CooldownSnoc(P: Params, x: seq<real>, i: nat)
    requires i < |x|
    ensures var s := Run(P, x, i);
      Run(P, x, i + 1).cooldown ==
        if s.cooldown > 0 then s.cooldown - 1
        else if VerdictAt(P, x, i, s) == Drop(true) then P.parCooldown else s.cooldown
  {
    RunSnoc(P, x, i);
  }

  lemma NothingCools(P: Params, x: seq<real>)
    ensures CooledBy(P, x, KeepMask(P, x), 0, Run(P, x, 0).cooldown)
  {
  }

  lemma {:induction false} CooldownMeaning(P: Params, x: seq<real>, i: nat)
    requires i <= |x|
    ensures CooledBy(P, x, KeepMask(P, x), i, Run(P, x, i).cooldown)
  {
    hide *;
    if i > 0 {
      CooldownMeaning(P, x, i - 1);
      CooldownSnoc(P, x, i - 1);
      ParDropMeaning(P, x, i - 1);
      ParDropNotCooling(P, x, i - 1);
      CooldownStep(P, x, KeepMask(P, x), i - 1, Run(P, x, i - 1).cooldown);
    } else {
      NothingCools(P, x);
    }
  }

  lemma CoolingMeaning(P: Params, x: seq<real>, i: nat)
    requires i <= |x|
    ensures Run(P, x, i).cooldown > 0 <==> Cooling(P, x, KeepMask(P, x), i)
  {
    CooldownMeaning(P, x, i);
    hide Run, KeepMask, DroppedAtPar;
  }

  // --- which trades are dropped ---------------------------------------------------------------

  /** What trade i is measured against: par where the window is near par, else the median m. */
  ghost function AnchorOf(P: Params, x: seq<real>, mask: seq<bool>, i: nat, m: real): real
    requires i <= |x| == |mask|
  {
    if P.parOn && NearPar(P, x, mask, i) then P.parLevel else m
  }

  /** Some trade among the next `lookahead` ones is within the two tolerances of m. */
  ghost predicate ComesBack(P: Params, x: seq<real>, i: nat, m: real) {
    var tol := P.backToAnchorTol + P.candidateSlackAbs;
    exists j :: i < j <= i + P.lookahead && j < |x| && m - tol <= x[j] <= m + tol
  }

  lemma ComesBackMeaning(P: Params, x: seq<real>, i: nat, m: real)
    requires i < |x|
    ensures Recovers(P, Ahead(P, x, i), m) <==> ComesBack(P, x, i, m)
  {
    RecoveryRange(P, x, i, m);
    if ComesBack(P, x, i, m) {
      var tol := P.backToAnchorTol + P.candidateSlackAbs;
      var j :| i < j <= i + P.lookahead && j < |x| && m - tol <= x[j] <= m + tol;
      assert i + 1 <= j < i + 1 + |Ahead(P, x, i)| && Abs(x[j] - m) <= P.RecoveryTol();
    }
  }

  /** Exactly which trades are dropped. With `q` the trades that stand in the window before trade
      i and m the median of their prices, trade i is dropped iff no cooldown runs, the window
      holds two trades or more, the price is further than the threshold from the anchor, and it
      comes back near m in time. */
  lemma DroppedIff(P: Params, x: seq<real>, i: nat, q: seq<nat>)
    requires i < |x| && Lists(q, Window(P, x, KeepMask(P, x), i))
    ensures forall k :: 0 <= k < |q| ==> q[k] < i
    ensures var mask := KeepMask(P, x);
      !mask[i] <==>
        && !Cooling(P, x, mask, i)
        && |q| >= 2
        && var m := Median(EntriesAt(x, q));
           var anchor := AnchorOf(P, x, mask, i, m);
           (x[i] > anchor + P.thresholdAbs || x[i] < anchor - P.thresholdAbs) && ComesBack(P, x, i, m)
  {
    var mask := KeepMask(P, x);
    WindowListed(P, x, mask, i);
    ListsUnique(q, WindowList(P, x, mask, i), Window(P, x, mask, i));
    AnchorsAre(P, x, mask, i);
    NearParMeaning(P, x, mask, i);
    CoolingMeaning(P, x, i);
    KeptAsJudged(P, x, i);
    MaskSoFar(P, x, i);
    hide Run, Select, Anchors, NearParRun, NearPar, KeepMask, Median, Window, WindowList;
    hide Recovers, Ahead, ComesBack, Cooling;
    var a := EntriesAt(x, q);
    if |a| > 0 {
      ComesBackMeaning(P, x, i, Median(a));
    }
  }

  /** The window can always be listed. */
  lemma WindowExists(P: Params, x: seq<real>, i: nat) returns (q: seq<nat>)
    requires i <= |x|
    ensures Lists(q, Window(P, x, KeepMask(P, x), i))
  {
    WindowListed(P, x, KeepMask(P, x), i);
    q := WindowList(P, x, KeepMask(P, x), i);
  }
}
