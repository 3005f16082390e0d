/** What becomes of each record of a file, read off its own columns and the file's other records,
    and the proof that the engine's stages implement exactly that. */
module TraceFates {
  import opened Basics
  import opened TraceRows
  import opened TraceMatching
  import opened TraceStages

  // --- the fate of a record, in columns -------------------------------------------------------

  datatype Fate =
    | ByStatus | ByCancellation | ByAsof | ByWhenIssued | ByReversal | ByDuplicate | ByScreen | ByDate
    | Survives(year: int)

  /** Cells are compared as printed: a missing one prints as "nan". */
  ghost predicate SameText(a: Option<string>, b: Option<string>) {
    a == b || (a == None && b == Some("nan")) || (a == Some("nan") && b == None)
  }

  ghost predicate SameTrade(a: Row, b: Row) {
    SameText(a.bond, b.bond) && SameText(a.execDate, b.execDate) && a.price == b.price && a.vol == b.vol
  }

  ghost predicate PricedInFull(r: Row) { r.price.Finite? && r.vol.Finite? }

  /** `a` precedes `b` in the order of strings: a proper prefix, or smaller at the first difference. */
  ghost predicate Precedes(a: string, b: string) {
    exists k :: 0 <= k <= |a| && k < |b| && SplitsAt(a, b, k)
  }

  ghost predicate SplitsAt(a: string, b: string, k: nat)
    requires k <= |a| && k < |b|
  {
    a[..k] == b[..k] && (k == |a| || a[k] < b[k])
  }

  ghost predicate StatusKept(p: Profile, r: Row) {
    r.trcSt == Some("T")
    || (p.correction == KeepReplacementPre2012 && r.trcSt == Some("C")
        && r.execDate.Some? && Precedes(r.execDate.value, "2012-02-06"))
  }

  ghost predicate AsofKept(c: Config, p: Profile, r: Row) {
    r.asof == None || r.asof == Some(c.asofKeep) || (p.retainAsof && r.asof == Some("A"))
    || (p.retainAsofDx && r.asof == Some("D")) || (p.retainAsofDx && r.asof == Some("X"))
  }

  /** Record q, of another status than T, refers to record r by its message number. */
  ghost predicate Cancelling(q: Row, r: Row) {
    q.trcSt != Some("T") && q.origMsgSeq != None && q.origMsgSeq != Some("")
    && SameText(q.bond, r.bond) && SameText(q.execDate, r.execDate) && SameText(q.origMsgSeq, r.msgSeq)
  }

  /** Reversal q refers to a trade like r by its prior date, price and volume. */
  ghost predicate Reversing(q: Row, r: Row) {
    q.asof == Some("R") && q.priorDate != None && q.priorDate != Some("") && PricedInFull(q)
    && SameText(q.bond, r.bond) && SameText(q.priorDate, r.execDate) && q.price == r.price && q.vol == r.vol
  }

  ghost predicate IsCancelled(file: seq<Row>, i: nat)
    requires i < |file|
  {
    exists j :: 0 <= j < |file| && Cancelling(file[j], file[i])
  }

  /** The record passes filters 1 to 3. */
  ghost predicate Passes(c: Config, p: Profile, file: seq<Row>, i: nat)
    requires i < |file|
  {
    && StatusKept(p, file[i]) && !IsCancelled(file, i) && AsofKept(c, p, file[i])
    && (p.applyWhenIssued ==> file[i].whenIssued != Some("Y"))
  }

  ghost function ReversalsOf(file: seq<Row>, i: nat): set<nat>
    requires i < |file|
  {
    set j: nat | j < |file| && Reversing(file[j], file[i])
  }

  ghost function AlikeBefore(c: Config, p: Profile, file: seq<Row>, i: nat): set<nat>
    requires i < |file|
  {
    set j: nat | j < i && Passes(c, p, file, j) && PricedInFull(file[j]) && SameTrade(file[j], file[i])
  }

  /** Netted against a reversal: fewer passing trades like it precede it than the file has
      reversals of it. */
  ghost predicate IsReversed(c: Config, p: Profile, file: seq<Row>, i: nat)
    requires i < |file|
  {
    && p.netReversals && c.hasPriorDateColumn && PricedInFull(file[i])
    && |AlikeBefore(c, p, file, i)| < |ReversalsOf(file, i)|
  }

  ghost predicate Remains(c: Config, p: Profile, file: seq<Row>, i: nat)
    requires i < |file|
  {
    Passes(c, p, file, i) && !IsReversed(c, p, file, i)
  }

  ghost function BuysBefore(c: Config, p: Profile, file: seq<Row>, i: nat): set<nat>
    requires i < |file|
  {
    set j: nat | j < i && Remains(c, p, file, j) && file[j].side == Some("B") && SameTrade(file[j], file[i])
  }

  ghost function SellsLike(c: Config, p: Profile, file: seq<Row>, i: nat): set<nat>
    requires i < |file|
  {
    set j: nat | j < |file| && Remains(c, p, file, j) && file[j].side == Some("S") && PricedInFull(file[j])
                 && SameTrade(file[j], file[i])
  }

  /** The buy side of a trade that both dealers report: fewer remaining buys like it precede it
      than the whole file has remaining sells like it. */
  ghost predicate IsDuplicate(c: Config, p: Profile, file: seq<Row>, i: nat)
    requires i < |file|
  {
    p.dedup && file[i].side == Some("B") && |BuysBefore(c, p, file, i)| < |SellsLike(c, p, file, i)|
  }

  ghost function FateOf(c: Config, p: Profile, file: seq<Row>, i: nat): Fate
    requires i < |file|
  {
    var r := file[i];
    if !StatusKept(p, r) then ByStatus
    else if IsCancelled(file, i) then ByCancellation
    else if !AsofKept(c, p, r) then ByAsof
    else if p.applyWhenIssued && r.whenIssued == Some("Y") then ByWhenIssued
    else if IsReversed(c, p, file, i) then ByReversal
    else if IsDuplicate(c, p, file, i) then ByDuplicate
    else if p.screen.Some? && !p.screen.value(r) then ByScreen
    else match c.parseYear(r.execDate)
         case None => ByDate
         case Some(year) => Survives(year)
  }

  ghost function WithFate(c: Config, p: Profile, file: seq<Row>, f: Fate): set<nat> {
    set i: nat | i < |file| && FateOf(c, p, file, i) == f
  }

  ghost function DevelopmentRecords(c: Config, p: Profile, file: seq<Row>): set<nat> {
    set i: nat | i < |file| && FateOf(c, p, file, i).Survives? && FateOf(c, p, file, i).year < c.holdoutYear
  }

  ghost function HoldoutRecords(c: Config, p: Profile, file: seq<Row>): set<nat> {
    set i: nat | i < |file| && FateOf(c, p, file, i).Survives?
                 && c.holdoutYear <= FateOf(c, p, file, i).year <= c.holdoutEndYear
  }

  ghost function BlankRecords(c: Config, p: Profile, file: seq<Row>): set<nat> {
    set i: nat | i < |file| && FateOf(c, p, file, i).Survives? && c.blankCusip(file[i])
  }

  ghost predicate BeyondWindow(c: Config, p: Profile, file: seq<Row>, i: nat)
    requires i < |file|
  {
    FateOf(c, p, file, i).Survives? && FateOf(c, p, file, i).year > c.holdoutEndYear
  }

  ghost predicate SomeBeyondWindow(c: Config, p: Profile, file: seq<Row>) {
    exists i :: 0 <= i < |file| && BeyondWindow(c, p, file, i)
  }

  /** The two outputs hold, in file order, the surviving records dated on their side. */
  ghost predicate SidesWritten(c: Config, p: Profile, file: seq<Row>, dev: seq<Row>, hold: seq<Row>) {
    && IsPart(file, DevelopmentRecords(c, p, file), dev)
    && IsPart(file, HoldoutRecords(c, p, file), hold)
  }

  /** Every counter is the number of records with its fate. */
  ghost predicate FatesCounted(c: Config, p: Profile, file: seq<Row>, n: Counts, rep: Report) {
    && n.rawTotal == |file|
    && rep.droppedTrcSt == |WithFate(c, p, file, ByStatus)|
    && n.droppedCancelled == |WithFate(c, p, file, ByCancellation)|
    && rep.droppedAsof == |WithFate(c, p, file, ByAsof)|
    && rep.droppedWhenIssued == |WithFate(c, p, file, ByWhenIssued)|
    && n.droppedReversal == |WithFate(c, p, file, ByReversal)|
    && n.droppedDuplicate == |WithFate(c, p, file, ByDuplicate)|
    && n.droppedScreens == |WithFate(c, p, file, ByScreen)|
    && n.droppedInvalidDate == |WithFate(c, p, file, ByDate)|
    && n.development == |DevelopmentRecords(c, p, file)|
    && n.holdout == |HoldoutRecords(c, p, file)|
    && n.cusipBlank == |BlankRecords(c, p, file)|
    && n.cusipBlank + n.cusipPopulated == n.development + n.holdout == rep.finalTotal
  }

  // --- keys and columns -----------------------------------------------------------------------

  lemma TextMeaning(a: Option<string>, b: Option<string>)
    ensures AsStr(a) == AsStr(b) <==> SameText(a, b)
  {
  }

  lemma KeyMeaning(a: Row, b: Row)
    ensures Key(a) == Key(b) <==> SameTrade(a, b)
  {
    TextMeaning(a.bond, b.bond);
    TextMeaning(a.execDate, b.execDate);
  }

  lemma ReversedKeyMeaning(q: Row, r: Row)
    ensures Reverses(q) && ReversedKey(q) == Key(r) <==> Reversing(q, r)
  {
    TextMeaning(q.bond, r.bond);
    TextMeaning(q.priorDate, r.execDate);
  }

  lemma CancelMeaning(q: Row, r: Row)
    ensures Cancels(q) && CancelledKey(q) == OwnKey(r) <==> Cancelling(q, r)
  {
    TextMeaning(q.bond, r.bond);
    TextMeaning(q.execDate, r.execDate);
    TextMeaning(q.origMsgSeq, r.msgSeq);
  }

  lemma {:induction false} OrderMeaning(a: string, b: string)
    ensures StrLess(a, b) <==> Precedes(a, b)
  {
    if |a| > 0 && |b| > 0 {
      OrderMeaning(a[1..], b[1..]);
      if Precedes(a, b) {
        var k :| 0 <= k <= |a| && k < |b| && SplitsAt(a, b, k);
        if k > 0 {
          assert a[0] == a[..k][0] == b[..k][0];
          assert a[1..][..k - 1] == a[..k][1..] && b[1..][..k - 1] == b[..k][1..];
          assert SplitsAt(a[1..], b[1..], k - 1);
        }
      }
      if StrLess(a, b) {
        if a[0] < b[0] {
          assert SplitsAt(a, b, 0);
        } else {
          var k :| 0 <= k <= |a| - 1 && k < |b| - 1 && SplitsAt(a[1..], b[1..], k);
          assert a[..k + 1] == [a[0]] + a[1..][..k] && b[..k + 1] == [b[0]] + b[1..][..k];
          assert SplitsAt(a, b, k + 1);
        }
      }
    } else if |b| > 0 {
      assert SplitsAt(a, b, 0);
    }
  }

  lemma StatusMeaning(p: Profile, r: Row)
    ensures Keep1a(p, r) <==> StatusKept(p, r)
  {
    OrderMeaning(AsStr(r.execDate), REGIME_SPLIT_ISO);
    if r.execDate.None? {
      assert "nan"[0] == 'n' && "2012-02-06"[0] == '2';
      assert !StrLess("nan", "2012-02-06");
    }
    hide Precedes, StrLess;
  }

  lemma AsofMeaning(c: Config, p: Profile, r: Row)
    ensures KeepAsof(c, p, r) <==> AsofKept(c, p, r)
  {
  }

  lemma CancelledMeaning(file: seq<Row>, i: nat)
    requires i < |file|
    ensures OwnKey(file[i]) in CancelledKeys(file) <==> IsCancelled(file, i)
  {
    if OwnKey(file[i]) in CancelledKeys(file) {
      var q :| q in file && Cancels(q) && CancelledKey(q) == OwnKey(file[i]);
      var j :| 0 <= j < |file| && file[j] == q;
      CancelMeaning(file[j], file[i]);
    }
    if IsCancelled(file, i) {
      var j :| 0 <= j < |file| && Cancelling(file[j], file[i]);
      CancelMeaning(file[j], file[i]);
      assert file[j] in file;
    }
  }

  // --- stages as masks over the file ----------------------------------------------------------

  /** The positions whose row is selected, eligible, and carries the key. */
  function Carrying(file: seq<Row>, m: seq<bool>, eligible: Row -> bool, key: TradeKey, n: nat): set<nat>
    requires n <= |file| == |m|
  {
    set j: nat | j < n && m[j] && eligible(file[j]) && Key(file[j]) == key
  }

  lemma CarryingStep(file: seq<Row>, m: seq<bool>, eligible: Row -> bool, key: TradeKey, n: nat)
    requires n < |file| == |m|
    ensures |Carrying(file, m, eligible, key, n + 1)| == |Carrying(file, m, eligible, key, n)|
      + (if m[n] && eligible(file[n]) && Key(file[n]) == key then 1 else 0)
  {
    hide Key;
    CardStep(Carrying(file, m, eligible, key, n + 1), Carrying(file, m, eligible, key, n), n,
             m[n] && eligible(file[n]) && Key(file[n]) == key);
  }

  lemma SelectStep<T>(s: seq<T>, m: seq<bool>, n: nat)
    requires n < |s| == |m|
    ensures Select(s[..n + 1], m[..n + 1], true)
         == if m[n] then Select(s[..n], m[..n], true) + [s[n]] else Select(s[..n], m[..n], true)
  {
    assert s[..n + 1][..n] == s[..n] && m[..n + 1][..n] == m[..n];
  }

  lemma {:induction false} CountOfSelect(file: seq<Row>, m: seq<bool>, eligible: Row -> bool, key: TradeKey, n: nat)
    requires n <= |file| == |m|
    ensures CountKey(Select(file[..n], m[..n], true), eligible, key) == |Carrying(file, m, eligible, key, n)|
  {
    if n > 0 {
      hide Select, CountKey, Carrying;
      CountOfSelect(file, m, eligible, key, n - 1);
      CarryingStep(file, m, eligible, key, n - 1);
      SelectStep(file, m, n - 1);
      CountSnoc(Select(file[..n - 1], m[..n - 1], true), file[n - 1], eligible, key);
    }
  }

  /** The rows a greedy match leaves: selected, and not early enough among their like to be
      matched. */
  ghost function Leftover(file: seq<Row>, m: seq<bool>, pool: multiset<TradeKey>, eligible: Row -> bool): (l: seq<bool>)
    requires |file| == |m|
    ensures |l| == |file|
  {
    seq(|file|, i requires 0 <= i < |file| =>
      m[i] && !(eligible(file[i]) && |Carrying(file, m, eligible, Key(file[i]), i)| < pool[Key(file[i])]))
  }

  lemma TakeSnoc(rows: seq<Row>, r: Row, pool: multiset<TradeKey>, eligible: Row -> bool)
    ensures Take(rows + [r], pool, eligible) == TakeOne(Take(rows, pool, eligible), r, eligible)
  {
    assert (rows + [r])[..|rows|] == rows;
  }

  /** One more row: it is left iff its key's pool has been used up. */
  lemma UnmatchedSnoc(rows: seq<Row>, r: Row, pool: multiset<TradeKey>, eligible: Row -> bool)
    ensures Unmatched(rows + [r], pool, eligible) ==
      if eligible(r) && CountKey(rows, eligible, Key(r)) < pool[Key(r)]
      then Unmatched(rows, pool, eligible) else Unmatched(rows, pool, eligible) + [r]
  {
    TakeSnoc(rows, r, pool, eligible);
    PoolLeft(rows, pool, eligible, Key(r));
    var t := Take(rows, pool, eligible);
    SelectSnoc(rows, t.mask, r, eligible(r) && Key(r) in t.pool, false);
    hide Take, Select, CountKey;
  }

  lemma LeftoverAt(file: seq<Row>, m: seq<bool>, pool: multiset<TradeKey>, eligible: Row -> bool, n: nat)
    requires n < |file| == |m|
    ensures Leftover(file, m, pool, eligible)[n] == (m[n]
      && !(eligible(file[n]) && CountKey(Select(file[..n], m[..n], true), eligible, Key(file[n])) < pool[Key(file[n])]))
  {
    CountOfSelect(file, m, eligible, Key(file[n]), n);
  }

  lemma NothingSelected(file: seq<Row>, m: seq<bool>, pool: multiset<TradeKey>, eligible: Row -> bool)
    requires |file| == |m|
    ensures Select(file[..0], m[..0], true) == [] && Unmatched([], pool, eligible) == []
  {
  }

  /** The step of UnmatchedOfSelect: `before` the row, and with it. */
  lemma UnmatchedStep(file: seq<Row>, m: seq<bool>, pool: multiset<TradeKey>, eligible: Row -> bool, n: nat,
                      before: seq<Row>, left: seq<bool>)
    requires n < |file| == |m| && before == Select(file[..n], m[..n], true) && left == Leftover(file, m, pool, eligible)
    requires Unmatched(before, pool, eligible) == Select(file[..n], left[..n], true)
    ensures Unmatched(Select(file[..n + 1], m[..n + 1], true), pool, eligible) == Select(file[..n + 1], left[..n + 1], true)
  {
    SelectStep(file, m, n);
    SelectStep(file, left, n);
    LeftoverAt(file, m, pool, eligible, n);
    UnmatchedSnoc(before, file[n], pool, eligible);
    hide *;
  }

  lemma {:induction false} UnmatchedOfSelect(file: seq<Row>, m: seq<bool>, pool: multiset<TradeKey>,
                                             eligible: Row -> bool, n: nat)
    requires n <= |file| == |m|
    ensures Unmatched(Select(file[..n], m[..n], true), pool, eligible)
         == Select(file[..n], Leftover(file, m, pool, eligible)[..n], true)
  {
    hide *;
    if n > 0 {
      UnmatchedOfSelect(file, m, pool, eligible, n - 1);
      UnmatchedStep(file, m, pool, eligible, n - 1, Select(file[..n - 1], m[..n - 1], true),
                    Leftover(file, m, pool, eligible));
    } else {
      NothingSelected(file, m, pool, eligible);
      NothingSelected(file, Leftover(file, m, pool, eligible), pool, eligible);
    }
  }

  // --- the stages of a file -------------------------------------------------------------------

  ghost predicate IsStage(file: seq<Row>, m: seq<bool>, stage: seq<Row>) {
    |m| == |file| && stage == Select(file, m, true)
  }

  lemma StageFilter(file: seq<Row>, m: seq<bool>, stage: seq<Row>, f: Row -> bool, m': seq<bool>)
    requires IsStage(file, m, stage) && |m'| == |file|
    requires forall i :: 0 <= i < |file| ==> m'[i] == (m[i] && f(file[i]))
    ensures IsStage(file, m', Filter(stage, f))
  {
    FilterOfSelect(file, m, f);
    assert m' == Narrow(file, m, f);
  }

  lemma StageMatch(file: seq<Row>, m: seq<bool>, stage: seq<Row>, pool: multiset<TradeKey>, eligible: Row -> bool,
                   m': seq<bool>)
    requires IsStage(file, m, stage) && |m'| == |file|
    requires forall i :: 0 <= i < |file| ==>
      m'[i] == (m[i] && !(eligible(file[i]) && |Carrying(file, m, eligible, Key(file[i]), i)| < pool[Key(file[i])]))
    ensures IsStage(file, m', Unmatched(stage, pool, eligible))
  {
    UnmatchedOfSelect(file, m, pool, eligible, |file|);
    assert m' == Leftover(file, m, pool, eligible);
    assert file[..|file|] == file && m[..|m|] == m && m'[..|m'|] == m';
  }

  /** Up to which filter a record gets. */
  ghost predicate Reaches(c: Config, p: Profile, file: seq<Row>, i: nat, stage: nat)
    requires i < |file|
  {
    && (stage >= 1 ==> StatusKept(p, file[i]))
    && (stage >= 2 ==> !IsCancelled(file, i))
    && (stage >= 3 ==> AsofKept(c, p, file[i]))
    && (stage >= 4 ==> (p.applyWhenIssued ==> file[i].whenIssued != Some("Y")))
    && (stage >= 5 ==> !IsReversed(c, p, file, i))
    && (stage >= 6 ==> !IsDuplicate(c, p, file, i))
    && (stage >= 7 ==> (p.screen.Some? ==> p.screen.value(file[i])))
    && (stage >= 8 ==> c.parseYear(file[i].execDate).Some?)
  }

  ghost function ReachMask(c: Config, p: Profile, file: seq<Row>, stage: nat): (m: seq<bool>)
    ensures |m| == |file| && forall i: nat :: i < |file| ==> m[i] == Reaches(c, p, file, i, stage)
  {
    seq(|file|, i requires 0 <= i < |file| => Reaches(c, p, file, i, stage))
  }

  lemma FiltersAt(c: Config, p: Profile, k: Pools, file: seq<Row>)
    requires k.cancelled == CancelledKeys(file)
    ensures IsStage(file, ReachMask(c, p, file, 1), Filter(file, Keep1aMask(p)))
    ensures IsStage(file, ReachMask(c, p, file, 2), Uncancelled(p, k, file))
    ensures IsStage(file, ReachMask(c, p, file, 3), OnTime(c, p, k, file))
    ensures IsStage(file, ReachMask(c, p, file, 4), Issued(c, p, k, file))
  {
    SelectAll(file);
    hide Select, Filter, StatusKept, IsCancelled, AsofKept, Keep1a, KeepAsof, CancelledKeys;
    forall i: nat | i < |file|
      ensures Keep1a(p, file[i]) <==> StatusKept(p, file[i])
      ensures KeepAsof(c, p, file[i]) <==> AsofKept(c, p, file[i])
      ensures OwnKey(file[i]) in k.cancelled <==> IsCancelled(file, i)
    {
      StatusMeaning(p, file[i]);
      AsofMeaning(c, p, file[i]);
      CancelledMeaning(file, i);
    }
    StageFilter(file, seq(|file|, _ => true), file, Keep1aMask(p), ReachMask(c, p, file, 1));
    var s1 := Filter(file, Keep1aMask(p));
    StageFilter(file, ReachMask(c, p, file, 1), s1, NotCancelledMask(k.cancelled), ReachMask(c, p, file, 2));
    var s2 := Uncancelled(p, k, file);
    StageFilter(file, ReachMask(c, p, file, 2), s2, AsofMask(c, p), ReachMask(c, p, file, 3));
    var s3 := OnTime(c, p, k, file);
    if p.applyWhenIssued {
      StageFilter(file, ReachMask(c, p, file, 3), s3, WhenIssuedMask(), ReachMask(c, p, file, 4));
    } else {
      assert ReachMask(c, p, file, 3) == ReachMask(c, p, file, 4);
    }
  }

  /** How many reversals of a trade the file holds, as scan 1 counts them. */
  function ReversalsUpTo(file: seq<Row>, key: TradeKey, n: nat): set<nat>
    requires n <= |file|
  {
    set j: nat | j < n && Reverses(file[j]) && ReversedKey(file[j]) == key
  }

  lemma ReversalsStep(file: seq<Row>, key: TradeKey, n: nat)
    requires n < |file|
    ensures var here := Reverses(file[n]) && ReversedKey(file[n]) == key;
      && |ReversalsUpTo(file, key, n + 1)| == |ReversalsUpTo(file, key, n)| + (if here then 1 else 0)
      && ReversedKeys(file[..n + 1])[key] == ReversedKeys(file[..n])[key] + (if here then 1 else 0)
  {
    assert file[..n + 1][..n] == file[..n];
    hide Reverses, ReversedKey;
    assert ReversalsUpTo(file, key, n + 1) == ReversalsUpTo(file, key, n)
      + (if Reverses(file[n]) && ReversedKey(file[n]) == key then {n} else {});
  }

  lemma {:induction false} ReversalsCounted(file: seq<Row>, key: TradeKey, n: nat)
    requires n <= |file|
    ensures ReversedKeys(file[..n])[key] == |ReversalsUpTo(file, key, n)|
  {
    if n > 0 {
      hide *;
      ReversalsCounted(file, key, n - 1);
      ReversalsStep(file, key, n - 1);
    } else {
      assert ReversalsUpTo(file, key, 0) == {};
    }
  }

  lemma ReversalsMeaning(file: seq<Row>, i: nat)
    requires i < |file|
    ensures ReversedKeys(file)[Key(file[i])] == |ReversalsOf(file, i)|
  {
    ReversalsCounted(file, Key(file[i]), |file|);
    assert file[..|file|] == file;
    hide Reverses, ReversedKey, Key, Reversing;
    forall j: nat | j < |file|
      ensures Reverses(file[j]) && ReversedKey(file[j]) == Key(file[i]) <==> Reversing(file[j], file[i])
    {
      ReversedKeyMeaning(file[j], file[i]);
    }
    assert ReversalsUpTo(file, Key(file[i]), |file|) == ReversalsOf(file, i);
  }

  lemma AlikeMeaning(c: Config, p: Profile, file: seq<Row>, i: nat)
    requires i < |file|
    ensures Carrying(file, ReachMask(c, p, file, 4), FiniteMask(), Key(file[i]), i) == AlikeBefore(c, p, file, i)
  {
    forall j: nat | j < |file| ensures Key(file[j]) == Key(file[i]) <==> SameTrade(file[j], file[i]) {
      KeyMeaning(file[j], file[i]);
    }
    hide Key, SameTrade, StatusKept, IsCancelled, AsofKept;
  }

  lemma NettedRecord(c: Config, p: Profile, k: Pools, file: seq<Row>, i: nat)
    requires i < |file| && k.reversals == ReversalPool(c, p, file)
    ensures var m := ReachMask(c, p, file, 4);
      Reaches(c, p, file, i, 5) == (m[i] && !(FiniteMask()(file[i])
        && |Carrying(file, m, FiniteMask(), Key(file[i]), i)| < k.reversals[Key(file[i])]))
  {
    hide IsCancelled, ReversedKeys, Key, Carrying, StatusKept, AsofKept, AlikeBefore, ReversalsOf;
    AlikeMeaning(c, p, file, i);
    ReversalsMeaning(file, i);
  }

  lemma NettedAt(c: Config, p: Profile, k: Pools, file: seq<Row>)
    requires k.cancelled == CancelledKeys(file) && k.reversals == ReversalPool(c, p, file)
    ensures IsStage(file, ReachMask(c, p, file, 5), Netted(c, p, k, file))
  {
    FiltersAt(c, p, k, file);
    var m, m' := ReachMask(c, p, file, 4), ReachMask(c, p, file, 5);
    hide Select, Filter, Take, IsCancelled, ReversedKeys, CancelledKeys, Key, Carrying, StatusKept, AsofKept;
    hide AlikeBefore, ReversalsOf, Issued, IsStage, ReachMask;
    forall i: nat | i < |file|
      ensures m'[i] == (m[i] && !(FiniteMask()(file[i])
        && |Carrying(file, m, FiniteMask(), Key(file[i]), i)| < k.reversals[Key(file[i])]))
    {
      NettedRecord(c, p, k, file, i);
    }
    StageMatch(file, m, Issued(c, p, k, file), k.reversals, FiniteMask(), m');
  }

  lemma BuysMeaning(c: Config, p: Profile, file: seq<Row>, i: nat)
    requires i < |file|
    ensures Carrying(file, ReachMask(c, p, file, 5), BuyMask(), Key(file[i]), i) == BuysBefore(c, p, file, i)
    ensures Carrying(file, ReachMask(c, p, file, 5), SellMask(), Key(file[i]), |file|) == SellsLike(c, p, file, i)
  {
    forall j: nat | j < |file| ensures Key(file[j]) == Key(file[i]) <==> SameTrade(file[j], file[i]) {
      KeyMeaning(file[j], file[i]);
    }
    hide Key, SameTrade, StatusKept, IsCancelled, AsofKept, IsReversed;
  }

  lemma SellPoolMeaning(c: Config, p: Profile, file: seq<Row>, i: nat)
    requires i < |file|
    ensures FilePools(c, p, file).sells[Key(file[i])] == if p.dedup then |SellsLike(c, p, file, i)| else 0
  {
    if p.dedup {
      var k0 := PoolsBeforeSells(c, p, file);
      NettedAt(c, p, k0, file);
      var s := Netted(c, p, k0, file);
      BagCounts(s, SellMask(), Key(file[i]));
      CountOfSelect(file, ReachMask(c, p, file, 5), SellMask(), Key(file[i]), |file|);
      BuysMeaning(c, p, file, i);
      assert file[..|file|] == file && ReachMask(c, p, file, 5)[..|file|] == ReachMask(c, p, file, 5);
      hide Netted, ReachMask, Carrying, SellsLike, Key, CountKey, Bag, Select;
    }
  }

  lemma DedupedAt(c: Config, p: Profile, file: seq<Row>)
    ensures IsStage(file, ReachMask(c, p, file, 6), Deduped(c, p, FilePools(c, p, file), file))
  {
    var k := FilePools(c, p, file);
    NettedAt(c, p, k, file);
    var m, m' := ReachMask(c, p, file, 5), ReachMask(c, p, file, 6);
    hide FilePools, Key, Carrying, StatusKept, AsofKept, IsCancelled, IsReversed, BuysBefore, SellsLike, Netted, IsStage;
    forall i: nat | i < |file|
      ensures m'[i] == (m[i] && !(BuyMask()(file[i])
        && |Carrying(file, m, BuyMask(), Key(file[i]), i)| < k.sells[Key(file[i])]))
    {
      BuysMeaning(c, p, file, i);
      SellPoolMeaning(c, p, file, i);
    }
    StageMatch(file, m, Netted(c, p, k, file), k.sells, BuyMask(), m');
  }

  lemma DatedAt(c: Config, p: Profile, file: seq<Row>)
    ensures IsStage(file, ReachMask(c, p, file, 7), Screened(c, p, FilePools(c, p, file), file))
    ensures IsStage(file, ReachMask(c, p, file, 8), Dated(c, p, FilePools(c, p, file), file))
  {
    var k := FilePools(c, p, file);
    DedupedAt(c, p, file);
    hide FilePools, StatusKept, AsofKept, IsCancelled, IsReversed, IsDuplicate, Deduped, IsStage, Filter;
    if p.screen.Some? {
      StageFilter(file, ReachMask(c, p, file, 6), Deduped(c, p, k, file), p.screen.value, ReachMask(c, p, file, 7));
    } else {
      assert ReachMask(c, p, file, 6) == ReachMask(c, p, file, 7);
    }
    StageFilter(file, ReachMask(c, p, file, 7), Screened(c, p, k, file), DatedMask(c), ReachMask(c, p, file, 8));
  }

  // --- the outcome ------------------------------------------------------------------------------

  lemma SurvivesAt(c: Config, p: Profile, file: seq<Row>, i: nat)
    requires i < |file|
    ensures Reaches(c, p, file, i, 8) <==> FateOf(c, p, file, i).Survives?
    ensures FateOf(c, p, file, i).Survives? ==> Year(c, file[i]) == Some(FateOf(c, p, file, i).year)
  {
    hide StatusKept, AsofKept, IsCancelled, IsReversed, IsDuplicate;
  }

  /** Some surviving record of the file is the row r. */
  ghost predicate SomeSurvivor(c: Config, p: Profile, file: seq<Row>, r: Row) {
    exists i :: 0 <= i < |file| && file[i] == r && FateOf(c, p, file, i).Survives?
  }

  lemma DatedMember(c: Config, p: Profile, file: seq<Row>, r: Row)
    ensures r in Dated(c, p, FilePools(c, p, file), file) <==> SomeSurvivor(c, p, file, r)
  {
    var dated, m := Dated(c, p, FilePools(c, p, file), file), ReachMask(c, p, file, 8);
    DatedAt(c, p, file);
    hide Dated, FilePools, Select, FateOf, Reaches, IsPart;
    SelectIsPart(file, m, true);
    PartMember(file, At(m, true), dated, r);
    forall i: nat | i < |file| ensures i in At(m, true) <==> FateOf(c, p, file, i).Survives? {
      SurvivesAt(c, p, file, i);
    }
  }

  lemma BeyondMeaning(c: Config, p: Profile, file: seq<Row>)
    ensures (exists r :: r in Dated(c, p, FilePools(c, p, file), file) && BeyondMask(c)(r))
       <==> SomeBeyondWindow(c, p, file)
  {
    hide Dated, FilePools, FateOf;
    if r :| r in Dated(c, p, FilePools(c, p, file), file) && BeyondMask(c)(r) {
      DatedMember(c, p, file, r);
      var i :| 0 <= i < |file| && file[i] == r && FateOf(c, p, file, i).Survives?;
      SurvivesAt(c, p, file, i);
      assert BeyondWindow(c, p, file, i);
    }
    if i :| 0 <= i < |file| && BeyondWindow(c, p, file, i) {
      SurvivesAt(c, p, file, i);
      DatedMember(c, p, file, file[i]);
      assert BeyondMask(c)(file[i]);
    }
  }

  /** A filter of the dated rows, as the records it selects. */
  lemma DatedPart(c: Config, p: Profile, file: seq<Row>, f: Row -> bool, at: set<nat>)
    requires forall i: nat :: i in at <==> i < |file| && FateOf(c, p, file, i).Survives? && f(file[i])
    ensures var part := Filter(Dated(c, p, FilePools(c, p, file), file), f);
      IsPart(file, at, part) && |part| == |at|
  {
    var dated, m := Dated(c, p, FilePools(c, p, file), file), ReachMask(c, p, file, 8);
    DatedAt(c, p, file);
    FilterOfSelect(file, m, f);
    SelectIsPart(file, Narrow(file, m, f), true);
    hide Dated, FilePools, Select, FateOf, Reaches, IsPart;
    forall i: nat ensures i in At(Narrow(file, m, f), true) <==> i in at {
      if i < |file| {
        SurvivesAt(c, p, file, i);
      }
    }
    assert At(Narrow(file, m, f), true) == at;
  }

  /** Without a record beyond the window, the stages' two outputs are the two sides. */
  lemma OutputsByFate(c: Config, p: Profile, file: seq<Row>)
    requires !SomeBeyondWindow(c, p, file)
    ensures var k := FilePools(c, p, file);
      && SidesWritten(c, p, file, Development(c, p, k, file), Holdout(c, p, k, file))
      && |Development(c, p, k, file)| == |DevelopmentRecords(c, p, file)|
      && |Holdout(c, p, k, file)| == |HoldoutRecords(c, p, file)|
      && |Blank(c, p, k, file)| == |BlankRecords(c, p, file)|
  {
    hide Dated, FilePools, Filter, Reaches, IsPart;
    forall i: nat | i < |file|
      ensures FateOf(c, p, file, i).Survives? ==> Year(c, file[i]) == Some(FateOf(c, p, file, i).year)
      ensures !BeyondWindow(c, p, file, i)
    {
      SurvivesAt(c, p, file, i);
    }
    hide FateOf;
    DatedPart(c, p, file, DevMask(c), DevelopmentRecords(c, p, file));
    DatedPart(c, p, file, HoldoutMask(c), HoldoutRecords(c, p, file));
    DatedPart(c, p, file, c.blankCusip, BlankRecords(c, p, file));
  }

  /** How many records get to a filter. */
  ghost function Reaching(c: Config, p: Profile, file: seq<Row>, stage: nat): nat {
    |At(ReachMask(c, p, file, stage), true)|
  }

  /** The fate of a record that gets to filter `stage` and no further. */
  function FateAt(stage: nat): Fate {
    if stage == 0 then ByStatus else if stage == 1 then ByCancellation else if stage == 2 then ByAsof
    else if stage == 3 then ByWhenIssued else if stage == 4 then ByReversal else if stage == 5 then ByDuplicate
    else if stage == 6 then ByScreen else ByDate
  }

  lemma OneFate(c: Config, p: Profile, file: seq<Row>, i: nat, stage: nat)
    requires stage < 8 && i < |file|
    ensures Reaches(c, p, file, i, stage) && !Reaches(c, p, file, i, stage + 1) <==> FateOf(c, p, file, i) == FateAt(stage)
    ensures Reaches(c, p, file, i, stage + 1) ==> Reaches(c, p, file, i, stage)
  {
    hide StatusKept, AsofKept, IsCancelled, IsReversed, IsDuplicate;
  }

  /** What one filter removes is what has its fate. */
  lemma OneFilter(c: Config, p: Profile, file: seq<Row>, stage: nat)
    requires stage < 8
    ensures Reaching(c, p, file, stage) == Reaching(c, p, file, stage + 1) + |WithFate(c, p, file, FateAt(stage))|
  {
    var a, b := At(ReachMask(c, p, file, stage), true), At(ReachMask(c, p, file, stage + 1), true);
    var w := WithFate(c, p, file, FateAt(stage));
    hide FateOf, Reaches, FateAt;
    forall i: nat ensures (i in a <==> i in b || i in w) && !(i in b && i in w) {
      if i < |file| {
        OneFate(c, p, file, i, stage);
      }
    }
    assert a == b + w && b !! w;
  }

  lemma StageLength(file: seq<Row>, m: seq<bool>, stage: seq<Row>)
    requires IsStage(file, m, stage)
    ensures |stage| == |At(m, true)|
  {
    SelectIsPart(file, m, true);
  }

  lemma AllReach(c: Config, p: Profile, file: seq<Row>)
    ensures Reaching(c, p, file, 0) == |file|
  {
    SelectIsPart(file, ReachMask(c, p, file, 0), true);
    SelectAll(file);
    assert ReachMask(c, p, file, 0) == seq(|file|, _ => true);
  }

  lemma EarlyLengths(c: Config, p: Profile, file: seq<Row>)
    ensures var k := FilePools(c, p, file);
      && |Filter(file, Keep1aMask(p))| == Reaching(c, p, file, 1) && |Uncancelled(p, k, file)| == Reaching(c, p, file, 2)
      && |OnTime(c, p, k, file)| == Reaching(c, p, file, 3) && |Issued(c, p, k, file)| == Reaching(c, p, file, 4)
  {
    var k := FilePools(c, p, file);
    FiltersAt(c, p, k, file);
    hide FilePools, Filter, Uncancelled, OnTime, Issued, ReachMask, At, IsStage;
    StageLength(file, ReachMask(c, p, file, 1), Filter(file, Keep1aMask(p)));
    StageLength(file, ReachMask(c, p, file, 2), Uncancelled(p, k, file));
    StageLength(file, ReachMask(c, p, file, 3), OnTime(c, p, k, file));
    StageLength(file, ReachMask(c, p, file, 4), Issued(c, p, k, file));
  }

  lemma LateLengths(c: Config, p: Profile, file: seq<Row>)
    ensures var k := FilePools(c, p, file);
      && |Netted(c, p, k, file)| == Reaching(c, p, file, 5) && |Deduped(c, p, k, file)| == Reaching(c, p, file, 6)
      && |Screened(c, p, k, file)| == Reaching(c, p, file, 7) && |Dated(c, p, k, file)| == Reaching(c, p, file, 8)
  {
    var k := FilePools(c, p, file);
    NettedAt(c, p, k, file);
    DedupedAt(c, p, file);
    DatedAt(c, p, file);
    hide FilePools, Netted, Deduped, Screened, Dated, ReachMask, At, IsStage;
    StageLength(file, ReachMask(c, p, file, 5), Netted(c, p, k, file));
    StageLength(file, ReachMask(c, p, file, 6), Deduped(c, p, k, file));
    StageLength(file, ReachMask(c, p, file, 7), Screened(c, p, k, file));
    StageLength(file, ReachMask(c, p, file, 8), Dated(c, p, k, file));
  }

  /** The counters as the differences between neighbouring stages. */
  lemma CountersByStage(c: Config, p: Profile, file: seq<Row>)
    ensures var n := CountsOf(c, p, FilePools(c, p, file), file);
      && n.rawTotal == |file|
      && n.afterTrcSt == Reaching(c, p, file, 2)
      && n.droppedCancelled == Reaching(c, p, file, 1) - Reaching(c, p, file, 2)
      && n.afterAsof == Reaching(c, p, file, 3) && n.afterWhenIssued == Reaching(c, p, file, 4)
      && n.droppedReversal == Reaching(c, p, file, 4) - Reaching(c, p, file, 5)
      && n.droppedDuplicate == Reaching(c, p, file, 5) - Reaching(c, p, file, 6)
      && n.droppedScreens == Reaching(c, p, file, 6) - Reaching(c, p, file, 7)
      && n.droppedInvalidDate == Reaching(c, p, file, 7) - Reaching(c, p, file, 8)
      && n.cusipBlank + n.cusipPopulated == Reaching(c, p, file, 8)
  {
    EarlyLengths(c, p, file);
    LateLengths(c, p, file);
    hide FilePools, Filter, Uncancelled, OnTime, Issued, Netted, Deduped, Screened, Dated, Blank, Development, Holdout;
    hide Reaching;
  }

  lemma SideCounters(c: Config, p: Profile, file: seq<Row>)
    requires !SomeBeyondWindow(c, p, file)
    ensures var n := CountsOf(c, p, FilePools(c, p, file), file);
      && n.development == |DevelopmentRecords(c, p, file)| && n.holdout == |HoldoutRecords(c, p, file)|
      && n.cusipBlank == |BlankRecords(c, p, file)|
  {
    OutputsByFate(c, p, file);
    hide *;
    hide FilePools;
    CountedSides(c, p, FilePools(c, p, file), file);
  }

  lemma CountedSides(c: Config, p: Profile, k: Pools, file: seq<Row>)
    ensures var n := CountsOf(c, p, k, file);
      n.development == |Development(c, p, k, file)| && n.holdout == |Holdout(c, p, k, file)|
      && n.cusipBlank == |Blank(c, p, k, file)|
  {
    hide Filter, Select, Take;
  }

  lemma EveryFilter(c: Config, p: Profile, file: seq<Row>)
    ensures Reaching(c, p, file, 0) == |file|
    ensures Reaching(c, p, file, 0) == Reaching(c, p, file, 1) + |WithFate(c, p, file, ByStatus)|
    ensures Reaching(c, p, file, 1) == Reaching(c, p, file, 2) + |WithFate(c, p, file, ByCancellation)|
    ensures Reaching(c, p, file, 2) == Reaching(c, p, file, 3) + |WithFate(c, p, file, ByAsof)|
    ensures Reaching(c, p, file, 3) == Reaching(c, p, file, 4) + |WithFate(c, p, file, ByWhenIssued)|
    ensures Reaching(c, p, file, 4) == Reaching(c, p, file, 5) + |WithFate(c, p, file, ByReversal)|
    ensures Reaching(c, p, file, 5) == Reaching(c, p, file, 6) + |WithFate(c, p, file, ByDuplicate)|
    ensures Reaching(c, p, file, 6) == Reaching(c, p, file, 7) + |WithFate(c, p, file, ByScreen)|
    ensures Reaching(c, p, file, 7) == Reaching(c, p, file, 8) + |WithFate(c, p, file, ByDate)|
  {
    AllReach(c, p, file);
    hide Reaching, WithFate;
    OneFilter(c, p, file, 0);
    OneFilter(c, p, file, 1);
    OneFilter(c, p, file, 2);
    OneFilter(c, p, file, 3);
    OneFilter(c, p, file, 4);
    OneFilter(c, p, file, 5);
    OneFilter(c, p, file, 6);
    OneFilter(c, p, file, 7);
  }

  /** Without a record beyond the window, the counters count fates. */
  lemma CountersByFate(c: Config, p: Profile, file: seq<Row>)
    requires !SomeBeyondWindow(c, p, file)
    ensures var n := CountsOf(c, p, FilePools(c, p, file), file); FatesCounted(c, p, file, n, ReportOf(n))
  {
    hide CountsOf, FilePools, WithFate, Reaching, DevelopmentRecords, HoldoutRecords, BlankRecords, SomeBeyondWindow;
    CountersByStage(c, p, file);
    SideCounters(c, p, file);
    SidesAreAll(c, p, file);
    EveryFilter(c, p, file);
  }

  /** Without a record beyond the window, every dated row is on one side. */
  lemma SidesAreAll(c: Config, p: Profile, file: seq<Row>)
    requires !SomeBeyondWindow(c, p, file)
    ensures Reaching(c, p, file, 8) == |DevelopmentRecords(c, p, file)| + |HoldoutRecords(c, p, file)|
  {
    var d, h := DevelopmentRecords(c, p, file), HoldoutRecords(c, p, file);
    hide Reaches;
    forall i: nat | i < |file|
      ensures Reaches(c, p, file, i, 8) <==> FateOf(c, p, file, i).Survives?
      ensures !BeyondWindow(c, p, file, i)
    {
      SurvivesAt(c, p, file, i);
    }
    hide FateOf;
    assert At(ReachMask(c, p, file, 8), true) == d + h && d !! h;
  }

  /** Some surviving record of the file, dated inside the window, is the row r. */
  ghost predicate IsWritten(c: Config, p: Profile, file: seq<Row>, r: Row) {
    exists i :: 0 <= i < |file| && file[i] == r && WrittenAt(c, p, file, i)
  }

  ghost predicate WrittenAt(c: Config, p: Profile, file: seq<Row>, i: nat)
    requires i < |file|
  {
    FateOf(c, p, file, i).Survives? && FateOf(c, p, file, i).year <= c.holdoutEndYear
  }

  lemma SideRow(c: Config, p: Profile, file: seq<Row>, at: set<nat>, side: seq<Row>, r: Row) returns (i: nat)
    requires IsPart(file, at, side) && r in side
    requires forall j :: j in at ==> j < |file| && FateOf(c, p, file, j).Survives?
    ensures i in at && file[i] == r && c.parseYear(r.execDate) == Some(FateOf(c, p, file, i).year)
  {
    PartMember(file, at, side, r);
    i :| i in at && i < |file| && file[i] == r;
    SurvivesAt(c, p, file, i);
  }

  /** What the sides say of single rows: a row of the development output is dated before the holdout
      year, one of the holdout output inside the window, and together they hold exactly the rows of
      the surviving records of the file. */
  lemma SidesByDate(c: Config, p: Profile, file: seq<Row>, dev: seq<Row>, hold: seq<Row>, r: Row)
    requires SidesWritten(c, p, file, dev, hold) && !SomeBeyondWindow(c, p, file)
    ensures r in dev ==> c.parseYear(r.execDate).Some? && c.parseYear(r.execDate).value < c.holdoutYear
    ensures r in hold ==>
      c.parseYear(r.execDate).Some? && c.holdoutYear <= c.parseYear(r.execDate).value <= c.holdoutEndYear
    ensures r in dev || r in hold <==> IsWritten(c, p, file, r)
  {
    hide FateOf, IsPart;
    forall i: nat | i < |file| ensures !BeyondWindow(c, p, file, i) {
    }
    if r in dev {
      var i := SideRow(c, p, file, DevelopmentRecords(c, p, file), dev, r);
      assert !BeyondWindow(c, p, file, i) && WrittenAt(c, p, file, i);
    }
    if r in hold {
      var i := SideRow(c, p, file, HoldoutRecords(c, p, file), hold, r);
      assert WrittenAt(c, p, file, i);
    }
    if IsWritten(c, p, file, r) {
      var i :| 0 <= i < |file| && file[i] == r && WrittenAt(c, p, file, i);
      PartMember(file, DevelopmentRecords(c, p, file), dev, r);
      PartMember(file, HoldoutRecords(c, p, file), hold, r);
      assert i in DevelopmentRecords(c, p, file) || i in HoldoutRecords(c, p, file);
    }
  }
}
