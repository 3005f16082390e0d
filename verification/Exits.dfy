/** The exit-reason column: a loop over the three ways a bond can end, keeping the earliest. */
module Exits {
  import opened Basics

  datatype Kind = Defaulted | Defeased | Matured

  /** The exit dates of a bond, as day numbers; all None for a bond without reference data. */
  datatype Issue = Issue(defaultDate: Option<int>, defeasedDate: Option<int>, maturity: Option<int>)

  datatype PanelRow = PanelRow(date: int, issue: Issue)

  function DateOf(issue: Issue, k: Kind): Option<int> {
    match k
    case Defaulted => issue.defaultDate
    case Defeased => issue.defeasedDate
    case Matured => issue.maturity
  }

  const ORDER: seq<Kind> := [Defaulted, Defeased, Matured]

  function Rank(k: Kind): nat { if k == Defaulted then 0 else if k == Defeased then 1 else 2 }

  /** Kind `k` ends the bond: no other kind is dated earlier, and none that ranks before it is
      dated the same day. */
  ghost predicate Earliest(issue: Issue, k: Kind) {
    && DateOf(issue, k).Some?
    && forall j: Kind :: DateOf(issue, j).Some? && j != k ==>
         DateOf(issue, k).value < DateOf(issue, j).value
         || (DateOf(issue, k).value == DateOf(issue, j).value && Rank(k) < Rank(j))
  }

  ghost predicate Ended(row: PanelRow, k: Kind) {
    Earliest(row.issue, k) && DateOf(row.issue, k).value <= row.date
  }

  /** The best of the first n kinds, as the loop's two columns hold it. */
  ghost predicate BestOf(issue: Issue, n: nat, date: Option<int>, kind: Option<Kind>) {
    && (date.Some? <==> kind.Some?)
    && (kind.Some? ==> Rank(kind.value) < n && DateOf(issue, kind.value) == date)
    && forall j: Kind :: Rank(j) < n && DateOf(issue, j).Some? ==>
         kind.Some? && (kind.value == j || date.value < DateOf(issue, j).value
                        || (date.value == DateOf(issue, j).value && Rank(kind.value) < Rank(j)))
  }

  /** One turn of the loop: kind number c where it is strictly earlier than the best so far. */
  method TakeEarlier(rows: seq<PanelRow>, c: nat, date: seq<Option<int>>, kind: seq<Option<Kind>>)
    returns (date': seq<Option<int>>, kind': seq<Option<Kind>>)
    requires c < |ORDER| && |date| == |kind| == |rows|
    requires forall i :: 0 <= i < |rows| ==> BestOf(rows[i].issue, c, date[i], kind[i])
    ensures |date'| == |kind'| == |rows|
    ensures forall i :: 0 <= i < |rows| ==> BestOf(rows[i].issue, c + 1, date'[i], kind'[i])
  {
    hide BestOf;
    date', kind' := [], [];
    for i := 0 to |rows|
      invariant |date'| == |kind'| == i
      invariant forall k :: 0 <= k < i ==> BestOf(rows[k].issue, c + 1, date'[k], kind'[k])
    {
      var d := DateOf(rows[i].issue, ORDER[c]);
      var better := d.Some? && (date[i].None? || d.value < date[i].value);
      BestStep(rows[i].issue, c, date[i], kind[i], better);
      date' := date' + [if better then d else date[i]];
      kind' := kind' + [if better then Some(ORDER[c]) else kind[i]];
    }
  }

  /** The column: a kind in every month from the bond's earliest exit date on, None before it
      and for a bond that never ends. */
  method ExitReasons(rows: seq<PanelRow>) returns (reason: seq<Option<Kind>>)
    ensures |reason| == |rows|
    ensures forall i, k :: 0 <= i < |rows| ==> (reason[i] == Some(k) <==> Ended(rows[i], k))
  {
    var date: seq<Option<int>>, kind: seq<Option<Kind>> := seq(|rows|, _ => None), seq(|rows|, _ => None);
    for c := 0 to |ORDER|
      invariant |date| == |kind| == |rows|
      invariant forall i :: 0 <= i < |rows| ==> BestOf(rows[i].issue, c, date[i], kind[i])
    {
      date, kind := TakeEarlier(rows, c, date, kind);
    }
    hide BestOf, Ended;
    reason := [];
    for i := 0 to |rows|
      invariant |reason| == i
      invariant forall m, k :: 0 <= m < i ==> (reason[m] == Some(k) <==> Ended(rows[m], k))
    {
      var terminal := date[i].Some? && rows[i].date >= date[i].value;
      BestDecides(rows[i], date[i], kind[i]);
      reason := reason + [if terminal then kind[i] else None];
    }
  }

  lemma BestDecides(row: PanelRow, date: Option<int>, kind: Option<Kind>)
    requires BestOf(row.issue, |ORDER|, date, kind)
    ensures forall k :: Ended(row, k) <==> date.Some? && row.date >= date.value && kind == Some(k)
  {
    BestIsEarliest(row.issue, date, kind);
  }

  lemma BestStep(issue: Issue, c: nat, date: Option<int>, kind: Option<Kind>, better: bool)
    requires c < |ORDER| && BestOf(issue, c, date, kind)
    requires var d := DateOf(issue, ORDER[c]);
      better <==> d.Some? && (date.None? || d.value < date.value)
    ensures if better then BestOf(issue, c + 1, DateOf(issue, ORDER[c]), Some(ORDER[c]))
            else BestOf(issue, c + 1, date, kind)
  {
    assert forall j: Kind :: Rank(j) < c + 1 <==> Rank(j) < c || j == ORDER[c];
  }

  lemma BestIsEarliest(issue: Issue, date: Option<int>, kind: Option<Kind>)
    requires BestOf(issue, |ORDER|, date, kind)
    ensures forall k :: kind == Some(k) <==> Earliest(issue, k)
  {
    assert forall j: Kind :: Rank(j) < |ORDER|;
    forall k | Earliest(issue, k) ensures kind == Some(k) {
      assert kind.Some?;
      assert DateOf(issue, kind.value).Some?;
    }
  }

  /** A row has at most one reason, and has one iff some exit date has been reached. */
  lemma EndedIff(row: PanelRow)
    ensures forall j, k :: Ended(row, j) && Ended(row, k) ==> j == k
    ensures (exists k :: Ended(row, k))
       <==> exists k: Kind :: DateOf(row.issue, k).Some? && DateOf(row.issue, k).value <= row.date
  {
    if k: Kind :| DateOf(row.issue, k).Some? && DateOf(row.issue, k).value <= row.date {
      var best := SomeEarliest(row.issue, k);
      assert Ended(row, best);
    }
  }

  lemma SomeEarliest(issue: Issue, k: Kind) returns (best: Kind)
    requires DateOf(issue, k).Some?
    ensures Earliest(issue, best) && DateOf(issue, best).value <= DateOf(issue, k).value
  {
    best := k;
    for c := 0 to |ORDER|
      invariant DateOf(issue, best).Some? && DateOf(issue, best).value <= DateOf(issue, k).value
      invariant forall j: Kind :: Rank(j) < c && DateOf(issue, j).Some? && j != best ==>
        DateOf(issue, best).value < DateOf(issue, j).value
        || (DateOf(issue, best).value == DateOf(issue, j).value && Rank(best) < Rank(j))
      invariant Rank(best) < c || best == k
    {
      var j := ORDER[c];
      assert Rank(j) == c;
      if j != best && DateOf(issue, j).Some? {
        var d, b := DateOf(issue, j).value, DateOf(issue, best).value;
        if d < b || (d == b && Rank(j) < Rank(best)) {
          best := j;
        }
      }
    }
    assert forall j: Kind :: Rank(j) < |ORDER|;
  }

  /** Once a bond has ended it stays ended, for the same reason, in every later month. */
  lemma EndedForGood(row: PanelRow, later: PanelRow, k: Kind)
    requires later.issue == row.issue && row.date <= later.date && Ended(row, k)
    ensures Ended(later, k) && forall j :: Ended(later, j) ==> j == k
  {
    EndedIff(later);
  }

  /** Whether date d, where there is one, comes before date e, where there is one. */
  predicate Sooner(d: Option<int>, e: Option<int>) { d.Some? && (e.None? || d.value < e.value) }

  predicate NotLater(d: Option<int>, e: Option<int>) { d.Some? && (e.None? || d.value <= e.value) }

  predicate Reached(d: Option<int>, date: int) { d.Some? && d.value <= date }

  /** The reason by the three dates: a default unless something else came strictly sooner, a
      defeasance if it came sooner than the default and no later than maturity, and maturity only if
      it came sooner than both. */
  lemma ReasonMeaning(row: PanelRow)
    ensures var x := row.issue;
      && (Ended(row, Defaulted) <==>
            Reached(x.defaultDate, row.date) && NotLater(x.defaultDate, x.defeasedDate) && NotLater(x.defaultDate, x.maturity))
      && (Ended(row, Defeased) <==>
            Reached(x.defeasedDate, row.date) && Sooner(x.defeasedDate, x.defaultDate) && NotLater(x.defeasedDate, x.maturity))
      && (Ended(row, Matured) <==>
            Reached(x.maturity, row.date) && Sooner(x.maturity, x.defaultDate) && Sooner(x.maturity, x.defeasedDate))
  {
    var x := row.issue;
    assert DateOf(x, Defaulted) == x.defaultDate && DateOf(x, Defeased) == x.defeasedDate && DateOf(x, Matured) == x.maturity;
    assert Rank(Defaulted) < Rank(Defeased) < Rank(Matured);
  }
}
