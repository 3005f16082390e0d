/** Sorted panels as histories: a bond's rows up to a month, and why rows added after a floor
    month cannot change them. */
module History {
  import opened Basics
  import opened Panel

  datatype Row<T> = Row(key: Key, value: T)

  predicate Sorted<T>(rows: seq<Row<T>>) {
    forall i, j :: 0 <= i < j < |rows| ==> KeyLess(rows[i].key, rows[j].key)
  }

  /** Where the block of row i's bond starts. */
  function BlockStart<T>(rows: seq<Row<T>>, i: nat): (s: nat)
    requires i < |rows|
    ensures s <= i
    ensures forall k :: s <= k <= i ==> rows[k].key.cusip == rows[i].key.cusip
    ensures s > 0 ==> rows[s - 1].key.cusip != rows[i].key.cusip
  {
    if i > 0 && rows[i - 1].key.cusip == rows[i].key.cusip then BlockStart(rows, i - 1) else i
  }

  /** Row i and the earlier rows of its bond. */
  function Hist<T>(rows: seq<Row<T>>, i: nat): (h: seq<Row<T>>)
    requires i < |rows|
    ensures 0 < |h| <= i + 1 && h[|h| - 1] == rows[i]
  {
    rows[BlockStart(rows, i)..i + 1]
  }

  predicate HasPredecessor<T>(rows: seq<Row<T>>, i: nat)
    requires i < |rows|
  {
    i > 0 && rows[i - 1].key.cusip == rows[i].key.cusip
  }

  /** The last `window` rows of a history. */
  function Recent<T>(h: seq<Row<T>>, window: nat): seq<Row<T>> {
    if |h| > window then h[|h| - window..] else h
  }

  lemma HistOfHist<T>(rows: seq<Row<T>>, i: nat)
    requires i < |rows|
    ensures Hist(Hist(rows, i), |Hist(rows, i)| - 1) == Hist(rows, i)
  {
    var h := Hist(rows, i);
    assert forall k :: 0 <= k < |h| ==> h[k].key.cusip == rows[i].key.cusip;
  }

  lemma HistStep<T>(rows: seq<Row<T>>, i: nat)
    requires i < |rows|
    ensures Hist(rows, i) == if HasPredecessor(rows, i) then Hist(rows, i - 1) + [rows[i]] else [rows[i]]
  {
  }

  /** `all` extends `dev` by rows at or after the floor month, interleaved in sort order. */
  ghost predicate ExtendsFrom<T(!new)>(dev: seq<Row<T>>, all: seq<Row<T>>, floor: Month) {
    Sorted(dev) && Sorted(all) && forall r :: r in dev <==> r in all && r.key.month < floor
  }

  /** The immediate predecessors of a common row, within its bond, are the same row. */
  lemma SamePredecessor<T(!new)>(dev: seq<Row<T>>, all: seq<Row<T>>, floor: Month, i: nat, j: nat)
    requires ExtendsFrom(dev, all, floor) && i < |dev| && j < |all| && dev[i] == all[j]
    ensures HasPredecessor(dev, i) <==> HasPredecessor(all, j)
    ensures HasPredecessor(dev, i) ==> dev[i - 1] == all[j - 1]
  {
    var r := dev[i];
    assert r in dev;
    if i > 0 && dev[i - 1].key.cusip == r.key.cusip {
      assert dev[i - 1] in dev;
      var j' :| 0 <= j' < |all| && all[j'] == dev[i - 1];
      assert j' < j;
    }
    if j > 0 && all[j - 1].key.cusip == r.key.cusip {
      assert all[j - 1] in all && all[j - 1].key.month < floor;
      var i' :| 0 <= i' < |dev| && dev[i'] == all[j - 1];
      assert i' < i;
    }
  }

  /** A development row has the same history before and after the extension. */
  lemma {:induction false} HistoriesAgree<T(!new)>(dev: seq<Row<T>>, all: seq<Row<T>>, floor: Month, i: nat, j: nat)
    requires ExtendsFrom(dev, all, floor) && i < |dev| && j < |all| && dev[i] == all[j]
    ensures Hist(dev, i) == Hist(all, j)
    decreases i
  {
    hide Hist, ExtendsFrom;
    SamePredecessor(dev, all, floor, i, j);
    HistStep(dev, i);
    HistStep(all, j);
    if HasPredecessor(dev, i) {
      HistoriesAgree(dev, all, floor, i - 1, j - 1);
    }
  }
}
