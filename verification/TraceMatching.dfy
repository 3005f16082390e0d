/** Greedy value matching against a pool of counts: the one algorithm behind the reversal
    net-out and the interdealer dedup, with its exact declarative meaning. */
module TraceMatching {
  import opened Basics
  import opened TraceRows

  /** `mask[i]` says that row i consumed a pool count; `pool` is what is left. */
  datatype Matched = Matched(mask: seq<bool>, pool: multiset<TradeKey>)

  function TakeOne(t: Matched, r: Row, eligible: Row -> bool): Matched {
    if eligible(r) && Key(r) in t.pool
    then Matched(t.mask + [true], t.pool - multiset{Key(r)})
    else Matched(t.mask + [false], t.pool)
  }

  /** Rows in file order: an eligible row takes one count of its key if one is left. */
  function Take(rows: seq<Row>, pool: multiset<TradeKey>, eligible: Row -> bool): (t: Matched)
    ensures |t.mask| == |rows|
  {
    if |rows| == 0 then Matched([], pool)
    else TakeOne(Take(rows[..|rows| - 1], pool, eligible), rows[|rows| - 1], eligible)
  }

  /** How many eligible rows carry key `k`. */
  function CountKey(rows: seq<Row>, eligible: Row -> bool, k: TradeKey): nat {
    if |rows| == 0 then 0
    else
      var r := rows[|rows| - 1];
      CountKey(rows[..|rows| - 1], eligible, k) + (if eligible(r) && Key(r) == k then 1 else 0)
  }

  /** The keys of the eligible rows, counted. */
  function Bag(rows: seq<Row>, eligible: Row -> bool): multiset<TradeKey> {
    if |rows| == 0 then multiset{}
    else
      var r := rows[|rows| - 1];
      Bag(rows[..|rows| - 1], eligible) + (if eligible(r) then multiset{Key(r)} else multiset{})
  }

  function Monus(a: nat, b: nat): nat { if a <= b then 0 else a - b }
  function Min(a: nat, b: nat): nat { if a <= b then a else b }
  function Max(a: nat, b: nat): nat { if a <= b then b else a }

  lemma {:induction false} BagCounts(rows: seq<Row>, eligible: Row -> bool, k: TradeKey)
    ensures Bag(rows, eligible)[k] == CountKey(rows, eligible, k)
  {
    if |rows| > 0 {
      BagCounts(rows[..|rows| - 1], eligible, k);
    }
  }

  lemma {:induction false} BagConcat(a: seq<Row>, b: seq<Row>, eligible: Row -> bool)
    ensures Bag(a + b, eligible) == Bag(a, eligible) + Bag(b, eligible)
    decreases |b|
  {
    if |b| == 0 {
      assert a + b == a;
    } else {
      assert (a + b)[..|a + b| - 1] == a + b[..|b| - 1];
      BagConcat(a, b[..|b| - 1], eligible);
    }
  }

  lemma TakeStep(rows: seq<Row>, pool: multiset<TradeKey>, eligible: Row -> bool)
    requires |rows| > 0
    ensures var n := |rows| - 1;
      Take(rows, pool, eligible) == TakeOne(Take(rows[..n], pool, eligible), rows[n], eligible)
  {
  }

  /** Matching a file piece by piece, carrying the pool, is matching it whole. */
  lemma {:induction false} TakeConcat(a: seq<Row>, b: seq<Row>, pool: multiset<TradeKey>, eligible: Row -> bool)
    ensures
      var ta := Take(a, pool, eligible);
      var tb := Take(b, ta.pool, eligible);
      Take(a + b, pool, eligible) == Matched(ta.mask + tb.mask, tb.pool)
    decreases |b|
  {
    if |b| == 0 {
      assert a + b == a;
    } else {
      var n := |b| - 1;
      var ta := Take(a, pool, eligible);
      TakeConcat(a, b[..n], pool, eligible);
      ConcatUnsnoc(a, b);
      TakeStep(a + b, pool, eligible);
      TakeStep(b, ta.pool, eligible);
      TakeOneAfter(ta.mask, Take(b[..n], ta.pool, eligible), b[n], eligible);
      hide Take, TakeOne;
    }
  }

  lemma TakeOneAfter(before: seq<bool>, t: Matched, r: Row, eligible: Row -> bool)
    ensures TakeOne(Matched(before + t.mask, t.pool), r, eligible)
         == Matched(before + TakeOne(t, r, eligible).mask, TakeOne(t, r, eligible).pool)
  {
    assert (before + t.mask) + [true] == before + (t.mask + [true]);
    assert (before + t.mask) + [false] == before + (t.mask + [false]);
  }

  /** The pool left for key `k` is what the eligible rows of that key have not used up. */
  lemma {:induction false} PoolLeft(rows: seq<Row>, pool: multiset<TradeKey>, eligible: Row -> bool, k: TradeKey)
    ensures Take(rows, pool, eligible).pool[k] == Monus(pool[k], CountKey(rows, eligible, k))
  {
    if |rows| > 0 {
      PoolLeft(rows[..|rows| - 1], pool, eligible, k);
      var r := rows[|rows| - 1];
      if Key(r) != k {
      }
    }
  }

  /** Exact matching, row by row: a row is matched iff it is eligible and fewer eligible rows
      of its key precede it than the pool holds. */
  lemma {:induction false} TakenIffEarly(rows: seq<Row>, pool: multiset<TradeKey>, eligible: Row -> bool, i: nat)
    requires i < |rows|
    ensures Take(rows, pool, eligible).mask[i]
       <==> eligible(rows[i]) && CountKey(rows[..i], eligible, Key(rows[i])) < pool[Key(rows[i])]
  {
    hide Take, CountKey;
    var n := |rows| - 1;
    var t := Take(rows[..n], pool, eligible);
    TakeStep(rows, pool, eligible);
    if i < n {
      TakenIffEarly(rows[..n], pool, eligible, i);
      assert rows[..n][..i] == rows[..i] && rows[..n][i] == rows[i];
    } else {
      PoolLeft(rows[..n], pool, eligible, Key(rows[n]));
    }
  }

  /** Exact matching, key by key: min(eligible, pool) rows of each key are matched, and the
      unmatched eligible rows are the rest. */
  lemma {:induction false} MatchedPerKey(rows: seq<Row>, pool: multiset<TradeKey>, eligible: Row -> bool, k: TradeKey)
    ensures
      var mask := Take(rows, pool, eligible).mask;
      && CountKey(Select(rows, mask, true), eligible, k) == Min(CountKey(rows, eligible, k), pool[k])
      && CountKey(Select(rows, mask, false), eligible, k) == Monus(CountKey(rows, eligible, k), pool[k])
  {
    if |rows| == 0 {
      NothingMatched(pool, eligible, k);
    } else {
      var n := |rows| - 1;
      var mask := Take(rows, pool, eligible).mask;
      MatchedPerKey(rows[..n], pool, eligible, k);
      PoolLeft(rows[..n], pool, eligible, k);
      TakeLast(rows, pool, eligible);
      CountSelected(rows, mask, true, eligible, k);
      CountSelected(rows, mask, false, eligible, k);
      CountLast(rows, eligible, k);
      hide Take, Select, CountKey, Key;
    }
  }

  lemma CountLast(rows: seq<Row>, eligible: Row -> bool, k: TradeKey)
    requires |rows| > 0
    ensures var n := |rows| - 1;
      CountKey(rows, eligible, k)
        == CountKey(rows[..n], eligible, k) + (if eligible(rows[n]) && Key(rows[n]) == k then 1 else 0)
  {
  }

  lemma TakeLast(rows: seq<Row>, pool: multiset<TradeKey>, eligible: Row -> bool)
    requires |rows| > 0
    ensures
      var n := |rows| - 1;
      var t0, mask := Take(rows[..n], pool, eligible), Take(rows, pool, eligible).mask;
      && mask[..n] == t0.mask
      && mask[n] == (eligible(rows[n]) && t0.pool[Key(rows[n])] > 0)
  {
    hide Key;
  }

  /** What the last row adds to the count of a key among the selected rows. */
  lemma CountSelected(rows: seq<Row>, mask: seq<bool>, want: bool, eligible: Row -> bool, k: TradeKey)
    requires |rows| == |mask| > 0
    ensures
      var n := |rows| - 1;
      CountKey(Select(rows, mask, want), eligible, k)
        == CountKey(Select(rows[..n], mask[..n], want), eligible, k)
         + (if mask[n] == want && eligible(rows[n]) && Key(rows[n]) == k then 1 else 0)
  {
    var n := |rows| - 1;
    CountSnoc(Select(rows[..n], mask[..n], want), rows[n], eligible, k);
    hide CountKey;
  }

  lemma NothingMatched(pool: multiset<TradeKey>, eligible: Row -> bool, k: TradeKey)
    ensures var mask := Take([], pool, eligible).mask;
      CountKey(Select([], mask, true), eligible, k) == 0 && CountKey(Select([], mask, false), eligible, k) == 0
      && CountKey([], eligible, k) == 0
  {
  }

  lemma CountSnoc(rows: seq<Row>, r: Row, eligible: Row -> bool, k: TradeKey)
    ensures CountKey(rows + [r], eligible, k)
         == CountKey(rows, eligible, k) + (if eligible(r) && Key(r) == k then 1 else 0)
    ensures rows + [] == rows
  {
    assert (rows + [r])[..|rows|] == rows;
  }

  /** Every row that matching removes was eligible. */
  lemma {:induction false} OnlyEligibleTaken(rows: seq<Row>, pool: multiset<TradeKey>, eligible: Row -> bool,
                                             other: Row -> bool, k: TradeKey)
    requires forall r :: other(r) ==> !eligible(r)
    ensures CountKey(Select(rows, Take(rows, pool, eligible).mask, false), other, k) == CountKey(rows, other, k)
  {
    if |rows| > 0 {
      var n := |rows| - 1;
      OnlyEligibleTaken(rows[..n], pool, eligible, other, k);
      var t, t0 := Take(rows, pool, eligible), Take(rows[..n], pool, eligible);
      assert t.mask[..n] == t0.mask;
      CountSnoc(Select(rows[..n], t0.mask, false), rows[n], other, k);
    }
  }
}
