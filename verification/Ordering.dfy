/** Order statistics of a list of reals: sorting, the median, the k-th lowest value. */
module Ordering {
  predicate Sorted(s: seq<real>) { forall i, j :: 0 <= i < j < |s| ==> s[i] <= s[j] }

  function Insert(x: real, s: seq<real>): seq<real> {
    if |s| == 0 || x <= s[0] then [x] + s else [s[0]] + Insert(x, s[1..])
  }

  function Sort(s: seq<real>): seq<real> {
    if |s| == 0 then [] else Insert(s[0], Sort(s[1..]))
  }

  lemma HeadAndTail(s: seq<real>)
    requires |s| > 0
    ensures multiset(s) == multiset{s[0]} + multiset(s[1..])
  {
    assert s == [s[0]] + s[1..];
  }

  lemma {:induction false} InsertAdds(x: real, s: seq<real>)
    ensures multiset(Insert(x, s)) == multiset(s) + multiset{x}
    ensures |Insert(x, s)| == |s| + 1
  {
    if !(|s| == 0 || x <= s[0]) {
      InsertAdds(x, s[1..]);
      HeadAndTail(s);
    }
  }

  lemma {:induction false} InsertKeepsFloor(x: real, s: seq<real>, lo: real)
    requires lo <= x && forall i :: 0 <= i < |s| ==> lo <= s[i]
    ensures forall i :: 0 <= i < |Insert(x, s)| ==> lo <= Insert(x, s)[i]
  {
    if !(|s| == 0 || x <= s[0]) {
      InsertKeepsFloor(x, s[1..], lo);
    }
  }

  lemma {:induction false} InsertSorts(x: real, s: seq<real>)
    requires Sorted(s)
    ensures Sorted(Insert(x, s))
  {
    if !(|s| == 0 || x <= s[0]) {
      InsertSorts(x, s[1..]);
      InsertKeepsFloor(x, s[1..], s[0]);
    }
  }

  lemma {:induction false} SortSorts(s: seq<real>)
    ensures Sorted(Sort(s)) && multiset(Sort(s)) == multiset(s) && |Sort(s)| == |s|
  {
    if |s| > 0 {
      SortSorts(s[1..]);
      InsertSorts(s[0], Sort(s[1..]));
      InsertAdds(s[0], Sort(s[1..]));
      HeadAndTail(s);
    }
  }

  lemma SameHead(a: seq<real>, b: seq<real>)
    requires Sorted(a) && Sorted(b) && multiset(a) == multiset(b) && |a| > 0
    ensures |b| > 0 && a[0] == b[0]
  {
    assert a[0] in multiset(b);
    assert b[0] in multiset(a);
  }

  lemma SameTail(a: seq<real>, b: seq<real>)
    requires multiset(a) == multiset(b) && |a| > 0 && |b| > 0 && a[0] == b[0]
    ensures multiset(a[1..]) == multiset(b[1..])
  {
    HeadAndTail(a);
    HeadAndTail(b);
    assert multiset(a[1..]) == multiset(a) - multiset{a[0]};
    assert multiset(b[1..]) == multiset(b) - multiset{b[0]};
  }

  lemma SameList(a: seq<real>, b: seq<real>)
    requires |a| > 0 && |b| > 0 && a[0] == b[0] && a[1..] == b[1..]
    ensures a == b
  {
    assert a == [a[0]] + a[1..] && b == [b[0]] + b[1..];
  }

  lemma SortedTail(a: seq<real>)
    requires Sorted(a) && |a| > 0
    ensures Sorted(a[1..])
  {
  }

  /** A sorted list is determined by its elements. */
  lemma {:induction false} SortedUnique(a: seq<real>, b: seq<real>)
    requires Sorted(a) && Sorted(b) && multiset(a) == multiset(b)
    ensures a == b
  {
    if |a| == 0 {
      assert |multiset(b)| == 0;
    } else {
      SameHead(a, b);
      SameTail(a, b);
      SortedTail(a);
      SortedTail(b);
      hide Sorted;
      SortedUnique(a[1..], b[1..]);
      SameList(a, b);
    }
  }

  /** The median as the statistics and numpy libraries define it. */
  function Median(s: seq<real>): real
    requires |s| > 0
  {
    SortSorts(s);
    var t := Sort(s);
    var h := |t| / 2;
    if |t| % 2 == 1 then t[h] else (t[h - 1] + t[h]) / 2.0
  }

  lemma MedianIgnoresOrder(a: seq<real>, b: seq<real>)
    requires |a| > 0 && multiset(a) == multiset(b)
    ensures |b| > 0 && Median(a) == Median(b)
  {
    assert |b| == |multiset(b)|;
    SortSorts(a);
    SortSorts(b);
    SortedUnique(Sort(a), Sort(b));
  }

  /** The median lies between the least and the greatest value. */
  lemma MedianBounded(s: seq<real>, lo: real, hi: real)
    requires |s| > 0 && forall x :: x in s ==> lo <= x <= hi
    ensures lo <= Median(s) <= hi
  {
    var t := Sort(s);
    SortSorts(s);
    forall i | 0 <= i < |t| ensures lo <= t[i] <= hi {
      assert t[i] in multiset(t);
      assert t[i] in s;
    }
  }

  function Kth(s: seq<real>, rank: nat): real
    requires 1 <= rank <= |s|
  {
    SortSorts(s);
    Sort(s)[rank - 1]
  }

  function CountBelow(s: seq<real>, x: real): nat {
    if |s| == 0 then 0 else CountBelow(s[1..], x) + (if s[0] < x then 1 else 0)
  }

  function CountUpTo(s: seq<real>, x: real): nat {
    if |s| == 0 then 0 else CountUpTo(s[1..], x) + (if s[0] <= x then 1 else 0)
  }

  lemma {:induction false} SortedCounts(t: seq<real>, r: nat)
    requires Sorted(t) && r < |t|
    ensures CountBelow(t, t[r]) <= r < CountUpTo(t, t[r])
  {
    if r > 0 {
      SortedCounts(t[1..], r - 1);
    } else {
      NoneBelow(t, t[0]);
    }
  }

  lemma {:induction false} NoneBelow(t: seq<real>, x: real)
    requires forall i :: 0 <= i < |t| ==> x <= t[i]
    ensures CountBelow(t, x) == 0
  {
    if |t| > 0 {
      NoneBelow(t[1..], x);
    }
  }

  lemma {:induction false} InsertCounts(v: real, s: seq<real>, x: real)
    ensures CountBelow(Insert(v, s), x) == CountBelow(s, x) + (if v < x then 1 else 0)
    ensures CountUpTo(Insert(v, s), x) == CountUpTo(s, x) + (if v <= x then 1 else 0)
  {
    if !(|s| == 0 || v <= s[0]) {
      InsertCounts(v, s[1..], x);
    }
  }

  lemma {:induction false} SortCounts(s: seq<real>, x: real)
    ensures CountBelow(Sort(s), x) == CountBelow(s, x) && CountUpTo(Sort(s), x) == CountUpTo(s, x)
  {
    if |s| > 0 {
      SortCounts(s[1..], x);
      InsertCounts(s[0], Sort(s[1..]), x);
    }
  }

  /** The k-th lowest value is a value of the list with fewer than `rank` values below it and
      at least `rank` values not above it. */
  lemma KthIsOrderStatistic(s: seq<real>, rank: nat)
    requires 1 <= rank <= |s|
    ensures Kth(s, rank) in s
    ensures CountBelow(s, Kth(s, rank)) < rank <= CountUpTo(s, Kth(s, rank))
  {
    hide Sort, CountBelow, CountUpTo;
    var t := Sort(s);
    SortSorts(s);
    assert t[rank - 1] in multiset(t);
    assert t[rank - 1] in multiset(s);
    SortedCounts(t, rank - 1);
    SortCounts(s, t[rank - 1]);
  }

  // --- where the median stands by counting --------------------------------------------------

  lemma {:induction false} CountsInOrder(s: seq<real>, x: real, y: real)
    requires x < y
    ensures CountUpTo(s, x) <= CountBelow(s, y)
  {
    if |s| > 0 {
      CountsInOrder(s[1..], x, y);
    }
  }

  /** More than r values up to x: the r-th sorted value is at most x. Fewer below x: at least x. */
  lemma RankByCount(s: seq<real>, r: nat, x: real)
    requires r < |s|
    ensures |Sort(s)| == |s|
    ensures CountUpTo(s, x) > r ==> Sort(s)[r] <= x
    ensures CountBelow(s, x) <= r ==> x <= Sort(s)[r]
  {
    SortSorts(s);
    SortCounts(s, x);
    hide Sort, CountBelow, CountUpTo;
    var t := Sort(s);
    SortedCounts(t, r);
    if x < t[r] {
      CountsInOrder(t, x, t[r]);
    } else if t[r] < x {
      CountsInOrder(t, t[r], x);
    }
  }

  lemma {:induction false} CountTail(s: seq<real>, k: nat, x: real)
    requires k <= |s|
    ensures (forall i :: |s| - k <= i < |s| ==> s[i] <= x) ==> CountUpTo(s, x) >= k
    ensures (forall i :: |s| - k <= i < |s| ==> x <= s[i]) ==> CountBelow(s, x) <= |s| - k
  {
    if k < |s| {
      CountTail(s[1..], k, x);
    } else if k > 0 {
      CountTail(s[1..], k - 1, x);
    }
  }

  lemma {:induction false} CountHead(s: seq<real>, k: nat, x: real)
    requires k <= |s| && forall i :: 0 <= i < k ==> x <= s[i]
    ensures CountBelow(s, x) <= |s| - k
  {
    if k > 0 {
      CountHead(s[1..], k - 1, x);
    } else {
      CountTail(s, 0, x);
    }
  }

  /** A majority at the end of the list holds the median between its bounds. */
  lemma MajorityHoldsMedian(s: seq<real>, k: nat, lo: real, hi: real)
    requires 0 < k <= |s| < 2 * k && forall i :: |s| - k <= i < |s| ==> lo <= s[i] <= hi
    ensures lo <= Median(s) <= hi
  {
    CountTail(s, k, lo);
    CountTail(s, k, hi);
    RankByCount(s, |s| / 2, hi);
    RankByCount(s, |s| / 2, lo);
    if |s| % 2 == 0 {
      RankByCount(s, |s| / 2 - 1, hi);
      RankByCount(s, |s| / 2 - 1, lo);
    }
    hide Sort, CountBelow, CountUpTo;
  }

  /** Half the values from u up and none below v: the median is at least their mean. */
  lemma HalfLiftsMedian(s: seq<real>, u: real, v: real)
    requires |s| > 0 && |s| % 2 == 0 && forall i :: 0 <= i < |s| / 2 ==> u <= s[i]
    requires forall i :: 0 <= i < |s| ==> v <= s[i]
    ensures (u + v) / 2.0 <= Median(s)
  {
    CountHead(s, |s| / 2, u);
    CountHead(s, |s|, v);
    RankByCount(s, |s| / 2, u);
    RankByCount(s, |s| / 2 - 1, v);
    hide Sort, CountBelow, CountUpTo;
  }

  lemma MedianOfSorted(s: seq<real>)
    requires |s| > 0 && Sorted(s)
    ensures Median(s) == (s[(|s| - 1) / 2] + s[|s| / 2]) / 2.0
  {
    SortSorts(s);
    SortedUnique(Sort(s), s);
    hide Sort, Sorted;
    var h := |s| / 2;
    if |s| % 2 == 1 {
      assert (|s| - 1) / 2 == h && Median(s) == s[h];
    } else {
      assert (|s| - 1) / 2 == h - 1 && Median(s) == (s[h - 1] + s[h]) / 2.0;
    }
  }

  /** The median by any sorted arrangement of the values: the mean of its two middle entries,
      which are one and the same for an odd number of values. */
  lemma MedianMeaning(s: seq<real>, t: seq<real>)
    requires |s| > 0 && multiset(s) == multiset(t) && forall i, j :: 0 <= i < j < |t| ==> t[i] <= t[j]
    ensures |t| == |s| && Median(s) == (t[(|t| - 1) / 2] + t[|t| / 2]) / 2.0
  {
    assert |t| == |multiset(t)| && |s| == |multiset(s)|;
    MedianIgnoresOrder(s, t);
    MedianOfSorted(t);
  }
}
