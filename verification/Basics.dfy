/** Small shared vocabulary: optional values, fallible results, chunk lists. */
module Basics {
  datatype Option<+T> = None | Some(value: T)

  datatype Result<+T, +E> = Ok(value: T) | Err(error: E)

  function Abs(x: real): real { if x < 0.0 then -x else x }

  function Total(v: seq<real>): real { if |v| == 0 then 0.0 else Total(v[..|v| - 1]) + v[|v| - 1] }

  /** The file a chunked reader delivers piece by piece: its chunks laid end to end. */
  function Flatten<T>(chunks: seq<seq<T>>): seq<T> {
    if |chunks| == 0 then [] else Flatten(chunks[..|chunks| - 1]) + chunks[|chunks| - 1]
  }

  /** The members of `s` that satisfy `p`, in order (a boolean-mask selection). */
  function Filter<T>(s: seq<T>, p: T -> bool): (r: seq<T>)
    ensures |r| <= |s|
  {
    if |s| == 0 then []
    else Filter(s[..|s| - 1], p) + (if p(s[|s| - 1]) then [s[|s| - 1]] else [])
  }

  /** The members of `s` whose mask entry equals `want`, in order. */
  function Select<T>(s: seq<T>, mask: seq<bool>, want: bool): (r: seq<T>)
    requires |s| == |mask|
    ensures |r| <= |s|
  {
    if |s| == 0 then []
    else Select(s[..|s| - 1], mask[..|s| - 1], want) + (if mask[|s| - 1] == want then [s[|s| - 1]] else [])
  }

  lemma {:induction false} FlattenStep<T>(chunks: seq<seq<T>>, i: nat)
    requires i < |chunks|
    ensures Flatten(chunks[..i + 1]) == Flatten(chunks[..i]) + chunks[i]
  {
    assert chunks[..i + 1][..i] == chunks[..i];
  }

  /** What precedes and includes chunk i is a prefix of the file. */
  lemma {:induction false} FlattenPrefix<T>(chunks: seq<seq<T>>, i: nat)
    requires i < |chunks|
    ensures Flatten(chunks[..i]) + chunks[i] <= Flatten(chunks)
    decreases |chunks|
  {
    var n := |chunks| - 1;
    assert chunks[..n][..i] == chunks[..i];
    if i < n {
      FlattenPrefix(chunks[..n], i);
    }
  }

  lemma Unsnoc<T>(s: seq<T>)
    requires |s| > 0
    ensures s[..|s| - 1] + [s[|s| - 1]] == s
  {
  }

  lemma ConcatUnsnoc<T>(a: seq<T>, b: seq<T>)
    requires |b| > 0
    ensures (a + b)[..|a + b| - 1] == a + b[..|b| - 1] && (a + b)[|a + b| - 1] == b[|b| - 1]
  {
  }

  lemma IsMember<T>(s: seq<T>, i: nat)
    requires i < |s|
    ensures s[i] in s
  {
  }

  lemma {:induction false} FilterConcat<T>(a: seq<T>, b: seq<T>, p: T -> bool)
    ensures Filter(a + b, p) == Filter(a, p) + Filter(b, p)
    decreases |b|
  {
    if |b| == 0 {
      assert a + b == a;
    } else {
      var n := |b| - 1;
      assert (a + b)[..|a + b| - 1] == a + b[..n];
      FilterConcat(a, b[..n], p);
    }
  }

  lemma {:induction false} FilterMember<T>(s: seq<T>, p: T -> bool, x: T)
    ensures x in Filter(s, p) <==> x in s && p(x)
  {
    if |s| > 0 {
      FilterMember(s[..|s| - 1], p, x);
      assert s == s[..|s| - 1] + [s[|s| - 1]];
    }
  }

  lemma {:induction false} SelectConcat<T>(a: seq<T>, b: seq<T>, ma: seq<bool>, mb: seq<bool>, want: bool)
    requires |a| == |ma| && |b| == |mb|
    ensures Select(a + b, ma + mb, want) == Select(a, ma, want) + Select(b, mb, want)
    decreases |b|
  {
    if |b| == 0 {
      assert a + b == a && ma + mb == ma;
    } else {
      var n := |b| - 1;
      assert (a + b)[..|a + b| - 1] == a + b[..n];
      assert (ma + mb)[..|ma + mb| - 1] == ma + mb[..n];
      SelectConcat(a, b[..n], ma, mb[..n], want);
    }
  }

  lemma SelectSnoc<T>(s: seq<T>, mask: seq<bool>, x: T, b: bool, want: bool)
    requires |s| == |mask|
    ensures Select(s + [x], mask + [b], want) == if b == want then Select(s, mask, want) + [x] else Select(s, mask, want)
  {
    assert (s + [x])[..|s|] == s && (mask + [b])[..|s|] == mask;
  }

  ghost predicate Splits<T>(s: seq<T>, mask: seq<bool>)
    requires |s| == |mask|
  {
    multiset(Select(s, mask, true)) + multiset(Select(s, mask, false)) == multiset(s)
  }

  /** A mask splits a sequence: nothing is lost and nothing is kept twice. */
  lemma {:induction false} SelectPartition<T>(s: seq<T>, mask: seq<bool>)
    requires |s| == |mask|
    ensures Splits(s, mask)
  {
    if |s| > 0 {
      var n := |s| - 1;
      SelectPartition(s[..n], mask[..n]);
      SplitsSnoc(s[..n], mask[..n], s[n], mask[n]);
      hide Splits;
      assert s == s[..n] + [s[n]] && mask == mask[..n] + [mask[n]];
    }
  }

  lemma SplitsSnoc<T>(s: seq<T>, mask: seq<bool>, x: T, b: bool)
    requires |s| == |mask| && Splits(s, mask)
    ensures Splits(s + [x], mask + [b])
  {
    SelectSnoc(s, mask, x, b, true);
    SelectSnoc(s, mask, x, b, false);
  }

  // --- selections by position -----------------------------------------------------------------

  /** `pos` lists the positions in `at`, in increasing order. */
  ghost predicate Lists(pos: seq<nat>, at: set<nat>) {
    && (forall a, b :: 0 <= a < b < |pos| ==> pos[a] < pos[b])
    && (forall i :: i in pos <==> i in at)
  }

  /** `out` holds the entries of `s` at the positions in `at`, each once and in order. */
  ghost predicate IsPart<T(!new)>(s: seq<T>, at: set<nat>, out: seq<T>) {
    exists pos :: Lists(pos, at) && PicksOut(s, pos, out)
  }

  predicate PicksOut<T(==)>(s: seq<T>, pos: seq<nat>, out: seq<T>) {
    |pos| == |out| && forall k :: 0 <= k < |pos| ==> pos[k] < |s| && out[k] == s[pos[k]]
  }

  /** The positions at which a mask has the value `want`. */
  function At(mask: seq<bool>, want: bool): set<nat> { set i: nat | i < |mask| && mask[i] == want }

  lemma AtSnoc(mask: seq<bool>, b: bool, want: bool)
    ensures At(mask + [b], want) == if b == want then At(mask, want) + {|mask|} else At(mask, want)
  {
  }

  lemma ListsSnoc(pos: seq<nat>, at: set<nat>, i: nat)
    requires Lists(pos, at) && forall j :: j in at ==> j < i
    ensures Lists(pos + [i], at + {i})
  {
    forall a | 0 <= a < |pos| ensures pos[a] < i {
      assert pos[a] in pos;
    }
  }

  lemma ButLast(p: seq<nat>, at: set<nat>)
    requires Lists(p, at) && |p| > 0
    ensures Lists(p[..|p| - 1], at - {p[|p| - 1]})
  {
    var n := |p| - 1;
    forall i ensures i in p[..n] <==> i in at - {p[n]} {
      if i in at - {p[n]} {
        assert i in p;
      }
      if i in p[..n] {
        assert i in p;
      }
    }
  }

  lemma {:induction false} ListsCount(pos: seq<nat>, at: set<nat>)
    requires Lists(pos, at)
    ensures |pos| == |at|
  {
    if |pos| == 0 {
      assert at == {};
    } else {
      var last := pos[|pos| - 1];
      ButLast(pos, at);
      ListsCount(pos[..|pos| - 1], at - {last});
      assert last in pos;
    }
  }

  /** An increasing list is determined by its members. */
  lemma {:induction false} ListsUnique(p: seq<nat>, q: seq<nat>, at: set<nat>)
    requires Lists(p, at) && Lists(q, at)
    ensures p == q
  {
    ListsCount(p, at);
    ListsCount(q, at);
    if |p| > 0 {
      var n := |p| - 1;
      assert p[n] in p && q[n] in q;
      assert p[n] in q && q[n] in p;
      assert p[n] == q[n];
      ButLast(p, at);
      ButLast(q, at);
      ListsUnique(p[..n], q[..n], at - {p[n]});
      assert p == p[..n] + [p[n]] && q == q[..n] + [q[n]];
    }
  }

  lemma {:induction false} SelectPositions<T>(s: seq<T>, mask: seq<bool>, want: bool) returns (pos: seq<nat>)
    requires |s| == |mask|
    ensures Lists(pos, At(mask, want)) && PicksOut(s, pos, Select(s, mask, want))
  {
    if |s| == 0 {
      return [];
    }
    var n := |s| - 1;
    pos := SelectPositions(s[..n], mask[..n], want);
    AtSnoc(mask[..n], mask[n], want);
    assert mask == mask[..n] + [mask[n]];
    if mask[n] == want {
      ListsSnoc(pos, At(mask[..n], want), n);
      pos := pos + [n];
    }
  }

  /** A mask selects exactly the entries at the positions where it says so. */
  lemma SelectIsPart<T(!new)>(s: seq<T>, mask: seq<bool>, want: bool)
    requires |s| == |mask|
    ensures IsPart(s, At(mask, want), Select(s, mask, want))
    ensures |Select(s, mask, want)| == |At(mask, want)|
  {
    var pos := SelectPositions(s, mask, want);
    ListsCount(pos, At(mask, want));
  }

  lemma PartMember<T(!new)>(s: seq<T>, at: set<nat>, out: seq<T>, x: T)
    requires IsPart(s, at, out)
    ensures x in out <==> exists i :: i in at && i < |s| && s[i] == x
  {
    var pos :| Lists(pos, at) && PicksOut(s, pos, out);
    if x in out {
      var k :| 0 <= k < |out| && out[k] == x;
      assert pos[k] in pos;
    }
    if i :| i in at && i < |s| && s[i] == x {
      var k :| 0 <= k < |pos| && pos[k] == i;
      assert out[k] == x;
    }
  }

  // --- filters by position --------------------------------------------------------------------

  function Narrow<T>(s: seq<T>, m: seq<bool>, f: T -> bool): (n: seq<bool>)
    requires |s| == |m|
    ensures |n| == |s| && forall i :: 0 <= i < |s| ==> n[i] == (m[i] && f(s[i]))
  {
    seq(|s|, i requires 0 <= i < |s| => m[i] && f(s[i]))
  }

  lemma SelectLast<T>(s: seq<T>, m: seq<bool>)
    requires |s| == |m| > 0
    ensures var n := |s| - 1;
      Select(s, m, true) == if m[n] then Select(s[..n], m[..n], true) + [s[n]] else Select(s[..n], m[..n], true)
  {
  }

  lemma FilterSnoc<T>(s: seq<T>, x: T, f: T -> bool)
    ensures Filter(s + [x], f) == if f(x) then Filter(s, f) + [x] else Filter(s, f)
  {
    assert (s + [x])[..|s|] == s;
  }

  lemma {:induction false} FilterOfSelect<T>(s: seq<T>, m: seq<bool>, f: T -> bool)
    requires |s| == |m|
    ensures Filter(Select(s, m, true), f) == Select(s, Narrow(s, m, f), true)
  {
    if |s| > 0 {
      var n := |s| - 1;
      FilterOfSelect(s[..n], m[..n], f);
      assert Narrow(s, m, f)[..n] == Narrow(s[..n], m[..n], f);
      SelectLast(s, m);
      SelectLast(s, Narrow(s, m, f));
      FilterSnoc(Select(s[..n], m[..n], true), s[n], f);
      hide Select, Filter, Narrow;
    }
  }

  lemma {:induction false} SelectAll<T>(s: seq<T>)
    ensures Select(s, seq(|s|, _ => true), true) == s
  {
    if |s| > 0 {
      var n := |s| - 1;
      SelectAll(s[..n]);
      assert seq(|s|, _ => true)[..n] == seq(n, _ => true);
      assert s == s[..n] + [s[n]];
    }
  }

  /** A filter holds exactly the entries that satisfy it, at their positions. */
  lemma FilterPositions<T(!new)>(s: seq<T>, f: T -> bool, at: set<nat>)
    requires forall i: nat :: i in at <==> i < |s| && f(s[i])
    ensures IsPart(s, at, Filter(s, f))
  {
    var all := seq(|s|, _ => true);
    SelectAll(s);
    FilterOfSelect(s, all, f);
    SelectIsPart(s, Narrow(s, all, f), true);
    AtOfNarrow(s, all, f, at);
    hide *;
  }

  lemma AtOfNarrow<T>(s: seq<T>, m: seq<bool>, f: T -> bool, at: set<nat>)
    requires |m| == |s| && forall i: nat :: i in at <==> i < |s| && m[i] && f(s[i])
    ensures At(Narrow(s, m, f), true) == at
  {
  }

  function EntriesAt<T>(s: seq<T>, pos: seq<nat>): (e: seq<T>)
    requires forall k :: 0 <= k < |pos| ==> pos[k] < |s|
    ensures |e| == |pos| && forall k :: 0 <= k < |pos| ==> e[k] == s[pos[k]]
  {
    seq(|pos|, k requires 0 <= k < |pos| => s[pos[k]])
  }

  /** The part at given positions, by any listing of them. */
  lemma PartListed<T(!new)>(s: seq<T>, at: set<nat>, out: seq<T>, pos: seq<nat>)
    requires IsPart(s, at, out) && Lists(pos, at)
    ensures PicksOut(s, pos, out)
  {
    var own :| Lists(own, at) && PicksOut(s, own, out);
    ListsUnique(own, pos, at);
  }

  lemma CardStep(all: set<nat>, rest: set<nat>, k: nat, there: bool)
    requires k !in rest && all == if there then rest + {k} else rest
    ensures |all| == |rest| + (if there then 1 else 0)
  {
  }
}
