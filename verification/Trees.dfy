/** The recursive comparison of a recorded JSON tree with a fresh one. */
module Trees {
  import opened Basics

  /** JSON as it loads: a dict keeps its keys in insertion order, without repeats. */
  datatype Json =
    | Null | Bool(b: bool) | Int(n: int) | Float(r: real) | FloatNaN | FloatInf(positive: bool) | Str(s: string)
    | List(items: seq<Json>)
    | Dict(fields: seq<Field>)

  datatype Field = Field(key: string, value: Json)

  datatype Step = Key(key: string) | Index(i: nat)
  type Path = seq<Step>

  datatype Mismatch =
    | MissingInFresh(path: Path)
    | LengthDiffers(path: Path, recordedLength: nat, latestLength: nat)
    | ValueDiffers(path: Path, recorded: Json, latest: Json)

  datatype Comparison = Comparison(mismatches: seq<Mismatch>, additive: seq<Path>)

  function Join(a: Comparison, b: Comparison): Comparison {
    Comparison(a.mismatches + b.mismatches, a.additive + b.additive)
  }

  const NOTHING := Comparison([], [])

  function Lookup(fields: seq<Field>, key: string): Option<Json> {
    if |fields| == 0 then None
    else if fields[0].key == key then Some(fields[0].value)
    else Lookup(fields[1..], key)
  }

  /** The value a leaf compares by among numbers: True is 1 and False is 0. */
  function Numeric(j: Json): Option<real> {
    match j
    case Bool(b) => Some(if b then 1.0 else 0.0)
    case Int(n) => Some(n as real)
    case Float(r) => Some(r)
    case _ => None
  }

  /** Equality of leaves, with NaN equal to NaN. A container never equals a leaf or a container
      of the other kind. */
  predicate LeafEqual(a: Json, b: Json) {
    if a.FloatNaN? || b.FloatNaN? then a.FloatNaN? && b.FloatNaN?
    else if Numeric(a).Some? || Numeric(b).Some? then Numeric(a) == Numeric(b)
    else !a.List? && !a.Dict? && a == b
  }

  // --- the comparison -----------------------------------------------------------------------

  function SubsetMismatches(recorded: Json, latest: Json, path: Path): Comparison
    decreases recorded, 1
  {
    if recorded.Dict? && latest.Dict? then
      Join(CompareFields(recorded.fields, latest.fields, path),
           Comparison([], FreshOnly(latest.fields, recorded.fields, path)))
    else if recorded.List? && latest.List? then
      if |recorded.items| != |latest.items|
      then Comparison([LengthDiffers(path, |recorded.items|, |latest.items|)], [])
      else CompareItems(recorded.items, latest.items, path, 0)
    else if !LeafEqual(recorded, latest) then Comparison([ValueDiffers(path, recorded, latest)], [])
    else NOTHING
  }

  function CompareFields(recorded: seq<Field>, latest: seq<Field>, path: Path): Comparison
    decreases recorded, 0
  {
    if |recorded| == 0 then NOTHING
    else
      var f := recorded[0];
      var at := path + [Key(f.key)];
      var v := Lookup(latest, f.key);
      Join(if v.None? then Comparison([MissingInFresh(at)], []) else SubsetMismatches(f.value, v.value, at),
           CompareFields(recorded[1..], latest, path))
  }

  function CompareItems(recorded: seq<Json>, latest: seq<Json>, path: Path, i: nat): Comparison
    requires |recorded| == |latest|
    decreases recorded, 0
  {
    if |recorded| == 0 then NOTHING
    else Join(SubsetMismatches(recorded[0], latest[0], path + [Index(i)]),
              CompareItems(recorded[1..], latest[1..], path, i + 1))
  }

  function FreshOnly(latest: seq<Field>, recorded: seq<Field>, path: Path): seq<Path> {
    if |latest| == 0 then []
    else
      var rest := FreshOnly(latest[1..], recorded, path);
      if Lookup(recorded, latest[0].key).None? then [path + [Key(latest[0].key)]] + rest else rest
  }

  // --- the relation it decides --------------------------------------------------------------

  /** `latest` extends `recorded`: dicts may gain keys at any depth, lists match in length and
      item by item, leaves are equal. */
  ghost predicate Extends(recorded: Json, latest: Json)
    decreases recorded
  {
    if recorded.Dict? && latest.Dict? then
      forall i :: 0 <= i < |recorded.fields| ==>
        var v := Lookup(latest.fields, recorded.fields[i].key);
        v.Some? && Extends(recorded.fields[i].value, v.value)
    else if recorded.List? && latest.List? then
      |recorded.items| == |latest.items|
      && forall i :: 0 <= i < |recorded.items| ==> Extends(recorded.items[i], latest.items[i])
    else LeafEqual(recorded, latest)
  }

  /** The two trees hold the same data: same keys at every depth, in any order. */
  ghost predicate Same(a: Json, b: Json)
    decreases a
  {
    if a.Dict? && b.Dict? then
      && (forall i :: 0 <= i < |a.fields| ==>
            var v := Lookup(b.fields, a.fields[i].key);
            v.Some? && Same(a.fields[i].value, v.value))
      && (forall i :: 0 <= i < |b.fields| ==> Lookup(a.fields, b.fields[i].key).Some?)
    else if a.List? && b.List? then
      |a.items| == |b.items| && forall i :: 0 <= i < |a.items| ==> Same(a.items[i], b.items[i])
    else LeafEqual(a, b)
  }

  // --- the comparison decides it --------------------------------------------------------------

  /** No mismatch is reported iff the fresh tree extends the recorded one. */
  lemma {:induction false} NoMismatchIffExtends(recorded: Json, latest: Json, path: Path)
    ensures SubsetMismatches(recorded, latest, path).mismatches == [] <==> Extends(recorded, latest)
    decreases recorded, 1
  {
    if recorded.Dict? && latest.Dict? {
      FieldsExtend(recorded.fields, latest.fields, path);
    } else if recorded.List? && latest.List? && |recorded.items| == |latest.items| {
      ItemsExtend(recorded.items, latest.items, path, 0);
    }
  }

  lemma {:induction false} FieldsExtend(recorded: seq<Field>, latest: seq<Field>, path: Path)
    ensures CompareFields(recorded, latest, path).mismatches == []
       <==> forall i :: 0 <= i < |recorded| ==>
              var v := Lookup(latest, recorded[i].key);
              v.Some? && Extends(recorded[i].value, v.value)
    decreases recorded, 0
  {
    if |recorded| > 0 {
      var f := recorded[0];
      var v := Lookup(latest, f.key);
      if v.Some? {
        NoMismatchIffExtends(f.value, v.value, path + [Key(f.key)]);
      }
      FieldsExtend(recorded[1..], latest, path);
      assert forall i :: 1 <= i < |recorded| ==> recorded[i] == recorded[1..][i - 1];
    }
  }

  lemma {:induction false} ItemsExtend(recorded: seq<Json>, latest: seq<Json>, path: Path, k: nat)
    requires |recorded| == |latest|
    ensures CompareItems(recorded, latest, path, k).mismatches == []
       <==> forall i :: 0 <= i < |recorded| ==> Extends(recorded[i], latest[i])
    decreases recorded, 0
  {
    if |recorded| > 0 {
      NoMismatchIffExtends(recorded[0], latest[0], path + [Index(k)]);
      ItemsExtend(recorded[1..], latest[1..], path, k + 1);
      assert forall i :: 1 <= i < |recorded| ==> recorded[i] == recorded[1..][i - 1] && latest[i] == latest[1..][i - 1];
    }
  }

  lemma {:induction false} FreshOnlyEmpty(latest: seq<Field>, recorded: seq<Field>, path: Path)
    ensures FreshOnly(latest, recorded, path) == []
       <==> forall i :: 0 <= i < |latest| ==> Lookup(recorded, latest[i].key).Some?
  {
    if |latest| > 0 {
      FreshOnlyEmpty(latest[1..], recorded, path);
      assert forall i :: 1 <= i < |latest| ==> latest[i] == latest[1..][i - 1];
    }
  }

  /** Neither a mismatch nor an additive key is reported iff the trees hold the same data. */
  lemma {:induction false} NothingReportedIffSame(recorded: Json, latest: Json, path: Path)
    ensures SubsetMismatches(recorded, latest, path) == NOTHING <==> Same(recorded, latest)
    decreases recorded, 1
  {
    if recorded.Dict? && latest.Dict? {
      FieldsSame(recorded.fields, latest.fields, path);
      FreshOnlyEmpty(latest.fields, recorded.fields, path);
    } else if recorded.List? && latest.List? && |recorded.items| == |latest.items| {
      ItemsSame(recorded.items, latest.items, path, 0);
    }
  }

  lemma {:induction false} FieldsSame(recorded: seq<Field>, latest: seq<Field>, path: Path)
    ensures CompareFields(recorded, latest, path) == NOTHING
       <==> forall i :: 0 <= i < |recorded| ==>
              var v := Lookup(latest, recorded[i].key);
              v.Some? && Same(recorded[i].value, v.value)
    decreases recorded, 0
  {
    if |recorded| > 0 {
      var f := recorded[0];
      var v := Lookup(latest, f.key);
      if v.Some? {
        NothingReportedIffSame(f.value, v.value, path + [Key(f.key)]);
      }
      FieldsSame(recorded[1..], latest, path);
      assert forall i :: 1 <= i < |recorded| ==> recorded[i] == recorded[1..][i - 1];
    }
  }

  lemma {:induction false} ItemsSame(recorded: seq<Json>, latest: seq<Json>, path: Path, k: nat)
    requires |recorded| == |latest|
    ensures CompareItems(recorded, latest, path, k) == NOTHING
       <==> forall i :: 0 <= i < |recorded| ==> Same(recorded[i], latest[i])
    decreases recorded, 0
  {
    if |recorded| > 0 {
      NothingReportedIffSame(recorded[0], latest[0], path + [Index(k)]);
      ItemsSame(recorded[1..], latest[1..], path, k + 1);
      assert forall i :: 1 <= i < |recorded| ==> recorded[i] == recorded[1..][i - 1] && latest[i] == latest[1..][i - 1];
    }
  }

  // --- order properties -----------------------------------------------------------------------

  /** No dict at any depth repeats a key. */
  ghost predicate KeysDistinct(j: Json)
    decreases j
  {
    match j
    case Dict(fields) =>
      && (forall i, k :: 0 <= i < k < |fields| ==> fields[i].key != fields[k].key)
      && (forall i :: 0 <= i < |fields| ==> KeysDistinct(fields[i].value))
    case List(items) => forall i :: 0 <= i < |items| ==> KeysDistinct(items[i])
    case _ => true
  }

  lemma {:induction false} LookupOwn(fields: seq<Field>, i: nat)
    requires i < |fields| && forall j, k :: 0 <= j < k < |fields| ==> fields[j].key != fields[k].key
    ensures Lookup(fields, fields[i].key) == Some(fields[i].value)
  {
    if i > 0 {
      LookupOwn(fields[1..], i - 1);
    }
  }

  lemma {:induction false} LookupFinds(fields: seq<Field>, key: string)
    requires Lookup(fields, key).Some?
    ensures exists i :: 0 <= i < |fields| && fields[i].key == key && Lookup(fields, key) == Some(fields[i].value)
  {
    if fields[0].key != key {
      LookupFinds(fields[1..], key);
      var i :| 0 <= i < |fields| - 1 && fields[1..][i].key == key && Lookup(fields, key) == Some(fields[1..][i].value);
      assert fields[i + 1].key == key && Lookup(fields, key) == Some(fields[i + 1].value);
    } else {
      assert fields[0].key == key && Lookup(fields, key) == Some(fields[0].value);
    }
  }

  lemma {:induction false} ExtendsReflexive(j: Json)
    requires KeysDistinct(j)
    ensures Extends(j, j)
    decreases j
  {
    match j {
      case Dict(fields) =>
        forall i | 0 <= i < |fields|
          ensures var v := Lookup(fields, fields[i].key); v.Some? && Extends(fields[i].value, v.value)
        {
          LookupOwn(fields, i);
          ExtendsReflexive(fields[i].value);
        }
      case List(items) =>
        forall i | 0 <= i < |items| ensures Extends(items[i], items[i]) {
          ExtendsReflexive(items[i]);
        }
      case _ =>
    }
  }

  lemma {:induction false} ExtendsTransitive(a: Json, b: Json, c: Json)
    requires Extends(a, b) && Extends(b, c)
    ensures Extends(a, c)
    decreases a
  {
    if a.Dict? && b.Dict? && c.Dict? {
      forall i | 0 <= i < |a.fields|
        ensures var v := Lookup(c.fields, a.fields[i].key); v.Some? && Extends(a.fields[i].value, v.value)
      {
        var key := a.fields[i].key;
        LookupFinds(b.fields, key);
        var k :| 0 <= k < |b.fields| && b.fields[k].key == key && Lookup(b.fields, key) == Some(b.fields[k].value);
        ExtendsTransitive(a.fields[i].value, b.fields[k].value, Lookup(c.fields, key).value);
      }
    } else if a.List? && b.List? && c.List? {
      forall i | 0 <= i < |a.items| ensures Extends(a.items[i], c.items[i]) {
        ExtendsTransitive(a.items[i], b.items[i], c.items[i]);
      }
    }
  }

  /** Extending each other is holding the same data. */
  lemma {:induction false} MutualExtensionIsSame(a: Json, b: Json)
    requires KeysDistinct(a) && KeysDistinct(b)
    ensures Extends(a, b) && Extends(b, a) <==> Same(a, b)
    decreases a
  {
    if a.Dict? && b.Dict? {
      forall i | 0 <= i < |a.fields| && Lookup(b.fields, a.fields[i].key).Some?
        ensures var v := Lookup(b.fields, a.fields[i].key).value;
          (Extends(a.fields[i].value, v) && Extends(v, a.fields[i].value) <==> Same(a.fields[i].value, v))
      {
        LookupFinds(b.fields, a.fields[i].key);
        MutualExtensionIsSame(a.fields[i].value, Lookup(b.fields, a.fields[i].key).value);
      }
      assert ValuesAgree(a.fields, b.fields);
      DictsMutual(a.fields, b.fields);
    } else if a.List? && b.List? && |a.items| == |b.items| {
      forall i | 0 <= i < |a.items|
        ensures Extends(a.items[i], b.items[i]) && Extends(b.items[i], a.items[i]) <==> Same(a.items[i], b.items[i])
      {
        MutualExtensionIsSame(a.items[i], b.items[i]);
      }
    }
  }

  /** Looking a key of `a` up in `b` and back lands on the same field. */
  lemma LookupBack(a: seq<Field>, b: seq<Field>, i: nat) returns (k: nat)
    requires KeysDistinct(Dict(a)) && KeysDistinct(Dict(b)) && i < |a| && Lookup(b, a[i].key).Some?
    ensures k < |b| && b[k].key == a[i].key && Lookup(b, a[i].key) == Some(b[k].value)
    ensures Lookup(a, b[k].key) == Some(a[i].value)
  {
    LookupFinds(b, a[i].key);
    k :| 0 <= k < |b| && b[k].key == a[i].key && Lookup(b, a[i].key) == Some(b[k].value);
    LookupOwn(a, i);
  }

  /** The fields of two dicts agree on what mutual extension of their values means. */
  ghost predicate ValuesAgree(a: seq<Field>, b: seq<Field>) {
    forall i :: 0 <= i < |a| && Lookup(b, a[i].key).Some? ==>
      var v := Lookup(b, a[i].key).value;
      (Extends(a[i].value, v) && Extends(v, a[i].value) <==> Same(a[i].value, v))
  }

  lemma DictsMutual(a: seq<Field>, b: seq<Field>)
    requires KeysDistinct(Dict(a)) && KeysDistinct(Dict(b)) && ValuesAgree(a, b)
    ensures Extends(Dict(a), Dict(b)) && Extends(Dict(b), Dict(a)) <==> Same(Dict(a), Dict(b))
  {
    if Extends(Dict(a), Dict(b)) && Extends(Dict(b), Dict(a)) {
      MutualDictsSame(a, b);
    }
    if Same(Dict(a), Dict(b)) {
      SameDictsMutual(a, b);
    }
  }

  lemma MutualDictsSame(a: seq<Field>, b: seq<Field>)
    requires KeysDistinct(Dict(a)) && KeysDistinct(Dict(b)) && ValuesAgree(a, b)
    requires Extends(Dict(a), Dict(b)) && Extends(Dict(b), Dict(a))
    ensures Same(Dict(a), Dict(b))
  {
    assert Dict(a).fields == a && Dict(b).fields == b;
    forall i | 0 <= i < |a| ensures var v := Lookup(b, a[i].key); v.Some? && Same(a[i].value, v.value) {
      var k := LookupBack(a, b, i);
      assert Extends(b[k].value, a[i].value);
    }
  }

  lemma SameDictsMutual(a: seq<Field>, b: seq<Field>)
    requires KeysDistinct(Dict(a)) && KeysDistinct(Dict(b)) && ValuesAgree(a, b)
    requires Same(Dict(a), Dict(b))
    ensures Extends(Dict(a), Dict(b)) && Extends(Dict(b), Dict(a))
  {
    assert Dict(a).fields == a && Dict(b).fields == b;
    forall k | 0 <= k < |b| ensures var v := Lookup(a, b[k].key); v.Some? && Extends(b[k].value, v.value) {
      var i := LookupBack(b, a, k);
      assert Same(a[i].value, b[k].value);
    }
  }

  // --- what equality of leaves and of trees is --------------------------------------------------

  /** The leaf is the number x: True counts as one and False as zero. */
  ghost predicate IsNumber(j: Json, x: real) {
    || j == Float(x) || (j.Int? && j.n as real == x)
    || (j == Bool(true) && x == 1.0) || (j == Bool(false) && x == 0.0)
  }

  ghost predicate SameNumber(a: Json, b: Json) { exists x :: IsNumber(a, x) && IsNumber(b, x) }

  ghost predicate IsLeaf(j: Json) { !j.List? && !j.Dict? }

  /** Both NaN, or numbers of one value, or the same string, the same infinity or both null. */
  ghost predicate SameLeaf(a: Json, b: Json) {
    || (a == FloatNaN && b == FloatNaN)
    || SameNumber(a, b)
    || (a == b && (a.Str? || a.FloatInf? || a.Null?))
  }

  /** Two leaves: no mismatch is reported iff they hold the same value; otherwise exactly one is,
      with both values. */
  lemma LeafMeaning(a: Json, b: Json, path: Path)
    requires IsLeaf(a) && IsLeaf(b)
    ensures SubsetMismatches(a, b, path) ==
      if SameLeaf(a, b) then Comparison([], []) else Comparison([ValueDiffers(path, a, b)], [])
  {
    if Numeric(a).Some? && Numeric(a) == Numeric(b) {
      assert IsNumber(a, Numeric(a).value) && IsNumber(b, Numeric(a).value);
    }
  }

  /** A container against a leaf, or against a container of the other kind, is a mismatch. */
  lemma KindsDiffer(a: Json, b: Json, path: Path)
    requires a.List? || a.Dict? || b.List? || b.Dict?
    requires !(a.List? && b.List?) && !(a.Dict? && b.Dict?)
    ensures SubsetMismatches(a, b, path) == Comparison([ValueDiffers(path, a, b)], [])
  {
  }

  /** Without booleans and integers, which compare by value with other numbers, leaves hold the
      same value iff they are equal. */
  lemma PlainLeaf(a: Json, b: Json)
    requires IsLeaf(a) && IsLeaf(b) && !a.Bool? && !a.Int? && !b.Bool? && !b.Int?
    ensures SameLeaf(a, b) <==> a == b
  {
    if a == b && a.Float? {
      assert IsNumber(a, a.r) && IsNumber(b, a.r);
    }
  }

  ghost function KeySet(fields: seq<Field>): set<string> { set f | f in fields :: f.key }

  /** The trees are equal but for the order of keys and the notation of numbers; with `additive`,
      the second may hold further keys. */
  ghost predicate Matches(a: Json, b: Json, additive: bool)
    decreases a
  {
    if a.Dict? && b.Dict? then
      && KeySet(a.fields) <= KeySet(b.fields) && (additive || KeySet(b.fields) <= KeySet(a.fields))
      && forall i, k :: 0 <= i < |a.fields| && 0 <= k < |b.fields| && a.fields[i].key == b.fields[k].key ==>
           Matches(a.fields[i].value, b.fields[k].value, additive)
    else if a.List? && b.List? then
      |a.items| == |b.items| && forall i :: 0 <= i < |a.items| ==> Matches(a.items[i], b.items[i], additive)
    else SameLeaf(a, b)
  }

  lemma LookupByKey(fields: seq<Field>, key: string)
    ensures Lookup(fields, key).Some? <==> key in KeySet(fields)
  {
    if Lookup(fields, key).Some? {
      LookupFinds(fields, key);
      var i :| 0 <= i < |fields| && fields[i].key == key && Lookup(fields, key) == Some(fields[i].value);
      assert fields[i] in fields;
    }
    if key in KeySet(fields) {
      var f :| f in fields && f.key == key;
      var i :| 0 <= i < |fields| && fields[i] == f;
      FoundIfThere(fields, i);
    }
  }

  lemma {:induction false} FoundIfThere(fields: seq<Field>, i: nat)
    requires i < |fields|
    ensures Lookup(fields, fields[i].key).Some?
  {
    if i > 0 {
      FoundIfThere(fields[1..], i - 1);
    }
  }

  /** The relations the comparison decides, as one. */
  ghost predicate Decided(a: Json, b: Json, additive: bool) { if additive then Extends(a, b) else Same(a, b) }

  /** Every key of `a` is found in `b`, with a value that the comparison accepts. */
  ghost predicate AllFound(a: seq<Field>, b: seq<Field>, additive: bool) {
    forall i :: 0 <= i < |a| ==>
      Lookup(b, a[i].key).Some? && Decided(a[i].value, Lookup(b, a[i].key).value, additive)
  }

  lemma DictsDecided(a: Json, b: Json, additive: bool)
    requires a.Dict? && b.Dict?
    ensures Decided(a, b, additive) <==>
      AllFound(a.fields, b.fields, additive) && (additive || KeySet(b.fields) <= KeySet(a.fields))
  {
    forall k | 0 <= k < |b.fields|
      ensures Lookup(a.fields, b.fields[k].key).Some? <==> b.fields[k].key in KeySet(a.fields)
    {
      LookupByKey(a.fields, b.fields[k].key);
    }
    KeysWithin(b.fields, a.fields);
    hide Lookup, KeySet;
  }

  lemma KeysWithin(a: seq<Field>, b: seq<Field>)
    ensures KeySet(a) <= KeySet(b) <==> forall i :: 0 <= i < |a| ==> a[i].key in KeySet(b)
  {
    if KeySet(a) <= KeySet(b) {
      forall i | 0 <= i < |a| ensures a[i].key in KeySet(b) {
        assert a[i] in a && a[i].key in KeySet(a);
      }
    }
  }

  /** Fields of one key: what is looked up, and that the comparison means matching. */
  ghost predicate PairsAgree(a: seq<Field>, b: seq<Field>, additive: bool) {
    forall i, k :: 0 <= i < |a| && 0 <= k < |b| && a[i].key == b[k].key ==>
      && Lookup(b, a[i].key) == Some(b[k].value)
      && (Decided(a[i].value, b[k].value, additive) <==> Matches(a[i].value, b[k].value, additive))
  }

  lemma FoundMeansMatched(a: seq<Field>, b: seq<Field>, additive: bool)
    requires PairsAgree(a, b, additive)
    ensures AllFound(a, b, additive) <==>
      && KeySet(a) <= KeySet(b)
      && forall i, k :: 0 <= i < |a| && 0 <= k < |b| && a[i].key == b[k].key ==>
           Matches(a[i].value, b[k].value, additive)
  {
    forall i | 0 <= i < |a| ensures Lookup(b, a[i].key).Some? <==> a[i].key in KeySet(b) {
      LookupByKey(b, a[i].key);
    }
    KeysWithin(a, b);
    hide Lookup, KeySet, Decided, Matches;
    forall i | 0 <= i < |a| && a[i].key in KeySet(b)
      ensures exists k :: 0 <= k < |b| && b[k].key == a[i].key
    {
      LookupFinds(b, a[i].key);
      var k :| 0 <= k < |b| && b[k].key == a[i].key && Lookup(b, a[i].key) == Some(b[k].value);
    }
  }

  lemma DictsMatch(a: Json, b: Json, additive: bool)
    requires a.Dict? && b.Dict? && PairsAgree(a.fields, b.fields, additive)
    ensures Decided(a, b, additive) <==> Matches(a, b, additive)
  {
    DictsDecided(a, b, additive);
    FoundMeansMatched(a.fields, b.fields, additive);
    hide Lookup, KeySet, Decided, AllFound;
  }

  lemma ListsMatch(a: Json, b: Json, additive: bool)
    requires a.List? && b.List?
    requires forall i :: 0 <= i < |a.items| && i < |b.items| ==>
      (Decided(a.items[i], b.items[i], additive) <==> Matches(a.items[i], b.items[i], additive))
    ensures Decided(a, b, additive) <==> Matches(a, b, additive)
  {
  }

  lemma LeavesMatch(a: Json, b: Json, additive: bool)
    requires !(a.Dict? && b.Dict?) && !(a.List? && b.List?)
    ensures Decided(a, b, additive) <==> Matches(a, b, additive)
  {
    if IsLeaf(a) && IsLeaf(b) {
      LeafMeaning(a, b, []);
    }
  }

  lemma {:induction false} DecidedIsMatching(a: Json, b: Json, additive: bool)
    requires KeysDistinct(a) && KeysDistinct(b)
    ensures Decided(a, b, additive) <==> Matches(a, b, additive)
    decreases a
  {
    hide Decided, Matches, Lookup;
    if a.Dict? && b.Dict? {
      forall i, k | 0 <= i < |a.fields| && 0 <= k < |b.fields| && a.fields[i].key == b.fields[k].key
        ensures Lookup(b.fields, a.fields[i].key) == Some(b.fields[k].value)
        ensures Decided(a.fields[i].value, b.fields[k].value, additive)
           <==> Matches(a.fields[i].value, b.fields[k].value, additive)
      {
        LookupOwn(b.fields, k);
        DecidedIsMatching(a.fields[i].value, b.fields[k].value, additive);
      }
      DictsMatch(a, b, additive);
    } else if a.List? && b.List? {
      forall i | 0 <= i < |a.items| && i < |b.items|
        ensures Decided(a.items[i], b.items[i], additive) <==> Matches(a.items[i], b.items[i], additive)
      {
        DecidedIsMatching(a.items[i], b.items[i], additive);
      }
      ListsMatch(a, b, additive);
    } else {
      LeavesMatch(a, b, additive);
    }
  }

  /** The drift check on whole trees: no mismatch is reported iff the fresh tree holds the recorded
      one, keys added; nothing is reported iff they are equal, but for the order of keys and the
      notation of numbers. */
  lemma ReportMeaning(recorded: Json, latest: Json, path: Path)
    requires KeysDistinct(recorded) && KeysDistinct(latest)
    ensures SubsetMismatches(recorded, latest, path).mismatches == [] <==> Matches(recorded, latest, true)
    ensures SubsetMismatches(recorded, latest, path) == Comparison([], []) <==> Matches(recorded, latest, false)
  {
    NoMismatchIffExtends(recorded, latest, path);
    NothingReportedIffSame(recorded, latest, path);
    DecidedIsMatching(recorded, latest, true);
    DecidedIsMatching(recorded, latest, false);
    hide SubsetMismatches, Extends, Same, Matches;
  }
}
