/**
 Comparison of JSON values up to the order of array items and object entries
 (jsonld-syntax/src/compare.rs:15-58).

 Arrays are matched greedily. Greedy matching finds a pairing whenever one exists only
 because comparison turns out to be equality of normal forms, and that is proved
 together with the matching, by induction on the left operand.
 */
module Compare {
  import opened Wrappers
  import opened Json

  /** What a value is once the order of items and entries is forgotten. */
  datatype Normal =
    | NormalNull
    | NormalBoolean(b: bool)
    | NormalNumber(lexical: string)
    | NormalString(s: string)
    | NormalArray(items: multiset<Normal>)
    | NormalObject(entries: map<string, Normal>)

  function Norm(v: Value): Normal
    decreases v, 0
  {
    match v
    case Null => NormalNull
    case Boolean(b) => NormalBoolean(b)
    case Number(n) => NormalNumber(n)
    case Str(s) => NormalString(s)
    case Array(items) => NormalArray(multiset(NormItems(items)))
    case Object(entries) => NormalObject(NormEntries(entries))
  }

  function NormItems(items: seq<Value>): (r: seq<Normal>)
    ensures |r| == |items|
    decreases items, 0
  {
    if items == [] then [] else [Norm(items[0])] + NormItems(items[1..])
  }

  function NormEntry(entry: Entry): Normal
    decreases entry, 0
  {
    Norm(entry.value)
  }

  function NormEntries(entries: seq<Entry>): map<string, Normal>
    decreases entries, 0
  {
    if entries == [] then map[] else NormEntries(entries[1..])[entries[0].key := NormEntry(entries[0])]
  }

  /** No object inside `v`, at any depth, has a key twice. */
  predicate DuplicateFree(v: Value)
    decreases v, 0
  {
    match v
    case Array(items) => AllDuplicateFree(items)
    case Object(entries) => DistinctKeys(entries) && EntriesDuplicateFree(entries)
    case _ => true
  }

  predicate AllDuplicateFree(items: seq<Value>)
    decreases items, 0
  {
    items == [] || (DuplicateFree(items[0]) && AllDuplicateFree(items[1..]))
  }

  predicate EntryDuplicateFree(entry: Entry)
    decreases entry, 0
  {
    DuplicateFree(entry.value)
  }

  predicate EntriesDuplicateFree(entries: seq<Entry>)
    decreases entries, 0
  {
    entries == [] || (EntryDuplicateFree(entries[0]) && EntriesDuplicateFree(entries[1..]))
  }

  // ----- the comparison as a function of its operands

  /** Of `n` items, none is selected yet. */
  function NoneTaken(n: nat): seq<bool>
  {
    seq(n, _ => false)
  }

  predicate Equal(a: Value, b: Value)
    decreases a, 0, 0
  {
    match (a, b)
    case (Null, Null) => true
    case (Boolean(x), Boolean(y)) => x == y
    case (Number(x), Number(y)) => x == y
    case (Str(x), Str(y)) => x == y
    case (Array(x), Array(y)) => |x| == |y| && MatchItems(x, y, NoneTaken(|y|))
    case (Object(x), Object(y)) => |x| == |y| && MatchEntries(x, y)
    case _ => false
  }

  /** The position of the first free item equal to `item`, or the length of `b`. */
  function FirstFree(item: Value, b: seq<Value>, selected: seq<bool>, j: nat): (k: nat)
    requires |selected| == |b| && j <= |b|
    ensures j <= k <= |b|
    ensures k < |b| ==> !selected[k] && Equal(item, b[k])
    ensures forall i :: j <= i < k ==> selected[i] || !Equal(item, b[i])
    decreases item, 1, |b| - j
  {
    if j == |b| then j
    else if !selected[j] && Equal(item, b[j]) then j
    else FirstFree(item, b, selected, j + 1)
  }

  predicate MatchItems(a: seq<Value>, b: seq<Value>, selected: seq<bool>)
    requires |selected| == |b|
    decreases a, 0, 0
  {
    a == [] ||
    var k := FirstFree(a[0], b, selected, 0);
    k < |b| && MatchItems(a[1..], b, selected[k := true])
  }

  predicate MatchEntry(entry: Entry, b: seq<Entry>)
    decreases entry, 0, 0
  {
    var found := GetUnique(b, entry.key);
    found.Ok? && found.value.Some? && Equal(entry.value, found.value.value)
  }

  predicate MatchEntries(a: seq<Entry>, b: seq<Entry>)
    decreases a, 0, 0
  {
    a == [] || (MatchEntry(a[0], b) && MatchEntries(a[1..], b))
  }

  /** The comparison as it runs, with its vector of selected items. */
  method CompareValues(a: Value, b: Value) returns (r: bool)
    ensures r == Equal(a, b)
    decreases a, 0
  {
    match (a, b)
    case (Null, Null) => r := true;
    case (Boolean(x), Boolean(y)) => r := x == y;
    case (Number(x), Number(y)) => r := x == y;
    case (Str(x), Str(y)) => r := x == y;
    case (Array(x), Array(y)) =>
      if |x| != |y| { return false; }
      r := CompareItems(x, y);
    case (Object(x), Object(y)) =>
      if |x| != |y| { return false; }
      r := CompareEntries(x, y);
    case _ => r := false;
  }

  method CompareItems(x: seq<Value>, y: seq<Value>) returns (r: bool)
    ensures r == MatchItems(x, y, NoneTaken(|y|))
    decreases x, 1
  {
    var selected := new bool[|y|](_ => false);
    assert selected[..] == NoneTaken(|y|);
    var i := 0;
    while i < |x|
      invariant 0 <= i <= |x|
      invariant MatchItems(x[i..], y, selected[..]) == MatchItems(x, y, NoneTaken(|y|))
    {
      assert x[i..][0] == x[i] && x[i..][1..] == x[i + 1..];
      var j := FindFree(x[i], y, selected);
      if j == |y| { return false; }
      ghost var before := selected[..];
      selected[j] := true;
      assert selected[..] == before[j := true];
      i := i + 1;
    }
    r := true;
  }

  method FindFree(item: Value, y: seq<Value>, selected: array<bool>) returns (j: nat)
    requires selected.Length == |y|
    ensures j == FirstFree(item, y, selected[..], 0)
    decreases item, 1
  {
    j := 0;
    while j < |y|
      invariant 0 <= j <= |y|
      invariant FirstFree(item, y, selected[..], 0) == FirstFree(item, y, selected[..], j)
    {
      var equal := false;
      if !selected[j] {
        equal := CompareValues(item, y[j]);
      }
      if equal { return; }
      j := j + 1;
    }
  }

  method CompareEntries(x: seq<Entry>, y: seq<Entry>) returns (r: bool)
    ensures r == MatchEntries(x, y)
    decreases x, 1
  {
    for i := 0 to |x|
      invariant MatchEntries(x[i..], y) == MatchEntries(x, y)
    {
      assert x[i..][0] == x[i] && x[i..][1..] == x[i + 1..];
      var found := GetUnique(y, x[i].key);
      if found.Err? || found.value.None? { return false; }
      var equal := CompareValues(x[i].value, found.value.value);
      if !equal { return false; }
    }
    r := true;
  }

  // ----- greedy matching is complete

  /** The normal form of a value that has one to compare with. */
  function Tag(v: Value): Option<Normal>
  {
    if DuplicateFree(v) then Some(Norm(v)) else None
  }

  /** The tags of the items of `b` not yet selected. */
  function FreeTags(b: seq<Value>, selected: seq<bool>): multiset<Option<Normal>>
    requires |selected| == |b|
  {
    if b == [] then multiset{}
    else (if selected[0] then multiset{} else multiset{Tag(b[0])}) + FreeTags(b[1..], selected[1..])
  }

  lemma {:induction false} FreeTagAt(b: seq<Value>, selected: seq<bool>, k: nat)
    requires |selected| == |b| && k < |b| && !selected[k]
    ensures Tag(b[k]) in FreeTags(b, selected)
    ensures FreeTags(b, selected) == FreeTags(b, selected[k := true]) + multiset{Tag(b[k])}
  {
    if k > 0 {
      FreeTagAt(b[1..], selected[1..], k - 1);
      assert selected[k := true][1..] == selected[1..][k - 1 := true];
    } else {
      assert selected[k := true][1..] == selected[1..];
    }
  }

  lemma {:induction false} FreeTagSource(b: seq<Value>, selected: seq<bool>, tag: Option<Normal>) returns (k: nat)
    requires |selected| == |b| && tag in FreeTags(b, selected)
    ensures k < |b| && !selected[k] && Tag(b[k]) == tag
  {
    if !selected[0] && Tag(b[0]) == tag {
      k := 0;
    } else {
      k := FreeTagSource(b[1..], selected[1..], tag);
      k := k + 1;
    }
  }

  function Somes(s: seq<Normal>): (r: seq<Option<Normal>>)
    ensures |r| == |s|
  {
    if s == [] then [] else [Some(s[0])] + Somes(s[1..])
  }

  lemma TakeOne<T>(x: T, a: multiset<T>, b: multiset<T>)
    ensures multiset{x} + a == b + multiset{x} <==> a == b
    ensures |b + multiset{x}| == |b| + 1
  {
    assert multiset{x} + a - multiset{x} == a && b + multiset{x} - multiset{x} == b;
  }

  /** Greedy matching succeeds exactly when what is left to match has the tags that are free. */
  lemma {:induction false} GreedyIsComplete(a: seq<Value>, b: seq<Value>, selected: seq<bool>)
    requires |selected| == |b| && AllDuplicateFree(a) && |FreeTags(b, selected)| == |a|
    ensures MatchItems(a, b, selected) <==> multiset(Somes(NormItems(a))) == FreeTags(b, selected)
    decreases a, 1
  {
    if a != [] {
      var item := a[0];
      forall v ensures Equal(item, v) <==> Tag(v) == Some(Norm(item)) { EqualIsSameNormalForm(item, v); }
      var k := FirstFree(item, b, selected, 0);
      var wanted := Somes(NormItems(a));
      assert wanted == [Some(Norm(item))] + Somes(NormItems(a[1..]));
      assert multiset(wanted) == multiset{Some(Norm(item))} + multiset(Somes(NormItems(a[1..])));
      if k < |b| {
        FreeTagAt(b, selected, k);
        TakeOne(Some(Norm(item)), multiset(Somes(NormItems(a[1..]))), FreeTags(b, selected[k := true]));
        GreedyIsComplete(a[1..], b, selected[k := true]);
      } else {
        if Some(Norm(item)) in FreeTags(b, selected) {
          var j := FreeTagSource(b, selected, Some(Norm(item)));
        }
        assert wanted[0] in multiset(wanted);
      }
    }
  }

  lemma CountsOneMore<T>(x: T, all: multiset<T>)
    ensures |multiset{x} + all| == 1 + |all| && x in multiset{x} + all
  {
  }

  lemma {:induction false} NoneTakenCons(b: seq<Value>)
    requires b != []
    ensures FreeTags(b, NoneTaken(|b|)) == multiset{Tag(b[0])} + FreeTags(b[1..], NoneTaken(|b[1..]|))
  {
    assert NoneTaken(|b|)[1..] == NoneTaken(|b[1..]|);
  }

  lemma {:induction false} AllFree(b: seq<Value>)
    ensures |FreeTags(b, NoneTaken(|b|))| == |b|
    ensures AllDuplicateFree(b) ==> FreeTags(b, NoneTaken(|b|)) == multiset(Somes(NormItems(b)))
    ensures !AllDuplicateFree(b) ==> None in FreeTags(b, NoneTaken(|b|))
  {
    if b != [] {
      var rest := b[1..];
      var tags := FreeTags(rest, NoneTaken(|rest|));
      AllFree(rest);
      NoneTakenCons(b);
      CountsOneMore(Tag(b[0]), tags);
      if AllDuplicateFree(b) {
        SomesCons(Norm(b[0]), NormItems(rest));
        assert NormItems(b) == [Norm(b[0])] + NormItems(rest);
      } else if DuplicateFree(b[0]) {
        assert None in tags;
      }
    }
  }

  lemma {:induction false} SomesCons(n: Normal, s: seq<Normal>)
    ensures multiset(Somes([n] + s)) == multiset{Some(n)} + multiset(Somes(s))
  {
    assert Somes([n] + s) == [Some(n)] + Somes(s);
  }

  lemma {:induction false} SomesCount(s: seq<Normal>, n: Normal)
    ensures multiset(Somes(s))[Some(n)] == multiset(s)[n]
    ensures None !in Somes(s)
  {
    if s != [] {
      SomesCount(s[1..], n);
      assert s == [s[0]] + s[1..];
      assert multiset(s) == multiset{s[0]} + multiset(s[1..]);
      assert multiset(Somes(s)) == multiset{Some(s[0])} + multiset(Somes(s[1..]));
    }
  }

  lemma {:induction false} SomesSame(s: seq<Normal>, t: seq<Normal>)
    requires multiset(s) == multiset(t)
    ensures multiset(Somes(s)) == multiset(Somes(t))
  {
    forall o ensures multiset(Somes(s))[o] == multiset(Somes(t))[o] {
      var n := if o.Some? then o.value else NormalNull;
      SomesCount(s, n);
      SomesCount(t, n);
    }
  }

  lemma {:induction false} SomesInjective(s: seq<Normal>, t: seq<Normal>)
    ensures multiset(Somes(s)) == multiset(Somes(t)) <==> multiset(s) == multiset(t)
  {
    if multiset(s) == multiset(t) {
      SomesSame(s, t);
    } else if multiset(Somes(s)) == multiset(Somes(t)) {
      forall n ensures multiset(s)[n] == multiset(t)[n] {
        SomesCount(s, n);
        SomesCount(t, n);
      }
    }
  }

  lemma {:induction false} ArraysEqual(x: seq<Value>, y: seq<Value>)
    requires AllDuplicateFree(x) && |x| == |y|
    ensures MatchItems(x, y, NoneTaken(|y|))
        <==> AllDuplicateFree(y) && multiset(NormItems(x)) == multiset(NormItems(y))
    decreases x, 2
  {
    AllFree(y);
    GreedyIsComplete(x, y, NoneTaken(|y|));
    if AllDuplicateFree(y) {
      SomesInjective(NormItems(x), NormItems(y));
    } else {
      SomesCount(NormItems(x), NormalNull);
    }
  }

  // ----- objects

  lemma {:induction false} NormEntriesKeys(entries: seq<Entry>)
    ensures NormEntries(entries).Keys == KeySet(entries)
  {
    if entries != [] {
      NormEntriesKeys(entries[1..]);
      KeySetCons(entries);
    }
  }

  lemma {:induction false} NormEntriesAt(entries: seq<Entry>, i: nat)
    requires i < |entries| && DistinctKeys(entries)
    ensures entries[i].key in NormEntries(entries) && NormEntries(entries)[entries[i].key] == Norm(entries[i].value)
  {
    if i > 0 {
      var rest := entries[1..];
      assert forall k :: 0 <= k < |rest| ==> rest[k] == entries[k + 1];
      assert DistinctKeys(rest);
      NormEntriesAt(rest, i - 1);
      assert entries[0].key != entries[i].key;
    }
  }

  lemma {:induction false} EntriesFreeAt(entries: seq<Entry>)
    ensures EntriesDuplicateFree(entries) <==> forall i :: 0 <= i < |entries| ==> DuplicateFree(entries[i].value)
  {
    if entries != [] {
      var rest := entries[1..];
      EntriesFreeAt(rest);
      if forall i :: 0 <= i < |entries| ==> DuplicateFree(entries[i].value) {
        forall i | 0 <= i < |rest| ensures DuplicateFree(rest[i].value) { assert rest[i] == entries[i + 1]; }
      }
      if EntriesDuplicateFree(entries) {
        forall i | 0 <= i < |entries| ensures DuplicateFree(entries[i].value) {
          if i > 0 { assert entries[i] == rest[i - 1]; }
        }
      }
    }
  }

  lemma {:induction false} MatchEntriesAt(a: seq<Entry>, b: seq<Entry>)
    ensures MatchEntries(a, b) <==> forall i :: 0 <= i < |a| ==> MatchEntry(a[i], b)
  {
    if a != [] {
      var rest := a[1..];
      MatchEntriesAt(rest, b);
      if forall i :: 0 <= i < |a| ==> MatchEntry(a[i], b) {
        forall i | 0 <= i < |rest| ensures MatchEntry(rest[i], b) { assert rest[i] == a[i + 1]; }
      }
      if MatchEntries(a, b) {
        forall i | 0 <= i < |a| ensures MatchEntry(a[i], b) {
          if i > 0 { assert a[i] == rest[i - 1]; }
        }
      }
    }
  }

  /** As many distinct keys on the left as entries on the right leave no room for a duplicate. */
  lemma {:induction false} SameKeys(x: seq<Entry>, y: seq<Entry>)
    requires DistinctKeys(x) && |x| == |y| && MatchEntries(x, y)
    ensures KeySet(x) == KeySet(y) && DistinctKeys(y)
  {
    MatchEntriesAt(x, y);
    forall key | key in KeySet(x) ensures key in KeySet(y) {
      var i :| 0 <= i < |x| && x[i].key == key;
      assert MatchEntry(x[i], y);
      GetUniqueFinds(y, key);
    }
    DistinctByCount(x);
    DistinctByCount(y);
    SubsetOfSameSize(KeySet(x), KeySet(y));
  }

  lemma SubsetOfSameSize<T>(a: set<T>, b: set<T>)
    requires a <= b && |a| >= |b|
    ensures a == b
  {
    assert b == a + (b - a);
    assert |b| == |a| + |b - a|;
  }

  lemma {:induction false} ObjectsEqual(x: seq<Entry>, y: seq<Entry>)
    requires DistinctKeys(x) && EntriesDuplicateFree(x) && |x| == |y|
    ensures MatchEntries(x, y) <==> DistinctKeys(y) && EntriesDuplicateFree(y) && NormEntries(x) == NormEntries(y)
    decreases x, 2
  {
    EntriesFreeAt(x);
    EntriesFreeAt(y);
    NormEntriesKeys(x);
    NormEntriesKeys(y);
    if MatchEntries(x, y) {
      SameKeys(x, y);
      forall j | 0 <= j < |y| ensures DuplicateFree(y[j].value)
          && NormEntries(x)[y[j].key] == NormEntries(y)[y[j].key] {
        ObjectsEqualAt(x, y, j);
      }
      forall key | key in NormEntries(y) ensures NormEntries(x)[key] == NormEntries(y)[key] {
        var j :| 0 <= j < |y| && y[j].key == key;
      }
    }
    if DistinctKeys(y) && EntriesDuplicateFree(y) && NormEntries(x) == NormEntries(y) {
      forall i | 0 <= i < |x| ensures MatchEntry(x[i], y) { ObjectsMatchAt(x, y, i); }
      MatchEntriesAt(x, y);
    }
  }

  lemma {:induction false} ObjectsEqualAt(x: seq<Entry>, y: seq<Entry>, j: nat)
    requires DistinctKeys(x) && DistinctKeys(y) && KeySet(x) == KeySet(y) && j < |y|
    requires EntriesDuplicateFree(x) && MatchEntries(x, y)
    ensures DuplicateFree(y[j].value)
    ensures y[j].key in NormEntries(x) && y[j].key in NormEntries(y)
        && NormEntries(x)[y[j].key] == NormEntries(y)[y[j].key]
    decreases x, 1
  {
    assert y[j].key in KeySet(x);
    var i :| 0 <= i < |x| && x[i].key == y[j].key;
    MatchEntriesAt(x, y);
    EntriesFreeAt(x);
    GetUniqueAt(y, j);
    assert MatchEntry(x[i], y);
    EntryEqualIsSameNormalForm(x[i], y[j].value);
    NormEntriesAt(x, i);
    NormEntriesAt(y, j);
  }

  lemma {:induction false} ObjectsMatchAt(x: seq<Entry>, y: seq<Entry>, i: nat)
    requires DistinctKeys(x) && DistinctKeys(y) && i < |x|
    requires EntriesDuplicateFree(x) && EntriesDuplicateFree(y) && NormEntries(x) == NormEntries(y)
    ensures MatchEntry(x[i], y)
    decreases x, 1
  {
    EntriesFreeAt(x);
    EntriesFreeAt(y);
    NormEntriesKeys(y);
    NormEntriesAt(x, i);
    assert x[i].key in KeySet(y);
    var j :| 0 <= j < |y| && y[j].key == x[i].key;
    GetUniqueAt(y, j);
    NormEntriesAt(y, j);
    EntryEqualIsSameNormalForm(x[i], y[j].value);
  }

  lemma {:induction false} EntryEqualIsSameNormalForm(entry: Entry, b: Value)
    requires DuplicateFree(entry.value)
    ensures Equal(entry.value, b) <==> DuplicateFree(b) && Norm(entry.value) == Norm(b)
    decreases entry, 0
  {
    EqualIsSameNormalForm(entry.value, b);
  }

  // ----- main results

  /**
   A value without duplicate keys compares equal to `b` exactly when `b` has none either and
   both have the same normal form.
   */
  lemma {:induction false} EqualIsSameNormalForm(a: Value, b: Value)
    requires DuplicateFree(a)
    ensures Equal(a, b) <==> DuplicateFree(b) && Norm(a) == Norm(b)
    decreases a, 0
  {
    match (a, b)
    case (Array(x), Array(y)) =>
      if |x| == |y| {
        ArraysEqual(x, y);
      } else {
        assert |multiset(NormItems(x))| == |x| && |multiset(NormItems(y))| == |y|;
      }
    case (Object(x), Object(y)) =>
      if |x| == |y| {
        ObjectsEqual(x, y);
      } else {
        NormEntriesKeys(x);
        NormEntriesKeys(y);
        DistinctByCount(x);
        DistinctByCount(y);
      }
    case _ =>
  }

  /** On values without duplicate keys, comparison is an equivalence. */
  lemma {:induction false} EqualIsEquivalence(a: Value, b: Value, c: Value)
    requires DuplicateFree(a) && DuplicateFree(b) && DuplicateFree(c)
    ensures Equal(a, a)
    ensures Equal(a, b) ==> Equal(b, a)
    ensures Equal(a, b) && Equal(b, c) ==> Equal(a, c)
  {
    EqualIsSameNormalForm(a, a);
    EqualIsSameNormalForm(a, b);
    EqualIsSameNormalForm(b, a);
    EqualIsSameNormalForm(b, c);
    EqualIsSameNormalForm(a, c);
  }

  /** Each item of `a` has a partner of its own among the free items of `b`. */
  ghost predicate Pairing(a: seq<Value>, b: seq<Value>, selected: seq<bool>, p: seq<nat>)
    requires |selected| == |b|
  {
    && |p| == |a|
    && (forall i :: 0 <= i < |p| ==> p[i] < |b| && !selected[p[i]] && Equal(a[i], b[p[i]]))
    && (forall i, j :: 0 <= i < j < |p| ==> p[i] != p[j])
  }

  ghost predicate CanPair(a: seq<Value>, b: seq<Value>, selected: seq<bool>)
    requires |selected| == |b|
  {
    exists p :: Pairing(a, b, selected, p)
  }

  lemma PairingTail(a: seq<Value>, b: seq<Value>, selected: seq<bool>, p: seq<nat>)
    requires |selected| == |b| && Pairing(a, b, selected, p) && a != []
    ensures Pairing(a[1..], b, selected[p[0] := true], p[1..])
  {
    assert forall i :: 0 <= i < |p[1..]| ==> p[1..][i] == p[i + 1] && a[1..][i] == a[i + 1];
  }

  lemma {:induction false} PairedTags(a: seq<Value>, b: seq<Value>, selected: seq<bool>, p: seq<nat>)
    requires |selected| == |b| && AllDuplicateFree(a) && Pairing(a, b, selected, p)
    ensures multiset(Somes(NormItems(a))) <= FreeTags(b, selected)
  {
    if a != [] {
      PairingTail(a, b, selected, p);
      FreeTagAt(b, selected, p[0]);
      EqualIsSameNormalForm(a[0], b[p[0]]);
      PairedTags(a[1..], b, selected[p[0] := true], p[1..]);
      assert Somes(NormItems(a)) == [Some(Norm(a[0]))] + Somes(NormItems(a[1..]));
      assert multiset(Somes(NormItems(a))) == multiset{Some(Norm(a[0]))} + multiset(Somes(NormItems(a[1..])));
    }
  }

  lemma {:induction false} GreedyPairs(a: seq<Value>, b: seq<Value>, selected: seq<bool>) returns (p: seq<nat>)
    requires |selected| == |b| && MatchItems(a, b, selected)
    ensures Pairing(a, b, selected, p)
  {
    if a == [] {
      p := [];
    } else {
      var k := FirstFree(a[0], b, selected, 0);
      var rest := GreedyPairs(a[1..], b, selected[k := true]);
      PairingCons(a, b, selected, k, rest);
      p := [k] + rest;
    }
  }

  lemma PairingCons(a: seq<Value>, b: seq<Value>, selected: seq<bool>, k: nat, rest: seq<nat>)
    requires |selected| == |b| && a != [] && k < |b| && !selected[k] && Equal(a[0], b[k])
    requires Pairing(a[1..], b, selected[k := true], rest)
    ensures Pairing(a, b, selected, [k] + rest)
  {
    var p := [k] + rest;
    forall i | 0 <= i < |p| ensures p[i] < |b| && !selected[p[i]] && Equal(a[i], b[p[i]]) && (i > 0 ==> p[i] != k) {
      if i > 0 { assert p[i] == rest[i - 1] && a[i] == a[1..][i - 1]; }
    }
  }

  lemma SameSize<T>(a: multiset<T>, b: multiset<T>)
    requires a <= b && |a| == |b|
    ensures a == b
  {
    assert b == a + (b - a);
    assert |b| == |a| + |b - a|;
  }

  /** Greedy matching finds a pairing whenever one exists. */
  lemma {:induction false} ArraysEqualWhenPaired(x: seq<Value>, y: seq<Value>)
    requires AllDuplicateFree(x)
    ensures Equal(Array(x), Array(y)) <==> |x| == |y| && CanPair(x, y, NoneTaken(|y|))
  {
    var none := NoneTaken(|y|);
    if Equal(Array(x), Array(y)) {
      var p := GreedyPairs(x, y, none);
    }
    if |x| == |y| && CanPair(x, y, none) {
      var p :| Pairing(x, y, none, p);
      PairedTags(x, y, none, p);
      AllFree(y);
      SameSize(multiset(Somes(NormItems(x))), FreeTags(y, none));
      GreedyIsComplete(x, y, none);
    }
  }

  /** Duplicates go unnoticed on the left: keys are looked up on the right alone. */
  lemma DuplicateOnTheLeft()
    ensures var twice := Object([Entry("a", Null), Entry("a", Null)]);
            var once := Object([Entry("a", Null), Entry("b", Null)]);
            !DuplicateFree(twice) && DuplicateFree(once) && Equal(twice, once) && !Equal(once, twice)
  {
    var x, y := [Entry("a", Null), Entry("a", Null)], [Entry("a", Null), Entry("b", Null)];
    assert x[0].key == x[1].key && "a" != "b";
    MatchEntriesAt(x, y);
    MatchEntriesAt(y, x);
    GetUniqueAt(y, 0);
    EqualIsSameNormalForm(Object(y), Object(x));
    EntriesFreeAt(y);
  }
}
