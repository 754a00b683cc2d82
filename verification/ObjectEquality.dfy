/**
 Equality of objects as it runs, with its vectors of free positions
 (jsonld-core/src/object/node/multiset.rs:177-201, jsonld-core/src/object/node/mod.rs:769-782),
 and the insertion into a document that relies on it (jsonld-core/src/document/expanded.rs:371-408).

 Matching is greedy. It decides equality of the unordered contents because each step takes
 one equal pair away from both sides.
 */
module ObjectEquality {
  import opened RdfModel
  import opened Rendering
  import opened Document
  import opened Tallies

  /** The elements of `s` that are still free. */
  function Remaining<T>(s: seq<T>, free: seq<bool>): multiset<T>
    requires |s| == |free|
  {
    if s == [] then multiset{}
    else (if free[0] then multiset{s[0]} else multiset{}) + Remaining(s[1..], free[1..])
  }

  function AllFree(n: nat): seq<bool>
  {
    seq(n, _ => true)
  }

  lemma {:induction false} AllRemain<T>(s: seq<T>)
    ensures Remaining(s, AllFree(|s|)) == multiset(s)
  {
    if s != [] {
      AllRemain(s[1..]);
      assert AllFree(|s|)[1..] == AllFree(|s| - 1);
      assert s == [s[0]] + s[1..];
    }
  }

  lemma SumOf<T>(a: multiset<T>, b: multiset<T>, c: multiset<T>)
    ensures a + (b + c) == (a + b) + c && multiset{} + a == a
  {
  }

  lemma {:induction false} Taken<T>(s: seq<T>, free: seq<bool>, k: nat)
    requires |s| == |free| && k < |s| && free[k]
    ensures Remaining(s, free) == Remaining(s, free[k := false]) + multiset{s[k]}
  {
    var rest := free[1..];
    if k > 0 {
      Taken(s[1..], rest, k - 1);
      assert free[k := false][1..] == rest[k - 1 := false];
      SumOf(if free[0] then multiset{s[0]} else multiset{}, Remaining(s[1..], rest[k - 1 := false]), multiset{s[k]});
    } else {
      assert free[k := false][1..] == rest;
      SumOf(Remaining(s[1..], rest), multiset{s[0]}, multiset{});
    }
  }

  lemma {:induction false} NoneRemains<T>(s: seq<T>, free: seq<bool>, x: T)
    requires |s| == |free| && forall k :: 0 <= k < |s| && free[k] ==> s[k] != x
    ensures x !in Remaining(s, free)
  {
    if s != [] {
      assert forall k :: 0 <= k < |s[1..]| ==> s[1..][k] == s[k + 1] && free[1..][k] == free[k + 1];
      NoneRemains(s[1..], free[1..], x);
    }
  }

  /** After `i` elements of `a` have been matched, what is left decides. */
  ghost predicate Matching<T>(a: seq<T>, b: seq<T>, free: seq<bool>, i: nat)
    requires |b| == |free| && i <= |a|
  {
    && (multiset(a[i..]) == Remaining(b, free) <==> multiset(a) == multiset(b))
    && |Remaining(b, free)| == |a| - i
  }

  lemma MatchingStart<T>(a: seq<T>, b: seq<T>)
    requires |a| == |b|
    ensures Matching(a, b, AllFree(|b|), 0)
  {
    AllRemain(b);
    assert a[0..] == a && |multiset(b)| == |b|;
  }

  lemma TakeBothAway<T>(a: multiset<T>, b: multiset<T>, x: T)
    ensures a + multiset{x} == b + multiset{x} <==> a == b
    ensures |a + multiset{x}| == |a| + 1
  {
    if a + multiset{x} == b + multiset{x} { CancelOne(a, b, x); }
  }

  lemma HeadOff<T>(s: seq<T>, i: nat)
    requires i < |s|
    ensures multiset(s[i..]) == multiset(s[i + 1..]) + multiset{s[i]}
  {
    assert s[i..] == [s[i]] + s[i + 1..];
  }

  lemma MatchingStep<T>(a: seq<T>, b: seq<T>, free: seq<bool>, i: nat, k: nat)
    requires |b| == |free| && i < |a| && Matching(a, b, free, i)
    requires k < |b| && free[k] && b[k] == a[i]
    ensures Matching(a, b, free[k := false], i + 1)
  {
    Taken(b, free, k);
    HeadOff(a, i);
    TakeBothAway(multiset(a[i + 1..]), Remaining(b, free[k := false]), a[i]);
    TakeBothAway(Remaining(b, free[k := false]), multiset(a[i + 1..]), a[i]);
  }

  lemma MatchingFails<T>(a: seq<T>, b: seq<T>, free: seq<bool>, i: nat)
    requires |b| == |free| && i < |a| && Matching(a, b, free, i)
    requires forall k :: 0 <= k < |b| && free[k] ==> b[k] != a[i]
    ensures multiset(a) != multiset(b)
  {
    NoneRemains(b, free, a[i]);
    HeadOff(a, i);
    assert a[i] in multiset(a[i..]);
  }

  lemma MatchingEnds<T>(a: seq<T>, b: seq<T>, free: seq<bool>)
    requires |b| == |free| && Matching(a, b, free, |a|)
    ensures multiset(a) == multiset(b)
  {
    assert a[|a|..] == [];
    assert Remaining(b, free) == multiset{};
  }

  // ----- the comparison

  method CompareIds(a: seq<Id>, b: seq<Id>) returns (r: bool)
    ensures r <==> multiset(a) == multiset(b)
  {
    if |a| != |b| {
      assert |multiset(a)| == |a| && |multiset(b)| == |b|;
      return false;
    }
    var free := AllFree(|b|);
    MatchingStart(a, b);
    for i := 0 to |a|
      invariant |free| == |b| && Matching(a, b, free, i)
    {
      var k := 0;
      while k < |b| && !(free[k] && b[k] == a[i])
        invariant 0 <= k <= |b|
        invariant forall j :: 0 <= j < k && free[j] ==> b[j] != a[i]
      {
        k := k + 1;
      }
      if k == |b| {
        MatchingFails(a, b, free, i);
        return false;
      }
      MatchingStep(a, b, free, i, k);
      free := free[k := false];
    }
    MatchingEnds(a, b, free);
    r := true;
  }

  method CompareObjects(a: seq<Object>, b: seq<Object>) returns (r: bool)
    ensures r <==> multiset(ContentsOf(a)) == multiset(ContentsOf(b))
    decreases a, 0
  {
    ghost var x, y := ContentsOf(a), ContentsOf(b);
    if |a| != |b| {
      assert |multiset(x)| == |a| && |multiset(y)| == |b|;
      return false;
    }
    var free := AllFree(|b|);
    MatchingStart(x, y);
    for i := 0 to |a|
      invariant |free| == |b| && Matching(x, y, free, i)
    {
      var k := FindObject(a[i], b, free);
      if k == |b| {
        MatchingFails(x, y, free, i);
        return false;
      }
      MatchingStep(x, y, free, i, k);
      free := free[k := false];
    }
    MatchingEnds(x, y, free);
    r := true;
  }

  /** The first free object that equals `o`, or the length. */
  method FindObject(o: Object, b: seq<Object>, free: seq<bool>) returns (k: nat)
    requires |free| == |b|
    ensures k <= |b|
    ensures k < |b| ==> free[k] && Same(o, b[k])
    ensures forall j :: 0 <= j < k && free[j] ==> !Same(o, b[j])
    decreases o, 4
  {
    k := 0;
    while k < |b|
      invariant 0 <= k <= |b|
      invariant forall j :: 0 <= j < k && free[j] ==> !Same(o, b[j])
    {
      if free[k] {
        var equal := CompareObject(o, b[k]);
        if equal { return; }
      }
      k := k + 1;
    }
  }

  method CompareProperties(a: Object, b: Object) returns (r: bool)
    requires a.NodeObject? && b.NodeObject?
    ensures r <==> multiset(PropertiesOf(a)) == multiset(PropertiesOf(b))
    decreases a, 1
  {
    ghost var x, y := PropertiesOf(a), PropertiesOf(b);
    if |a.entries| != |b.entries| {
      assert |multiset(x)| == |x| && |multiset(y)| == |y|;
      return false;
    }
    var free := AllFree(|b.entries|);
    MatchingStart(x, y);
    for i := 0 to |a.entries|
      invariant |free| == |b.entries| && Matching(x, y, free, i)
    {
      var k := FindEntry(a, i, b, free);
      if k == |b.entries| {
        MatchingFails(x, y, free, i);
        return false;
      }
      MatchingStep(x, y, free, i, k);
      free := free[k := false];
    }
    MatchingEnds(x, y, free);
    r := true;
  }

  /** The first free entry under the same property with an equal value, or the number of entries. */
  method FindEntry(a: Object, i: nat, b: Object, free: seq<bool>) returns (k: nat)
    requires a.NodeObject? && b.NodeObject? && i < |a.entries| && |free| == |b.entries|
    ensures k <= |b.entries|
    ensures k < |b.entries| ==> free[k] && PropertiesOf(a)[i] == PropertiesOf(b)[k]
    ensures forall j :: 0 <= j < k && free[j] ==> PropertiesOf(a)[i] != PropertiesOf(b)[j]
    decreases a, 0
  {
    k := 0;
    while k < |b.entries|
      invariant 0 <= k <= |b.entries|
      invariant forall j :: 0 <= j < k && free[j] ==> PropertiesOf(a)[i] != PropertiesOf(b)[j]
    {
      if free[k] && a.entries[i].id == b.entries[k].id {
        var equal := CompareObject(Child(a, i), Child(b, k));
        if equal { return; }
      }
      k := k + 1;
    }
  }

  method CompareItems(a: Object, b: Object) returns (r: bool)
    requires a.ListObject? && b.ListObject?
    ensures r <==> ContentsOf(a.items) == ContentsOf(b.items)
    decreases a, 1
  {
    ghost var x, y := ContentsOf(a.items), ContentsOf(b.items);
    if |a.items| != |b.items| {
      assert |x| != |y|;
      return false;
    }
    for i := 0 to |a.items|
      invariant x[..i] == y[..i]
    {
      var equal := CompareObject(a.items[i], b.items[i]);
      if !equal {
        assert x[i] != y[i];
        return false;
      }
    }
    assert x[..|x|] == x && y[..|y|] == y;
    r := true;
  }

  /** Equality of objects: nodes up to the order of what is unordered in them, lists item by item. */
  method CompareObject(a: Object, b: Object) returns (r: bool)
    ensures r <==> Same(a, b)
    decreases a, 3
  {
    if a.NodeObject? && b.NodeObject? {
      r := CompareNodes(a, b);
    } else if a.ListObject? && b.ListObject? {
      r := CompareItems(a, b);
    } else {
      r := a.ValueObject? && b.ValueObject? && a.value == b.value;
    }
  }

  method CompareNodes(a: Object, b: Object) returns (r: bool)
    requires a.NodeObject? && b.NodeObject?
    ensures r <==> Same(a, b)
    decreases a, 2
  {
    if a.id != b.id || a.types.Some? != b.types.Some? { return false; }
    if a.types.Some? {
      r := CompareIds(Ids(a.types.value), Ids(b.types.value));
      if !r { return; }
    }
    r := CompareGraphs(a.graph, b.graph);
    if !r { return; }
    r := CompareProperties(a, b);
  }

  method CompareGraphs(a: GraphEntry, b: GraphEntry) returns (r: bool)
    ensures r <==> match (a, b)
                   case (Graph(x), Graph(y)) => multiset(ContentsOf(x)) == multiset(ContentsOf(y))
                   case (NoGraph, NoGraph) => true
                   case _ => false
    decreases a, 1
  {
    match (a, b)
    case (Graph(x), Graph(y)) => r := CompareObjects(x, y);
    case (NoGraph, NoGraph) => r := true;
    case _ => r := false;
  }

  // ----- insertion

  /** A document keeps one of any objects that are the same. */
  function Insert(doc: seq<Object>, o: Object): seq<Object>
  {
    if exists i :: 0 <= i < |doc| && Same(doc[i], o) then doc else doc + [o]
  }

  method InsertObject(doc: seq<Object>, o: Object) returns (r: seq<Object>)
    ensures r == Insert(doc, o)
  {
    for i := 0 to |doc|
      invariant forall j :: 0 <= j < i ==> !Same(doc[j], o)
    {
      var equal := CompareObject(doc[i], o);
      if equal { return doc; }
    }
    r := doc + [o];
  }
}
