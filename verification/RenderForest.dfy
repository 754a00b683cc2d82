/**
 Why rendering an arbitrary graph terminates and writes nothing twice
 (jsonld-core/src/serialization.rs:371-573).

 Rendering enters a resource only when it is referenced once, so every resource it
 enters has one parent and the resources it visits form a forest rooted at those
 not referenced exactly once. Cycles of singly-referenced resources hang off no root.
 */
module RenderForest {
  import opened Wrappers
  import opened RdfModel
  import opened SerializationBuild
  import opened ListFolding
  import opened Tallies

  /** A graph about to be rendered, with its folded lists and the vocabulary terms it is written with. */
  datatype Forest = Forest(
    interp: Interpretation,
    g: SerGraph,
    nil: Option<Handle>,
    terms: RdfTerms,
    lists: map<Handle, seq<Handle>>)

  ghost predicate Valid(fr: Forest)
  {
    && Coherent(fr.g)
    && (fr.nil.Some? ==> IsNil(fr.interp, fr.nil.value))
    && IsFolding(fr.interp, fr.g, fr.nil, fr.lists)
    && (forall x :: x in fr.g ==> (fr.g[x].values.Some? <==> x in fr.lists))
    && (forall h :: h in fr.lists ==>
          h in fr.g && fr.g[h].values.Some? && ValuesOf(fr.g, fr.lists[h], fr.g[h].values.value))
  }

  ghost predicate InList(fr: Forest, x: Handle)
  {
    exists h :: h in fr.lists && x in fr.lists[h]
  }

  /** The resource under which facts about `x` are written: the head of the list `x` is folded into, or `x` itself. */
  ghost function Owner(fr: Forest, x: Handle): Handle
  {
    if InList(fr, x) then var h :| h in fr.lists && x in fr.lists[h]; h else x
  }

  lemma CellOwner(fr: Forest, h: Handle, x: Handle)
    requires Valid(fr) && h in fr.lists && x in fr.lists[h]
    ensures InList(fr, x) && Owner(fr, x) == h
  {
    var h' := Owner(fr, x);
    ListsDisjoint(fr.interp, fr.g, fr.nil, fr.lists, h, h', x);
  }

  lemma HeadOwner(fr: Forest, h: Handle)
    requires Valid(fr) && h in fr.lists
    ensures |fr.lists[h]| > 0 && fr.lists[h][0] == h && Owner(fr, h) == h
  {
    assert IsMaximalChain(fr.interp, fr.g, fr.nil.value, h, fr.lists[h]);
    assert fr.lists[h][0] in fr.lists[h];
    CellOwner(fr, h, h);
  }

  lemma CellLink(fr: Forest, h: Handle, k: nat)
    requires Valid(fr) && h in fr.lists && k < |fr.lists[h]|
    ensures fr.nil.Some? && LinkAt(fr.interp, fr.g, fr.nil.value, fr.lists[h], k)
  {
    assert IsMaximalChain(fr.interp, fr.g, fr.nil.value, h, fr.lists[h]);
  }

  lemma CellIsCell(fr: Forest, x: Handle)
    requires Valid(fr) && InList(fr, x)
    ensures IsCell(fr.interp, fr.g, x)
  {
    var h := Owner(fr, x);
    var k :| 0 <= k < |fr.lists[h]| && fr.lists[h][k] == x;
    CellLink(fr, h, k);
  }

  /**
   Writing `f` may nest the resource it points at. The links inside a folded list are implied, so they
   nest nothing.
   */
  ghost predicate Nests(fr: Forest, f: Fact)
  {
    && f.Target().Some?
    && (f.PropertyFact? ==> IdOf(fr.interp, f.property).Some?)
    && !(f.RestFact? && InList(fr, f.subject))
  }

  /** `f` is written at all, when its owner is. */
  ghost predicate Writes(fr: Forest, f: Fact)
  {
    match f
    case TypeFact(s, t) => !InList(fr, s) && (t.OtherType? ==> IdOf(fr.interp, t.resource).Some?)
    case PropertyFact(_, p, _) => IdOf(fr.interp, p).Some?
    case _ => true
  }

  /** Rendering goes through `f` into `x`. */
  ghost predicate Edge(fr: Forest, f: Fact, x: Handle)
  {
    Holds(fr.g, f) && Nests(fr, f) && f.Target() == Some(x) && SoleTarget(fr.g, f)
  }

  ghost function Parent(fr: Forest, x: Handle): Option<Handle>
  {
    if exists f :: Edge(fr, f, x) then var f :| Edge(fr, f, x); Some(Owner(fr, f.subject)) else None
  }

  lemma ParentEdge(fr: Forest, x: Handle) returns (f: Fact)
    requires Parent(fr, x).Some?
    ensures Edge(fr, f, x) && Parent(fr, x) == Some(Owner(fr, f.subject))
  {
    f :| Edge(fr, f, x) && Parent(fr, x) == Some(Owner(fr, f.subject));
  }

  lemma SoleParent(fr: Forest, f: Fact, x: Handle)
    requires Valid(fr) && Edge(fr, f, x)
    ensures Parent(fr, x) == Some(Owner(fr, f.subject))
  {
    assert Parent(fr, x).Some?;
    var e := ParentEdge(fr, x);
    assert Holds(fr.g, e) && SoleTarget(fr.g, f) && e.Target() == f.Target();
  }

  /** The only reference to a cell inside a folded list is a link of that list. */
  lemma InsideIsLinked(fr: Forest, h: Handle, k: nat, f: Fact)
    requires Valid(fr) && h in fr.lists && 0 < k < |fr.lists[h]|
    requires Holds(fr.g, f) && f.Target() == Some(fr.lists[h][k])
    ensures f == RestFact(fr.lists[h][k - 1], fr.lists[h][k]) && !Nests(fr, f)
  {
    CellLink(fr, h, k - 1);
    CellLink(fr, h, k);
    var link := RestFact(fr.lists[h][k - 1], fr.lists[h][k]);
    assert Holds(fr.g, link) && SoleTarget(fr.g, f) && link.Target() == f.Target();
    CellOwner(fr, h, fr.lists[h][k - 1]);
  }

  /** A nested resource is never the inside of a folded list. */
  lemma ChildOwnsItself(fr: Forest, f: Fact, x: Handle)
    requires Valid(fr) && Edge(fr, f, x)
    ensures Owner(fr, x) == x
  {
    if InList(fr, x) {
      var h := Owner(fr, x);
      var k :| 0 <= k < |fr.lists[h]| && fr.lists[h][k] == x;
      HeadOwner(fr, h);
      if k > 0 { InsideIsLinked(fr, h, k, f); }
    }
  }

  lemma RootOwnsItself(fr: Forest, x: Handle)
    requires Valid(fr) && x in fr.g && fr.g[x].references != 1
    ensures Owner(fr, x) == x && Parent(fr, x).None?
  {
    if InList(fr, x) { CellIsCell(fr, x); }
  }

  /** `n` steps up from `x`. */
  ghost function Climb(up: Handle -> Option<Handle>, x: Handle, n: nat): Option<Handle>
  {
    if n == 0 then Some(x)
    else
      match Climb(up, x, n - 1)
      case Some(y) => up(y)
      case None => None
  }

  lemma {:induction false} ClimbSplit(up: Handle -> Option<Handle>, x: Handle, n: nat, m: nat)
    ensures Climb(up, x, n + m) == if Climb(up, x, n).Some? then Climb(up, Climb(up, x, n).value, m) else None
  {
    if m > 0 { ClimbSplit(up, x, n, m - 1); }
  }

  lemma {:induction false} ClimbStops(up: Handle -> Option<Handle>, x: Handle, n: nat, m: nat)
    requires n <= m && Climb(up, x, n).None?
    ensures Climb(up, x, m).None?
  {
    if n < m { ClimbStops(up, x, n, m - 1); }
  }

  lemma {:induction false} ClimbsAlike(up: Handle -> Option<Handle>, x: Handle, n: nat, m: nat, k: nat)
    requires Climb(up, x, m) == Climb(up, x, n)
    ensures Climb(up, x, m + k) == Climb(up, x, n + k)
  {
    if k > 0 { ClimbsAlike(up, x, n, m, k - 1); }
  }

  lemma {:induction false} ClimbTop(up: Handle -> Option<Handle>, x: Handle, n: nat) returns (k: nat)
    requires Climb(up, x, n).None?
    ensures k < n && Climb(up, x, k).Some? && Climb(up, x, k + 1).None?
  {
    if Climb(up, x, n - 1).Some? {
      k := n - 1;
    } else {
      k := ClimbTop(up, x, n - 1);
    }
  }

  ghost function Ancestor(fr: Forest, x: Handle, n: nat): Option<Handle>
  {
    Climb(Upward(fr), x, n)
  }

  ghost function Upward(fr: Forest): Handle -> Option<Handle>
  {
    x => Parent(fr, x)
  }

  lemma AncestorNext(fr: Forest, x: Handle, n: nat)
    requires Ancestor(fr, x, n).Some?
    ensures Ancestor(fr, x, n + 1) == Parent(fr, Ancestor(fr, x, n).value)
  {
  }

  lemma AncestorSplit(fr: Forest, x: Handle, n: nat, m: nat)
    ensures Ancestor(fr, x, n + m) == if Ancestor(fr, x, n).Some? then Ancestor(fr, Ancestor(fr, x, n).value, m)
        else None
  {
    ClimbSplit(Upward(fr), x, n, m);
  }

  lemma NothingAboveNothing(fr: Forest, x: Handle, n: nat, m: nat)
    requires n <= m && Ancestor(fr, x, n).None?
    ensures Ancestor(fr, x, m).None?
  {
    ClimbStops(Upward(fr), x, n, m);
  }

  lemma TopAncestor(fr: Forest, x: Handle, n: nat) returns (k: nat)
    requires Ancestor(fr, x, n).None?
    ensures k < n && Ancestor(fr, x, k).Some? && Parent(fr, Ancestor(fr, x, k).value).None?
  {
    k := ClimbTop(Upward(fr), x, n);
  }

  lemma SameAbove(fr: Forest, x: Handle, n: nat, m: nat, k: nat)
    requires Ancestor(fr, x, m) == Ancestor(fr, x, n)
    ensures Ancestor(fr, x, m + k) == Ancestor(fr, x, n + k)
  {
    ClimbsAlike(Upward(fr), x, n, m, k);
  }

  ghost predicate IsBelow(fr: Forest, a: Handle, x: Handle)
  {
    exists n: nat :: Ancestor(fr, x, n) == Some(a)
  }

  lemma BelowAncestor(fr: Forest, x: Handle, n: nat, m: nat)
    requires n <= m && Ancestor(fr, x, n).Some? && Ancestor(fr, x, m).Some?
    ensures IsBelow(fr, Ancestor(fr, x, m).value, Ancestor(fr, x, n).value)
  {
    AncestorSplit(fr, x, n, m - n);
  }

  lemma BelowSelf(fr: Forest, x: Handle)
    ensures IsBelow(fr, x, x)
  {
    assert Ancestor(fr, x, 0) == Some(x);
  }

  lemma BelowParent(fr: Forest, a: Handle, c: Handle, x: Handle)
    requires IsBelow(fr, c, x) && Parent(fr, c) == Some(a)
    ensures IsBelow(fr, a, x)
  {
    var n: nat :| Ancestor(fr, x, n) == Some(c);
    assert Ancestor(fr, x, n + 1) == Some(a);
  }

  /** The resources entered from a root down to the one being rendered. */
  ghost predicate IsPath(fr: Forest, path: seq<Handle>)
  {
    && path != []
    && path[0] in fr.g && fr.g[path[0]].references != 1
    && (forall i :: 0 <= i < |path| ==> path[i] in fr.g && Owner(fr, path[i]) == path[i])
    && (forall i :: 0 < i < |path| ==> Parent(fr, path[i]) == Some(path[i - 1]))
  }

  /** No resource is met twice on the way down, even in a cyclic graph. */
  lemma {:induction false} PathDistinct(fr: Forest, path: seq<Handle>, i: nat, j: nat)
    requires Valid(fr) && IsPath(fr, path) && i < j < |path|
    ensures path[i] != path[j]
  {
    RootOwnsItself(fr, path[0]);
    assert Parent(fr, path[j]) == Some(path[j - 1]);
    if i > 0 {
      PathDistinct(fr, path, i - 1, j - 1);
      assert Parent(fr, path[i]) == Some(path[i - 1]);
    }
  }

  lemma PathFits(fr: Forest, path: seq<Handle>)
    requires Valid(fr) && IsPath(fr, path)
    ensures |path| <= |fr.g.Keys|
  {
    forall i, j | 0 <= i < j < |path| ensures path[i] != path[j] { PathDistinct(fr, path, i, j); }
    DistinctFits(path, fr.g.Keys);
  }

  lemma PathExtends(fr: Forest, path: seq<Handle>, f: Fact, x: Handle)
    requires Valid(fr) && IsPath(fr, path) && Edge(fr, f, x) && Owner(fr, f.subject) == path[|path| - 1]
    ensures IsPath(fr, path + [x]) && |path| + 1 <= |fr.g.Keys|
  {
    SoleParent(fr, f, x);
    ChildOwnsItself(fr, f, x);
    PathFits(fr, path + [x]);
  }

  lemma RootPath(fr: Forest, root: Handle)
    requires Valid(fr) && root in fr.g && fr.g[root].references != 1
    ensures IsPath(fr, [root])
  {
    RootOwnsItself(fr, root);
  }

  lemma {:induction false} PathAncestors(fr: Forest, path: seq<Handle>, n: nat)
    requires Valid(fr) && IsPath(fr, path)
    ensures Ancestor(fr, path[|path| - 1], n) == if n < |path| then Some(path[|path| - 1 - n]) else None
  {
    RootOwnsItself(fr, path[0]);
    if n > 0 { PathAncestors(fr, path, n - 1); }
  }

  /** A resource is never below one of its own children. */
  lemma NotBelowChild(fr: Forest, path: seq<Handle>, c: Handle)
    requires Valid(fr) && IsPath(fr, path) && Parent(fr, c) == Some(path[|path| - 1])
    ensures !IsBelow(fr, c, path[|path| - 1])
  {
    var last := |path| - 1;
    RootOwnsItself(fr, path[0]);
    forall n: nat ensures Ancestor(fr, path[last], n) != Some(c) {
      PathAncestors(fr, path, n);
      if n < last { PathDistinct(fr, path, last - n - 1, last); }
    }
  }

  /** Siblings have nothing below both of them. */
  lemma SiblingsDisjoint(fr: Forest, path: seq<Handle>, c: Handle, d: Handle, x: Handle)
    requires Valid(fr) && IsPath(fr, path)
    requires Parent(fr, c) == Some(path[|path| - 1]) && Parent(fr, d) == Some(path[|path| - 1])
    requires IsBelow(fr, c, x) && IsBelow(fr, d, x)
    ensures c == d
  {
    var n: nat :| Ancestor(fr, x, n) == Some(c);
    var m: nat :| Ancestor(fr, x, m) == Some(d);
    if n < m {
      HigherSibling(fr, path, c, d, x, n, m);
    } else if m < n {
      HigherSibling(fr, path, d, c, x, m, n);
    }
  }

  lemma HigherSibling(fr: Forest, path: seq<Handle>, c: Handle, d: Handle, x: Handle, n: nat, m: nat)
    requires Valid(fr) && IsPath(fr, path)
    requires Parent(fr, c) == Some(path[|path| - 1]) && Parent(fr, d) == Some(path[|path| - 1])
    requires Ancestor(fr, x, n) == Some(c) && Ancestor(fr, x, m) == Some(d)
    ensures m <= n
  {
    if n < m {
      AncestorNext(fr, x, n);
      BelowAncestor(fr, x, n + 1, m);
      NotBelowChild(fr, path, d);
    }
  }

  lemma RootsDisjoint(fr: Forest, r: Handle, s: Handle, x: Handle)
    requires Valid(fr) && r in fr.g && s in fr.g && fr.g[r].references != 1 && fr.g[s].references != 1
    requires IsBelow(fr, r, x) && IsBelow(fr, s, x)
    ensures r == s
  {
    var n: nat :| Ancestor(fr, x, n) == Some(r);
    var m: nat :| Ancestor(fr, x, m) == Some(s);
    if n < m {
      NothingAboveRoot(fr, r, x, n, m);
    } else if m < n {
      NothingAboveRoot(fr, s, x, m, n);
    }
  }

  lemma NothingAboveRoot(fr: Forest, r: Handle, x: Handle, n: nat, m: nat)
    requires Valid(fr) && r in fr.g && fr.g[r].references != 1
    requires Ancestor(fr, x, n) == Some(r) && n < m
    ensures Ancestor(fr, x, m).None?
  {
    RootOwnsItself(fr, r);
    AncestorNext(fr, x, n);
    NothingAboveNothing(fr, x, n + 1, m);
  }

  /** What is written by rendering `a`. */
  ghost function BelowFacts(fr: Forest, a: Handle): set<Fact>
  {
    set f | f in AllFacts(fr.g) && Writes(fr, f) && IsBelow(fr, a, Owner(fr, f.subject))
  }

  /** What is written about `a` itself. */
  ghost function OwnFacts(fr: Forest, a: Handle): set<Fact>
  {
    set f | f in AllFacts(fr.g) && Writes(fr, f) && Owner(fr, f.subject) == a
  }

  ghost function ChildFacts(fr: Forest, f: Fact): set<Fact>
  {
    if f.Target().Some? && Edge(fr, f, f.Target().value) then BelowFacts(fr, f.Target().value) else {}
  }

  /** The facts nested by one fact after another. */
  ghost function Nested(fr: Forest, leads: seq<Fact>): seq<set<Fact>>
  {
    seq(|leads|, k requires 0 <= k < |leads| => ChildFacts(fr, leads[k]))
  }

  ghost predicate AreLeads(fr: Forest, a: Handle, leads: seq<Fact>)
  {
    && (forall i :: 0 <= i < |leads| ==> leads[i] in OwnFacts(fr, a))
    && (forall i, j :: 0 <= i < j < |leads| ==> leads[i] != leads[j])
  }

  lemma ChildIsNotOwn(fr: Forest, path: seq<Handle>, e: Fact, f: Fact)
    requires Valid(fr) && IsPath(fr, path)
    requires e in OwnFacts(fr, path[|path| - 1]) && f in OwnFacts(fr, path[|path| - 1])
    ensures f !in ChildFacts(fr, e)
  {
    if f in ChildFacts(fr, e) {
      var c := e.Target().value;
      SoleParent(fr, e, c);
      NotBelowChild(fr, path, c);
    }
  }

  lemma ChildrenDisjoint(fr: Forest, path: seq<Handle>, e: Fact, e': Fact, f: Fact)
    requires Valid(fr) && IsPath(fr, path)
    requires e in OwnFacts(fr, path[|path| - 1]) && e' in OwnFacts(fr, path[|path| - 1])
    requires f in ChildFacts(fr, e) && f in ChildFacts(fr, e')
    ensures e == e'
  {
    var c, c' := e.Target().value, e'.Target().value;
    SoleParent(fr, e, c);
    SoleParent(fr, e', c');
    SiblingsDisjoint(fr, path, c, c', Owner(fr, f.subject));
  }

  /** What one fact nests is no own fact, and is not nested by another. */
  lemma NestedApart(fr: Forest, path: seq<Handle>, leads: seq<Fact>)
    requires Valid(fr) && IsPath(fr, path) && AreLeads(fr, path[|path| - 1], leads)
    ensures forall k :: 0 <= k < |leads| ==> Nested(fr, leads)[k] !! OwnFacts(fr, path[|path| - 1])
    ensures forall i, k :: 0 <= i < k < |leads| ==> Nested(fr, leads)[i] !! Nested(fr, leads)[k]
  {
    forall k | 0 <= k < |leads| ensures ChildFacts(fr, leads[k]) !! OwnFacts(fr, path[|path| - 1]) {
      forall f | f in OwnFacts(fr, path[|path| - 1]) ensures f !in ChildFacts(fr, leads[k]) {
        ChildIsNotOwn(fr, path, leads[k], f);
      }
    }
    forall i, k | 0 <= i < k < |leads| ensures ChildFacts(fr, leads[i]) !! ChildFacts(fr, leads[k]) {
      forall f | f in ChildFacts(fr, leads[i]) ensures f !in ChildFacts(fr, leads[k]) {
        if f in ChildFacts(fr, leads[k]) { ChildrenDisjoint(fr, path, leads[i], leads[k], f); }
      }
    }
  }

  /** Everything below a resource is an own fact or nested by one, and is so only once. */
  lemma BelowSplits(fr: Forest, path: seq<Handle>, leads: seq<Fact>)
    requires Valid(fr) && IsPath(fr, path) && AreLeads(fr, path[|path| - 1], leads)
    requires forall e :: e in OwnFacts(fr, path[|path| - 1]) && ChildFacts(fr, e) != {} ==> e in leads
    ensures multiset(BelowFacts(fr, path[|path| - 1])) ==
            multiset(OwnFacts(fr, path[|path| - 1])) + Total(Counted(Nested(fr, leads)))
  {
    var a := path[|path| - 1];
    forall f ensures f in BelowFacts(fr, a) <==> f in UnionAll(OwnFacts(fr, a), Nested(fr, leads)) {
      UnionHas(OwnFacts(fr, a), Nested(fr, leads), f);
      if f in BelowFacts(fr, a) { BelowIsNested(fr, a, leads, f); }
      if k :| 0 <= k < |leads| && f in Nested(fr, leads)[k] { NestedIsBelow(fr, a, leads[k], f); }
      if f in OwnFacts(fr, a) { BelowSelf(fr, a); }
    }
    NestedApart(fr, path, leads);
    UnionCounts(OwnFacts(fr, a), Nested(fr, leads));
  }

  lemma BelowIsNested(fr: Forest, a: Handle, leads: seq<Fact>, f: Fact)
    requires Valid(fr) && f in BelowFacts(fr, a)
    requires forall e :: e in OwnFacts(fr, a) && ChildFacts(fr, e) != {} ==> e in leads
    ensures f in OwnFacts(fr, a) || exists k :: 0 <= k < |leads| && f in Nested(fr, leads)[k]
  {
    var x := Owner(fr, f.subject);
    var n: nat :| Ancestor(fr, x, n) == Some(a);
    if n > 0 {
      var c := Ancestor(fr, x, n - 1).value;
      var e := ParentEdge(fr, c);
      EdgeIsOwn(fr, e, c);
      assert f in ChildFacts(fr, e);
      var k :| 0 <= k < |leads| && leads[k] == e;
      assert f in Nested(fr, leads)[k];
    }
  }

  /** What is nested can be written. */
  lemma EdgeIsOwn(fr: Forest, e: Fact, c: Handle)
    requires Valid(fr) && Edge(fr, e, c)
    ensures e in OwnFacts(fr, Owner(fr, e.subject))
  {
  }

  lemma NestedIsBelow(fr: Forest, a: Handle, e: Fact, f: Fact)
    requires Valid(fr) && e in OwnFacts(fr, a) && f in ChildFacts(fr, e)
    ensures f in BelowFacts(fr, a)
  {
    SoleParent(fr, e, e.Target().value);
    BelowParent(fr, a, e.Target().value, Owner(fr, f.subject));
  }

  lemma EmptyOwnsNothing(fr: Forest, x: Handle)
    requires Valid(fr) && x in fr.g && Owner(fr, x) == x && fr.g[x].IsEmpty()
    ensures BelowFacts(fr, x) == {}
  {
    forall f ensures f !in OwnFacts(fr, x) {
      if f in OwnFacts(fr, x) && InList(fr, f.subject) {
        HeadOwner(fr, x);
        CellLink(fr, x, 0);
      }
    }
    if f :| f in BelowFacts(fr, x) { BelowIsNested(fr, x, [], f); }
  }

  /** The roots of the forest: the resources rendering starts from. */
  predicate IsRoot(g: SerGraph, x: Handle)
  {
    x in g && g[x].references != 1 && !g[x].IsEmpty()
  }

  /** Some resource not referenced exactly once has `x` below it. */
  ghost predicate IsReached(fr: Forest, x: Handle)
  {
    exists r :: r in fr.g && fr.g[r].references != 1 && IsBelow(fr, r, x)
  }

  /** Everything that is written: facts that can be, about resources that are reached. */
  ghost function WrittenFacts(fr: Forest): set<Fact>
  {
    set f | f in AllFacts(fr.g) && Writes(fr, f) && IsReached(fr, Owner(fr, f.subject))
  }

  ghost function FactsUnder(fr: Forest, roots: set<Handle>): set<Fact>
  {
    set f | f in AllFacts(fr.g) && Writes(fr, f) && exists r :: r in roots && IsBelow(fr, r, Owner(fr, f.subject))
  }

  lemma FactsUnderAllRoots(fr: Forest, roots: set<Handle>)
    requires Valid(fr) && forall r :: r in roots <==> IsRoot(fr.g, r)
    ensures FactsUnder(fr, roots) == WrittenFacts(fr)
  {
    forall f | f in WrittenFacts(fr) ensures f in FactsUnder(fr, roots) {
      var r :| r in fr.g && fr.g[r].references != 1 && IsBelow(fr, r, Owner(fr, f.subject));
      assert f in BelowFacts(fr, r);
      RootOwnsItself(fr, r);
      if fr.g[r].IsEmpty() { EmptyOwnsNothing(fr, r); }
      assert r in roots;
    }
  }

  /** The named graph hanging off `x`: its lists are not folded. */
  ghost function Inner(fr: Forest, x: Handle): Forest
    requires x in fr.g && fr.g[x].graph.Some?
  {
    Forest(fr.interp, fr.g[x].graph.value, None, fr.terms, map[])
  }
}
