/**
 What the serializer keeps: every fact of the default graph exactly once, provided the
 fact can be named and its subject is led to from a resource not referenced exactly once.
 */
module Conservation {
  import opened Wrappers
  import opened RdfModel
  import opened SerializationBuild
  import opened ListFolding
  import opened RenderForest
  import opened Rendering
  import opened Document
  import opened Tallies
  import opened Serialization

  /** The default graph stores one fact for each quad and one for each graph name, and no other. */
  lemma {:induction false} StoredFacts(fr: Forest, quads: seq<Quad>, f: Fact)
    requires Describes(fr, quads)
    ensures f in AllFacts(fr.g) <==>
            (exists i :: 0 <= i < |quads| && quads[i].graph.None? && FactOf(fr.interp, quads[i]) == f)
            || (f.GraphFact? && f.subject in GraphNames(quads))
  {
    QuadFactsAre(fr.interp, quads, None);
    if f in QuadFacts(fr.interp, quads, None) {
      var i := FactSource(fr.interp, quads, None, f);
    }
    if i :| 0 <= i < |quads| && quads[i].graph.None? && FactOf(fr.interp, quads[i]) == f {
      assert quads[i] in quads;
    }
  }

  /** `x` is at the end of a path of nesting facts from a root. */
  ghost predicate IsLedTo(fr: Forest, x: Handle)
  {
    exists path :: IsPath(fr, path) && path[|path| - 1] == x
  }

  /** Everything a graph stores is written exactly when each of its facts can be, and is led to from a root. */
  lemma WrittenExactlyWhen(fr: Forest)
    requires Valid(fr)
    ensures WrittenFacts(fr) <= AllFacts(fr.g)
    ensures WrittenFacts(fr) == AllFacts(fr.g) <==>
            forall f :: f in AllFacts(fr.g) ==> Writes(fr, f) && IsLedTo(fr, Owner(fr, f.subject))
  {
    forall f | f in AllFacts(fr.g) ensures f in WrittenFacts(fr)
        <==> Writes(fr, f) && IsLedTo(fr, Owner(fr, f.subject)) {
      OwnerIsStored(fr, f.subject);
      ReachedByPath(fr, Owner(fr, f.subject));
    }
  }

  /**
   Nothing is lost exactly when every fact can be written and is led to from a root, and no root with
   something to say has a twin.
   */
  lemma ConservedExactlyWhen(fr: Forest, quads: seq<Quad>, doc: seq<Object>)
    requires Describes(fr, quads) && Documents(fr, doc, Roots(fr.g))
    ensures DocumentFacts(fr, doc) == multiset(AllFacts(fr.g)) <==>
            && (forall f :: f in AllFacts(fr.g) ==> Writes(fr, f) && IsLedTo(fr, Owner(fr, f.subject)))
            && NoTwins(fr)
  {
    ReadyToRender(fr, quads);
    KeptStated(fr, doc);
    KeptIsWritten(fr, doc);
    StatedExactlyWhen(fr, doc);
    WrittenExactlyWhen(fr);
    SubsetCounts(FactsUnder(fr, Kept(doc)), WrittenFacts(fr));
    SubsetCounts(FactsUnder(fr, Kept(doc)), AllFacts(fr.g));
  }

  /** In a named graph nothing is merged, so reaching every fact is enough. */
  lemma {:induction false} NamedGraphConservedExactlyWhen(fr: Forest, quads: seq<Quad>, x: Handle, content: seq<Object>)
    requires Describes(fr, quads) && x in fr.g && fr.g[x].graph.Some? && RendersAll(Inner(fr, x), content)
    ensures DocumentFacts(Inner(fr, x), content) == multiset(AllFacts(fr.g[x].graph.value)) <==>
            forall f :: f in AllFacts(fr.g[x].graph.value) ==>
                          Writes(Inner(fr, x), f) && IsLedTo(Inner(fr, x), Owner(Inner(fr, x), f.subject))
  {
    ReadyToRender(fr, quads);
    GraphIsReady(fr, 1, x);
    ContentStates(Inner(fr, x), content);
    WrittenExactlyWhen(Inner(fr, x));
    SubsetCounts(WrittenFacts(Inner(fr, x)), AllFacts(Inner(fr, x).g));
  }

  lemma OwnerIsStored(fr: Forest, x: Handle)
    requires Valid(fr) && x in fr.g
    ensures Owner(fr, x) in fr.g && Owner(fr, Owner(fr, x)) == Owner(fr, x)
  {
    if InList(fr, x) {
      HeadOwner(fr, Owner(fr, x));
      CellLink(fr, Owner(fr, x), 0);
    }
  }

  /** Being reached is being at the end of a path of nesting facts from a root. */
  lemma ReachedByPath(fr: Forest, x: Handle)
    requires Valid(fr) && x in fr.g && Owner(fr, x) == x
    ensures IsReached(fr, x) <==> IsLedTo(fr, x)
  {
    if IsReached(fr, x) {
      var r :| r in fr.g && fr.g[r].references != 1 && IsBelow(fr, r, x);
      var n: nat :| Ancestor(fr, x, n) == Some(r);
      var path := PathFrom(fr, r, x, n);
    }
    if path :| IsPath(fr, path) && path[|path| - 1] == x {
      PathAncestors(fr, path, |path| - 1);
      assert IsBelow(fr, path[0], x);
    }
  }

  lemma FirstStep(fr: Forest, x: Handle, n: nat)
    requires n > 0 && Ancestor(fr, x, n).Some?
    ensures Parent(fr, x).Some? && Ancestor(fr, Parent(fr, x).value, n - 1) == Ancestor(fr, x, n)
  {
    AncestorSplit(fr, x, 1, n - 1);
    assert Ancestor(fr, x, 0) == Some(x);
    assert Ancestor(fr, x, 1) == Parent(fr, x);
  }

  lemma {:induction false} PathFrom(fr: Forest, r: Handle, x: Handle, n: nat) returns (path: seq<Handle>)
    requires Valid(fr) && r in fr.g && fr.g[r].references != 1
    requires x in fr.g && Owner(fr, x) == x && Ancestor(fr, x, n) == Some(r)
    ensures IsPath(fr, path) && path[|path| - 1] == x
    decreases n
  {
    if n == 0 {
      path := [x];
    } else {
      FirstStep(fr, x, n);
      var f := ParentEdge(fr, x);
      OwnerIsStored(fr, f.subject);
      path := PathFrom(fr, r, Owner(fr, f.subject), n - 1);
      path := path + [x];
    }
  }

  lemma ReachedThroughParent(fr: Forest, x: Handle)
    requires Valid(fr) && x in fr.g && fr.g[x].references == 1 && IsReached(fr, x)
    ensures Parent(fr, x).Some? && IsReached(fr, Parent(fr, x).value)
  {
    var r :| r in fr.g && fr.g[r].references != 1 && IsBelow(fr, r, x);
    var n: nat :| Ancestor(fr, x, n) == Some(r);
    FirstStep(fr, x, n);
    assert IsBelow(fr, r, Parent(fr, x).value);
  }

  lemma ReachedFromParent(fr: Forest, x: Handle)
    requires Parent(fr, x).Some? && IsReached(fr, Parent(fr, x).value)
    ensures IsReached(fr, x)
  {
    var y := Parent(fr, x).value;
    var r :| r in fr.g && fr.g[r].references != 1 && IsBelow(fr, r, y);
    var n: nat :| Ancestor(fr, y, n) == Some(r);
    assert Ancestor(fr, x, 0) == Some(x);
    assert Ancestor(fr, x, 1) == Some(y);
    AncestorSplit(fr, x, 1, n);
    assert IsBelow(fr, r, x);
  }

  /** A resource is reached when it is a root, or when its one parent is. */
  lemma ReachedExactlyWhen(fr: Forest, x: Handle)
    requires Valid(fr) && x in fr.g
    ensures IsReached(fr, x) <==> fr.g[x].references != 1 || (Parent(fr, x).Some? && IsReached(fr, Parent(fr, x).value))
  {
    if fr.g[x].references != 1 {
      BelowSelf(fr, x);
    } else if IsReached(fr, x) {
      ReachedThroughParent(fr, x);
    } else if Parent(fr, x).Some? && IsReached(fr, Parent(fr, x).value) {
      ReachedFromParent(fr, x);
    }
  }

  // ----- the outcome depends on the quads alone

  function Plain(r: SerResource): SerResource
  {
    r.(values := None)
  }

  lemma SameSets(a: SerResource, b: SerResource, s: Handle)
    requires forall f: Fact :: f.subject == s ==> (Says(a, f) <==> Says(b, f))
    requires forall p :: p in a.properties ==> a.properties[p] != {}
    requires forall p :: p in b.properties ==> b.properties[p] != {}
    ensures a.types == b.types && a.first == b.first && a.rest == b.rest && a.properties == b.properties
        && (a.graph.Some? <==> b.graph.Some?)
  {
    assert forall t :: t in a.types <==> Says(a, TypeFact(s, t));
    assert forall t :: t in b.types <==> Says(b, TypeFact(s, t));
    assert forall o :: o in a.first <==> Says(a, FirstFact(s, o));
    assert forall o :: o in b.first <==> Says(b, FirstFact(s, o));
    assert forall o :: o in a.rest <==> Says(a, RestFact(s, o));
    assert forall o :: o in b.rest <==> Says(b, RestFact(s, o));
    assert a.graph.Some? <==> Says(a, GraphFact(s));
    assert b.graph.Some? <==> Says(b, GraphFact(s));
    SameProperties(a, b, s);
  }

  lemma SameProperties(a: SerResource, b: SerResource, s: Handle)
    requires forall f: Fact :: f.subject == s ==> (Says(a, f) <==> Says(b, f))
    requires forall p :: p in a.properties ==> a.properties[p] != {}
    requires forall p :: p in b.properties ==> b.properties[p] != {}
    ensures a.properties == b.properties
  {
    forall p ensures p in a.properties <==> p in b.properties {
      if p in a.properties {
        var o :| o in a.properties[p];
        assert Says(a, PropertyFact(s, p, o));
      }
      if p in b.properties {
        var o :| o in b.properties[p];
        assert Says(b, PropertyFact(s, p, o));
      }
    }
    forall p | p in a.properties ensures a.properties[p] == b.properties[p] {
      forall o ensures o in a.properties[p] <==> o in b.properties[p] {
        assert o in a.properties[p] <==> Says(a, PropertyFact(s, p, o));
        assert o in b.properties[p] <==> Says(b, PropertyFact(s, p, o));
      }
    }
  }

  lemma SameFields(a: SerGraph, b: SerGraph, x: Handle)
    requires x in a && x in b && NoEmptyProperty(a) && NoEmptyProperty(b)
    requires forall f :: Holds(a, f) <==> Holds(b, f)
    requires forall s, o :: o in a && s in a[o].reverseRest <==> o in b && s in b[o].reverseRest
    requires a[x].references == b[x].references
    ensures Plain(a[x]) == Plain(b[x]).(graph := a[x].graph) && (a[x].graph.Some? <==> b[x].graph.Some?)
  {
    forall f: Fact | f.subject == x ensures Says(a[x], f) <==> Says(b[x], f) {
      assert Holds(a, f) <==> Holds(b, f);
    }
    SameSets(a[x], b[x], x);
    assert a[x].reverseRest == b[x].reverseRest by {
      forall s ensures s in a[x].reverseRest <==> s in b[x].reverseRest {}
    }
  }

  lemma NamedGraphUnique(interp: Interpretation, quads: seq<Quad>, name: Option<Handle>, a: SerGraph, b: SerGraph)
    requires Matches(interp, quads, name, a) && Matches(interp, quads, name, b)
    ensures a == b
  {
    forall s, o ensures o in a && s in a[o].reverseRest <==> o in b && s in b[o].reverseRest {
      assert o in a && s in a[o].reverseRest <==> RestFact(s, o) in QuadFacts(interp, quads, name);
      assert o in b && s in b[o].reverseRest <==> RestFact(s, o) in QuadFacts(interp, quads, name);
    }
    forall x | x in a ensures a[x] == b[x] { SameFields(a, b, x); }
  }

  lemma FoldedUnique(interp: Interpretation, quads: seq<Quad>, a: SerGraph, b: SerGraph, x: Handle)
    requires Folded(interp, quads, a) && Folded(interp, quads, b) && x in a
    ensures x in b && Plain(a[x]) == Plain(b[x])
  {
    forall s, o ensures o in a && s in a[o].reverseRest <==> o in b && s in b[o].reverseRest {
      assert o in a && s in a[o].reverseRest <==> RestFact(s, o) in QuadFacts(interp, quads, None);
      assert o in b && s in b[o].reverseRest <==> RestFact(s, o) in QuadFacts(interp, quads, None);
    }
    SameFields(a, b, x);
    if a[x].graph.Some? {
      FoldedIsCoherent(interp, quads, a);
      NamedGraphUnique(interp, quads, Some(x), a[x].graph.value, b[x].graph.value);
    }
  }

  /** No choice the serializer makes, of a hash set element or of an iteration order, affects the graph it renders. */
  lemma ForestUnique(a: Forest, b: Forest, quads: seq<Quad>)
    requires a.interp == b.interp && Describes(a, quads) && Describes(b, quads)
    ensures a == b
  {
    forall x | x in a.g ensures Plain(a.g[x]) == Plain(b.g[x]) { FoldedUnique(a.interp, quads, a.g, b.g, x); }
    assert a.g.Keys == b.g.Keys;
    forall x | x in a.g ensures b.g[x] == a.g[x].(values := b.g[x].values) {
      assert Plain(a.g[x]) == Plain(b.g[x]);
    }
    FoldingKeepsLayout(a.interp, a.g, b.g, a.nil, a.lists);
    FoldingUnique(a.interp, b.g, a.nil, a.lists, b.lists);
    forall x | x in a.g ensures a.g[x] == b.g[x] {
      if x in a.lists {
        var v, w := a.g[x].values.value, b.g[x].values.value;
        assert ValuesOf(b.g, a.lists[x], v) by { assert ValuesOf(a.g, a.lists[x], v); }
        SameValues(b.g, a.lists[x], v, w);
      }
    }
  }

  lemma {:induction false} NoneSameDistinct(doc: seq<Object>)
    requires NoneSame(doc)
    ensures forall i, j :: 0 <= i < j < |doc| ==> ContentsOf(doc)[i] != ContentsOf(doc)[j]
  {
    forall i, j | 0 <= i < j < |doc| ensures ContentsOf(doc)[i] != ContentsOf(doc)[j] {
      assert !Same(doc[i], doc[j]);
    }
  }

  /** What a root is rendered as is in every document. */
  lemma {:induction false} ContentFound(fr: Forest, doc: seq<Object>, o: Object)
    requires Documents(fr, doc, Roots(fr.g)) && IsRoot(fr.g, o.origin) && Renders(fr, o)
    ensures ContentOf(o) in ContentsOf(doc)
  {
    var i, a := Representative(fr, doc, o.origin);
    RenderingUnique(fr, a, o);
    assert ContentsOf(doc)[i] == ContentOf(o);
  }

  lemma {:induction false} ContentsFound(fr: Forest, a: seq<Object>, b: seq<Object>)
    requires AllRendered(fr, a, Roots(fr.g)) && Documents(fr, b, Roots(fr.g))
    ensures forall i :: 0 <= i < |a| ==> ContentsOf(a)[i] in ContentsOf(b)
  {
    forall i | 0 <= i < |a| ensures ContentOf(a[i]) in ContentsOf(b) {
      RenderedRoot(fr, a, i);
      ContentFound(fr, b, a[i]);
    }
  }

  lemma SameElements<T>(a: seq<T>, b: seq<T>)
    requires forall i, j :: 0 <= i < j < |a| ==> a[i] != a[j]
    requires forall i, j :: 0 <= i < j < |b| ==> b[i] != b[j]
    requires forall i :: 0 <= i < |a| ==> a[i] in b
    requires forall i :: 0 <= i < |b| ==> b[i] in a
    ensures multiset(a) == multiset(b)
  {
    var all := set x | x in a;
    EnumerationCounts(a, all);
    EnumerationCounts(b, all);
  }

  /** Two documents for the same graph hold the same objects, in some order. */
  lemma {:induction false} DocumentUnique(fr: Forest, a: seq<Object>, b: seq<Object>)
    requires Documents(fr, a, Roots(fr.g)) && Documents(fr, b, Roots(fr.g))
    ensures multiset(ContentsOf(a)) == multiset(ContentsOf(b))
  {
    ContentsFound(fr, a, b);
    ContentsFound(fr, b, a);
    NoneSameDistinct(a);
    NoneSameDistinct(b);
    SameElements(ContentsOf(a), ContentsOf(b));
  }
}
