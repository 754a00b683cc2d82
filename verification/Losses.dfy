/**
 What the serializer loses, and why. A resource that is never reached goes round a cycle of
 references or ends at one that is never followed; resources that look the same are merged.
 */
module Losses {
  import opened Wrappers
  import opened RdfModel
  import opened SerializationBuild
  import opened ListFolding
  import opened RenderForest
  import opened Rendering
  import opened Document
  import opened Tallies
  import opened Serialization
  import opened Conservation

  // ----- everything that is never reached

  /**
   The reference `f` is never followed: as a type, through a property without a name, or as the end of a
   folded list.
   */
  ghost predicate NeverFollowed(fr: Forest, f: Fact)
  {
    || f.TypeFact?
    || (f.PropertyFact? && IdOf(fr.interp, f.property).None?)
    || (f.RestFact? && InList(fr, f.subject) && fr.nil == Some(f.value))
  }

  /** The one quad that points at `x` is never followed. */
  ghost predicate IsDeadEnd(fr: Forest, quads: seq<Quad>, x: Handle)
  {
    && x in fr.g && fr.g[x].references == 1
    && exists i :: PointsAt(quads, None, x, i) && NeverFollowed(fr, FactOf(fr.interp, quads[i]))
  }

  /** Going up from `x` leads round a cycle. */
  ghost predicate Circles(fr: Forest, x: Handle)
  {
    exists n: nat, m: nat :: n < m && Ancestor(fr, x, n).Some? && Ancestor(fr, x, m) == Ancestor(fr, x, n)
  }

  /** Going up from `x` ends at a resource nothing leads to. */
  ghost predicate EndsDead(fr: Forest, quads: seq<Quad>, x: Handle)
  {
    exists n: nat :: EndsDeadAt(fr, quads, x, n)
  }

  ghost predicate EndsDeadAt(fr: Forest, quads: seq<Quad>, x: Handle, n: nat)
  {
    Ancestor(fr, x, n).Some? && IsDeadEnd(fr, quads, Ancestor(fr, x, n).value)
  }

  lemma {:induction false} AncestorStored(fr: Forest, x: Handle, n: nat)
    requires Valid(fr) && x in fr.g && Owner(fr, x) == x && Ancestor(fr, x, n).Some?
    ensures Ancestor(fr, x, n).value in fr.g && Owner(fr, Ancestor(fr, x, n).value) == Ancestor(fr, x, n).value
  {
    if n > 0 {
      AncestorStored(fr, x, n - 1);
      var f := ParentEdge(fr, Ancestor(fr, x, n - 1).value);
      OwnerIsStored(fr, f.subject);
    }
  }

  /** Only the end of a folded list is outside of it. */
  lemma LinkOutOfList(fr: Forest, f: Fact)
    requires Valid(fr) && Holds(fr.g, f) && f.RestFact? && InList(fr, f.subject) && Owner(fr, f.value) == f.value
    ensures fr.nil == Some(f.value)
  {
    var h := Owner(fr, f.subject);
    var cells := fr.lists[h];
    var k :| 0 <= k < |cells| && cells[k] == f.subject;
    CellLink(fr, h, k);
    assert f.value == NextOf(cells, fr.nil.value, k);
    if k + 1 < |cells| {
      CellOwner(fr, h, cells[k + 1]);
      HeadOwner(fr, h);
    }
  }

  lemma FollowedIsEdge(fr: Forest, f: Fact, x: Handle)
    requires Valid(fr) && Holds(fr.g, f) && x in fr.g && fr.g[x].references == 1 && Owner(fr, x) == x
    requires (f.TypeFact? || f.Target() == Some(x)) && !NeverFollowed(fr, f)
    ensures Edge(fr, f, x)
  {
    if f.RestFact? && InList(fr, f.subject) { LinkOutOfList(fr, f); }
  }

  /** The only way to be referenced once and have no parent is not to be followed. */
  lemma NoParentIsDeadEnd(fr: Forest, quads: seq<Quad>, x: Handle)
    requires Describes(fr, quads) && x in fr.g && Owner(fr, x) == x
    requires fr.g[x].references == 1 && Parent(fr, x).None?
    ensures IsDeadEnd(fr, quads, x)
  {
    var i := SoleQuadOf(fr, quads, x);
    var f := FactOf(fr.interp, quads[i]);
    StoredFacts(fr, quads, f);
    if !NeverFollowed(fr, f) {
      FollowedIsEdge(fr, f, x);
    }
  }

  lemma SoleQuadOf(fr: Forest, quads: seq<Quad>, x: Handle) returns (i: int)
    requires Describes(fr, quads) && x in fr.g && fr.g[x].references == 1
    ensures PointsAt(quads, None, x, i)
    ensures FactOf(fr.interp, quads[i]).TypeFact? || FactOf(fr.interp, quads[i]).Target() == Some(x)
  {
    SingleReference(quads, None, x);
    i :| PointsAt(quads, None, x, i);
  }

  lemma DeadEndHasNoParent(fr: Forest, quads: seq<Quad>, x: Handle)
    requires Describes(fr, quads) && IsDeadEnd(fr, quads, x)
    ensures Parent(fr, x).None?
  {
    if Parent(fr, x).Some? {
      var i :| PointsAt(quads, None, x, i) && NeverFollowed(fr, FactOf(fr.interp, quads[i]));
      var f := ParentEdge(fr, x);
      SoleQuad(fr, quads, x, i, f);
    }
  }

  /** Going up for longer than there are resources leads round a cycle. */
  lemma LongClimbCircles(fr: Forest, x: Handle, n: nat)
    requires Valid(fr) && x in fr.g && Owner(fr, x) == x && n >= |fr.g.Keys|
    requires forall k: nat :: k <= n ==> Ancestor(fr, x, k).Some?
    ensures Circles(fr, x)
  {
    var climb := seq(n + 1, k requires 0 <= k <= n => Ancestor(fr, x, k).value);
    forall k | 0 <= k <= n ensures climb[k] in fr.g.Keys { AncestorStored(fr, x, k); }
    if !Circles(fr, x) {
      forall i, j | 0 <= i < j < |climb| ensures climb[i] != climb[j] {
        assert Ancestor(fr, x, j) != Ancestor(fr, x, i);
      }
      DistinctFits(climb, fr.g.Keys);
    }
  }

  /** A climb from what is not reached ends at a dead end, or does not end. */
  lemma ClimbGoesOn(fr: Forest, quads: seq<Quad>, x: Handle, n: nat)
    requires Describes(fr, quads) && x in fr.g && Owner(fr, x) == x && !IsReached(fr, x)
    ensures EndsDead(fr, quads, x) || Ancestor(fr, x, n).Some?
  {
    if Ancestor(fr, x, n).None? {
      var k := TopAncestor(fr, x, n);
      TopIsDeadEnd(fr, quads, x, k);
    }
  }

  lemma TopIsDeadEnd(fr: Forest, quads: seq<Quad>, x: Handle, n: nat)
    requires Describes(fr, quads) && x in fr.g && Owner(fr, x) == x && !IsReached(fr, x)
    requires Ancestor(fr, x, n).Some? && Parent(fr, Ancestor(fr, x, n).value).None?
    ensures EndsDeadAt(fr, quads, x, n)
  {
    AncestorStored(fr, x, n);
    var a := Ancestor(fr, x, n).value;
    assert IsBelow(fr, a, x);
    NoParentIsDeadEnd(fr, quads, a);
  }

  lemma {:induction false} CirclingGoesOn(fr: Forest, x: Handle, n: nat, m: nat, k: nat)
    requires n < m && Ancestor(fr, x, n).Some? && Ancestor(fr, x, m) == Ancestor(fr, x, n)
    ensures Ancestor(fr, x, k).Some?
  {
    if k < m {
      if Ancestor(fr, x, k).None? { NothingAboveNothing(fr, x, k, m); }
    } else {
      CirclingGoesOn(fr, x, n, m, n + (k - m));
      SameAbove(fr, x, n, m, k - m);
    }
  }

  /** What is reached goes up to a root. */
  lemma RootHeight(fr: Forest, x: Handle) returns (k: nat)
    requires IsReached(fr, x)
    ensures TopsOut(fr, x, k)
  {
    var r :| r in fr.g && fr.g[r].references != 1 && IsBelow(fr, r, x);
    k :| Ancestor(fr, x, k) == Some(r);
  }

  ghost predicate TopsOut(fr: Forest, x: Handle, k: nat)
  {
    && Ancestor(fr, x, k).Some? && Ancestor(fr, x, k).value in fr.g
    && fr.g[Ancestor(fr, x, k).value].references != 1
  }

  lemma CirclingIsUnreached(fr: Forest, x: Handle)
    requires Valid(fr) && Circles(fr, x)
    ensures !IsReached(fr, x)
  {
    if IsReached(fr, x) {
      var k := RootHeight(fr, x);
      var n: nat, m: nat :| n < m && Ancestor(fr, x, n).Some? && Ancestor(fr, x, m) == Ancestor(fr, x, n);
      CirclingGoesOn(fr, x, n, m, k + 1);
      NothingAboveRoot(fr, Ancestor(fr, x, k).value, x, k, k + 1);
    }
  }

  lemma DeadEndIsTop(fr: Forest, quads: seq<Quad>, x: Handle, n: nat, m: nat)
    requires Describes(fr, quads) && EndsDeadAt(fr, quads, x, n) && m > n
    ensures Ancestor(fr, x, m).None?
  {
    DeadEndHasNoParent(fr, quads, Ancestor(fr, x, n).value);
    AncestorNext(fr, x, n);
    NothingAboveNothing(fr, x, n + 1, m);
  }

  lemma DeadEndIsNoRoot(fr: Forest, quads: seq<Quad>, x: Handle, n: nat, k: nat)
    requires Describes(fr, quads) && EndsDeadAt(fr, quads, x, n)
    ensures !TopsOut(fr, x, k)
  {
    if k > n {
      DeadEndIsTop(fr, quads, x, n, k);
    } else if k < n && TopsOut(fr, x, k) {
      NothingAboveRoot(fr, Ancestor(fr, x, k).value, x, k, n);
    }
  }

  lemma DeadEndIsUnreached(fr: Forest, quads: seq<Quad>, x: Handle)
    requires Describes(fr, quads) && EndsDead(fr, quads, x)
    ensures !IsReached(fr, x)
  {
    if IsReached(fr, x) {
      var n: nat :| EndsDeadAt(fr, quads, x, n);
      var k := RootHeight(fr, x);
      DeadEndIsNoRoot(fr, quads, x, n, k);
    }
  }

  /** What is never reached is exactly what is on or below a cycle, or a reference that is never followed. */
  lemma UnreachedExactlyWhen(fr: Forest, quads: seq<Quad>, x: Handle)
    requires Describes(fr, quads) && x in fr.g && Owner(fr, x) == x
    ensures !IsReached(fr, x) <==> Circles(fr, x) || EndsDead(fr, quads, x)
  {
    if Circles(fr, x) {
      CirclingIsUnreached(fr, x);
    } else if EndsDead(fr, quads, x) {
      DeadEndIsUnreached(fr, quads, x);
    } else if !IsReached(fr, x) {
      forall n: nat ensures Ancestor(fr, x, n).Some? { ClimbGoesOn(fr, quads, x, n); }
      LongClimbCircles(fr, x, |fr.g.Keys|);
    }
  }

  /** First family of losses: resources that only lead to one another, each referenced once. */
  lemma CycleIsLost(fr: Forest, cycle: set<Handle>, x: Handle)
    requires Valid(fr) && x in cycle
    requires forall y :: y in cycle ==> y in fr.g && fr.g[y].references == 1
    requires forall y :: y in cycle && Parent(fr, y).Some? ==> Parent(fr, y).value in cycle
    ensures !IsReached(fr, x)
  {
    forall n: nat ensures Ancestor(fr, x, n).Some? ==> Ancestor(fr, x, n).value in cycle {
      StaysInside(fr, cycle, x, n);
    }
  }

  lemma {:induction false} StaysInside(fr: Forest, cycle: set<Handle>, x: Handle, n: nat)
    requires x in cycle && forall y :: y in cycle && Parent(fr, y).Some? ==> Parent(fr, y).value in cycle
    ensures Ancestor(fr, x, n).Some? ==> Ancestor(fr, x, n).value in cycle
  {
    if n > 0 { StaysInside(fr, cycle, x, n - 1); }
  }

  /** Second family: a resource whose one reference is as the object of `rdf:type`. */
  lemma TypeOnlyIsLost(fr: Forest, quads: seq<Quad>, x: Handle, i: int)
    requires Describes(fr, quads) && x in fr.g && fr.g[x].references == 1
    requires PointsAt(quads, None, x, i) && FactOf(fr.interp, quads[i]).TypeFact?
    ensures !IsReached(fr, x)
  {
    if Parent(fr, x).Some? {
      var f := ParentEdge(fr, x);
      SoleQuad(fr, quads, x, i, f);
    }
    ReachedExactlyWhen(fr, x);
  }

  lemma SoleQuad(fr: Forest, quads: seq<Quad>, x: Handle, i: int, f: Fact)
    requires Describes(fr, quads) && x in fr.g && fr.g[x].references == 1
    requires PointsAt(quads, None, x, i) && Edge(fr, f, x)
    ensures f == FactOf(fr.interp, quads[i])
  {
    var j := FactSource(fr.interp, quads, None, f);
    SingleReference(quads, None, x);
  }

  /** Third family: what is said about `rdf:nil` when the end of a folded list is its one reference. */
  lemma NilBehindListIsLost(fr: Forest, h: Handle)
    requires Valid(fr) && h in fr.lists && fr.nil.Some? && fr.nil.value in fr.g && fr.g[fr.nil.value].references == 1
    ensures !IsReached(fr, fr.nil.value)
  {
    var nil, cells := fr.nil.value, fr.lists[h];
    HeadOwner(fr, h);
    var k := |cells| - 1;
    CellLink(fr, h, k);
    var link := RestFact(cells[k], nil);
    assert Holds(fr.g, link);
    CellOwner(fr, h, cells[k]);
    if Parent(fr, nil).Some? {
      var f := ParentEdge(fr, nil);
      SoleLink(fr, f, link);
    }
    ReachedExactlyWhen(fr, nil);
  }

  lemma SoleLink(fr: Forest, f: Fact, f': Fact)
    requires Valid(fr) && Holds(fr.g, f) && Holds(fr.g, f') && SoleTarget(fr.g, f) && f'.Target() == f.Target()
    ensures f == f'
  {
  }

  lemma FirstOfCycle(a: Quad)
    requires a == Quad(1, 0, 2, None)
    ensures Mentioned([a], None) == {1, 2} && GraphNames([a]) == {}
    ensures RefCount([a], None, 1) == 0 && RefCount([a], None, 2) == 1
  {
    assert [a][..0] == [];
  }

  lemma CycleCounts(a: Quad, b: Quad)
    requires a == Quad(1, 0, 2, None) && b == Quad(2, 0, 1, None)
    ensures Mentioned([a, b], None) == {1, 2} && GraphNames([a, b]) == {}
    ensures RefCount([a, b], None, 1) == 1 && RefCount([a, b], None, 2) == 1
  {
    assert [a, b][..1] == [a];
    FirstOfCycle(a);
  }

  /** Two resources that refer to each other and to nothing else vanish from the document. */
  lemma CycleVanishes(fr: Forest, a: Quad, b: Quad)
    requires a == Quad(1, 0, 2, None) && b == Quad(2, 0, 1, None)
    requires RdfPropertyOf(fr.interp, 0).OtherProperty? && Describes(fr, [a, b])
    ensures PropertyFact(1, 0, 2) in AllFacts(fr.g) && WrittenFacts(fr) == {}
  {
    CycleSaid(fr, a, b);
    CycleHasNoRoots(fr, a, b);
    NoRootsNoFacts(fr);
  }

  lemma CycleSaid(fr: Forest, a: Quad, b: Quad)
    requires a == Quad(1, 0, 2, None) && RdfPropertyOf(fr.interp, 0).OtherProperty? && Describes(fr, [a, b])
    ensures PropertyFact(1, 0, 2) in AllFacts(fr.g)
  {
    assert [a, b][0] == a && FactOf(fr.interp, a) == PropertyFact(1, 0, 2);
    StoredFacts(fr, [a, b], PropertyFact(1, 0, 2));
  }

  lemma CycleHasNoRoots(fr: Forest, a: Quad, b: Quad)
    requires a == Quad(1, 0, 2, None) && b == Quad(2, 0, 1, None) && Describes(fr, [a, b])
    ensures forall x :: x in fr.g ==> fr.g[x].references == 1
  {
    CycleCounts(a, b);
  }

  lemma NoRootsNoFacts(fr: Forest)
    requires forall x :: x in fr.g ==> fr.g[x].references == 1
    ensures WrittenFacts(fr) == {}
  {
  }

  // ----- a merge that loses facts

  /** Two unnamed resources of which the same is said. */
  ghost predicate AreTwinQuads(interp: Interpretation, quads: seq<Quad>)
  {
    && quads == [Quad(1, 0, 3, None), Quad(2, 0, 3, None)]
    && RdfPropertyOf(interp, 0).OtherProperty? && IdOf(interp, 0).Some?
    && IdOf(interp, 1).None? && IdOf(interp, 2).None?
    && TermOf(interp, 3).Ok?
  }

  lemma FirstTwin(a: Quad)
    requires a == Quad(1, 0, 3, None)
    ensures Mentioned([a], None) == {1, 3} && GraphNames([a]) == {}
    ensures RefCount([a], None, 1) == 0 && RefCount([a], None, 2) == 0 && RefCount([a], None, 3) == 1
  {
    assert [a][..0] == [];
  }

  lemma TwinCounts(a: Quad, b: Quad)
    requires a == Quad(1, 0, 3, None) && b == Quad(2, 0, 3, None)
    ensures Mentioned([a, b], None) == {1, 2, 3} && GraphNames([a, b]) == {}
    ensures RefCount([a, b], None, 1) == 0 && RefCount([a, b], None, 2) == 0 && RefCount([a, b], None, 3) == 2
  {
    assert [a, b][..1] == [a];
    FirstTwin(a);
  }

  lemma {:induction false} TwinFacts(interp: Interpretation, quads: seq<Quad>)
    requires AreTwinQuads(interp, quads)
    ensures QuadFacts(interp, quads, None) == {PropertyFact(1, 0, 3), PropertyFact(2, 0, 3)}
  {
    var first := quads[..1];
    assert first == [quads[0]] && first[..0] == [];
    assert FactOf(interp, quads[0]) == PropertyFact(1, 0, 3) && FactOf(interp, quads[1]) == PropertyFact(2, 0, 3);
    assert QuadFacts(interp, first, None) == {PropertyFact(1, 0, 3)};
  }

  lemma TwinSaid(fr: Forest, quads: seq<Quad>, f: Fact)
    requires Describes(fr, quads) && AreTwinQuads(fr.interp, quads)
    ensures Holds(fr.g, f) <==> f == PropertyFact(1, 0, 3) || f == PropertyFact(2, 0, 3)
  {
    TwinCounts(quads[0], quads[1]);
    TwinFacts(fr.interp, quads);
    assert f.subject !in GraphNames(quads);
    assert Holds(fr.g, f) <==> f in QuadFacts(fr.interp, quads, None);
  }

  lemma OneProperty(r: SerResource, x: Handle)
    requires forall f: Fact :: f.subject == x ==> (Says(r, f) <==> f == PropertyFact(x, 0, 3))
    requires forall p :: p in r.properties ==> r.properties[p] != {}
    ensures r.properties == map[0 := {3}] && r.types == {} && r.first == {} && r.rest == {} && r.graph.None?
  {
    assert Says(r, PropertyFact(x, 0, 3)) && !Says(r, GraphFact(x));
    if t :| t in r.types { assert Says(r, TypeFact(x, t)); }
    if v :| v in r.first { assert Says(r, FirstFact(x, v)); }
    if v :| v in r.rest { assert Says(r, RestFact(x, v)); }
    forall p | p in r.properties ensures p == 0 {
      var v :| v in r.properties[p];
      assert Says(r, PropertyFact(x, p, v));
    }
    assert r.properties[0] == {3} by {
      forall v ensures v in r.properties[0] <==> v == 3 {
        assert Says(r, PropertyFact(x, 0, v)) <==> v in r.properties[0];
      }
    }
  }

  lemma TwinRecord(fr: Forest, quads: seq<Quad>, x: Handle)
    requires Describes(fr, quads) && AreTwinQuads(fr.interp, quads) && (x == 1 || x == 2)
    ensures x in fr.g && fr.g[x] == EMPTY_RESOURCE.(properties := map[0 := {3}])
  {
    TwinCounts(quads[0], quads[1]);
    TwinHasNoList(fr, quads);
    forall f: Fact | f.subject == x ensures Says(fr.g[x], f) <==> f == PropertyFact(x, 0, 3) { TwinSaid(fr, quads, f); }
    OneProperty(fr.g[x], x);
    TwinNotLinked(fr, quads, x);
  }

  lemma TwinNotLinked(fr: Forest, quads: seq<Quad>, x: Handle)
    requires Describes(fr, quads) && AreTwinQuads(fr.interp, quads) && x in fr.g
    ensures fr.g[x].reverseRest == {}
  {
    if s :| s in fr.g[x].reverseRest {
      FoldedIsCoherent(fr.interp, quads, fr.g);
      TwinSaid(fr, quads, RestFact(s, x));
    }
  }

  lemma TwinHasNoList(fr: Forest, quads: seq<Quad>)
    requires Describes(fr, quads) && AreTwinQuads(fr.interp, quads)
    ensures fr.lists == map[]
  {
    assert quads[..1] == [quads[0]] && quads[..1][..0] == [];
    assert FirstNil(fr.interp, quads[..1]).None?;
  }

  /** What either is written as. */
  function Twin(interp: Interpretation, x: Handle, value: Object): Object
    requires IdOf(interp, 0).Some?
  {
    NodeObject(x, None, None, NoGraph, [Entry(OtherKey(0), IdOf(interp, 0).value, value)])
  }

  lemma {:induction false} TwinRendered(fr: Forest, quads: seq<Quad>, x: Handle, value: Object)
    requires Describes(fr, quads) && AreTwinQuads(fr.interp, quads) && (x == 1 || x == 2)
    requires value.origin == 3 && IsReference(fr.interp, value)
    ensures Renders(fr, Twin(fr.interp, x, value))
  {
    TwinRecord(fr, quads, x);
    TwinCounts(quads[0], quads[1]);
    TwinValue(fr, x, value);
  }

  lemma {:induction false} TwinValue(fr: Forest, x: Handle, value: Object)
    requires x in fr.g && fr.g[x] == EMPTY_RESOURCE.(properties := map[0 := {3}])
    requires IdOf(fr.interp, x).None? && IdOf(fr.interp, 0).Some?
    requires value.origin == 3 && IsReference(fr.interp, value) && 3 in fr.g && fr.g[3].references == 2
    ensures Renders(fr, Twin(fr.interp, x, value))
  {
    var o := Twin(fr.interp, x, value);
    assert NamedSlots(fr, x) == {Slot(OtherKey(0), 3)};
    assert SlotsOf(o.entries)[0] == Slot(OtherKey(0), 3);
    assert Enumerates(SlotsOf(o.entries), NamedSlots(fr, x));
    assert Child(o, 0) == value && RendersValue(fr, value);
  }

  /** Two unnamed resources of which the same is said are written once: a fact is lost. */
  lemma TwinsAreMerged(fr: Forest, quads: seq<Quad>, doc: seq<Object>)
    requires Describes(fr, quads) && AreTwinQuads(fr.interp, quads) && Documents(fr, doc, Roots(fr.g))
    ensures PropertyFact(1, 0, 3) in WrittenFacts(fr) && PropertyFact(2, 0, 3) in WrittenFacts(fr)
    ensures DocumentFacts(fr, doc) != multiset(WrittenFacts(fr))
  {
    ReadyToRender(fr, quads);
    TwinRoot(fr, quads, 1);
    TwinRoot(fr, quads, 2);
    var r := RenderReferenceOf(fr.interp, 3);
    TwinRendered(fr, quads, 1, r);
    TwinRendered(fr, quads, 2, r);
    TwinsMatch(fr, r);
    assert Twins(fr, 1, 2);
    StatedExactlyWhen(fr, doc);
  }

  lemma TwinsMatch(fr: Forest, value: Object)
    requires IdOf(fr.interp, 0).Some?
    ensures Same(Twin(fr.interp, 1, value), Twin(fr.interp, 2, value))
  {
    var a, b := Twin(fr.interp, 1, value), Twin(fr.interp, 2, value);
    assert Child(a, 0) == Child(b, 0);
    assert PropertiesOf(a) == PropertiesOf(b);
  }

  lemma RenderReferenceOf(interp: Interpretation, x: Handle) returns (o: Object)
    requires TermOf(interp, x).Ok?
    ensures o.origin == x && IsReference(interp, o)
  {
    match TermOf(interp, x)
    case Ok(Some(IdTerm(i))) => o := NodeObject(x, Some(i), None, NoGraph, []);
    case Ok(Some(LiteralTerm(value))) => o := ValueObject(x, value);
    case Ok(None) => o := NodeObject(x, None, None, NoGraph, []);
  }

  lemma RootSays(fr: Forest, f: Fact)
    requires Valid(fr) && IsRoot(fr.g, f.subject) && Holds(fr.g, f) && Writes(fr, f)
    ensures f in BelowFacts(fr, f.subject) && f in WrittenFacts(fr)
  {
    RootOwnsItself(fr, f.subject);
    BelowSelf(fr, f.subject);
  }

  lemma TwinRoot(fr: Forest, quads: seq<Quad>, x: Handle)
    requires Describes(fr, quads) && AreTwinQuads(fr.interp, quads) && (x == 1 || x == 2)
    ensures IsRoot(fr.g, x) && PropertyFact(x, 0, 3) in BelowFacts(fr, x) && PropertyFact(x, 0, 3) in WrittenFacts(fr)
  {
    TwinRecord(fr, quads, x);
    TwinSaid(fr, quads, PropertyFact(x, 0, 3));
    RootSays(fr, PropertyFact(x, 0, 3));
  }
}
