/**
 The single pass over the quads that fills the intermediate dataset
 (jsonld-core/src/serialization.rs:265-324).

 The specification is by facts: after the pass a graph stores exactly the facts of
 its quads, `reverseRest` is the inverse of `rest`, and `references` counts the
 quads that point at a resource.
 */
module SerializationBuild {
  import opened Wrappers
  import opened RdfModel

  /** Handles of the vocabulary terms met in the input, needed to write them back. */
  datatype RdfTerms = RdfTerms(list: Option<Handle>, first: Option<Handle>, rest: Option<Handle>)

  /** The facts of the quads of graph `name`. */
  ghost function QuadFacts(interp: Interpretation, quads: seq<Quad>, name: Option<Handle>): set<Fact>
  {
    if quads == [] then {}
    else
      var last := quads[|quads| - 1];
      QuadFacts(interp, quads[..|quads| - 1], name) + (if last.graph == name then {FactOf(interp, last)} else {})
  }

  lemma {:induction false} QuadFactsAre(interp: Interpretation, quads: seq<Quad>, name: Option<Handle>)
    ensures QuadFacts(interp, quads, name) == set q | q in quads && q.graph == name :: FactOf(interp, q)
  {
    if quads != [] {
      var prefix, last := quads[..|quads| - 1], quads[|quads| - 1];
      QuadFactsAre(interp, prefix, name);
      assert forall q :: q in quads <==> q in prefix || q == last;
    }
  }

  /** Subjects and objects of the quads of graph `name`. */
  ghost function Mentioned(quads: seq<Quad>, name: Option<Handle>): set<Handle>
  {
    if quads == [] then {}
    else
      var last := quads[|quads| - 1];
      Mentioned(quads[..|quads| - 1], name) + (if last.graph == name then {last.subject, last.value} else {})
  }

  ghost function GraphNames(quads: seq<Quad>): set<Handle>
  {
    if quads == [] then {}
    else
      var last := quads[|quads| - 1];
      GraphNames(quads[..|quads| - 1]) + (if last.graph.Some? then {last.graph.value} else {})
  }

  /**
   The reference counter of `x`, saturating, and pinned to its maximum by a quad whose predicate is its
   own object.
   */
  function RefCount(quads: seq<Quad>, name: Option<Handle>, x: Handle): (count: nat)
    ensures count <= USIZE_MAX
  {
    if quads == [] then 0
    else
      var last := quads[|quads| - 1];
      var before := RefCount(quads[..|quads| - 1], name, x);
      if last.graph != name || last.value != x then before
      else if last.property == last.value then USIZE_MAX
      else Saturating(before)
  }

  function Saturating(count: nat): nat
  {
    if count >= USIZE_MAX then USIZE_MAX else count + 1
  }

  /** `i` is the position of a quad of graph `name` whose object is `x`. */
  ghost predicate PointsAt(quads: seq<Quad>, name: Option<Handle>, x: Handle, i: int)
  {
    0 <= i < |quads| && quads[i].graph == name && quads[i].value == x
  }

  lemma {:induction false} NoReference(quads: seq<Quad>, name: Option<Handle>, x: Handle)
    ensures RefCount(quads, name, x) == 0 <==> forall i :: !PointsAt(quads, name, x, i)
  {
    if quads != [] {
      var prefix := quads[..|quads| - 1];
      NoReference(prefix, name, x);
      if RefCount(quads, name, x) == 0 {
        forall i ensures !PointsAt(quads, name, x, i) { assert !PointsAt(prefix, name, x, i); }
      } else if RefCount(prefix, name, x) == 0 {
        assert PointsAt(quads, name, x, |quads| - 1);
      } else {
        var i :| PointsAt(prefix, name, x, i);
        assert PointsAt(quads, name, x, i);
      }
    }
  }

  /** A counter reads one exactly when a single quad points at the resource, and not through itself. */
  lemma {:induction false} SingleReference(quads: seq<Quad>, name: Option<Handle>, x: Handle)
    ensures RefCount(quads, name, x) == 1 <==>
            exists i :: PointsAt(quads, name, x, i) && quads[i].property != x
                        && forall j :: PointsAt(quads, name, x, j) ==> j == i
  {
    if quads != [] {
      var n := |quads| - 1;
      var prefix := quads[..n];
      SingleReference(prefix, name, x);
      NoReference(prefix, name, x);
      assert forall j ::
          PointsAt(quads, name, x, j) <==> PointsAt(prefix, name, x, j) || (j == n && PointsAt(quads, name, x, n));
      if RefCount(quads, name, x) == 1 {
        if PointsAt(quads, name, x, n) {
          assert RefCount(prefix, name, x) == 0;
        } else {
          var i :| PointsAt(prefix, name, x, i) && prefix[i].property != x
                   && forall j :: PointsAt(prefix, name, x, j) ==> j == i;
          assert PointsAt(quads, name, x, i);
        }
      }
      if i :| PointsAt(quads, name, x, i) && quads[i].property != x
              && forall j :: PointsAt(quads, name, x, j) ==> j == i {
        if i == n {
          assert forall j :: !PointsAt(prefix, name, x, j);
        } else {
          assert PointsAt(prefix, name, x, i) && prefix[i].property != x;
        }
      }
    }
  }

  /** `g` is what the pass over `quads` leaves for the graph called `name`. */
  ghost predicate Matches(interp: Interpretation, quads: seq<Quad>, name: Option<Handle>, g: SerGraph)
  {
    && g.Keys == Mentioned(quads, name)
    && StoresFacts(interp, quads, name, g)
    && StoresReverse(interp, quads, name, g)
    && StoresCounts(quads, name, g)
    && (forall x :: x in g ==> g[x].graph.None? && g[x].values.None?)
    && NoEmptyProperty(g)
  }

  ghost predicate StoresFacts(interp: Interpretation, quads: seq<Quad>, name: Option<Handle>, g: SerGraph)
  {
    forall f :: Holds(g, f) <==> f in QuadFacts(interp, quads, name)
  }

  ghost predicate StoresReverse(interp: Interpretation, quads: seq<Quad>, name: Option<Handle>, g: SerGraph)
  {
    forall s, o :: o in g && s in g[o].reverseRest <==> RestFact(s, o) in QuadFacts(interp, quads, name)
  }

  ghost predicate StoresCounts(quads: seq<Quad>, name: Option<Handle>, g: SerGraph)
  {
    forall x :: x in g ==> g[x].references == RefCount(quads, name, x)
  }

  /** No list has been folded yet. */
  ghost predicate NoValues(g: SerGraph)
  {
    forall x :: x in g ==> g[x].values.None?
  }

  ghost predicate NoEmptyProperty(g: SerGraph)
  {
    forall x, p :: x in g && p in g[x].properties ==> g[x].properties[p] != {}
  }

  function Touch(g: SerGraph, id: Handle): SerGraph
  {
    if id in g then g else g[id := EMPTY_RESOURCE]
  }

  /** Adds what a quad says to the record of its subject. */
  function Record(r: SerResource, f: Fact): (r': SerResource)
    requires !f.GraphFact?
    ensures forall h: Fact :: h.subject == f.subject ==> (Says(r', h) <==> Says(r, h) || h == f)
    ensures (r'.graph, r'.values, r'.references, r'.reverseRest) == (r.graph, r.values, r.references, r.reverseRest)
    ensures forall p :: p in r'.properties && r'.properties[p] == {} ==> p in r.properties && r.properties[p] == {}
  {
    match f
    case TypeFact(_, t) => r.(types := r.types + {t})
    case FirstFact(_, o) => r.(first := r.first + {o})
    case RestFact(_, o) => r.(rest := r.rest + {o})
    case PropertyFact(_, p, o) =>
      var objects := if p in r.properties then r.properties[p] else {};
      r.(properties := r.properties[p := objects + {o}])
  }

  ghost predicate SameRecord(r: SerResource, r': SerResource)
  {
    (r'.types, r'.properties, r'.graph, r'.first, r'.rest, r'.values)
        == (r.types, r.properties, r.graph, r.first, r.rest, r.values)
  }

  function At(g: SerGraph, x: Handle): SerResource
  {
    if x in g then g[x] else EMPTY_RESOURCE
  }

  /** Records what the quad says and, for `rdf:rest`, the link back. */
  method Link(interp: Interpretation, graph: SerGraph, quad: Quad) returns (g: SerGraph)
    ensures Linked(interp, quad, graph, g)
  {
    var s, o := quad.subject, quad.value;
    var fact := FactOf(interp, quad);
    g := Touch(graph, s);
    g := g[s := Record(g[s], fact)];
    if fact.RestFact? {
      g := Touch(g, o);
      g := g[o := g[o].(reverseRest := g[o].reverseRest + {s})];
    }
  }

  /** Where a quad lands once the graph it belongs to has been chosen. */
  method AddToGraph(interp: Interpretation, graph: SerGraph, quad: Quad) returns (g: SerGraph)
    ensures Filed(interp, quad, graph, g)
  {
    var p, o := quad.property, quad.value;
    g := Link(interp, graph, quad);
    ghost var linked := g;
    g := Touch(g, o);
    g := g[o := g[o].(references := if p == o then USIZE_MAX else Saturating(g[o].references))];
    FiledInSteps(interp, quad, graph, linked, g);
  }

  /** The quad is recorded and linked back, but not counted. */
  ghost predicate Linked(interp: Interpretation, quad: Quad, graph: SerGraph, g: SerGraph)
  {
    && g.Keys == graph.Keys + {quad.subject} + (if FactOf(interp, quad).RestFact? then {quad.value} else {})
    && forall x :: x in g ==>
                     && SameRecord(if x == quad.subject then Record(At(graph, x), FactOf(interp, quad))
                         else At(graph, x), g[x])
                     && g[x].references == At(graph, x).references
                     && g[x].reverseRest == At(graph, x).reverseRest
                                            + (if FactOf(interp, quad).RestFact? && x == quad.value then {quad.subject}
                                                else {})
  }

  /** One more reference to the object of a quad, which its own predicate pins to the maximum. */
  function Referenced(quad: Quad, r: SerResource): SerResource
  {
    r.(references := if quad.property == quad.value then USIZE_MAX else Saturating(r.references))
  }

  lemma FiledInSteps(interp: Interpretation, quad: Quad, graph: SerGraph, linked: SerGraph, g: SerGraph)
    requires Linked(interp, quad, graph, linked)
    requires g == Touch(linked, quad.value)[quad.value := Referenced(quad, At(linked, quad.value))]
    ensures Filed(interp, quad, graph, g)
  {
  }

  /** How filing one quad changes each record of its graph. */
  ghost predicate Filed(interp: Interpretation, quad: Quad, graph: SerGraph, g: SerGraph)
  {
    && g.Keys == graph.Keys + {quad.subject, quad.value}
    && forall x :: x in g ==>
                     && SameRecord(if x == quad.subject then Record(At(graph, x), FactOf(interp, quad))
                         else At(graph, x), g[x])
                     && g[x].reverseRest == At(graph, x).reverseRest
                                            + (if FactOf(interp, quad).RestFact? && x == quad.value then {quad.subject}
                                                else {})
                     && g[x].references ==
                        if x != quad.value then At(graph, x).references
                        else if quad.property == x then USIZE_MAX
                        else Saturating(At(graph, x).references)
  }

  lemma FiledFacts(interp: Interpretation, quad: Quad, graph: SerGraph, g: SerGraph, f: Fact)
    requires Filed(interp, quad, graph, g)
    ensures Holds(g, f) <==> Holds(graph, f) || f == FactOf(interp, quad)
  {
    var x := f.subject;
    if x in g {
      var r := if x == quad.subject then Record(At(graph, x), FactOf(interp, quad)) else At(graph, x);
      assert Says(g[x], f) <==> Says(r, f);
      assert x !in graph ==> !Says(At(graph, x), f);
    }
  }

  lemma FiledStoresFacts(interp: Interpretation, quads: seq<Quad>, quad: Quad, graph: SerGraph, g: SerGraph)
    requires StoresFacts(interp, quads, quad.graph, graph) && Filed(interp, quad, graph, g)
    ensures StoresFacts(interp, quads + [quad], quad.graph, g)
  {
    FactsStep(interp, quads, quad, quad.graph);
    forall f ensures Holds(g, f) <==> f in QuadFacts(interp, quads + [quad], quad.graph) {
      FiledFacts(interp, quad, graph, g, f);
    }
  }

  /** `s` is linked back from `o`. */
  predicate LinksBack(g: SerGraph, s: Handle, o: Handle)
  {
    o in g && s in g[o].reverseRest
  }

  lemma FiledLinksBack(interp: Interpretation, quad: Quad, graph: SerGraph, g: SerGraph, s: Handle, o: Handle)
    requires Filed(interp, quad, graph, g)
    ensures LinksBack(g, s, o) <==> LinksBack(graph, s, o) || FactOf(interp, quad) == RestFact(s, o)
  {
  }

  lemma FiledStoresReverse(interp: Interpretation, quads: seq<Quad>, quad: Quad, graph: SerGraph, g: SerGraph)
    requires StoresReverse(interp, quads, quad.graph, graph) && Filed(interp, quad, graph, g)
    ensures StoresReverse(interp, quads + [quad], quad.graph, g)
  {
    FactsStep(interp, quads, quad, quad.graph);
    forall s, o ensures LinksBack(g, s, o) <==> RestFact(s, o) in QuadFacts(interp, quads + [quad], quad.graph) {
      FiledLinksBack(interp, quad, graph, g, s, o);
      assert LinksBack(graph, s, o) <==> RestFact(s, o) in QuadFacts(interp, quads, quad.graph);
    }
  }

  lemma {:induction false} FiledStoresCounts(interp: Interpretation, quads: seq<Quad>, quad: Quad, graph: SerGraph,
      g: SerGraph)
    requires graph.Keys == Mentioned(quads, quad.graph)
    requires StoresCounts(quads, quad.graph, graph) && Filed(interp, quad, graph, g)
    ensures StoresCounts(quads + [quad], quad.graph, g)
  {
    assert (quads + [quad])[..|quads|] == quads;
    forall x | x in g ensures g[x].references == RefCount(quads + [quad], quad.graph, x) {
      if x !in graph { Unmentioned(quads, quad.graph, x); }
    }
  }

  lemma FiledMatches(interp: Interpretation, quads: seq<Quad>, quad: Quad, graph: SerGraph, g: SerGraph)
    requires Matches(interp, quads, quad.graph, graph) && Filed(interp, quad, graph, g)
    ensures Matches(interp, quads + [quad], quad.graph, g)
  {
    FactsStep(interp, quads, quad, quad.graph);
    FiledStoresFacts(interp, quads, quad, graph, g);
    FiledStoresReverse(interp, quads, quad, graph, g);
    FiledStoresCounts(interp, quads, quad, graph, g);
    forall x, p | x in g && p in g[x].properties ensures g[x].properties[p] != {} {
      assert p in At(graph, x).properties ==> At(graph, x).properties[p] != {};
    }
  }

  lemma {:induction false} Unmentioned(quads: seq<Quad>, name: Option<Handle>, x: Handle)
    requires x !in Mentioned(quads, name)
    ensures RefCount(quads, name, x) == 0
  {
    if quads != [] {
      Unmentioned(quads[..|quads| - 1], name, x);
    }
  }

  lemma {:induction false} FactsStep(interp: Interpretation, quads: seq<Quad>, quad: Quad, name: Option<Handle>)
    ensures QuadFacts(interp, quads + [quad], name) ==
            QuadFacts(interp, quads, name) + (if quad.graph == name then {FactOf(interp, quad)} else {})
    ensures Mentioned(quads + [quad], name) ==
            Mentioned(quads, name) + (if quad.graph == name then {quad.subject, quad.value} else {})
    ensures GraphNames(quads + [quad]) == GraphNames(quads) + (if quad.graph.Some? then {quad.graph.value} else {})
  {
    assert (quads + [quad])[..|quads|] == quads;
  }

  function Select(namedGraphs: map<Handle, SerGraph>, defaultGraph: SerGraph, name: Option<Handle>): SerGraph
  {
    match name
    case None => defaultGraph
    case Some(n) => if n in namedGraphs then namedGraphs[n] else map[]
  }

  lemma UntouchedGraph(interp: Interpretation, quads: seq<Quad>, quad: Quad, name: Option<Handle>, g: SerGraph)
    requires Matches(interp, quads, name, g) && quad.graph != name
    ensures Matches(interp, quads + [quad], name, g)
  {
    FactsStep(interp, quads, quad, name);
    assert (quads + [quad])[..|quads|] == quads;
  }

  /** What the dataset holds after some quads. */
  ghost predicate HasSeen(interp: Interpretation, quads: seq<Quad>, named: map<Handle, SerGraph>, default: SerGraph,
      nil: Option<Handle>, terms: RdfTerms)
  {
    && (forall name :: Matches(interp, quads, name, Select(named, default, name)))
    && named.Keys == GraphNames(quads)
    && nil == FirstNil(interp, quads)
    && terms == LastTerms(interp, quads)
  }

  lemma SeenStep(interp: Interpretation, quads: seq<Quad>, quad: Quad, named: map<Handle, SerGraph>, default: SerGraph,
      nil: Option<Handle>,
                 terms: RdfTerms, graph: SerGraph, named': map<Handle, SerGraph>, default': SerGraph)
    requires HasSeen(interp, quads, named, default, nil, terms)
    requires Filed(interp, quad, Select(named, default, quad.graph), graph)
    requires named' == if quad.graph.Some? then named[quad.graph.value := graph] else named
    requires default' == if quad.graph.Some? then default else graph
    ensures HasSeen(interp, quads + [quad], named', default', NextNil(interp, quad, nil),
        NextTerms(interp, quad, terms))
  {
    MatchesStep(interp, quads, quad, named, default, graph, named', default');
    NilStep(interp, quads, quad);
    assert (quads + [quad])[..|quads|] == quads;
    FactsStep(interp, quads, quad, None);
  }

  method AddToDataset(interp: Interpretation, ghost quads: seq<Quad>, named: map<Handle, SerGraph>, default: SerGraph,
                      ghost nil: Option<Handle>, ghost terms: RdfTerms, quad: Quad)
    returns (named': map<Handle, SerGraph>, default': SerGraph)
    requires HasSeen(interp, quads, named, default, nil, terms)
    ensures HasSeen(interp, quads + [quad], named', default', NextNil(interp, quad, nil),
        NextTerms(interp, quad, terms))
  {
    var graph := AddToGraph(interp, Select(named, default, quad.graph), quad);
    if quad.graph.Some? {
      named', default' := named[quad.graph.value := graph], default;
    } else {
      named', default' := named, graph;
    }
    SeenStep(interp, quads, quad, named, default, nil, terms, graph, named', default');
  }

  /** The intermediate dataset, with the quads it has seen so far. */
  class SerDataset {
    const interp: Interpretation
    var namedGraphs: map<Handle, SerGraph>
    var defaultGraph: SerGraph
    var nil: Option<Handle>
    var terms: RdfTerms
    ghost var quads: seq<Quad>

    ghost predicate Valid()
      reads this
    {
      HasSeen(interp, quads, namedGraphs, defaultGraph, nil, terms)
    }

    constructor (interp: Interpretation)
      ensures Valid() && quads == [] && this.interp == interp
    {
      this.interp := interp;
      namedGraphs, defaultGraph, nil, quads := map[], map[], None, [];
      terms := RdfTerms(None, None, None);
    }

    method AddQuad(quad: Quad)
      requires Valid()
      modifies this
      ensures Valid() && quads == old(quads) + [quad]
      ensures nil == NextNil(interp, quad, old(nil)) && terms == NextTerms(interp, quad, old(terms))
    {
      namedGraphs, defaultGraph := AddToDataset(interp, quads, namedGraphs, defaultGraph, nil, terms, quad);
      nil, terms, quads := NextNil(interp, quad, nil), NextTerms(interp, quad, terms), quads + [quad];
    }

    /** Hangs every named graph off the resource that names it. */
    method FoldIntoDefaultGraph() returns (graph: SerGraph)
      requires Valid()
      ensures Folded(interp, quads, graph) && NoValues(graph)
    {
      assert Matches(interp, quads, None, Select(namedGraphs, defaultGraph, None));
      graph := defaultGraph;
      var todo := namedGraphs.Keys;
      while todo != {}
        invariant Hanging(namedGraphs, defaultGraph, graph, todo)
        decreases todo
      {
        var id :| id in todo;
        HangingStep(namedGraphs, defaultGraph, graph, todo, id);
        graph := Touch(graph, id);
        graph := graph[id := graph[id].(graph := Some(namedGraphs[id]))];
        todo := todo - {id};
      }
      FoldedFromParts(interp, quads, namedGraphs, defaultGraph, graph);
    }
  }

  /** All named graphs but those in `todo` have been hung. */
  ghost predicate Hanging(named: map<Handle, SerGraph>, default: SerGraph, graph: SerGraph, todo: set<Handle>)
  {
    && todo <= named.Keys
    && graph.Keys == default.Keys + (named.Keys - todo)
    && forall x :: x in graph ==>
         var was := if x in default then default[x] else EMPTY_RESOURCE;
         graph[x] == was.(graph := if x in named && x !in todo then Some(named[x]) else None)
  }

  lemma HangingStep(named: map<Handle, SerGraph>, default: SerGraph, graph: SerGraph, todo: set<Handle>, id: Handle)
    requires Hanging(named, default, graph, todo) && id in todo
    ensures Hanging(named, default, Touch(graph, id)[id := Touch(graph, id)[id].(graph := Some(named[id]))],
        todo - {id})
  {
  }

  lemma {:induction false} FoldedFromParts(interp: Interpretation, quads: seq<Quad>, named: map<Handle, SerGraph>,
      default: SerGraph, graph: SerGraph)
    requires named.Keys == GraphNames(quads)
    requires forall name :: Matches(interp, quads, name, Select(named, default, name))
    requires graph.Keys == default.Keys + named.Keys
    requires forall x :: x in graph ==>
                           var was := if x in default then default[x] else EMPTY_RESOURCE;
                           graph[x] == was.(graph := if x in named then Some(named[x]) else None)
    ensures Folded(interp, quads, graph) && NoValues(graph)
  {
    assert Matches(interp, quads, None, Select(named, default, None));
    forall n | n in named ensures Matches(interp, quads, Some(n), graph[n].graph.value) {
      assert Matches(interp, quads, Some(n), Select(named, default, Some(n)));
    }
    forall x | x in graph ensures graph[x].references == RefCount(quads, None, x) {
      if x !in default { Unmentioned(quads, None, x); }
    }
    forall f
      ensures Holds(graph, f) <==>
              f in QuadFacts(interp, quads, None) || (f.GraphFact? && f.subject in GraphNames(quads))
    {
      assert Holds(default, f) <==> f in QuadFacts(interp, quads, None);
      if f.GraphFact? { assert f !in QuadFacts(interp, quads, None); }
      assert f.subject !in default ==> !Holds(default, f);
    }
  }

  lemma MatchesStep(interp: Interpretation, quads: seq<Quad>, quad: Quad, named: map<Handle, SerGraph>,
      default: SerGraph,
                    graph: SerGraph, named': map<Handle, SerGraph>, default': SerGraph)
    requires forall name :: Matches(interp, quads, name, Select(named, default, name))
    requires Filed(interp, quad, Select(named, default, quad.graph), graph)
    requires named' == if quad.graph.Some? then named[quad.graph.value := graph] else named
    requires default' == if quad.graph.Some? then default else graph
    ensures forall name :: Matches(interp, quads + [quad], name, Select(named', default', name))
  {
    forall name ensures Matches(interp, quads + [quad], name, Select(named', default', name)) {
      if name == quad.graph {
        FiledMatches(interp, quads, quad, Select(named, default, name), graph);
      } else {
        UntouchedGraph(interp, quads, quad, name, Select(named, default, name));
      }
    }
  }

  function NextNil(interp: Interpretation, quad: Quad, nil: Option<Handle>): Option<Handle>
  {
    if RdfPropertyOf(interp, quad.property).RestProperty? && nil.None? && IsNil(interp, quad.value)
        then Some(quad.value) else nil
  }

  /** The first object of an `rdf:rest` quad that is named `rdf:nil`. */
  function FirstNil(interp: Interpretation, quads: seq<Quad>): (nil: Option<Handle>)
    ensures nil.Some? ==> IsNil(interp, nil.value)
  {
    if quads == [] then None else NextNil(interp, quads[|quads| - 1], FirstNil(interp, quads[..|quads| - 1]))
  }

  lemma {:induction false} NilStep(interp: Interpretation, quads: seq<Quad>, quad: Quad)
    ensures FirstNil(interp, quads + [quad]) == NextNil(interp, quad, FirstNil(interp, quads))
  {
    assert (quads + [quad])[..|quads|] == quads;
  }

  /** The vocabulary term `f` is written with, if it takes one, has been recorded. */
  predicate TermFor(terms: RdfTerms, f: Fact)
  {
    && (f.TypeFact? && f.ty.ListType? ==> terms.list.Some?)
    && (f.FirstFact? ==> terms.first.Some?)
    && (f.RestFact? ==> terms.rest.Some?)
  }

  /** Every vocabulary term a graph needs to write its facts back has been recorded, and is that term. */
  ghost predicate TermsCover(interp: Interpretation, quads: seq<Quad>, terms: RdfTerms)
  {
    && (terms.list.Some? ==> RDF_LIST in interp.iris(terms.list.value))
    && (terms.first.Some? ==> RdfPropertyOf(interp, terms.first.value).FirstProperty?)
    && (terms.rest.Some? ==> RdfPropertyOf(interp, terms.rest.value).RestProperty?)
    && forall name, f :: f in QuadFacts(interp, quads, name) ==> TermFor(terms, f)
  }

  function NextTerms(interp: Interpretation, quad: Quad, terms: RdfTerms): RdfTerms
  {
    match RdfPropertyOf(interp, quad.property)
    case TypeProperty => if RdfTypeOf(interp, quad.value).ListType? then terms.(list := Some(quad.value)) else terms
    case FirstProperty => terms.(first := Some(quad.property))
    case RestProperty => terms.(rest := Some(quad.property))
    case OtherProperty => terms
  }

  /** The terms the pass is left with: of each kind, the last one met. */
  function LastTerms(interp: Interpretation, quads: seq<Quad>): RdfTerms
  {
    if quads == [] then RdfTerms(None, None, None)
    else NextTerms(interp, quads[|quads| - 1], LastTerms(interp, quads[..|quads| - 1]))
  }

  /** They are enough to write every fact of every graph. */
  lemma {:induction false} LastTermsCover(interp: Interpretation, quads: seq<Quad>)
    ensures TermsCover(interp, quads, LastTerms(interp, quads))
  {
    if quads != [] {
      var prefix, last := quads[..|quads| - 1], quads[|quads| - 1];
      LastTermsCover(interp, prefix);
      forall name, f | f in QuadFacts(interp, quads, name) ensures TermFor(LastTerms(interp, quads), f) {
        if f in QuadFacts(interp, prefix, name) {
          assert TermFor(LastTerms(interp, prefix), f);
        }
      }
    }
  }

  /** `g` is the default graph of `quads` with each named graph hanging off its name. */
  ghost predicate Folded(interp: Interpretation, quads: seq<Quad>, g: SerGraph)
  {
    && g.Keys == Mentioned(quads, None) + GraphNames(quads)
    && (forall f :: Holds(g, f) <==>
          f in QuadFacts(interp, quads, None) || (f.GraphFact? && f.subject in GraphNames(quads)))
    && StoresReverse(interp, quads, None, g)
    && StoresCounts(quads, None, g)
    && NoEmptyProperty(g)
    && (forall x ::
          x in g && x in GraphNames(quads)
          ==> g[x].graph.Some? && Matches(interp, quads, Some(x), g[x].graph.value))
  }
}
