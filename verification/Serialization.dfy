/**
 The serializer as a whole: what it writes is determined by the quads alone, terminates
 on every dataset, and loses exactly the facts about resources nothing leads to
 (jsonld-core/src/serialization.rs:252-379).
 */
module Serialization {
  import opened Wrappers
  import opened RdfModel
  import opened SerializationBuild
  import opened ListFolding
  import opened RenderForest
  import opened Rendering
  import opened Document
  import opened ObjectEquality
  import opened Tallies
  import opened Render

  /** `fr` is the graph the quads describe, named graphs attached and lists folded. */
  ghost predicate Describes(fr: Forest, quads: seq<Quad>)
  {
    && Valid(fr)
    && Folded(fr.interp, quads, fr.g)
    && fr.nil == FirstNil(fr.interp, quads)
    && fr.terms == LastTerms(fr.interp, quads)
  }

  ghost predicate IsGraphOf(interp: Interpretation, quads: seq<Quad>, g: SerGraph)
  {
    exists fr: Forest :: fr.interp == interp && fr.g == g && Describes(fr, quads)
  }

  lemma FoldingKeepsLayout(interp: Interpretation, g: SerGraph, h: SerGraph, nil: Option<Handle>,
      lists: map<Handle, seq<Handle>>)
    requires g.Keys == h.Keys && forall x :: x in g ==> h[x] == g[x].(values := h[x].values)
    requires Coherent(g) && IsFolding(interp, g, nil, lists)
    ensures Coherent(h) && IsFolding(interp, h, nil, lists)
  {
    assert forall f :: Holds(h, f) <==> Holds(g, f);
    assert forall f :: SoleTarget(h, f) <==> SoleTarget(g, f);
    assert forall x :: IsCell(interp, h, x) <==> IsCell(interp, g, x);
    forall l | l in lists ensures IsMaximalChain(interp, h, nil.value, l, lists[l]) {
      var cells := lists[l];
      assert IsMaximalChain(interp, g, nil.value, l, cells);
      forall k | 0 <= k < |cells| ensures LinkAt(interp, h, nil.value, cells, k) {
        assert LinkAt(interp, g, nil.value, cells, k);
      }
    }
  }

  lemma FoldingKeepsFolded(interp: Interpretation, quads: seq<Quad>, g: SerGraph, h: SerGraph)
    requires g.Keys == h.Keys && forall x :: x in g ==> h[x] == g[x].(values := h[x].values)
    requires Folded(interp, quads, g)
    ensures Folded(interp, quads, h)
  {
    assert forall f :: Holds(h, f) <==> Holds(g, f);
    forall s, o ensures o in h && s in h[o].reverseRest <==> RestFact(s, o) in QuadFacts(interp, quads, None) {
      assert o in g && s in g[o].reverseRest <==> RestFact(s, o) in QuadFacts(interp, quads, None);
    }
  }

  lemma {:induction false} TermsReadyFor(fr: Forest, quads: seq<Quad>, name: Option<Handle>)
    requires TermsCover(fr.interp, quads, fr.terms)
    requires forall f :: Holds(fr.g, f) && !f.GraphFact? <==> f in QuadFacts(fr.interp, quads, name)
    ensures TermsReady(fr)
  {
    forall x | x in fr.g
      ensures ListType in fr.g[x].types ==> TypeName(fr, ListType).Some?
      ensures fr.g[x].first != {} ==> KeyName(fr, FirstKey).Some?
      ensures fr.g[x].rest != {} ==> KeyName(fr, RestKey).Some?
    {
      if ListType in fr.g[x].types { TermRecorded(fr, quads, name, TypeFact(x, ListType)); }
      if v :| v in fr.g[x].first { TermRecorded(fr, quads, name, FirstFact(x, v)); }
      if v :| v in fr.g[x].rest { TermRecorded(fr, quads, name, RestFact(x, v)); }
    }
  }

  lemma {:induction false} TermRecorded(fr: Forest, quads: seq<Quad>, name: Option<Handle>, f: Fact)
    requires TermsCover(fr.interp, quads, fr.terms) && f in QuadFacts(fr.interp, quads, name)
    ensures f.TypeFact? && f.ty.ListType? ==> TypeName(fr, ListType).Some?
    ensures f.FirstFact? ==> KeyName(fr, FirstKey).Some?
    ensures f.RestFact? ==> KeyName(fr, RestKey).Some?
  {
    assert TermFor(fr.terms, f);
  }

  lemma {:induction false} ReadyToRender(fr: Forest, quads: seq<Quad>)
    requires Describes(fr, quads)
    ensures Ready(fr, 1)
  {
    LastTermsCover(fr.interp, quads);
    FoldedIsCoherent(fr.interp, quads, fr.g);
    forall f: Fact ensures f.GraphFact? ==> f !in QuadFacts(fr.interp, quads, None) {
      NoGraphFacts(fr.interp, quads, None, f);
    }
    TermsReadyFor(fr, quads, None);
    forall x | x in fr.g && fr.g[x].graph.Some? ensures Ready(Inner(fr, x), 0) {
      InnerIsReady(fr, quads, x);
    }
  }

  lemma InnerIsReady(fr: Forest, quads: seq<Quad>, x: Handle)
    requires Describes(fr, quads) && TermsCover(fr.interp, quads, fr.terms) && x in fr.g && fr.g[x].graph.Some?
    ensures Ready(Inner(fr, x), 0)
  {
    FoldedIsCoherent(fr.interp, quads, fr.g);
    assert Matches(fr.interp, quads, Some(x), fr.g[x].graph.value);
    forall f: Fact ensures f.GraphFact? ==> f !in QuadFacts(fr.interp, quads, Some(x)) {
      NoGraphFacts(fr.interp, quads, Some(x), f);
    }
    TermsReadyFor(Inner(fr, x), quads, Some(x));
  }

  // ----- the top level of a document

  /** `a` is the same as what `x` is rendered as. */
  ghost predicate StandsFor(fr: Forest, a: Object, x: Handle)
  {
    exists o: Object :: o.origin == x && Renders(fr, o) && Same(a, o)
  }

  ghost predicate Represented(fr: Forest, doc: seq<Object>, x: Handle)
  {
    exists i :: 0 <= i < |doc| && StandsFor(fr, doc[i], x)
  }

  ghost predicate AllRendered(fr: Forest, doc: seq<Object>, roots: set<Handle>)
  {
    forall i :: 0 <= i < |doc| ==> doc[i].origin in roots && Renders(fr, doc[i])
  }

  predicate NoneSame(doc: seq<Object>)
  {
    forall i, j :: 0 <= i < j < |doc| ==> !Same(doc[i], doc[j])
  }

  /** `doc` holds the roots in `roots`, rendered, and one object for those rendered the same. */
  ghost predicate Documents(fr: Forest, doc: seq<Object>, roots: set<Handle>)
  {
    AllRendered(fr, doc, roots) && NoneSame(doc) && forall r :: r in roots ==> Represented(fr, doc, r)
  }

  lemma StillNoneSame(doc: seq<Object>, o: Object)
    requires NoneSame(doc)
    ensures NoneSame(Insert(doc, o))
  {
  }

  lemma {:induction false} StillRendered(fr: Forest, doc: seq<Object>, roots: set<Handle>, o: Object)
    requires AllRendered(fr, doc, roots) && Renders(fr, o)
    ensures AllRendered(fr, Insert(doc, o), roots + {o.origin})
  {
  }

  lemma StillRepresented(fr: Forest, doc: seq<Object>, o: Object, x: Handle)
    requires Represented(fr, doc, x)
    ensures Represented(fr, Insert(doc, o), x)
  {
    var i :| 0 <= i < |doc| && StandsFor(fr, doc[i], x);
    assert Insert(doc, o)[i] == doc[i];
  }

  lemma {:induction false} NowRepresented(fr: Forest, doc: seq<Object>, o: Object)
    requires Renders(fr, o)
    ensures Represented(fr, Insert(doc, o), o.origin)
  {
    var doc' := Insert(doc, o);
    if i :| 0 <= i < |doc| && Same(doc[i], o) {
      assert StandsFor(fr, doc'[i], o.origin);
    } else {
      assert doc'[|doc|] == o && Same(o, o);
      assert StandsFor(fr, doc'[|doc|], o.origin);
    }
  }

  lemma {:induction false} DocumentsStep(fr: Forest, doc: seq<Object>, roots: set<Handle>, o: Object)
    requires Documents(fr, doc, roots) && Renders(fr, o)
    ensures Documents(fr, Insert(doc, o), roots + {o.origin})
  {
    forall r | r in roots ensures Represented(fr, Insert(doc, o), r) { StillRepresented(fr, doc, o, r); }
    NowRepresented(fr, doc, o);
    StillNoneSame(doc, o);
    StillRendered(fr, doc, roots, o);
  }

  /** The roots that have an object of their own. */
  ghost function Kept(doc: seq<Object>): set<Handle>
  {
    set i | 0 <= i < |doc| :: doc[i].origin
  }

  /** The object that stands for a root, and one rendered for it. */
  lemma Representative(fr: Forest, doc: seq<Object>, r: Handle) returns (i: nat, o: Object)
    requires Documents(fr, doc, Roots(fr.g)) && IsRoot(fr.g, r)
    ensures i < |doc| && doc[i].origin in Kept(doc) && IsRoot(fr.g, doc[i].origin) && Renders(fr, doc[i])
    ensures o.origin == r && Renders(fr, o) && Same(doc[i], o)
  {
    assert r in Roots(fr.g);
    var k :| 0 <= k < |doc| && StandsFor(fr, doc[k], r);
    i := k;
    o :| o.origin == r && Renders(fr, o) && Same(doc[i], o);
    assert doc[i].origin in Roots(fr.g);
  }

  lemma KeptListed(fr: Forest, doc: seq<Object>, roots: set<Handle>)
    requires AllRendered(fr, doc, roots) && NoneSame(doc)
    ensures Enumerates(OriginsOf(doc), Kept(doc))
  {
    var origins := OriginsOf(doc);
    forall i, j | 0 <= i < j < |doc| ensures origins[i] != origins[j] {
      if origins[i] == origins[j] { RenderingUnique(fr, doc[i], doc[j]); }
    }
    forall r | r in Kept(doc) ensures r in origins {
      var i :| 0 <= i < |doc| && doc[i].origin == r;
      assert origins[i] == r;
    }
  }

  /** A document states everything under the roots it keeps, each fact once. */
  lemma {:induction false} KeptStated(fr: Forest, doc: seq<Object>)
    requires Ready(fr, 1) && Documents(fr, doc, Roots(fr.g))
    ensures DocumentFacts(fr, doc) == multiset(FactsUnder(fr, Kept(doc)))
    ensures DocumentStatements(doc) == Image(Speller(fr, 1), DocumentFacts(fr, doc))
  {
    KeptListed(fr, doc, Roots(fr.g));
    forall i | 0 <= i < |doc| ensures IsRoot(fr.g, doc[i].origin) && Renders(fr, doc[i]) { RenderedRoot(fr, doc, i); }
    Rendering.DocumentStates(fr, doc, Kept(doc));
    DocumentSays(fr, 1, doc);
  }

  lemma {:induction false} RenderedRoot(fr: Forest, doc: seq<Object>, i: nat)
    requires AllRendered(fr, doc, Roots(fr.g)) && i < |doc|
    ensures IsRoot(fr.g, doc[i].origin) && Renders(fr, doc[i])
  {
    assert doc[i].origin in Roots(fr.g);
  }

  /** Two resources are rendered as the same object. */
  ghost predicate Twins(fr: Forest, r: Handle, s: Handle)
  {
    exists a: Object, b: Object :: a.origin == r && b.origin == s && Renders(fr, a) && Renders(fr, b) && Same(a, b)
  }

  /** No root about which something is written is rendered the same as another. */
  ghost predicate NoTwins(fr: Forest)
  {
    forall r, s :: IsRoot(fr.g, r) && IsRoot(fr.g, s) && r != s && Twins(fr, r, s) ==> BelowFacts(fr, r) == {}
  }

  /** Twins say the same number of things. */
  lemma {:induction false} TwinsSayAsMuch(fr: Forest, r: Handle, s: Handle)
    requires Ready(fr, 1) && IsRoot(fr.g, r) && IsRoot(fr.g, s) && Twins(fr, r, s)
    ensures |multiset(BelowFacts(fr, r))| == |multiset(BelowFacts(fr, s))|
  {
    var a: Object, b: Object :| a.origin == r && b.origin == s && Renders(fr, a) && Renders(fr, b) && Same(a, b);
    SameSays(a, b);
    RootSaysAsMuch(fr, a);
    RootSaysAsMuch(fr, b);
  }

  lemma {:induction false} RootSaysAsMuch(fr: Forest, o: Object)
    requires Ready(fr, 1) && IsRoot(fr.g, o.origin) && Renders(fr, o)
    ensures |Statements(o)| == |multiset(BelowFacts(fr, o.origin))|
  {
    RootStates(fr, o);
    RootPath(fr, o.origin);
    SaysItsFacts(fr, 1, [o.origin], o);
    ImageSize(Speller(fr, 1), Facts(fr, o));
  }

  /** A document keeps at most one of two twins. */
  lemma OneTwinKept(fr: Forest, doc: seq<Object>, r: Handle, s: Handle)
    requires Documents(fr, doc, Roots(fr.g)) && Twins(fr, r, s) && r != s
    ensures r !in Kept(doc) || s !in Kept(doc)
  {
    if r in Kept(doc) && s in Kept(doc) {
      var i :| 0 <= i < |doc| && doc[i].origin == r;
      var j :| 0 <= j < |doc| && doc[j].origin == s;
      TwinsAreSame(fr, doc[i], doc[j]);
      assert Same(doc[j], doc[i]);
    }
  }

  lemma {:induction false} TwinsAreSame(fr: Forest, a: Object, b: Object)
    requires Renders(fr, a) && Renders(fr, b) && Twins(fr, a.origin, b.origin)
    ensures Same(a, b)
  {
    var c: Object, d: Object :| c.origin == a.origin && d.origin == b.origin && Renders(fr, c) && Renders(fr, d)
        && Same(c, d);
    RenderingUnique(fr, a, c);
    RenderingUnique(fr, b, d);
  }

  /** What is under a root that is not kept is not stated. */
  lemma {:induction false} DroppedUnstated(fr: Forest, doc: seq<Object>, r: Handle, f: Fact)
    requires Ready(fr, 1) && Documents(fr, doc, Roots(fr.g))
    requires IsRoot(fr.g, r) && r !in Kept(doc) && f in BelowFacts(fr, r)
    ensures f in WrittenFacts(fr) && f !in FactsUnder(fr, Kept(doc))
  {
    assert IsReached(fr, Owner(fr, f.subject));
    if f in FactsUnder(fr, Kept(doc)) {
      var s :| s in Kept(doc) && IsBelow(fr, s, Owner(fr, f.subject));
      assert s in Roots(fr.g);
      RootsDisjoint(fr, r, s, Owner(fr, f.subject));
    }
  }

  lemma {:induction false} TwinsLoseFacts(fr: Forest, doc: seq<Object>, r: Handle, s: Handle)
    requires Ready(fr, 1) && Documents(fr, doc, Roots(fr.g))
    requires IsRoot(fr.g, r) && IsRoot(fr.g, s) && r != s && Twins(fr, r, s) && BelowFacts(fr, r) != {}
    ensures exists f :: f in WrittenFacts(fr) && f !in FactsUnder(fr, Kept(doc))
  {
    TwinsSayAsMuch(fr, r, s);
    OneTwinKept(fr, doc, r, s);
    var x := if r in Kept(doc) then s else r;
    var f := SomeFact(fr, r, s, x);
    DroppedUnstated(fr, doc, x, f);
  }

  lemma SomeFact(fr: Forest, r: Handle, s: Handle, x: Handle) returns (f: Fact)
    requires |multiset(BelowFacts(fr, r))| == |multiset(BelowFacts(fr, s))| && BelowFacts(fr, r) != {}
    requires x == r || x == s
    ensures f in BelowFacts(fr, x)
  {
    assert |BelowFacts(fr, r)| > 0;
    f :| f in BelowFacts(fr, x);
  }

  lemma NoTwinsKeepsRoots(fr: Forest, doc: seq<Object>, r: Handle)
    requires Documents(fr, doc, Roots(fr.g)) && NoTwins(fr) && IsRoot(fr.g, r) && BelowFacts(fr, r) != {}
    ensures r in Kept(doc)
  {
    var i, o := Representative(fr, doc, r);
    if doc[i].origin != r {
      assert Twins(fr, r, doc[i].origin) by { assert Same(o, doc[i]); }
    }
  }

  lemma {:induction false} NoTwinsKeepsAll(fr: Forest, doc: seq<Object>, f: Fact)
    requires Ready(fr, 1) && Documents(fr, doc, Roots(fr.g)) && NoTwins(fr) && f in WrittenFacts(fr)
    ensures f in FactsUnder(fr, Kept(doc))
  {
    var r := RootOf(fr, f);
    NoTwinsKeepsRoots(fr, doc, r);
  }

  lemma KeptIsWritten(fr: Forest, doc: seq<Object>)
    requires Documents(fr, doc, Roots(fr.g))
    ensures FactsUnder(fr, Kept(doc)) <= WrittenFacts(fr)
  {
    forall f | f in FactsUnder(fr, Kept(doc)) ensures f in WrittenFacts(fr) {
      var r :| r in Kept(doc) && IsBelow(fr, r, Owner(fr, f.subject));
      assert r in Roots(fr.g);
    }
  }

  lemma SubsetCounts<T>(a: set<T>, b: set<T>)
    requires a <= b
    ensures multiset(a) <= multiset(b)
    ensures multiset(a) == multiset(b) <==> a == b
  {
    if x :| x in b && x !in a { assert multiset(b)[x] == 1 && multiset(a)[x] == 0; }
  }

  /** A document states everything that is written exactly when no root with something to say has a twin. */
  lemma {:induction false} StatedExactlyWhen(fr: Forest, doc: seq<Object>)
    requires Ready(fr, 1) && Documents(fr, doc, Roots(fr.g))
    ensures DocumentFacts(fr, doc) <= multiset(WrittenFacts(fr))
    ensures DocumentFacts(fr, doc) == multiset(WrittenFacts(fr)) <==> NoTwins(fr)
  {
    KeptStated(fr, doc);
    KeptIsWritten(fr, doc);
    SubsetCounts(FactsUnder(fr, Kept(doc)), WrittenFacts(fr));
    if NoTwins(fr) {
      forall f | f in WrittenFacts(fr) ensures f in FactsUnder(fr, Kept(doc)) { NoTwinsKeepsAll(fr, doc, f); }
    } else {
      var r, s :| IsRoot(fr.g, r) && IsRoot(fr.g, s) && r != s && Twins(fr, r, s) && BelowFacts(fr, r) != {};
      TwinsLoseFacts(fr, doc, r, s);
    }
  }

  /** Rendering fails only when writing some fact does. */
  ghost predicate SomeFactFails(fr: Forest, e: SerializationError)
  {
    exists f :: f in WrittenFacts(fr) && Fails(fr, f, e)
  }

  lemma {:induction false} DocumentNeverFails(fr: Forest, doc: seq<Object>, e: SerializationError)
    requires Ready(fr, 1) && Documents(fr, doc, Roots(fr.g))
    ensures !SomeFactFails(fr, e)
  {
    if f :| f in WrittenFacts(fr) && Fails(fr, f, e) {
      var r := RootOf(fr, f);
      RootNeverFails(fr, doc, r, f, e);
    }
  }

  lemma {:induction false} RootNeverFails(fr: Forest, doc: seq<Object>, r: Handle, f: Fact, e: SerializationError)
    requires Ready(fr, 1) && Documents(fr, doc, Roots(fr.g)) && IsRoot(fr.g, r) && f in BelowFacts(fr, r)
    ensures !Fails(fr, f, e)
  {
    var i, o := Representative(fr, doc, r);
    RootPath(fr, r);
    RenderedNeverFails(fr, 1, [r], o, f, e);
  }

  method FromInterpretedQuads(interp: Interpretation, quads: seq<Quad>)
    returns (r: Result<seq<Object>, SerializationError>, ghost fr: Forest)
    ensures fr.interp == interp && Describes(fr, quads) && TermsCover(interp, quads, fr.terms)
    ensures r.Ok? ==> Documents(fr, r.value, Roots(fr.g))
    ensures r.Ok? ==> DocumentStatements(r.value) == Image(Speller(fr, 1), DocumentFacts(fr, r.value))
    ensures r.Ok? ==> DocumentFacts(fr, r.value) <= multiset(WrittenFacts(fr))
    ensures r.Ok? ==> (DocumentFacts(fr, r.value) == multiset(WrittenFacts(fr)) <==> NoTwins(fr))
    ensures r.Err? ==> SomeFactFails(fr, r.error)
    ensures r.Ok? <==> forall e :: !SomeFactFails(fr, e)
  {
    var dataset := new SerDataset(interp);
    for i := 0 to |quads|
      invariant dataset.Valid() && dataset.quads == quads[..i] && dataset.interp == interp
      invariant fresh(dataset)
    {
      dataset.AddQuad(quads[i]);
      assert quads[..i] + [quads[i]] == quads[..i + 1];
    }
    assert quads[..|quads|] == quads;
    var graph := dataset.FoldIntoDefaultGraph();
    var terms := dataset.terms;
    graph, fr := FoldLists(interp, quads, graph, dataset.nil, terms);
    ReadyToRender(fr, quads);
    LastTermsCover(interp, quads);
    r := RenderDocument(interp, terms, graph, fr);
    if r.Ok? {
      KeptStated(fr, r.value);
      StatedExactlyWhen(fr, r.value);
      forall e ensures !SomeFactFails(fr, e) { DocumentNeverFails(fr, r.value, e); }
    }
  }

  method FoldLists(interp: Interpretation, ghost quads: seq<Quad>, g: SerGraph, nil: Option<Handle>,
      ghost terms: RdfTerms)
    returns (folded: SerGraph, ghost fr: Forest)
    requires Folded(interp, quads, g) && NoValues(g) && nil == FirstNil(interp, quads)
        && terms == LastTerms(interp, quads)
    ensures fr.interp == interp && fr.g == folded && Describes(fr, quads)
    ensures IsGraphOf(interp, quads, folded)
  {
    FoldedIsCoherent(interp, quads, g);
    var found; ghost var lists;
    found, lists := CollectLists(interp, g, nil);
    TableIsConsistent(interp, g, nil, lists, found);
    folded := StoreLists(g, found);
    fr := Forest(interp, folded, nil, terms, lists);
    FoldedDescribes(fr, quads, g, found);
  }

  /** `h` is `g` with the lists in `found` recorded on their heads. */
  ghost predicate Recorded(g: SerGraph, h: SerGraph, found: seq<(Handle, seq<Handle>)>)
  {
    && g.Keys == h.Keys && (forall x :: x in g ==> h[x] == g[x].(values := h[x].values))
    && (forall i :: 0 <= i < |found| ==> found[i].0 in g && h[found[i].0].values == Some(found[i].1))
    && (forall x :: x in g && h[x].values.Some? ==> exists i :: 0 <= i < |found| && found[i].0 == x)
  }

  lemma RecordedHead(fr: Forest, g: SerGraph, found: seq<(Handle, seq<Handle>)>, h: Handle)
    requires Recorded(g, fr.g, found) && IsTable(g, fr.lists, found) && h in fr.lists
    ensures h in fr.g && fr.g[h].values.Some? && ValuesOf(fr.g, fr.lists[h], fr.g[h].values.value)
  {
    var i :| 0 <= i < |found| && found[i].0 == h;
    assert ValuesOf(g, fr.lists[h], found[i].1);
  }

  lemma RecordedIsHead(fr: Forest, g: SerGraph, found: seq<(Handle, seq<Handle>)>, x: Handle)
    requires Recorded(g, fr.g, found) && IsTable(g, fr.lists, found) && x in fr.g && fr.g[x].values.Some?
    ensures x in fr.lists
  {
    var i :| 0 <= i < |found| && found[i].0 == x;
  }

  lemma RecordedValid(fr: Forest, g: SerGraph, found: seq<(Handle, seq<Handle>)>)
    requires Coherent(fr.g) && IsFolding(fr.interp, fr.g, fr.nil, fr.lists)
        && (fr.nil.Some? ==> IsNil(fr.interp, fr.nil.value))
    requires Recorded(g, fr.g, found) && IsTable(g, fr.lists, found)
    ensures Valid(fr)
  {
    forall h | h in fr.lists ensures h in fr.g && fr.g[h].values.Some?
        && ValuesOf(fr.g, fr.lists[h], fr.g[h].values.value) {
      RecordedHead(fr, g, found, h);
    }
    forall x | x in fr.g && fr.g[x].values.Some? ensures x in fr.lists { RecordedIsHead(fr, g, found, x); }
  }

  lemma {:induction false} FoldedDescribes(fr: Forest, quads: seq<Quad>, g: SerGraph, found: seq<(Handle, seq<Handle>)>)
    requires Folded(fr.interp, quads, g) && Coherent(g)
    requires fr.nil == FirstNil(fr.interp, quads) && fr.terms == LastTerms(fr.interp, quads)
    requires IsFolding(fr.interp, g, fr.nil, fr.lists) && IsTable(g, fr.lists, found) && Recorded(g, fr.g, found)
    ensures Describes(fr, quads)
  {
    FoldingKeepsLayout(fr.interp, g, fr.g, fr.nil, fr.lists);
    FoldingKeepsFolded(fr.interp, quads, g, fr.g);
    RecordedValid(fr, g, found);
  }

  lemma TableIsConsistent(interp: Interpretation, g: SerGraph, nil: Option<Handle>, lists: map<Handle, seq<Handle>>,
      found: seq<(Handle, seq<Handle>)>)
    requires Coherent(g) && IsFolding(interp, g, nil, lists) && IsTable(g, lists, found)
    ensures forall i :: 0 <= i < |found| ==> found[i].0 in g
    ensures forall i, j :: 0 <= i < |found| && 0 <= j < |found| && found[i].0 == found[j].0 ==> found[i].1 == found[j].1
  {
    forall i | 0 <= i < |found| ensures found[i].0 in g {
      assert found[i].0 in lists;
      assert IsMaximalChain(interp, g, nil.value, found[i].0, lists[found[i].0]);
    }
    forall i, j | 0 <= i < |found| && 0 <= j < |found| && found[i].0 == found[j].0 ensures found[i].1 == found[j].1 {
      SameValues(g, lists[found[i].0], found[i].1, found[j].1);
    }
  }

  lemma SameValues(g: SerGraph, cells: seq<Handle>, v: seq<Handle>, w: seq<Handle>)
    requires ValuesOf(g, cells, v) && ValuesOf(g, cells, w)
    ensures v == w
  {
    forall k | 0 <= k < |v| ensures v[k] == w[k] {
      assert v[k] in g[cells[k]].first && g[cells[k]].first == {w[k]};
    }
  }

  method RenderDocument(interp: Interpretation, terms: RdfTerms, g: SerGraph, ghost fr: Forest)
    returns (r: Result<seq<Object>, SerializationError>)
    requires (fr.interp, fr.terms, fr.g) == (interp, terms, g) && Ready(fr, 1)
    ensures r.Ok? ==> Documents(fr, r.value, Roots(g))
    ensures r.Err? ==> SomeFactFails(fr, r.error)
  {
    var doc := [];
    var todo := Roots(g);
    while todo != {}
      invariant todo <= Roots(g) && Documents(fr, doc, Roots(g) - todo)
      decreases todo
    {
      var id :| id in todo;
      var o := RenderRoot(interp, terms, g, id, fr, 1);
      if o.Err? { return Err(o.error); }
      OneLess(Roots(g), todo, id);
      DocumentsStep(fr, doc, Roots(g) - todo, o.value);
      todo := todo - {id};
      doc := InsertObject(doc, o.value);
    }
    assert Roots(g) - todo == Roots(g);
    r := Ok(doc);
  }
}
