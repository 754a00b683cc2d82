/**
 Lists from end to end (jsonld-core/src/serialization.rs:163-183, 265-369, 402-464): which quads encode a list, said
 by their positions and the IRIs of their resources alone, and that exactly these come out as lists.
 */
module ListLaw {
  import opened Wrappers
  import opened RdfModel
  import opened SerializationBuild
  import opened ListFolding
  import opened RenderForest
  import opened Rendering
  import opened Document
  import opened Serialization
  import opened Conservation
  import opened Contents

  // ----- what a predicate is read as

  /** `term` is the first of the three vocabulary terms that `id` is called. */
  ghost predicate ReadsAs(interp: Interpretation, id: Handle, term: Iri) {
    FirstOf(interp.iris(id), term)
  }

  ghost predicate FirstOf(iris: seq<Iri>, term: Iri) {
    exists i :: 0 <= i < |iris| && iris[i] == term && NoneBefore(iris, i)
  }

  ghost predicate NoneBefore(iris: seq<Iri>, i: nat)
    requires i <= |iris|
  {
    forall j :: 0 <= j < i ==> iris[j] != RDF_TYPE && iris[j] != RDF_FIRST && iris[j] != RDF_REST
  }

  lemma {:induction false} IrisClassify(iris: seq<Iri>)
    ensures RdfPropertyOfIris(iris).TypeProperty? <==> FirstOf(iris, RDF_TYPE)
    ensures RdfPropertyOfIris(iris).FirstProperty? <==> FirstOf(iris, RDF_FIRST)
    ensures RdfPropertyOfIris(iris).RestProperty? <==> FirstOf(iris, RDF_REST)
    ensures RdfPropertyOfIris(iris).OtherProperty? <==> NoneBefore(iris, |iris|)
  {
    TermsDiffer();
    if iris != [] {
      IrisClassify(iris[1..]);
      FirstOfRest(iris, RDF_TYPE);
      FirstOfRest(iris, RDF_FIRST);
      FirstOfRest(iris, RDF_REST);
      assert NoneBefore(iris, |iris|) <==> NoneBefore(iris, 1) && NoneBefore(iris[1..], |iris[1..]|);
    }
  }

  lemma TermsDiffer()
    ensures RDF_TYPE != RDF_FIRST && RDF_TYPE != RDF_REST && RDF_FIRST != RDF_REST
  {
    var n := |"http://www.w3.org/1999/02/22-rdf-syntax-ns#"|;
    assert RDF_TYPE[n] == 't' && RDF_FIRST[n] == 'f' && RDF_REST[n] == 'r';
  }

  lemma FirstOfRest(iris: seq<Iri>, term: Iri)
    requires iris != [] && (term == RDF_TYPE || term == RDF_FIRST || term == RDF_REST)
    ensures FirstOf(iris, term) <==> iris[0] == term || (NoneBefore(iris, 1) && FirstOf(iris[1..], term))
  {
    if iris[0] == term { assert NoneBefore(iris, 0); }
    if i :| 0 <= i < |iris| && iris[i] == term && NoneBefore(iris, i) {
      if i > 0 { assert iris[1..][i - 1] == term && NoneBefore(iris[1..], i - 1); }
    }
    if i :| NoneBefore(iris, 1) && 0 <= i < |iris[1..]| && iris[1..][i] == term && NoneBefore(iris[1..], i) {
      assert iris[i + 1] == term && NoneBefore(iris, i + 1);
    }
  }

  /** A predicate is read by the IRIs it has: as the first of the three terms among them, or as itself. */
  lemma {:induction false} PredicateReadsAs(interp: Interpretation, id: Handle)
    ensures RdfPropertyOf(interp, id).TypeProperty? <==> ReadsAs(interp, id, RDF_TYPE)
    ensures RdfPropertyOf(interp, id).FirstProperty? <==> ReadsAs(interp, id, RDF_FIRST)
    ensures RdfPropertyOf(interp, id).RestProperty? <==> ReadsAs(interp, id, RDF_REST)
    ensures RdfPropertyOf(interp, id).OtherProperty? <==>
            forall iri :: iri in interp.iris(id) ==> iri != RDF_TYPE && iri != RDF_FIRST && iri != RDF_REST
  {
    var iris := interp.iris(id);
    IrisClassify(iris);
    if NoneBefore(iris, |iris|) {
      forall iri | iri in iris ensures iri != RDF_TYPE && iri != RDF_FIRST && iri != RDF_REST {
        var i :| 0 <= i < |iris| && iris[i] == iri;
      }
    } else {
      var i :| 0 <= i < |iris| && (iris[i] == RDF_TYPE || iris[i] == RDF_FIRST || iris[i] == RDF_REST);
      assert iris[i] in iris;
    }
  }

  /** What a quad says, by the IRIs of its predicate and its object. */
  lemma {:induction false} QuadReadsAs(interp: Interpretation, quad: Quad)
    ensures var s, p, o := quad.subject, quad.property, quad.value;
            && (ReadsAs(interp, p, RDF_TYPE) ==>
                  FactOf(interp, quad) == TypeFact(s, if RDF_LIST in interp.iris(o) then ListType else OtherType(o)))
            && (ReadsAs(interp, p, RDF_FIRST) ==> FactOf(interp, quad) == FirstFact(s, o))
            && (ReadsAs(interp, p, RDF_REST) ==> FactOf(interp, quad) == RestFact(s, o))
            && ((forall iri :: iri in interp.iris(p) ==> iri != RDF_TYPE && iri != RDF_FIRST && iri != RDF_REST) ==>
                  FactOf(interp, quad) == PropertyFact(s, p, o))
  {
    PredicateReadsAs(interp, quad.property);
  }

  // ----- which quads encode a list

  /** `i` is the position of a quad of the default graph about `x`. */
  ghost predicate IsAbout(quads: seq<Quad>, x: Handle, i: int) {
    0 <= i < |quads| && quads[i].graph.None? && quads[i].subject == x
  }

  ghost predicate States(interp: Interpretation, quads: seq<Quad>, x: Handle, term: Iri, v: Handle) {
    exists i :: IsAbout(quads, x, i) && ReadsAs(interp, quads[i].property, term) && quads[i].value == v
  }

  /** What may be said about a cell with this value and this next cell. */
  ghost predicate IsCellQuad(interp: Interpretation, quad: Quad, value: Handle, next: Handle) {
    || (ReadsAs(interp, quad.property, RDF_FIRST) && quad.value == value)
    || (ReadsAs(interp, quad.property, RDF_REST) && quad.value == next)
    || (ReadsAs(interp, quad.property, RDF_TYPE) && RDF_LIST in interp.iris(quad.value))
  }

  /** One quad points at `x`, and not through `x` itself. */
  ghost predicate IsReferredToOnce(quads: seq<Quad>, x: Handle) {
    exists i :: PointsAt(quads, None, x, i) && quads[i].property != x
                && forall j :: PointsAt(quads, None, x, j) ==> j == i
  }

  ghost predicate NamesNoGraph(quads: seq<Quad>, x: Handle) {
    forall i :: 0 <= i < |quads| ==> quads[i].graph != Some(x)
  }

  /** A resource without IRI or literal, referred to once, about which its value and its next cell are said alone. */
  ghost predicate IsListCell(interp: Interpretation, quads: seq<Quad>, x: Handle, value: Handle, next: Handle) {
    && interp.iris(x) == [] && interp.literals(x) == []
    && IsReferredToOnce(quads, x) && NamesNoGraph(quads, x)
    && States(interp, quads, x, RDF_FIRST, value) && States(interp, quads, x, RDF_REST, next)
    && forall i :: IsAbout(quads, x, i) ==> IsCellQuad(interp, quads[i], value, next)
  }

  ghost predicate IsNilAt(interp: Interpretation, quads: seq<Quad>, i: int) {
    0 <= i < |quads| && ReadsAs(interp, quads[i].property, RDF_REST) && RDF_NIL in interp.iris(quads[i].value)
  }

  /** `nil` is the first resource called `rdf:nil` that some `rdf:rest` leads to, in whatever graph. */
  ghost predicate IsFirstNil(interp: Interpretation, quads: seq<Quad>, nil: Handle) {
    exists i :: IsNilAt(interp, quads, i) && quads[i].value == nil
                && forall j :: 0 <= j < i ==> !IsNilAt(interp, quads, j)
  }

  /** `cells` hold `values` in order, the last ends the list, and no other cell precedes the first. */
  ghost predicate EncodesList(interp: Interpretation, quads: seq<Quad>, cells: seq<Handle>, values: seq<Handle>) {
    && |cells| == |values| > 0
    && (exists nil :: IsFirstNil(interp, quads, nil) && AreLinked(interp, quads, nil, cells, values))
    && (forall p, v :: !IsListCell(interp, quads, p, v, cells[0]))
  }

  ghost predicate AreLinked(interp: Interpretation, quads: seq<Quad>, nil: Handle, cells: seq<Handle>,
      values: seq<Handle>)
  {
    |cells| == |values|
    && forall k :: 0 <= k < |cells| ==> IsListCell(interp, quads, cells[k], values[k], NextOf(cells, nil, k))
  }

  // ----- they are the folded lists

  lemma Stored(interp: Interpretation, quads: seq<Quad>, g: SerGraph, i: int)
    requires Folded(interp, quads, g) && 0 <= i < |quads| && quads[i].graph.None?
    ensures Holds(g, FactOf(interp, quads[i]))
  {
    QuadFactsAre(interp, quads, None);
    assert quads[i] in quads;
  }

  lemma Source(interp: Interpretation, quads: seq<Quad>, g: SerGraph, f: Fact) returns (i: int)
    requires Folded(interp, quads, g) && Holds(g, f) && !f.GraphFact?
    ensures IsAbout(quads, f.subject, i) && FactOf(interp, quads[i]) == f
  {
    i := FactSource(interp, quads, None, f);
  }

  lemma {:induction false} GraphNamesAre(quads: seq<Quad>, x: Handle)
    ensures x !in GraphNames(quads) <==> NamesNoGraph(quads, x)
  {
    if quads != [] {
      var n := |quads| - 1;
      GraphNamesAre(quads[..n], x);
      assert NamesNoGraph(quads, x) <==> NamesNoGraph(quads[..n], x) && quads[n].graph != Some(x);
    }
  }

  lemma GraphIsNamed(interp: Interpretation, quads: seq<Quad>, g: SerGraph, x: Handle)
    requires Folded(interp, quads, g) && x in g
    ensures g[x].graph.None? <==> NamesNoGraph(quads, x)
  {
    NoGraphFacts(interp, quads, None, GraphFact(x));
    GraphNamesAre(quads, x);
    assert Holds(g, GraphFact(x)) <==> g[x].graph.Some?;
  }

  lemma ReferredToOnce(quads: seq<Quad>, g: SerGraph, x: Handle)
    requires StoresCounts(quads, None, g) && x in g
    ensures g[x].references == 1 <==> IsReferredToOnce(quads, x)
  {
    SingleReference(quads, None, x);
  }

  /** The record of a cell. */
  ghost predicate IsCellWith(interp: Interpretation, g: SerGraph, x: Handle, value: Handle, next: Handle) {
    IsCell(interp, g, x) && g[x].first == {value} && g[x].rest == {next}
  }

  lemma RecordOfCell(interp: Interpretation, quads: seq<Quad>, g: SerGraph, x: Handle, value: Handle, next: Handle)
    requires Folded(interp, quads, g) && IsListCell(interp, quads, x, value, next)
    ensures IsCellWith(interp, g, x, value, next)
  {
    StatedFirst(interp, quads, g, x, value);
    StatedRest(interp, quads, g, x, next);
    ReferredToOnce(quads, g, x);
    GraphIsNamed(interp, quads, g, x);
    CellSaysOnly(interp, quads, g, x, value, next);
    ListNodeWith(g[x], value, next);
  }

  lemma ListNodeWith(r: SerResource, value: Handle, next: Handle)
    requires (forall t :: t in r.types ==> t.ListType?) && r.properties == map[] && r.graph.None?
    requires value in r.first && forall v :: v in r.first ==> v == value
    requires next in r.rest && forall v :: v in r.rest ==> v == next
    ensures r.IsListNode() && r.first == {value} && r.rest == {next}
  {
    assert r.first == {value} && r.rest == {next};
  }

  lemma StatedFirst(interp: Interpretation, quads: seq<Quad>, g: SerGraph, x: Handle, value: Handle)
    requires Folded(interp, quads, g)
    ensures States(interp, quads, x, RDF_FIRST, value) <==> Holds(g, FirstFact(x, value))
  {
    if States(interp, quads, x, RDF_FIRST, value) {
      var i :| IsAbout(quads, x, i) && ReadsAs(interp, quads[i].property, RDF_FIRST) && quads[i].value == value;
      PredicateReadsAs(interp, quads[i].property);
      Stored(interp, quads, g, i);
    } else if Holds(g, FirstFact(x, value)) {
      var i := Source(interp, quads, g, FirstFact(x, value));
      PredicateReadsAs(interp, quads[i].property);
    }
  }

  lemma StatedRest(interp: Interpretation, quads: seq<Quad>, g: SerGraph, x: Handle, next: Handle)
    requires Folded(interp, quads, g)
    ensures States(interp, quads, x, RDF_REST, next) <==> Holds(g, RestFact(x, next))
  {
    if States(interp, quads, x, RDF_REST, next) {
      var i :| IsAbout(quads, x, i) && ReadsAs(interp, quads[i].property, RDF_REST) && quads[i].value == next;
      PredicateReadsAs(interp, quads[i].property);
      Stored(interp, quads, g, i);
    } else if Holds(g, RestFact(x, next)) {
      var i := Source(interp, quads, g, RestFact(x, next));
      PredicateReadsAs(interp, quads[i].property);
    }
  }

  lemma CellSaysOnly(interp: Interpretation, quads: seq<Quad>, g: SerGraph, x: Handle, value: Handle, next: Handle)
    requires Folded(interp, quads, g) && IsListCell(interp, quads, x, value, next) && x in g
    ensures forall t :: t in g[x].types ==> t.ListType?
    ensures g[x].properties == map[]
    ensures forall v :: v in g[x].first ==> v == value
    ensures forall v :: v in g[x].rest ==> v == next
  {
    forall t | t in g[x].types ensures t.ListType? { CellSays(interp, quads, g, x, value, next, TypeFact(x, t)); }
    forall v | v in g[x].first ensures v == value { CellSays(interp, quads, g, x, value, next, FirstFact(x, v)); }
    forall v | v in g[x].rest ensures v == next { CellSays(interp, quads, g, x, value, next, RestFact(x, v)); }
    if p :| p in g[x].properties {
      var o :| o in g[x].properties[p];
      CellSays(interp, quads, g, x, value, next, PropertyFact(x, p, o));
    }
  }

  /** Everything stored about a cell is its value, its next cell, or that it is a list. */
  lemma CellSays(interp: Interpretation, quads: seq<Quad>, g: SerGraph, x: Handle, value: Handle, next: Handle,
      f: Fact)
    requires Folded(interp, quads, g) && IsListCell(interp, quads, x, value, next)
    requires Holds(g, f) && f.subject == x && !f.GraphFact?
    ensures f == FirstFact(x, value) || f == RestFact(x, next) || f == TypeFact(x, ListType)
  {
    var i := Source(interp, quads, g, f);
    PredicateReadsAs(interp, quads[i].property);
    assert IsCellQuad(interp, quads[i], value, next);
  }

  lemma CellByQuads(interp: Interpretation, quads: seq<Quad>, g: SerGraph, x: Handle, value: Handle, next: Handle)
    requires Folded(interp, quads, g) && IsCellWith(interp, g, x, value, next)
    ensures IsListCell(interp, quads, x, value, next)
  {
    ReferredToOnce(quads, g, x);
    GraphIsNamed(interp, quads, g, x);
    assert Holds(g, FirstFact(x, value)) && Holds(g, RestFact(x, next));
    StatedFirst(interp, quads, g, x, value);
    StatedRest(interp, quads, g, x, next);
    forall k | IsAbout(quads, x, k) ensures IsCellQuad(interp, quads[k], value, next) {
      Stored(interp, quads, g, k);
      AboutCell(interp, quads[k], g, x, value, next);
    }
  }

  lemma AboutCell(interp: Interpretation, quad: Quad, g: SerGraph, x: Handle, value: Handle, next: Handle)
    requires IsCellWith(interp, g, x, value, next) && Holds(g, FactOf(interp, quad)) && quad.subject == x
    ensures IsCellQuad(interp, quad, value, next)
  {
    CellHolds(interp, g, x, value, next, FactOf(interp, quad));
    PredicateReadsAs(interp, quad.property);
  }

  lemma CellHolds(interp: Interpretation, g: SerGraph, x: Handle, value: Handle, next: Handle, f: Fact)
    requires IsCellWith(interp, g, x, value, next) && Holds(g, f) && f.subject == x
    ensures f == FirstFact(x, value) || f == RestFact(x, next) || f == TypeFact(x, ListType)
  {
  }

  /** A resource is a cell the walk may fold exactly when the quads say so. */
  lemma CellExactlyWhen(interp: Interpretation, quads: seq<Quad>, g: SerGraph, x: Handle, value: Handle, next: Handle)
    requires Folded(interp, quads, g)
    ensures IsCellWith(interp, g, x, value, next) <==> IsListCell(interp, quads, x, value, next)
  {
    if IsCellWith(interp, g, x, value, next) {
      CellByQuads(interp, quads, g, x, value, next);
    } else if IsListCell(interp, quads, x, value, next) {
      RecordOfCell(interp, quads, g, x, value, next);
    }
  }

  lemma {:induction false} FirstNilIs(interp: Interpretation, quads: seq<Quad>, nil: Handle)
    ensures FirstNil(interp, quads) == Some(nil) <==> IsFirstNil(interp, quads, nil)
  {
    if quads != [] {
      var n := |quads| - 1;
      FirstNilIs(interp, quads[..n], nil);
      NoNilBefore(interp, quads[..n]);
      PredicateReadsAs(interp, quads[n].property);
      FirstNilStep(interp, quads, nil);
    }
  }

  lemma {:induction false} NoNilBefore(interp: Interpretation, quads: seq<Quad>)
    ensures FirstNil(interp, quads).None? <==> forall i :: !IsNilAt(interp, quads, i)
  {
    if quads != [] {
      var n := |quads| - 1;
      NoNilBefore(interp, quads[..n]);
      PredicateReadsAs(interp, quads[n].property);
      forall i | 0 <= i < n ensures IsNilAt(interp, quads, i) <==> IsNilAt(interp, quads[..n], i) {}
      if FirstNil(interp, quads).None? {
        assert forall i :: 0 <= i < n ==> !IsNilAt(interp, quads[..n], i);
      } else if FirstNil(interp, quads[..n]).None? {
        assert IsNilAt(interp, quads, n);
      } else {
        var i :| IsNilAt(interp, quads[..n], i);
        assert IsNilAt(interp, quads, i);
      }
    }
  }

  lemma FirstNilStep(interp: Interpretation, quads: seq<Quad>, nil: Handle)
    requires quads != []
    ensures var n := |quads| - 1;
            IsFirstNil(interp, quads, nil) <==>
            || IsFirstNil(interp, quads[..n], nil)
            || (IsNilAt(interp, quads, n) && quads[n].value == nil && forall i :: !IsNilAt(interp, quads[..n], i))
  {
    var n := |quads| - 1;
    forall i | 0 <= i < n ensures IsNilAt(interp, quads, i) <==> IsNilAt(interp, quads[..n], i) {}
    if IsFirstNil(interp, quads, nil) {
      var i :| IsNilAt(interp, quads, i) && quads[i].value == nil
               && forall j :: 0 <= j < i ==> !IsNilAt(interp, quads, j);
      if i < n {
        assert IsNilAt(interp, quads[..n], i);
      } else {
        assert forall j :: 0 <= j < n ==> !IsNilAt(interp, quads, j);
      }
    }
  }

  lemma LinkedExactlyWhen(interp: Interpretation, quads: seq<Quad>, g: SerGraph, nil: Handle, cells: seq<Handle>,
      values: seq<Handle>)
    requires Folded(interp, quads, g) && |cells| == |values| > 0
    ensures IsChain(interp, g, nil, cells) && ValuesOf(g, cells, values) <==>
            AreLinked(interp, quads, nil, cells, values)
  {
    forall k | 0 <= k < |cells|
      ensures IsCellWith(interp, g, cells[k], values[k], NextOf(cells, nil, k))
         <==> IsListCell(interp, quads, cells[k], values[k], NextOf(cells, nil, k))
    {
      CellExactlyWhen(interp, quads, g, cells[k], values[k], NextOf(cells, nil, k));
    }
    LinksAre(interp, g, nil, cells, values);
  }

  lemma LinksAre(interp: Interpretation, g: SerGraph, nil: Handle, cells: seq<Handle>, values: seq<Handle>)
    requires |cells| == |values| > 0
    ensures IsChain(interp, g, nil, cells) && ValuesOf(g, cells, values) <==>
            forall k :: 0 <= k < |cells| ==> IsCellWith(interp, g, cells[k], values[k], NextOf(cells, nil, k))
  {
    if IsChain(interp, g, nil, cells) && ValuesOf(g, cells, values) {
      forall k | 0 <= k < |cells| ensures IsCellWith(interp, g, cells[k], values[k], NextOf(cells, nil, k)) {
        assert LinkAt(interp, g, nil, cells, k);
      }
    }
  }

  lemma LinkedBack(interp: Interpretation, quads: seq<Quad>, g: SerGraph, p: Handle, x: Handle)
    requires Folded(interp, quads, g)
    ensures x in g && p in g[x].reverseRest <==> p in g && x in g[p].rest
  {
    assert Holds(g, RestFact(p, x)) <==> RestFact(p, x) in QuadFacts(interp, quads, None);
    assert x in g && p in g[x].reverseRest <==> RestFact(p, x) in QuadFacts(interp, quads, None);
  }

  lemma CellHasValue(interp: Interpretation, g: SerGraph, p: Handle, next: Handle) returns (value: Handle)
    requires IsCell(interp, g, p) && next in g[p].rest
    ensures IsCellWith(interp, g, p, value, next)
  {
    value :| value in g[p].first;
    SingletonIs(g[p].first, value);
    SingletonIs(g[p].rest, next);
  }

  lemma MaximalExactlyWhen(interp: Interpretation, quads: seq<Quad>, g: SerGraph, head: Handle)
    requires Folded(interp, quads, g) && head in g
    ensures IsMaximal(interp, g, head) <==> forall p, v :: !IsListCell(interp, quads, p, v, head)
  {
    if p, v :| IsListCell(interp, quads, p, v, head) {
      CellExactlyWhen(interp, quads, g, p, v, head);
      LinkedBack(interp, quads, g, p, head);
    } else if p :| p in g[head].reverseRest && IsCell(interp, g, p) {
      LinkedBack(interp, quads, g, p, head);
      var v := CellHasValue(interp, g, p, head);
      CellExactlyWhen(interp, quads, g, p, v, head);
    }
  }

  /** Every folded list is one that the quads encode. */
  lemma FoldedIsEncoded(fr: Forest, quads: seq<Quad>, h: Handle)
    requires Describes(fr, quads) && h in fr.g && fr.g[h].values.Some?
    ensures h in fr.lists && |fr.lists[h]| > 0 && fr.lists[h][0] == h
    ensures EncodesList(fr.interp, quads, fr.lists[h], fr.g[h].values.value)
  {
    ListFolded(fr, h);
    HeadOwner(fr, h);
    var cells, values, nil := fr.lists[h], fr.g[h].values.value, fr.nil.value;
    assert IsMaximalChain(fr.interp, fr.g, nil, h, cells);
    FirstNilIs(fr.interp, quads, nil);
    LinkedExactlyWhen(fr.interp, quads, fr.g, nil, cells, values);
    MaximalExactlyWhen(fr.interp, quads, fr.g, h);
  }

  lemma ChainIsFolded(fr: Forest, nil: Handle, cells: seq<Handle>)
    requires Valid(fr) && fr.nil == Some(nil) && |cells| > 0
    requires IsMaximalChain(fr.interp, fr.g, nil, cells[0], cells)
    ensures cells[0] in fr.lists && fr.lists[cells[0]] == cells
  {
    var last := cells[|cells| - 1];
    assert LinkAt(fr.interp, fr.g, nil, cells, |cells| - 1);
    assert Holds(fr.g, RestFact(last, nil));
    assert EndsSomewhere(fr.lists, last);
    var h :| h in fr.lists && |fr.lists[h]| > 0 && fr.lists[h][|fr.lists[h]| - 1] == last;
    assert IsMaximalChain(fr.interp, fr.g, nil, h, fr.lists[h]);
    ChainUnique(fr.interp, fr.g, nil, cells, fr.lists[h]);
  }

  lemma EncodedChain(interp: Interpretation, quads: seq<Quad>, g: SerGraph, cells: seq<Handle>, values: seq<Handle>)
      returns (nil: Handle)
    requires Folded(interp, quads, g) && EncodesList(interp, quads, cells, values)
    ensures FirstNil(interp, quads) == Some(nil)
    ensures IsMaximalChain(interp, g, nil, cells[0], cells) && ValuesOf(g, cells, values)
  {
    nil :| IsFirstNil(interp, quads, nil) && AreLinked(interp, quads, nil, cells, values);
    FirstNilIs(interp, quads, nil);
    LinkedExactlyWhen(interp, quads, g, nil, cells, values);
    assert LinkAt(interp, g, nil, cells, 0);
    MaximalExactlyWhen(interp, quads, g, cells[0]);
  }

  /** Every list that the quads encode is folded, onto its first cell. */
  lemma EncodedIsFolded(fr: Forest, quads: seq<Quad>, cells: seq<Handle>, values: seq<Handle>)
    requires Describes(fr, quads) && EncodesList(fr.interp, quads, cells, values)
    ensures cells[0] in fr.g && fr.g[cells[0]].values == Some(values) && fr.g[cells[0]].references == 1
    ensures cells[0] in fr.lists
  {
    var nil := EncodedChain(fr.interp, quads, fr.g, cells, values);
    ChainIsFolded(fr, nil, cells);
    assert LinkAt(fr.interp, fr.g, nil, cells, 0);
    SameValues(fr.g, cells, values, fr.g[cells[0]].values.value);
  }

  /** The folded lists are exactly those that the quads encode. */
  lemma FoldedExactlyWhen(fr: Forest, quads: seq<Quad>, h: Handle, values: seq<Handle>)
    requires Describes(fr, quads)
    ensures h in fr.g && fr.g[h].values == Some(values) <==>
            exists cells :: EncodesList(fr.interp, quads, cells, values) && cells[0] == h
  {
    if h in fr.g && fr.g[h].values == Some(values) {
      FoldedIsEncoded(fr, quads, h);
    } else if cells :| EncodesList(fr.interp, quads, cells, values) && cells[0] == h {
      EncodedIsFolded(fr, quads, cells, values);
    }
  }

  // ----- what comes out

  /** Nothing is said about `v` in the default graph, and it names no graph. */
  ghost predicate IsBare(quads: seq<Quad>, v: Handle) {
    NamesNoGraph(quads, v) && forall i :: !IsAbout(quads, v, i)
  }

  /**
   `c` is what `v` is written as: its literal or a reference when nothing is said about it, or else a node with its
   identifier, or a list that it is the first cell of.
   */
  ghost predicate Denotes(interp: Interpretation, quads: seq<Quad>, c: Content, v: Handle)
    decreases c, 0
  {
    && (IsBare(quads, v) ==> c == ReferenceContent(interp, v))
    && (c.ValueContent? ==> TermOf(interp, v) == Ok(Some(LiteralTerm(c.value))))
    && (c.NodeContent? ==> c.id == IdOf(interp, v))
    && (c.ListContent? ==> exists cells, values ::
          EncodesList(interp, quads, cells, values) && cells[0] == v && AreDenoted(interp, quads, c.items, values))
  }

  ghost predicate AreDenoted(interp: Interpretation, quads: seq<Quad>, items: seq<Content>, values: seq<Handle>)
    decreases items, 1
  {
    |items| == |values| && forall k :: 0 <= k < |items| ==> Denotes(interp, quads, items[k], values[k])
  }

  lemma NestedSaysSomething(fr: Forest, quads: seq<Quad>, x: Handle)
    requires Describes(fr, quads) && x in fr.g && !fr.g[x].IsEmpty()
    ensures !IsBare(quads, x)
  {
    var r := fr.g[x];
    if t :| t in r.types {
      var i := Source(fr.interp, quads, fr.g, TypeFact(x, t));
    } else if p :| p in r.properties {
      var o :| o in r.properties[p];
      var i := Source(fr.interp, quads, fr.g, PropertyFact(x, p, o));
    } else if o :| o in r.first {
      var i := Source(fr.interp, quads, fr.g, FirstFact(x, o));
    } else if o :| o in r.rest {
      var i := Source(fr.interp, quads, fr.g, RestFact(x, o));
    } else {
      GraphIsNamed(fr.interp, quads, fr.g, x);
    }
  }

  lemma BareIsReferredTo(fr: Forest, quads: seq<Quad>, o: Object)
    requires Describes(fr, quads) && RendersValue(fr, o) && IsBare(quads, o.origin)
    ensures ContentOf(o) == ReferenceContent(fr.interp, o.origin)
  {
    if IsNested(fr.g, o.origin) {
      NestedSaysSomething(fr, quads, o.origin);
    } else {
      ReferenceCompares(fr.interp, o);
    }
  }

  /** What a value is rendered as denotes it. */
  lemma {:induction false} RenderedDenotes(fr: Forest, quads: seq<Quad>, o: Object)
    requires Describes(fr, quads) && RendersValue(fr, o)
    ensures Denotes(fr.interp, quads, ContentOf(o), o.origin)
    decreases o, 1
  {
    if IsBare(quads, o.origin) { BareIsReferredTo(fr, quads, o); }
    ValueIsNamed(fr, o);
    if o.ListObject? {
      RenderedList(fr, quads, o);
    }
  }

  lemma {:induction false} ValueIsNamed(fr: Forest, o: Object)
    requires RendersValue(fr, o)
    ensures o.ValueObject? ==> TermOf(fr.interp, o.origin) == Ok(Some(LiteralTerm(o.value)))
    ensures o.NodeObject? ==> o.id == IdOf(fr.interp, o.origin)
    ensures o.ListObject? ==> Renders(fr, o)
  {
  }

  lemma {:induction false} RenderedList(fr: Forest, quads: seq<Quad>, o: Object)
    requires Describes(fr, quads) && Renders(fr, o) && o.ListObject?
    ensures fr.g[o.origin].values == Some(OriginsOf(o.items))
    ensures AreDenoted(fr.interp, quads, ContentsOf(o.items), OriginsOf(o.items))
    ensures exists cells, values ::
              EncodesList(fr.interp, quads, cells, values) && cells[0] == o.origin
              && AreDenoted(fr.interp, quads, ContentsOf(o.items), values)
    decreases o, 0
  {
    forall k | 0 <= k < |o.items|
      ensures Denotes(fr.interp, quads, ContentsOf(o.items)[k], OriginsOf(o.items)[k])
    {
      assert Child(o, k) == o.items[k];
      RenderedDenotes(fr, quads, o.items[k]);
    }
    FoldedIsEncoded(fr, quads, o.origin);
  }

  /** `d` is directly inside `c`. */
  ghost predicate IsIn(d: Content, c: Content) {
    match c
    case NodeContent(_, _, _, properties) => exists id :: (id, d) in properties
    case ListContent(items) => d in items
    case ValueContent(_) => false
  }

  ghost predicate IsDescent(path: seq<Content>) {
    |path| > 0 && forall i :: 0 <= i < |path| - 1 ==> StepsDown(path, i)
  }

  ghost predicate StepsDown(path: seq<Content>, i: nat)
    requires i + 1 < |path|
  {
    IsIn(path[i + 1], path[i])
  }

  /** `d` is somewhere inside `c`. */
  ghost predicate IsWithin(d: Content, c: Content) {
    exists path :: IsDescent(path) && path[0] == c && path[|path| - 1] == d
  }

  lemma WithinItself(c: Content)
    ensures IsWithin(c, c)
  {
    assert IsDescent([c]);
  }

  lemma WithinStep(e: Content, d: Content, c: Content)
    requires IsIn(e, d) && IsWithin(d, c)
    ensures IsWithin(e, c)
  {
    var path :| IsDescent(path) && path[0] == c && path[|path| - 1] == d;
    var longer := path + [e];
    forall i | 0 <= i < |longer| - 1 ensures StepsDown(longer, i) {
      if i < |path| - 1 { assert StepsDown(path, i); }
    }
    assert IsDescent(longer);
  }

  lemma ChildIsIn(o: Object, k: nat)
    requires k < Count(o)
    ensures IsIn(ContentOf(Child(o, k)), ContentOf(o))
  {
    if o.NodeObject? {
      assert PropertiesOf(o)[k] in multiset(PropertiesOf(o));
    } else {
      assert ContentsOf(o.items)[k] in ContentsOf(o.items);
    }
  }

  /** A resource that an edge leads to is rendered inside the object its owner is rendered as. */
  lemma {:induction false} EdgeIsRendered(fr: Forest, path: seq<Handle>, o: Object, e: Fact, c: Handle)
      returns (k: nat)
    requires Valid(fr) && TermsReady(fr) && IsPath(fr, path) && Renders(fr, o) && path[|path| - 1] == o.origin
    requires Edge(fr, e, c) && Owner(fr, e.subject) == o.origin && !fr.g[c].IsEmpty()
    ensures (o.ListObject? ==> HasCells(fr, o)) && k < Count(o) && Leads(fr, o)[k] == e
    ensures Child(o, k).origin == c && Renders(fr, Child(o, k))
  {
    LeadsOfOwn(fr, path, o);
    OwnListsOwn(fr, o);
    EdgeIsOwn(fr, e, c);
    OwnButLeads(fr, o, e);
    if e !in Leads(fr, o) { EdgeIsNoRest(fr, o, e, c); }
    k :| 0 <= k < |Leads(fr, o)| && Leads(fr, o)[k] == e;
    LeadLeads(fr, o, k);
    assert RendersValue(fr, Child(o, k));
  }

  lemma EdgeIsNoRest(fr: Forest, o: Object, e: Fact, c: Handle)
    requires Valid(fr) && HasCells(fr, o) && Edge(fr, e, c) && o.origin in fr.g && fr.g[o.origin].values.Some?
    ensures e !in RestFacts(fr.lists[o.origin], fr.nil.value)
  {
    ListFolded(fr, o.origin);
    var cells, values, nil := fr.lists[o.origin], fr.g[o.origin].values.value, fr.nil.value;
    forall k | 0 <= k < |cells| ensures RestFacts(cells, nil)[k] != e {
      LinkIsOwned(fr, o.origin, cells, values, nil, k);
    }
  }

  lemma ParentSaysSomething(fr: Forest, e: Fact, c: Handle)
    requires Valid(fr) && Edge(fr, e, c) && Owner(fr, e.subject) in fr.g
    requires Owner(fr, Owner(fr, e.subject)) == Owner(fr, e.subject)
    ensures !fr.g[Owner(fr, e.subject)].IsEmpty()
  {
    var parent := Owner(fr, e.subject);
    EdgeIsOwn(fr, e, c);
    BelowSelf(fr, parent);
    if fr.g[parent].IsEmpty() { EmptyOwnsNothing(fr, parent); }
  }

  lemma {:induction false} RenderedNext(fr: Forest, path: seq<Handle>, o: Object, before: Object, e: Fact, c: Handle)
      returns (end: Object)
    requires Valid(fr) && TermsReady(fr) && IsPath(fr, path) && Renders(fr, before)
    requires path[|path| - 1] == before.origin && IsWithin(ContentOf(before), ContentOf(o))
    requires Edge(fr, e, c) && Owner(fr, e.subject) == before.origin && !fr.g[c].IsEmpty()
    ensures end.origin == c && Renders(fr, end) && IsWithin(ContentOf(end), ContentOf(o))
  {
    var k := EdgeIsRendered(fr, path, before, e, c);
    end := Child(before, k);
    ChildIsIn(before, k);
    WithinStep(ContentOf(end), ContentOf(before), ContentOf(o));
  }

  lemma PathBefore(fr: Forest, path: seq<Handle>)
    requires IsPath(fr, path) && |path| > 1
    ensures IsPath(fr, path[..|path| - 1])
  {
    var before := path[..|path| - 1];
    forall i | 0 < i < |before| ensures Parent(fr, before[i]) == Some(before[i - 1]) {
      assert path[i] == before[i];
    }
  }

  /** What is at the end of a path of nesting facts is rendered inside what the path starts from. */
  lemma {:induction false} RenderedAlong(fr: Forest, path: seq<Handle>, o: Object) returns (end: Object)
    requires Valid(fr) && TermsReady(fr) && IsPath(fr, path) && Renders(fr, o) && o.origin == path[0]
    requires !fr.g[path[|path| - 1]].IsEmpty()
    ensures end.origin == path[|path| - 1] && Renders(fr, end) && IsWithin(ContentOf(end), ContentOf(o))
    decreases |path|
  {
    var n := |path| - 1;
    if n == 0 {
      end := o;
      WithinItself(ContentOf(o));
    } else {
      assert Parent(fr, path[n]) == Some(path[n - 1]);
      var e := ParentEdge(fr, path[n]);
      ParentSaysSomething(fr, e, path[n]);
      PathBefore(fr, path);
      var before := RenderedAlong(fr, path[..n], o);
      end := RenderedNext(fr, path[..n], o, before, e, path[n]);
    }
  }

  /** `c` is a list of just these values, in order. */
  ghost predicate IsListOf(interp: Interpretation, quads: seq<Quad>, c: Content, values: seq<Handle>) {
    c.ListContent? && AreDenoted(interp, quads, c.items, values)
  }

  ghost predicate HoldsList(interp: Interpretation, quads: seq<Quad>, doc: seq<Object>, values: seq<Handle>) {
    exists i, c :: 0 <= i < |doc| && IsWithin(c, ContentOf(doc[i])) && IsListOf(interp, quads, c, values)
  }

  lemma CellIsNotEmpty(g: SerGraph, x: Handle)
    requires x in g && g[x].IsListNode()
    ensures !g[x].IsEmpty()
  {
    assert g[x].first != {};
  }

  /** A list that the quads encode, and that a path of nesting facts leads to, is in the document. */
  lemma {:induction false} ListInDocument(fr: Forest, quads: seq<Quad>, doc: seq<Object>, cells: seq<Handle>,
      values: seq<Handle>)
    requires Describes(fr, quads) && Documents(fr, doc, Roots(fr.g))
    requires EncodesList(fr.interp, quads, cells, values) && IsLedTo(fr, cells[0])
    ensures HoldsList(fr.interp, quads, doc, values)
  {
    ReadyToRender(fr, quads);
    EncodedIsFolded(fr, quads, cells, values);
    CellLink(fr, cells[0], 0);
    HeadOwner(fr, cells[0]);
    CellIsNotEmpty(fr.g, cells[0]);
    var path :| IsPath(fr, path) && path[|path| - 1] == cells[0];
    var r := path[0];
    RootIsNotEmpty(fr, path);
    var i, o := Representative(fr, doc, r);
    var end := RenderedAlong(fr, path, o);
    RenderedList(fr, quads, end);
    assert IsListOf(fr.interp, quads, ContentOf(end), values);
    assert IsWithin(ContentOf(end), ContentOf(doc[i]));
  }

  lemma {:induction false} RootIsNotEmpty(fr: Forest, path: seq<Handle>)
    requires Valid(fr) && IsPath(fr, path) && !fr.g[path[|path| - 1]].IsEmpty()
    ensures IsRoot(fr.g, path[0])
  {
    if |path| > 1 {
      assert Parent(fr, path[1]) == Some(path[0]);
      var e := ParentEdge(fr, path[1]);
      ParentSaysSomething(fr, e, path[1]);
    }
  }

  /** `c` is a node called `name`, with `value` under the property called `property`. */
  ghost predicate HasEntry(c: Content, name: Option<Id>, property: Id, value: Content) {
    c.NodeContent? && c.id == name && (property, value) in c.properties
  }

  ghost predicate HoldsListUnder(interp: Interpretation, quads: seq<Quad>, doc: seq<Object>, name: Option<Id>,
      property: Id, values: seq<Handle>)
  {
    exists i, c :: 0 <= i < |doc| && HasEntry(ContentOf(doc[i]), name, property, c)
                   && IsListOf(interp, quads, c, values)
  }

  /** The quad that points at the first cell of a list leads to it, when it has a property of its own to do so. */
  lemma PointerIsEdge(fr: Forest, quads: seq<Quad>, x: Handle, i: int)
    requires Describes(fr, quads) && x in fr.g && fr.g[x].references == 1 && PointsAt(quads, None, x, i)
    requires forall iri :: iri in fr.interp.iris(quads[i].property) ==>
               iri != RDF_TYPE && iri != RDF_FIRST && iri != RDF_REST
    requires IdOf(fr.interp, quads[i].property).Some?
    ensures Edge(fr, PropertyFact(quads[i].subject, quads[i].property, x), x)
  {
    PredicateReadsAs(fr.interp, quads[i].property);
    Stored(fr.interp, quads, fr.g, i);
  }

  /**
   By the quads alone: a list whose one reference is a property of a resource at the top level is under that property
   of the node that the resource is written as.
   */
  lemma {:induction false} ListUnderNode(fr: Forest, quads: seq<Quad>, doc: seq<Object>, cells: seq<Handle>,
      values: seq<Handle>, i: int)
    requires Describes(fr, quads) && Documents(fr, doc, Roots(fr.g)) && EncodesList(fr.interp, quads, cells, values)
    requires PointsAt(quads, None, cells[0], i) && !IsReferredToOnce(quads, quads[i].subject)
    requires forall iri :: iri in fr.interp.iris(quads[i].property) ==>
               iri != RDF_TYPE && iri != RDF_FIRST && iri != RDF_REST
    requires IdOf(fr.interp, quads[i].property).Some?
    ensures HoldsListUnder(fr.interp, quads, doc, IdOf(fr.interp, quads[i].subject),
                           IdOf(fr.interp, quads[i].property).value, values)
  {
    var s, p, head := quads[i].subject, quads[i].property, cells[0];
    ReadyToRender(fr, quads);
    EncodedIsFolded(fr, quads, cells, values);
    CellLink(fr, head, 0);
    HeadOwner(fr, head);
    CellIsNotEmpty(fr.g, head);
    PointerIsEdge(fr, quads, head, i);
    ReferredToOnce(quads, fr.g, s);
    RootOwnsItself(fr, s);
    assert fr.g[s].properties != map[];
    var j, o := Representative(fr, doc, s);
    EntryOfRoot(fr, quads, o, PropertyFact(s, p, head), values);
    assert ContentOf(doc[j]) == ContentOf(o);
  }

  lemma {:induction false} EntryOfRoot(fr: Forest, quads: seq<Quad>, o: Object, f: Fact, values: seq<Handle>)
    requires Describes(fr, quads) && Ready(fr, 1) && IsRoot(fr.g, o.origin) && Renders(fr, o)
    requires f.PropertyFact? && f.subject == o.origin && Edge(fr, f, f.value) && !fr.g[f.value].IsEmpty()
    requires fr.g[f.value].values == Some(values)
    ensures exists c :: HasEntry(ContentOf(o), IdOf(fr.interp, o.origin), IdOf(fr.interp, f.property).value, c)
                        && IsListOf(fr.interp, quads, c, values)
  {
    RootPath(fr, o.origin);
    var k := EdgeIsRendered(fr, [o.origin], o, f, f.value);
    EntryRead(fr, o, k, f);
    RenderedList(fr, quads, Child(o, k));
    assert IsListOf(fr.interp, quads, ContentOf(Child(o, k)), values);
  }

  lemma {:induction false} EntryRead(fr: Forest, o: Object, k: nat, f: Fact)
    requires Renders(fr, o) && (o.ListObject? ==> HasCells(fr, o)) && k < Count(o)
    requires Leads(fr, o)[k] == f && f.PropertyFact?
    ensures IdOf(fr.interp, f.property).Some?
    ensures HasEntry(ContentOf(o), IdOf(fr.interp, o.origin), IdOf(fr.interp, f.property).value, ContentOf(Child(o, k)))
  {
    assert o.NodeObject? && EntryFacts(o.origin, o.entries)[k] == f;
    assert KeyName(fr, o.entries[k].key) == Some(o.entries[k].id);
    assert PropertiesOf(o)[k] == (o.entries[k].id, ContentOf(Child(o, k)));
    assert PropertiesOf(o)[k] in multiset(PropertiesOf(o));
  }
}
