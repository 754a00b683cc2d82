/**
 When two top-level resources are merged, read off the graph (jsonld-core/src/serialization.rs:402-595,
 jsonld-core/src/document/expanded.rs:371-374).

 `ResourceContent` computes the content of a resource from its record and those of the resources nested in
 it: its name, its named types, its graph and its named values. It is what any rendering of the resource
 compares as, so two resources are twins exactly when these contents are equal.
 */
module Contents {
  import opened Wrappers
  import opened RdfModel
  import opened RenderForest
  import opened Rendering
  import opened Document
  import opened Tallies
  import opened Serialization
  import opened Conservation

  function ReferenceContent(interp: Interpretation, x: Handle): Content
  {
    match TermOf(interp, x)
    case Ok(Some(LiteralTerm(value))) => ValueContent(value)
    case _ => NodeContent(IdOf(interp, x), None, NoContent, multiset{})
  }

  ghost function ValueContentAt(fr: Forest, level: nat, x: Handle, n: nat): Content
    decreases level, n, 1
  {
    if IsNested(fr.g, x) then ResourceContent(fr, level, x, n) else ReferenceContent(fr.interp, x)
  }

  function NameOr(name: Option<Id>): Id
  {
    if name.Some? then name.value else IriId("")
  }

  /** A named value, as it compares. */
  ghost function SlotReader(fr: Forest, level: nat, n: nat): Slot -> (Id, Content)
    decreases level, n, 2
  {
    (slot: Slot) => (NameOr(KeyName(fr, slot.key)), ValueContentAt(fr, level, slot.value, n))
  }

  function TypeReader(fr: Forest): RdfType -> Id
  {
    (ty: RdfType) => NameOr(TypeName(fr, ty))
  }

  /** A root of a named graph, as it compares. */
  ghost function RootReader(fr: Forest): Handle -> Content
    decreases 0, |fr.g.Keys|, 1
  {
    (root: Handle) => ResourceContent(fr, 0, root, |fr.g.Keys|)
  }

  /** The content of `x`, with at most `n` resources one inside the other, and graphs while `level` allows. */
  ghost function ResourceContent(fr: Forest, level: nat, x: Handle, n: nat): Content
    decreases level, n, 0
  {
    if n == 0 || x !in fr.g then ListContent([])
    else if fr.g[x].values.Some? then
      ListContent(ItemContents(fr, level, fr.g[x].values.value, n - 1))
    else
      NodeContent(IdOf(fr.interp, x), TypesAt(fr, x), GraphAt(fr, level, x),
                  Image(SlotReader(fr, level, n - 1), multiset(NamedSlots(fr, x))))
  }

  ghost function TypesAt(fr: Forest, x: Handle): Option<multiset<Id>>
    requires x in fr.g
  {
    if NamedTypes(fr, x) == {} then None else Some(Image(TypeReader(fr), multiset(NamedTypes(fr, x))))
  }

  ghost function GraphAt(fr: Forest, level: nat, x: Handle): GraphContent
    requires x in fr.g
    decreases level, 0, 0
  {
    if level > 0 && fr.g[x].graph.Some? then
      SomeContent(Image(RootReader(Inner(fr, x)), multiset(Roots(Inner(fr, x).g))))
    else NoContent
  }

  ghost function ItemContents(fr: Forest, level: nat, values: seq<Handle>, n: nat): seq<Content>
    decreases level, n, 2
  {
    seq(|values|, k requires 0 <= k < |values| => ValueContentAt(fr, level, values[k], n))
  }

  // ----- it is what any rendering compares as

  /** The path to a nested child. */
  lemma {:induction false} ChildPath(fr: Forest, path: seq<Handle>, o: Object, k: nat)
    requires Valid(fr) && TermsReady(fr) && IsPath(fr, path) && Renders(fr, o) && path[|path| - 1] == o.origin
    requires k < Count(o) && IsNested(fr.g, Child(o, k).origin)
    ensures IsPath(fr, path + [Child(o, k).origin]) && Renders(fr, Child(o, k))
  {
    LeadsOfOwn(fr, path, o);
    LeadLeads(fr, o, k);
    var lead, child := Leads(fr, o)[k], Child(o, k);
    assert RendersValue(fr, child);
    assert Edge(fr, lead, child.origin);
    PathExtends(fr, path, lead, child.origin);
  }

  lemma ReferenceCompares(interp: Interpretation, o: Object)
    requires IsReference(interp, o)
    ensures ContentOf(o) == ReferenceContent(interp, o.origin)
  {
  }

  lemma {:induction false} ChildContent(fr: Forest, level: nat, path: seq<Handle>, o: Object, n: nat, k: nat)
    requires Ready(fr, level) && IsPath(fr, path) && Renders(fr, o) && path[|path| - 1] == o.origin
    requires n + |path| >= |fr.g.Keys| && k < Count(o)
    ensures ContentOf(Child(o, k)) == ValueContentAt(fr, level, Child(o, k).origin, n)
    decreases o, 0
  {
    var child := Child(o, k);
    assert RendersValue(fr, child);
    if IsNested(fr.g, child.origin) {
      ChildPath(fr, path, o, k);
      RenderedContent(fr, level, path + [child.origin], child, n);
    } else {
      ReferenceCompares(fr.interp, child);
    }
  }

  lemma {:induction false} PropertiesMapped(fr: Forest, level: nat, path: seq<Handle>, o: Object, n: nat)
    requires Ready(fr, level) && IsPath(fr, path) && Renders(fr, o) && path[|path| - 1] == o.origin
    requires n + |path| >= |fr.g.Keys| && o.NodeObject?
    ensures Mapped(SlotReader(fr, level, n), SlotsOf(o.entries)) == PropertiesOf(o)
    decreases o, 1
  {
    var f, slots := SlotReader(fr, level, n), SlotsOf(o.entries);
    forall k | 0 <= k < |o.entries| ensures Mapped(f, slots)[k] == PropertiesOf(o)[k] {
      ChildContent(fr, level, path, o, n, k);
      assert KeyName(fr, o.entries[k].key) == Some(o.entries[k].id);
    }
  }

  lemma {:induction false} SlotsContent(fr: Forest, level: nat, path: seq<Handle>, o: Object, n: nat)
    requires Ready(fr, level) && IsPath(fr, path) && Renders(fr, o) && path[|path| - 1] == o.origin
    requires n + |path| >= |fr.g.Keys| && o.NodeObject?
    ensures multiset(PropertiesOf(o)) == Image(SlotReader(fr, level, n), multiset(NamedSlots(fr, o.origin)))
    decreases o, 2
  {
    var f, slots := SlotReader(fr, level, n), SlotsOf(o.entries);
    EnumerationCounts(slots, NamedSlots(fr, o.origin));
    ImageOfSeq(f, slots);
    PropertiesMapped(fr, level, path, o, n);
  }

  lemma {:induction false} TypesContent(fr: Forest, types: seq<TypeEntry>, all: set<RdfType>)
    requires TypesNamed(fr, types) && Enumerates(Origins(types), all)
    ensures multiset(Ids(types)) == Image(TypeReader(fr), multiset(all))
    ensures types == [] <==> all == {}
  {
    EnumerationCounts(Origins(types), all);
    ImageOfSeq(TypeReader(fr), Origins(types));
    assert Mapped(TypeReader(fr), Origins(types)) == Ids(types);
    if types != [] { assert Origins(types)[0] in all; }
  }

  lemma {:induction false} InnerRootContent(fr: Forest, o: Object)
    requires Ready(fr, 0) && IsRoot(fr.g, o.origin) && Renders(fr, o)
    ensures ContentOf(o) == RootReader(fr)(o.origin)
    decreases o, 5
  {
    RootPath(fr, o.origin);
    RenderedContent(fr, 0, [o.origin], o, |fr.g.Keys|);
  }

  lemma {:induction false} RootsMapped(fr: Forest, content: seq<Object>)
    requires Ready(fr, 0) && RendersAll(fr, content)
    ensures Mapped(RootReader(fr), OriginsOf(content)) == ContentsOf(content)
    decreases content, 1
  {
    var f, origins := RootReader(fr), OriginsOf(content);
    forall i | 0 <= i < |content| ensures Mapped(f, origins)[i] == ContentsOf(content)[i] {
      assert origins[i] in Roots(fr.g);
      InnerRootContent(fr, content[i]);
    }
  }

  lemma {:induction false} RootsContent(fr: Forest, content: seq<Object>)
    requires Ready(fr, 0) && RendersAll(fr, content)
    ensures multiset(ContentsOf(content)) == Image(RootReader(fr), multiset(Roots(fr.g)))
    decreases content, 2
  {
    EnumerationCounts(OriginsOf(content), Roots(fr.g));
    ImageOfSeq(RootReader(fr), OriginsOf(content));
    RootsMapped(fr, content);
  }

  lemma {:induction false} ItemsContent(fr: Forest, level: nat, path: seq<Handle>, o: Object, n: nat)
    requires Ready(fr, level) && IsPath(fr, path) && Renders(fr, o) && path[|path| - 1] == o.origin
    requires n + |path| >= |fr.g.Keys| && o.ListObject?
    ensures ContentsOf(o.items) == ItemContents(fr, level, OriginsOf(o.items), n)
    decreases o, 1
  {
    forall k | 0 <= k < |o.items|
      ensures ContentsOf(o.items)[k] == ItemContents(fr, level, OriginsOf(o.items), n)[k]
    {
      ChildContent(fr, level, path, o, n, k);
    }
  }

  lemma {:induction false} GraphsContent(fr: Forest, level: nat, o: Object)
    requires Ready(fr, level) && Renders(fr, o) && o.NodeObject?
    ensures GraphPart(o) == GraphAt(fr, level, o.origin)
    decreases o, 1
  {
    if o.graph.Graph? {
      GraphIsReady(fr, level, o.origin);
      RootsContent(Inner(fr, o.origin), o.graph.content);
    }
  }

  function TypesPart(o: Object): Option<multiset<Id>>
    requires o.NodeObject?
  {
    if o.types.Some? then Some(multiset(Ids(o.types.value))) else None
  }

  function GraphPart(o: Object): GraphContent
    requires o.NodeObject?
  {
    if o.graph.Graph? then SomeContent(multiset(ContentsOf(o.graph.content))) else NoContent
  }

  lemma NodeParts(o: Object)
    requires o.NodeObject?
    ensures ContentOf(o) == NodeContent(o.id, TypesPart(o), GraphPart(o), multiset(PropertiesOf(o)))
  {
  }

  lemma PartsAgree(fr: Forest, level: nat, o: Object, n: nat)
    requires n > 0 && o.NodeObject? && o.origin in fr.g && fr.g[o.origin].values.None?
    requires o.id == IdOf(fr.interp, o.origin)
    requires TypesPart(o) == TypesAt(fr, o.origin) && GraphPart(o) == GraphAt(fr, level, o.origin)
    requires multiset(PropertiesOf(o)) == Image(SlotReader(fr, level, n - 1), multiset(NamedSlots(fr, o.origin)))
    ensures ContentOf(o) == ResourceContent(fr, level, o.origin, n)
  {
    NodeParts(o);
  }

  lemma {:induction false} NodeTypes(fr: Forest, o: Object)
    requires Renders(fr, o) && o.NodeObject?
    ensures TypesPart(o) == TypesAt(fr, o.origin)
  {
    TypesContent(fr, TypesOf(o.types), NamedTypes(fr, o.origin));
  }

  lemma {:induction false} RenderedNode(fr: Forest, level: nat, path: seq<Handle>, o: Object, n: nat)
    requires Ready(fr, level) && IsPath(fr, path) && Renders(fr, o) && path[|path| - 1] == o.origin
    requires n > 0 && n + |path| > |fr.g.Keys| && o.NodeObject?
    ensures ContentOf(o) == ResourceContent(fr, level, o.origin, n)
    decreases o, 3
  {
    NodeTypes(fr, o);
    SlotsContent(fr, level, path, o, n - 1);
    GraphsContent(fr, level, o);
    PartsAgree(fr, level, o, n);
  }

  /** Any rendering of a resource compares as the content its record gives. */
  lemma {:induction false} RenderedContent(fr: Forest, level: nat, path: seq<Handle>, o: Object, n: nat)
    requires Ready(fr, level) && IsPath(fr, path) && Renders(fr, o) && path[|path| - 1] == o.origin
    requires n + |path| > |fr.g.Keys|
    ensures ContentOf(o) == ResourceContent(fr, level, o.origin, n)
    decreases o, 4
  {
    PathFits(fr, path);
    if o.NodeObject? {
      RenderedNode(fr, level, path, o, n);
    } else {
      ItemsContent(fr, level, path, o, n - 1);
    }
  }

  // ----- twins

  /** What a top-level resource compares as. */
  ghost function TopContent(fr: Forest, r: Handle): Content
  {
    ResourceContent(fr, 1, r, |fr.g.Keys|)
  }

  ghost predicate Alike(fr: Forest, r: Handle, s: Handle)
  {
    TopContent(fr, r) == TopContent(fr, s)
  }

  /** No top-level resource about which something is written has the content of another. */
  ghost predicate NoneAlike(fr: Forest)
  {
    forall r, s :: IsRoot(fr.g, r) && IsRoot(fr.g, s) && r != s && Alike(fr, r, s) ==> BelowFacts(fr, r) == {}
  }

  lemma {:induction false} RootContent(fr: Forest, o: Object)
    requires Ready(fr, 1) && IsRoot(fr.g, o.origin) && Renders(fr, o)
    ensures ContentOf(o) == TopContent(fr, o.origin)
  {
    RootPath(fr, o.origin);
    RenderedContent(fr, 1, [o.origin], o, |fr.g.Keys|);
  }

  lemma {:induction false} TwinsAreSameExactlyWhen(fr: Forest, a: Object, b: Object)
    requires Renders(fr, a) && Renders(fr, b)
    ensures Twins(fr, a.origin, b.origin) <==> Same(a, b)
  {
    if Twins(fr, a.origin, b.origin) { TwinsAreSame(fr, a, b); }
  }

  /** Of resources that are rendered at all, two are twins exactly when their records have the same content. */
  lemma TwinsExactlyWhen(fr: Forest, doc: seq<Object>, r: Handle, s: Handle)
    requires Ready(fr, 1) && Documents(fr, doc, Roots(fr.g)) && IsRoot(fr.g, r) && IsRoot(fr.g, s)
    ensures Twins(fr, r, s) <==> Alike(fr, r, s)
  {
    var i, a := Representative(fr, doc, r);
    var j, b := Representative(fr, doc, s);
    TwinsAreSameExactlyWhen(fr, a, b);
    RootContent(fr, a);
    RootContent(fr, b);
  }

  lemma NoTwinsExactlyWhen(fr: Forest, doc: seq<Object>)
    requires Ready(fr, 1) && Documents(fr, doc, Roots(fr.g))
    ensures NoTwins(fr) <==> NoneAlike(fr)
  {
    forall r, s | IsRoot(fr.g, r) && IsRoot(fr.g, s) ensures Twins(fr, r, s) <==> Alike(fr, r, s) {
      TwinsExactlyWhen(fr, doc, r, s);
    }
  }

  /** Conservation, by a condition on the graph alone. */
  lemma ConservedExactlyWhenApart(fr: Forest, quads: seq<Quad>, doc: seq<Object>)
    requires Describes(fr, quads) && Documents(fr, doc, Roots(fr.g))
    ensures DocumentFacts(fr, doc) == multiset(AllFacts(fr.g)) <==>
            && (forall f :: f in AllFacts(fr.g) ==> Writes(fr, f) && IsLedTo(fr, Owner(fr, f.subject)))
            && NoneAlike(fr)
  {
    ReadyToRender(fr, quads);
    NoTwinsExactlyWhen(fr, doc);
    ConservedExactlyWhen(fr, quads, doc);
  }
}
