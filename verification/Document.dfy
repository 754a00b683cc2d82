/**
 A rendered document as its readers see it: objects compared as the document compares
 them (jsonld-core/src/document/expanded.rs:366-396, jsonld-core/src/object/node/mod.rs:769-782),
 and the statements their names, values and nesting spell out.

 Neither looks at what an object was rendered for. A rendering is determined by the graph
 up to that comparison, and its statements are the facts of the graph, spelled out.
 */
module Document {
  import opened Wrappers
  import opened RdfModel
  import opened RenderForest
  import opened Rendering
  import opened Tallies

  // ----- comparing objects

  datatype GraphContent = NoContent | SomeContent(objects: multiset<Content>)

  /** An object without its origins, and without the order of what is unordered in it. */
  datatype Content =
    | NodeContent(id: Option<Id>, types: Option<multiset<Id>>, graph: GraphContent, properties: multiset<(Id, Content)>)
    | ListContent(items: seq<Content>)
    | ValueContent(value: Value)

  function Ids(types: seq<TypeEntry>): seq<Id>
  {
    seq(|types|, i requires 0 <= i < |types| => types[i].id)
  }

  function ContentOf(o: Object): Content
    decreases o, 2
  {
    match o
    case NodeObject(_, id, types, graph, entries) =>
      NodeContent(
        id,
        if types.Some? then Some(multiset(Ids(types.value))) else None,
        if graph.Graph? then SomeContent(multiset(ContentsOf(graph.content))) else NoContent,
        multiset(PropertiesOf(o)))
    case ListObject(_, items) => ListContent(ContentsOf(items))
    case ValueObject(_, value) => ValueContent(value)
  }

  function ContentsOf(objects: seq<Object>): seq<Content>
    decreases objects, 0
  {
    seq(|objects|, i requires 0 <= i < |objects| => ContentOf(objects[i]))
  }

  function PropertiesOf(o: Object): seq<(Id, Content)>
    requires o.NodeObject?
    decreases o, 1
  {
    seq(|o.entries|, i requires 0 <= i < |o.entries| => (o.entries[i].id, ContentOf(Child(o, i))))
  }

  /** The document's equality of objects: types, properties and graphs are unordered, lists are ordered. */
  predicate Same(a: Object, b: Object)
  {
    ContentOf(a) == ContentOf(b)
  }

  // ----- a rendering is unique

  lemma ReferenceUnique(interp: Interpretation, a: Object, b: Object)
    requires IsReference(interp, a) && IsReference(interp, b) && a.origin == b.origin
    ensures a == b
  {
  }

  lemma EnumerationsAgree<T>(a: seq<T>, b: seq<T>, all: set<T>)
    requires Enumerates(a, all) && Enumerates(b, all)
    ensures multiset(a) == multiset(b)
  {
    EnumerationCounts(a, all);
    EnumerationCounts(b, all);
  }

  lemma TypesUnique(fr: Forest, a: seq<TypeEntry>, b: seq<TypeEntry>, all: set<RdfType>)
    requires TypesNamed(fr, a) && TypesNamed(fr, b)
    requires Enumerates(Origins(a), all) && Enumerates(Origins(b), all)
    ensures multiset(Ids(a)) == multiset(Ids(b)) && |a| == |b|
  {
    EnumerationsAgree(Origins(a), Origins(b), all);
    assert |Origins(a)| == |multiset(Origins(a))|;
    assert |Origins(b)| == |multiset(Origins(b))|;
    AlikeByKey(Origins(a), Ids(a), Origins(b), Ids(b));
  }

  /** Two renderings of a resource are the same object, whatever order sets were iterated in. */
  lemma {:induction false} RenderingUnique(fr: Forest, a: Object, b: Object)
    requires Renders(fr, a) && Renders(fr, b) && a.origin == b.origin
    ensures Same(a, b)
    decreases a, 2
  {
    if a.NodeObject? {
      TypesUnique(fr, TypesOf(a.types), TypesOf(b.types), NamedTypes(fr, a.origin));
      if a.graph.Graph? { ContentUnique(Inner(fr, a.origin), a.graph.content, b.graph.content); }
      PropertiesUnique(fr, a, b);
    } else {
      ItemsUnique(fr, a, b);
    }
  }

  lemma {:induction false} ValueUnique(fr: Forest, a: Object, b: Object)
    requires RendersValue(fr, a) && RendersValue(fr, b) && a.origin == b.origin
    ensures Same(a, b)
    decreases a, 3
  {
    if IsNested(fr.g, a.origin) {
      RenderingUnique(fr, a, b);
    } else {
      ReferenceUnique(fr.interp, a, b);
    }
  }

  lemma {:induction false} ItemsUnique(fr: Forest, a: Object, b: Object)
    requires Renders(fr, a) && Renders(fr, b) && a.origin == b.origin && a.ListObject? && b.ListObject?
    ensures ContentsOf(a.items) == ContentsOf(b.items)
    decreases a, 1
  {
    var origins := OriginsOf(a.items);
    assert OriginsOf(b.items) == origins;
    forall k | 0 <= k < |a.items| ensures ContentsOf(a.items)[k] == ContentsOf(b.items)[k] {
      assert a.items[k].origin == origins[k] && b.items[k].origin == OriginsOf(b.items)[k];
      assert Child(a, k) == a.items[k] && Child(b, k) == b.items[k];
      ValueUnique(fr, a.items[k], b.items[k]);
    }
  }

  lemma {:induction false} PropertiesUnique(fr: Forest, a: Object, b: Object)
    requires Renders(fr, a) && Renders(fr, b) && a.origin == b.origin && a.NodeObject? && b.NodeObject?
    ensures multiset(PropertiesOf(a)) == multiset(PropertiesOf(b))
    decreases a, 1
  {
    EnumerationsAgree(SlotsOf(a.entries), SlotsOf(b.entries), NamedSlots(fr, a.origin));
    forall i, j | 0 <= i < |a.entries| && 0 <= j < |b.entries| && SlotsOf(a.entries)[i] == SlotsOf(b.entries)[j]
      ensures PropertiesOf(a)[i] == PropertiesOf(b)[j]
    {
      assert Child(a, i).origin == Child(b, j).origin && a.entries[i].key == b.entries[j].key;
      assert KeyName(fr, a.entries[i].key) == Some(a.entries[i].id);
      assert KeyName(fr, b.entries[j].key) == Some(b.entries[j].id);
      ValueUnique(fr, Child(a, i), Child(b, j));
    }
    AlikeByKey(SlotsOf(a.entries), PropertiesOf(a), SlotsOf(b.entries), PropertiesOf(b));
  }

  lemma {:induction false} ContentUnique(fr: Forest, a: seq<Object>, b: seq<Object>)
    requires RendersAll(fr, a) && RendersAll(fr, b)
    ensures multiset(ContentsOf(a)) == multiset(ContentsOf(b))
    decreases a, 1
  {
    EnumerationsAgree(OriginsOf(a), OriginsOf(b), Roots(fr.g));
    forall i, j | 0 <= i < |a| && 0 <= j < |b| && OriginsOf(a)[i] == OriginsOf(b)[j]
      ensures ContentsOf(a)[i] == ContentsOf(b)[j]
    {
      RenderingUnique(fr, a[i], b[j]);
    }
    AlikeByKey(OriginsOf(a), ContentsOf(a), OriginsOf(b), ContentsOf(b));
  }

  // ----- what a document says

  /** What a reader can call an object. */
  datatype Name = Named(id: Id) | Unnamed | LiteralName(value: Value) | ListName

  /**
   What an object says. The `k`-th item of a list is said to be its value there, and the `k`-th
   link to lead to the next cell or, when it is the last, to end the list.
   */
  datatype Statement =
    | TypeStatement(subject: Name, ty: Name)
    | PropertyStatement(subject: Name, property: Name, value: Name)
    | ItemStatement(position: nat, value: Name)
    | LinkStatement(position: nat, last: bool)
    | GraphStatement(subject: Name, content: multiset<Statement>)

  function IdName(id: Option<Id>): Name
  {
    if id.Some? then Named(id.value) else Unnamed
  }

  function NameOf(o: Object): Name
  {
    match o
    case NodeObject(_, id, _, _, _) => IdName(id)
    case ListObject(_, _) => ListName
    case ValueObject(_, value) => LiteralName(value)
  }

  function TypeStatements(subject: Name, types: seq<TypeEntry>): seq<Statement>
  {
    seq(|types|, i requires 0 <= i < |types| => TypeStatement(subject, Named(types[i].id)))
  }

  function EntryStatements(subject: Name, entries: seq<Entry>): seq<Statement>
  {
    seq(|entries|, i requires 0 <= i < |entries| => PropertyStatement(subject, Named(entries[i].id),
        NameOf(entries[i].value)))
  }

  function ItemStatements(items: seq<Object>): seq<Statement>
  {
    seq(|items|, k requires 0 <= k < |items| => ItemStatement(k, NameOf(items[k])))
  }

  function LinkStatements(length: nat): seq<Statement>
  {
    seq(length, k requires 0 <= k < length => LinkStatement(k, k == length - 1))
  }

  function OwnStatements(o: Object): seq<Statement>
    decreases o, 0
  {
    match o
    case NodeObject(_, id, types, graph, entries) =>
      TypeStatements(IdName(id), TypesOf(types))
      + (if graph.Graph? then [GraphStatement(IdName(id), DocumentStatements(graph.content))] else [])
      + EntryStatements(IdName(id), entries)
    case ListObject(_, items) => ItemStatements(items) + LinkStatements(|items|)
    case ValueObject(_, _) => []
  }

  /** What `o` and all the objects inside it say. */
  function Statements(o: Object): multiset<Statement>
    decreases o, 1
  {
    multiset(OwnStatements(o)) + Total(ChildStatements(o))
  }

  function ChildStatements(o: Object): seq<multiset<Statement>>
    decreases o, 0
  {
    seq(Count(o), k requires 0 <= k < Count(o) => Statements(Child(o, k)))
  }

  function DocumentStatements(doc: seq<Object>): multiset<Statement>
    decreases doc, 1
  {
    Total(EachStatements(doc))
  }

  function EachStatements(doc: seq<Object>): seq<multiset<Statement>>
    decreases doc, 0
  {
    seq(|doc|, i requires 0 <= i < |doc| => Statements(doc[i]))
  }

  // ----- equal objects say the same

  lemma SameName(a: Object, b: Object)
    requires Same(a, b)
    ensures NameOf(a) == NameOf(b)
  {
  }

  /** Objects the document takes for equal say the same things. */
  lemma {:induction false} SameSays(a: Object, b: Object)
    requires Same(a, b)
    ensures Statements(a) == Statements(b)
    decreases a, 2
  {
    if a.NodeObject? {
      NodesSay(a, b);
      GraphsSay(a, b);
      assert multiset(OwnStatements(a)) == multiset(OwnStatements(b));
    } else if a.ListObject? {
      ListsSay(a, b);
    }
  }

  lemma {:induction false} ListsSay(a: Object, b: Object)
    requires Same(a, b) && a.ListObject?
    ensures OwnStatements(a) == OwnStatements(b) && ChildStatements(a) == ChildStatements(b)
    decreases a, 1
  {
    assert |ContentsOf(a.items)| == |ContentsOf(b.items)|;
    forall k | 0 <= k < |a.items|
      ensures NameOf(a.items[k]) == NameOf(b.items[k]) && Statements(Child(a, k)) == Statements(Child(b, k))
    {
      assert ContentsOf(a.items)[k] == ContentsOf(b.items)[k];
      SameName(a.items[k], b.items[k]);
      assert Child(a, k) == a.items[k];
      SameSays(a.items[k], b.items[k]);
    }
  }

  lemma {:induction false} NodesSay(a: Object, b: Object)
    requires Same(a, b) && a.NodeObject?
    ensures multiset(TypeStatements(NameOf(a), TypesOf(a.types)))
        == multiset(TypeStatements(NameOf(b), TypesOf(b.types)))
    ensures multiset(EntryStatements(NameOf(a), a.entries)) == multiset(EntryStatements(NameOf(b), b.entries))
    ensures Total(ChildStatements(a)) == Total(ChildStatements(b))
    decreases a, 1
  {
    AlikeByKey(Ids(TypesOf(a.types)), TypeStatements(NameOf(a), TypesOf(a.types)),
               Ids(TypesOf(b.types)), TypeStatements(NameOf(b), TypesOf(b.types)));
    forall i, j | 0 <= i < |a.entries| && 0 <= j < |b.entries| && PropertiesOf(a)[i] == PropertiesOf(b)[j]
      ensures EntryStatements(NameOf(a), a.entries)[i] == EntryStatements(NameOf(b), b.entries)[j]
      ensures ChildStatements(a)[i] == ChildStatements(b)[j]
    {
      assert Same(Child(a, i), Child(b, j));
      SameName(Child(a, i), Child(b, j));
      SameSays(Child(a, i), Child(b, j));
    }
    AlikeByKey(PropertiesOf(a), EntryStatements(NameOf(a), a.entries), PropertiesOf(b),
        EntryStatements(NameOf(b), b.entries));
    AlikeByKey(PropertiesOf(a), ChildStatements(a), PropertiesOf(b), ChildStatements(b));
    TotalPermuted(ChildStatements(a), ChildStatements(b));
  }

  lemma {:induction false} GraphsSay(a: Object, b: Object)
    requires Same(a, b) && a.NodeObject?
    ensures a.graph.Graph? <==> b.graph.Graph?
    ensures a.graph.Graph? ==> DocumentStatements(a.graph.content) == DocumentStatements(b.graph.content)
    decreases a, 1
  {
    if a.graph.Graph? {
      var c, d := a.graph.content, b.graph.content;
      forall i, j | 0 <= i < |c| && 0 <= j < |d| && ContentsOf(c)[i] == ContentsOf(d)[j]
        ensures EachStatements(c)[i] == EachStatements(d)[j]
      {
        SameSays(c[i], d[j]);
      }
      AlikeByKey(ContentsOf(c), EachStatements(c), ContentsOf(d), EachStatements(d));
      TotalPermuted(EachStatements(c), EachStatements(d));
    }
  }

  // ----- the facts of a graph, spelled out

  /** What `x` is called where it is a value. */
  function ValueName(fr: Forest, x: Handle): Name
  {
    if IsNested(fr.g, x) then
      if fr.g[x].values.Some? then ListName else IdName(IdOf(fr.interp, x))
    else
      match TermOf(fr.interp, x)
      case Ok(Some(IdTerm(id))) => Named(id)
      case Ok(Some(LiteralTerm(value))) => LiteralName(value)
      case _ => Unnamed
  }

  /** Where in its list a folded cell is. */
  ghost function Position(fr: Forest, x: Handle): nat
    requires InList(fr, x)
  {
    var cells := fr.lists[Owner(fr, x)];
    var k :| 0 <= k < |cells| && cells[k] == x; k
  }

  /** What `f` reads as in a document. */
  ghost function Spell(fr: Forest, level: nat, f: Fact): Statement
    decreases level, 0
  {
    var subject := IdName(IdOf(fr.interp, f.subject));
    match f
    case TypeFact(_, t) => TypeStatement(subject, IdName(TypeName(fr, t)))
    case PropertyFact(_, p, v) => PropertyStatement(subject, IdName(IdOf(fr.interp, p)), ValueName(fr, v))
    case FirstFact(s, v) =>
      if InList(fr, s) then ItemStatement(Position(fr, s), ValueName(fr, v))
      else PropertyStatement(subject, IdName(KeyName(fr, FirstKey)), ValueName(fr, v))
    case RestFact(s, v) =>
      if InList(fr, s) then LinkStatement(Position(fr, s), Position(fr, s) == |fr.lists[Owner(fr, s)]| - 1)
      else PropertyStatement(subject, IdName(KeyName(fr, RestKey)), ValueName(fr, v))
    case GraphFact(s) =>
      if level > 0 && s in fr.g && fr.g[s].graph.Some? then
        GraphStatement(subject, Image(Speller(Inner(fr, s), level - 1), multiset(WrittenFacts(Inner(fr, s)))))
      else
        GraphStatement(subject, multiset{})
  }

  ghost function Speller(fr: Forest, level: nat): Fact -> Statement
    decreases level, 1
  {
    f => Spell(fr, level, f)
  }

  // ----- a rendered object says what its facts spell

  lemma PositionIs(fr: Forest, h: Handle, k: nat)
    requires Valid(fr) && h in fr.lists && k < |fr.lists[h]|
    ensures InList(fr, fr.lists[h][k]) && Owner(fr, fr.lists[h][k]) == h && Position(fr, fr.lists[h][k]) == k
  {
    var cells := fr.lists[h];
    CellOwner(fr, h, cells[k]);
    ListFolded(fr, h);
    CellsDistinct(fr, h, cells, fr.g[h].values.value, fr.nil.value);
    var p := Position(fr, cells[k]);
    assert cells[p] == cells[k];
  }

  lemma ReferenceName(fr: Forest, o: Object)
    requires IsReference(fr.interp, o) && !IsNested(fr.g, o.origin)
    ensures NameOf(o) == ValueName(fr, o.origin)
  {
  }

  lemma {:induction false} NestedName(fr: Forest, o: Object)
    requires Renders(fr, o) && IsNested(fr.g, o.origin)
    ensures NameOf(o) == ValueName(fr, o.origin)
  {
  }

  lemma {:induction false} ChildName(fr: Forest, o: Object, k: nat)
    requires Renders(fr, o) && k < Count(o)
    ensures NameOf(Child(o, k)) == ValueName(fr, Child(o, k).origin)
  {
    assert RendersValue(fr, Child(o, k));
    if IsNested(fr.g, Child(o, k).origin) {
      NestedName(fr, Child(o, k));
    } else {
      ReferenceName(fr, Child(o, k));
    }
  }

  lemma {:induction false} LinkSays(fr: Forest, level: nat, o: Object, k: nat)
    requires Valid(fr) && Renders(fr, o) && o.ListObject? && HasCells(fr, o) && k < |o.items|
    ensures ItemStatements(o.items)[k] == Spell(fr, level, FirstFacts(fr.lists[o.origin], OriginsOf(o.items))[k])
    ensures LinkStatements(|o.items|)[k] == Spell(fr, level, RestFacts(fr.lists[o.origin], fr.nil.value)[k])
  {
    PositionIs(fr, o.origin, k);
    ChildName(fr, o, k);
    assert Child(o, k) == o.items[k];
  }

  lemma {:induction false} LinksSay(fr: Forest, level: nat, o: Object)
    requires Valid(fr) && Renders(fr, o) && o.ListObject? && HasCells(fr, o)
    ensures ItemStatements(o.items) == Mapped(Speller(fr, level), FirstFacts(fr.lists[o.origin], OriginsOf(o.items)))
    ensures LinkStatements(|o.items|) == Mapped(Speller(fr, level), RestFacts(fr.lists[o.origin], fr.nil.value))
  {
    var firsts, rests := FirstFacts(fr.lists[o.origin], OriginsOf(o.items)),
        RestFacts(fr.lists[o.origin], fr.nil.value);
    forall k | 0 <= k < |o.items|
      ensures ItemStatements(o.items)[k] == Spell(fr, level, firsts[k])
          && LinkStatements(|o.items|)[k] == Spell(fr, level, rests[k])
    {
      LinkSays(fr, level, o, k);
    }
  }

  lemma {:induction false} ListSays(fr: Forest, level: nat, o: Object)
    requires Valid(fr) && Renders(fr, o) && o.ListObject?
    ensures OwnStatements(o) == Mapped(Speller(fr, level), Own(fr, o))
  {
    ListFolded(fr, o.origin);
    LinksSay(fr, level, o);
    MappedSum(Speller(fr, level), FirstFacts(fr.lists[o.origin], OriginsOf(o.items)),
              RestFacts(fr.lists[o.origin], fr.nil.value));
  }

  lemma {:induction false} EntriesSay(fr: Forest, level: nat, o: Object, k: nat)
    requires Valid(fr) && Renders(fr, o) && o.NodeObject? && Owner(fr, o.origin) == o.origin && k < |o.entries|
    ensures EntryStatements(NameOf(o), o.entries)[k] == Spell(fr, level, EntryFacts(o.origin, o.entries)[k])
  {
    if InList(fr, o.origin) { HeadOwner(fr, o.origin); }
    ChildName(fr, o, k);
    assert Child(o, k) == o.entries[k].value;
    assert KeyName(fr, o.entries[k].key) == Some(o.entries[k].id);
  }

  lemma {:induction false} TypesSay(fr: Forest, level: nat, s: Handle, types: seq<TypeEntry>)
    requires TypesNamed(fr, types)
    ensures TypeStatements(IdName(IdOf(fr.interp, s)), types) == Mapped(Speller(fr, level), TypeFacts(s, types))
  {
    forall i | 0 <= i < |types|
      ensures TypeStatements(IdName(IdOf(fr.interp, s)), types)[i] == Spell(fr, level, TypeFacts(s, types)[i])
    {
      assert TypeName(fr, types[i].origin) == Some(types[i].id);
    }
  }

  lemma {:induction false} AllEntriesSay(fr: Forest, level: nat, o: Object)
    requires Valid(fr) && Renders(fr, o) && o.NodeObject? && Owner(fr, o.origin) == o.origin
    ensures EntryStatements(NameOf(o), o.entries) == Mapped(Speller(fr, level), EntryFacts(o.origin, o.entries))
  {
    forall k | 0 <= k < |o.entries|
      ensures EntryStatements(NameOf(o), o.entries)[k] == Spell(fr, level, EntryFacts(o.origin, o.entries)[k])
    {
      EntriesSay(fr, level, o, k);
    }
  }

  lemma {:induction false} NodeSays(fr: Forest, level: nat, o: Object)
    requires Valid(fr) && Renders(fr, o) && o.NodeObject? && Owner(fr, o.origin) == o.origin
    requires o.graph.Graph? ==>
               GraphStatement(NameOf(o), DocumentStatements(o.graph.content)) == Spell(fr, level, GraphFact(o.origin))
    ensures OwnStatements(o) == Mapped(Speller(fr, level), Own(fr, o))
  {
    var speller := Speller(fr, level);
    var graph := if o.graph.Graph? then [GraphFact(o.origin)] else [];
    TypesSay(fr, level, o.origin, TypesOf(o.types));
    AllEntriesSay(fr, level, o);
    assert Mapped(speller, graph) ==
           if o.graph.Graph? then [GraphStatement(NameOf(o), DocumentStatements(o.graph.content))] else [];
    MappedJoin(speller, TypeFacts(o.origin, TypesOf(o.types)), graph, EntryFacts(o.origin, o.entries));
  }

  /** Read without its origins, a rendering says exactly the facts below its resource. */
  lemma {:induction false} SaysItsFacts(fr: Forest, level: nat, path: seq<Handle>, o: Object)
    requires Ready(fr, level) && IsPath(fr, path) && Renders(fr, o) && path[|path| - 1] == o.origin
    ensures Statements(o) == Image(Speller(fr, level), Facts(fr, o))
    decreases o, 3
  {
    OwnSays(fr, level, o);
    ImageOfSeq(Speller(fr, level), Own(fr, o));
    ChildrenSay(fr, level, path, o);
    ImageOfTotal(Speller(fr, level), ChildrenFacts(fr, o), ChildStatements(o));
    ImageSum(Speller(fr, level), multiset(Own(fr, o)), Total(ChildrenFacts(fr, o)));
  }

  lemma {:induction false} OwnSays(fr: Forest, level: nat, o: Object)
    requires Ready(fr, level) && Renders(fr, o) && Owner(fr, o.origin) == o.origin
    ensures OwnStatements(o) == Mapped(Speller(fr, level), Own(fr, o))
    decreases o, 2
  {
    if o.NodeObject? {
      if o.graph.Graph? { GraphSays(fr, level, o); }
      NodeSays(fr, level, o);
    } else {
      ListSays(fr, level, o);
    }
  }

  lemma {:induction false} ChildrenSay(fr: Forest, level: nat, path: seq<Handle>, o: Object)
    requires Ready(fr, level) && IsPath(fr, path) && Renders(fr, o) && path[|path| - 1] == o.origin
    ensures forall k ::
              0 <= k < Count(o) ==> ChildStatements(o)[k] == Image(Speller(fr, level), ChildrenFacts(fr, o)[k])
    decreases o, 1
  {
    forall k | 0 <= k < Count(o) ensures ChildStatements(o)[k] == Image(Speller(fr, level), ChildrenFacts(fr, o)[k]) {
      ChildSays(fr, level, path, o, k);
    }
  }

  lemma {:induction false} ChildSays(fr: Forest, level: nat, path: seq<Handle>, o: Object, k: nat)
    requires Ready(fr, level) && IsPath(fr, path) && Renders(fr, o) && path[|path| - 1] == o.origin && k < Count(o)
    ensures Statements(Child(o, k)) == Image(Speller(fr, level), Facts(fr, Child(o, k)))
    decreases o, 0
  {
    var child := Child(o, k);
    assert RendersValue(fr, child);
    if IsNested(fr.g, child.origin) {
      LeadsOfOwn(fr, path, o);
      LeadLeads(fr, o, k);
      PathExtends(fr, path, Leads(fr, o)[k], child.origin);
      SaysItsFacts(fr, level, path + [child.origin], child);
    } else {
      ReferenceStatesNothing(fr, child);
      ReferenceSaysNothing(fr, child);
    }
  }

  lemma {:induction false} ReferenceSaysNothing(fr: Forest, o: Object)
    requires IsReference(fr.interp, o)
    ensures Statements(o) == multiset{}
  {
  }

  lemma {:induction false} GraphIsReady(fr: Forest, level: nat, x: Handle)
    requires Ready(fr, level) && x in fr.g && fr.g[x].graph.Some?
    ensures level == 1 && Ready(Inner(fr, x), 0)
  {
  }

  lemma {:induction false} SpellGraph(fr: Forest, x: Handle)
    requires x in fr.g && fr.g[x].graph.Some?
    ensures Spell(fr, 1, GraphFact(x)) ==
            GraphStatement(IdName(IdOf(fr.interp, x)),
                Image(Speller(Inner(fr, x), 0), multiset(WrittenFacts(Inner(fr, x)))))
  {
  }

  lemma {:induction false} GraphSays(fr: Forest, level: nat, o: Object)
    requires Ready(fr, level) && Renders(fr, o) && o.NodeObject? && o.graph.Graph?
    ensures GraphStatement(NameOf(o), DocumentStatements(o.graph.content)) == Spell(fr, level, GraphFact(o.origin))
    decreases o, 1
  {
    GraphIsReady(fr, level, o.origin);
    ContentSays(Inner(fr, o.origin), o.graph.content);
    SpellGraph(fr, o.origin);
  }

  /** The content of a named graph says exactly what is written in it. */
  lemma {:induction false} ContentSays(fr: Forest, content: seq<Object>)
    requires Ready(fr, 0) && RendersAll(fr, content)
    ensures DocumentStatements(content) == Image(Speller(fr, 0), multiset(WrittenFacts(fr)))
    decreases content, 4
  {
    forall i | 0 <= i < |content| ensures IsRoot(fr.g, content[i].origin) {
      assert OriginsOf(content)[i] in Roots(fr.g);
    }
    DocumentSays(fr, 0, content);
    ContentStates(fr, content);
  }

  lemma {:induction false} DocumentSays(fr: Forest, level: nat, doc: seq<Object>)
    requires Ready(fr, level)
    requires forall i :: 0 <= i < |doc| ==> IsRoot(fr.g, doc[i].origin) && Renders(fr, doc[i])
    ensures DocumentStatements(doc) == Image(Speller(fr, level), DocumentFacts(fr, doc))
    decreases doc, 3
  {
    var facts := seq(|doc|, i requires 0 <= i < |doc| => Facts(fr, doc[i]));
    forall i | 0 <= i < |doc| ensures EachStatements(doc)[i] == Image(Speller(fr, level), facts[i]) {
      RootPath(fr, doc[i].origin);
      SaysItsFacts(fr, level, [doc[i].origin], doc[i]);
    }
    ImageOfTotal(Speller(fr, level), facts, EachStatements(doc));
  }
}
