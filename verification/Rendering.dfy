/**
 What rendering a resource must give, and what the objects it gives state
 (jsonld-core/src/serialization.rs:381-595).

 `Renders` specifies the object written for a resource by looking at its record alone:
 each type, value and link of the record that has a name is written once, under that
 name, as a nested object or as a reference. That such objects state every fact below
 their resource once, and no other, is then a theorem about them.
 */
module Rendering {
  import opened Wrappers
  import opened RdfModel
  import opened ListFolding
  import opened RenderForest
  import opened Tallies

  datatype TypeEntry = TypeEntry(origin: RdfType, id: Id)

  datatype Key = FirstKey | RestKey | OtherKey(property: Handle)

  datatype Entry = Entry(key: Key, id: Id, value: Object)

  datatype GraphEntry = NoGraph | Graph(content: seq<Object>)

  /** A JSON-LD object. What it was rendered for, its `origin`s and `key`s, is not part of the document. */
  datatype Object =
    | NodeObject(origin: Handle, id: Option<Id>, types: Option<seq<TypeEntry>>, graph: GraphEntry, entries: seq<Entry>)
    | ListObject(origin: Handle, items: seq<Object>)
    | ValueObject(origin: Handle, value: Value)

  function TypesOf(types: Option<seq<TypeEntry>>): seq<TypeEntry>
  {
    if types.Some? then types.value else []
  }

  /** The number of objects directly inside `o`. */
  function Count(o: Object): nat
  {
    match o
    case NodeObject(_, _, _, _, entries) => |entries|
    case ListObject(_, items) => |items|
    case ValueObject(_, _) => 0
  }

  function Child(o: Object, k: nat): (child: Object)
    requires k < Count(o)
    ensures child < o
  {
    match o
    case NodeObject(_, _, _, _, entries) => assert entries[k] < o; entries[k].value
    case ListObject(_, items) => items[k]
  }

  // ----- the object a resource is rendered as

  /** `x` is written where it is referred to: it is referenced once and something is said about it. */
  predicate IsNested(g: SerGraph, x: Handle)
  {
    x in g && g[x].references == 1 && !g[x].IsEmpty()
  }

  /** `o` refers to its resource: by its identifier, as its literal, or as an empty node when it has neither. */
  predicate IsReference(interp: Interpretation, o: Object)
  {
    match TermOf(interp, o.origin)
    case Ok(Some(IdTerm(id))) => o == NodeObject(o.origin, Some(id), None, NoGraph, [])
    case Ok(Some(LiteralTerm(value))) => o == ValueObject(o.origin, value)
    case Ok(None) => o == NodeObject(o.origin, None, None, NoGraph, [])
    case Err(_) => false
  }

  function TermName(interp: Interpretation, term: Option<Handle>): Option<Id>
  {
    if term.Some? then IdOf(interp, term.value) else None
  }

  function TypeName(fr: Forest, ty: RdfType): Option<Id>
  {
    match ty
    case ListType => TermName(fr.interp, fr.terms.list)
    case OtherType(t) => IdOf(fr.interp, t)
  }

  function KeyName(fr: Forest, key: Key): Option<Id>
  {
    match key
    case FirstKey => TermName(fr.interp, fr.terms.first)
    case RestKey => TermName(fr.interp, fr.terms.rest)
    case OtherKey(p) => IdOf(fr.interp, p)
  }

  function NamedOf(fr: Forest, types: set<RdfType>): set<RdfType>
  {
    set t | t in types && TypeName(fr, t).Some?
  }

  function NamedTypes(fr: Forest, x: Handle): set<RdfType>
    requires x in fr.g
  {
    NamedOf(fr, fr.g[x].types)
  }

  /** A value of a node, with the property it is under. */
  datatype Slot = Slot(key: Key, value: Handle)

  function KeySlots(key: Key, values: set<Handle>): set<Slot>
  {
    set v | v in values :: Slot(key, v)
  }

  function PropertySlots(fr: Forest, x: Handle, properties: set<Handle>): set<Slot>
    requires x in fr.g
  {
    set p, v | p in properties && p in fr.g[x].properties && v in fr.g[x].properties[p] && IdOf(fr.interp, p).Some?
      :: Slot(OtherKey(p), v)
  }

  function NamedSlots(fr: Forest, x: Handle): set<Slot>
    requires x in fr.g
  {
    PropertySlots(fr, x, fr.g[x].properties.Keys) + KeySlots(FirstKey, fr.g[x].first) + KeySlots(RestKey, fr.g[x].rest)
  }

  function Origins(types: seq<TypeEntry>): seq<RdfType>
  {
    seq(|types|, i requires 0 <= i < |types| => types[i].origin)
  }

  function SlotsOf(entries: seq<Entry>): seq<Slot>
  {
    seq(|entries|, i requires 0 <= i < |entries| => Slot(entries[i].key, entries[i].value.origin))
  }

  function OriginsOf(objects: seq<Object>): seq<Handle>
  {
    seq(|objects|, i requires 0 <= i < |objects| => objects[i].origin)
  }

  predicate TypesNamed(fr: Forest, types: seq<TypeEntry>)
  {
    forall i :: 0 <= i < |types| ==> TypeName(fr, types[i].origin) == Some(types[i].id)
  }

  predicate EntriesNamed(fr: Forest, entries: seq<Entry>)
  {
    forall i :: 0 <= i < |entries| ==> KeyName(fr, entries[i].key) == Some(entries[i].id)
  }

  /** `o` is what the resource it was rendered for is written as. */
  ghost predicate Renders(fr: Forest, o: Object)
    decreases o, 0
  {
    && (o.NodeObject? ==>
          && o.origin in fr.g && fr.g[o.origin].values.None?
          && o.id == IdOf(fr.interp, o.origin)
          && (o.types.Some? ==> o.types.value != [])
          && TypesNamed(fr, TypesOf(o.types))
          && Enumerates(Origins(TypesOf(o.types)), NamedTypes(fr, o.origin))
          && (o.graph.Graph? <==> fr.g[o.origin].graph.Some?)
          && (o.graph.Graph? ==> RendersAll(Inner(fr, o.origin), o.graph.content))
          && EntriesNamed(fr, o.entries)
          && Enumerates(SlotsOf(o.entries), NamedSlots(fr, o.origin)))
    && (o.ListObject? ==>
          && o.origin in fr.g && fr.g[o.origin].values == Some(OriginsOf(o.items)))
    && !o.ValueObject?
    && forall k :: 0 <= k < Count(o) ==> RendersValue(fr, Child(o, k))
  }

  /** A resource is written in place when it is nested, and referred to otherwise. */
  ghost predicate RendersValue(fr: Forest, o: Object)
    decreases o, 1
  {
    if IsNested(fr.g, o.origin) then Renders(fr, o) else IsReference(fr.interp, o)
  }

  function Roots(g: SerGraph): set<Handle>
  {
    set x | x in g && IsRoot(g, x)
  }

  /** The content of a named graph: each of its roots, once. */
  ghost predicate RendersAll(fr: Forest, content: seq<Object>)
    decreases content, 0
  {
    && Enumerates(OriginsOf(content), Roots(fr.g))
    && forall i :: 0 <= i < |content| ==> Renders(fr, content[i])
  }

  // ----- what an object states

  function KeyFact(s: Handle, key: Key, v: Handle): Fact
  {
    match key
    case FirstKey => FirstFact(s, v)
    case RestKey => RestFact(s, v)
    case OtherKey(p) => PropertyFact(s, p, v)
  }

  function TypeFacts(s: Handle, types: seq<TypeEntry>): seq<Fact>
  {
    seq(|types|, i requires 0 <= i < |types| => TypeFact(s, types[i].origin))
  }

  function EntryFacts(s: Handle, entries: seq<Entry>): seq<Fact>
  {
    seq(|entries|, i requires 0 <= i < |entries| => KeyFact(s, entries[i].key, entries[i].value.origin))
  }

  function FirstFacts(cells: seq<Handle>, values: seq<Handle>): seq<Fact>
    requires |cells| == |values|
  {
    seq(|cells|, k requires 0 <= k < |cells| => FirstFact(cells[k], values[k]))
  }

  function RestFacts(cells: seq<Handle>, nil: Handle): seq<Fact>
  {
    seq(|cells|, k requires 0 <= k < |cells| => RestFact(cells[k], NextOf(cells, nil, k)))
  }

  /** `o` is the list headed by its resource, as far as its length goes. */
  ghost predicate HasCells(fr: Forest, o: Object)
  {
    o.ListObject? && o.origin in fr.lists && fr.nil.Some? && |fr.lists[o.origin]| == |o.items|
  }

  /** The facts `o` states about its own resource; a list object states the links of its list. */
  ghost function Own(fr: Forest, o: Object): seq<Fact>
  {
    match o
    case NodeObject(s, _, types, graph, entries) =>
      TypeFacts(s, TypesOf(types)) + (if graph.Graph? then [GraphFact(s)] else []) + EntryFacts(s, entries)
    case ListObject(head, items) =>
      if HasCells(fr, o) then
        FirstFacts(fr.lists[head], OriginsOf(items)) + RestFacts(fr.lists[head], fr.nil.value)
      else []
    case ValueObject(_, _) => []
  }

  /** The facts `o` and all the objects inside it state; the content of a named graph is read separately. */
  ghost function Facts(fr: Forest, o: Object): multiset<Fact>
    decreases o, 1
  {
    multiset(Own(fr, o)) + Total(ChildrenFacts(fr, o))
  }

  ghost function ChildrenFacts(fr: Forest, o: Object): seq<multiset<Fact>>
    decreases o, 0
  {
    seq(Count(o), k requires 0 <= k < Count(o) => Facts(fr, Child(o, k)))
  }

  ghost function DocumentFacts(fr: Forest, doc: seq<Object>): multiset<Fact>
  {
    Total(seq(|doc|, i requires 0 <= i < |doc| => Facts(fr, doc[i])))
  }

  // ----- it states what is below its resource

  /** Everything rendering relies on; only the default graph, at level one, has named graphs. */
  ghost predicate Ready(fr: Forest, level: nat)
    decreases level
  {
    && Valid(fr) && TermsReady(fr)
    && forall x :: x in fr.g && fr.g[x].graph.Some? ==> level == 1 && Ready(Inner(fr, x), 0)
  }

  /** The vocabulary terms `fr` needs written are known, and have a name. */
  ghost predicate TermsReady(fr: Forest)
  {
    forall x :: x in fr.g ==>
      && (ListType in fr.g[x].types ==> TypeName(fr, ListType).Some?)
      && (fr.g[x].first != {} ==> KeyName(fr, FirstKey).Some?)
      && (fr.g[x].rest != {} ==> KeyName(fr, RestKey).Some?)
  }

  lemma NodeOwnFacts(fr: Forest, id: Handle, f: Fact)
    requires Valid(fr) && id in fr.g && fr.g[id].values.None? && Owner(fr, id) == id
    ensures f in OwnFacts(fr, id) <==> f.subject == id && Holds(fr.g, f) && Writes(fr, f)
  {
    if f in OwnFacts(fr, id) && InList(fr, f.subject) { HeadOwner(fr, id); }
  }

  ghost function TypeSet(s: Handle, types: set<RdfType>): set<Fact>
  {
    set t | t in types :: TypeFact(s, t)
  }

  ghost function SlotSet(s: Handle, slots: set<Slot>): set<Fact>
  {
    set slot | slot in slots :: KeyFact(s, slot.key, slot.value)
  }

  ghost function GraphSet(fr: Forest, s: Handle): set<Fact>
    requires s in fr.g
  {
    if fr.g[s].graph.Some? then {GraphFact(s)} else {}
  }

  lemma TypesListed(s: Handle, types: seq<TypeEntry>, all: set<RdfType>)
    requires Enumerates(Origins(types), all)
    ensures Enumerates(TypeFacts(s, types), TypeSet(s, all))
  {
    var origins, facts := Origins(types), TypeFacts(s, types);
    forall i, j | 0 <= i < j < |facts| ensures facts[i] != facts[j] { assert origins[i] != origins[j]; }
    forall i | 0 <= i < |facts| ensures facts[i] in TypeSet(s, all) { assert origins[i] in all; }
    forall f | f in TypeSet(s, all) ensures f in facts {
      var k :| 0 <= k < |origins| && origins[k] == f.ty;
      assert facts[k] == f;
    }
  }

  lemma SlotsListed(s: Handle, entries: seq<Entry>, all: set<Slot>)
    requires Enumerates(SlotsOf(entries), all)
    ensures Enumerates(EntryFacts(s, entries), SlotSet(s, all))
  {
    var slots, facts := SlotsOf(entries), EntryFacts(s, entries);
    forall i, j | 0 <= i < j < |facts| ensures facts[i] != facts[j] { assert slots[i] != slots[j]; }
    forall i | 0 <= i < |facts| ensures facts[i] in SlotSet(s, all) { assert slots[i] in all; }
    forall f | f in SlotSet(s, all) ensures f in facts {
      var slot :| slot in all && KeyFact(s, slot.key, slot.value) == f;
      var k :| 0 <= k < |slots| && slots[k] == slot;
      assert facts[k] == f;
    }
  }

  /** The facts written about a node are those of its named types, its graph and its named values. */
  lemma NodeOwns(fr: Forest, s: Handle)
    requires Valid(fr) && TermsReady(fr) && s in fr.g && fr.g[s].values.None? && Owner(fr, s) == s
    ensures OwnFacts(fr, s) == TypeSet(s, NamedTypes(fr, s)) + GraphSet(fr, s) + SlotSet(s, NamedSlots(fr, s))
  {
    if InList(fr, s) { HeadOwner(fr, s); }
    forall f ensures f in OwnFacts(fr, s)
        <==> f in TypeSet(s, NamedTypes(fr, s)) + GraphSet(fr, s) + SlotSet(s, NamedSlots(fr, s)) {
      NodeOwnFacts(fr, s, f);
      match f {
        case TypeFact(x, t) =>
        case GraphFact(x) =>
        case FirstFact(x, v) => if x == s { SlotIs(fr, f, Slot(FirstKey, v)); }
        case RestFact(x, v) => if x == s { SlotIs(fr, f, Slot(RestKey, v)); }
        case PropertyFact(x, p, v) => if x == s { SlotIs(fr, f, Slot(OtherKey(p), v)); }
      }
    }
  }

  lemma SlotIs(fr: Forest, f: Fact, slot: Slot)
    requires f.subject in fr.g && f == KeyFact(f.subject, slot.key, slot.value)
    ensures f in SlotSet(f.subject, NamedSlots(fr, f.subject)) <==> Holds(fr.g, f) && Writes(fr, f)
  {
    assert f in SlotSet(f.subject, NamedSlots(fr, f.subject)) <==> slot in NamedSlots(fr, f.subject);
  }

  lemma ThreeListed<T>(r: seq<T>, s: seq<T>, t: seq<T>, a: set<T>, b: set<T>, c: set<T>)
    requires Enumerates(r, a) && Enumerates(s, b) && Enumerates(t, c) && a !! b && a !! c && b !! c
    ensures Enumerates(r + s + t, a + b + c)
  {
    EnumeratesBoth(r, s, a, b);
    EnumeratesBoth(r + s, t, a + b, c);
  }

  lemma PartsApart(fr: Forest, s: Handle)
    requires s in fr.g
    ensures var types, graph, slots := TypeSet(s, NamedTypes(fr, s)), GraphSet(fr, s), SlotSet(s, NamedSlots(fr, s));
            types !! graph && types !! slots && graph !! slots
  {
  }

  lemma {:induction false} NodeListsOwn(fr: Forest, o: Object)
    requires Valid(fr) && TermsReady(fr) && o.NodeObject? && Renders(fr, o) && Owner(fr, o.origin) == o.origin
    ensures Enumerates(Own(fr, o), OwnFacts(fr, o.origin))
  {
    var s, types := o.origin, TypesOf(o.types);
    var graph := if o.graph.Graph? then [GraphFact(s)] else [];
    NodeOwns(fr, s);
    TypesListed(s, types, NamedTypes(fr, s));
    SlotsListed(s, o.entries, NamedSlots(fr, s));
    assert Enumerates(graph, GraphSet(fr, s));
    PartsApart(fr, s);
    ThreeListed(TypeFacts(s, types), graph, EntryFacts(s, o.entries),
                TypeSet(s, NamedTypes(fr, s)), GraphSet(fr, s), SlotSet(s, NamedSlots(fr, s)));
  }

  // ----- list objects

  ghost predicate FoldedAt(fr: Forest, h: Handle, cells: seq<Handle>, values: seq<Handle>, nil: Handle)
  {
    && h in fr.lists && fr.lists[h] == cells && fr.nil == Some(nil)
    && h in fr.g && fr.g[h].values == Some(values) && |cells| == |values|
  }

  lemma ListFolded(fr: Forest, h: Handle)
    requires Valid(fr) && h in fr.g && fr.g[h].values.Some?
    ensures h in fr.lists && fr.nil.Some? && FoldedAt(fr, h, fr.lists[h], fr.g[h].values.value, fr.nil.value)
  {
    HeadOwner(fr, h);
    CellLink(fr, h, 0);
  }

  lemma LinkIsHeld(fr: Forest, h: Handle, cells: seq<Handle>, values: seq<Handle>, nil: Handle, k: nat)
    requires Valid(fr) && FoldedAt(fr, h, cells, values, nil) && k < |cells|
    ensures Holds(fr.g, FirstFact(cells[k], values[k])) && Holds(fr.g, RestFact(cells[k], NextOf(cells, nil, k)))
  {
    CellLink(fr, h, k);
    assert fr.g[cells[k]].first == {values[k]};
  }

  lemma LinkIsOwned(fr: Forest, h: Handle, cells: seq<Handle>, values: seq<Handle>, nil: Handle, k: nat)
    requires Valid(fr) && FoldedAt(fr, h, cells, values, nil) && k < |cells|
    ensures FirstFact(cells[k], values[k]) in OwnFacts(fr, h)
        && RestFact(cells[k], NextOf(cells, nil, k)) in OwnFacts(fr, h)
    ensures Nests(fr, FirstFact(cells[k], values[k])) && !Nests(fr, RestFact(cells[k], NextOf(cells, nil, k)))
  {
    CellOwner(fr, h, cells[k]);
    LinkIsHeld(fr, h, cells, values, nil, k);
  }

  lemma OwnedIsLink(fr: Forest, h: Handle, cells: seq<Handle>, values: seq<Handle>, nil: Handle, f: Fact)
    requires Valid(fr) && FoldedAt(fr, h, cells, values, nil) && f in OwnFacts(fr, h)
    ensures f in FirstFacts(cells, values) + RestFacts(cells, nil)
  {
    HeadOwner(fr, h);
    assert InList(fr, f.subject);
    var k :| 0 <= k < |cells| && cells[k] == f.subject;
    CellLink(fr, h, k);
    assert fr.g[cells[k]].first == {values[k]};
    assert f == FirstFacts(cells, values)[k] || f == RestFacts(cells, nil)[k];
  }

  lemma CellsDistinct(fr: Forest, h: Handle, cells: seq<Handle>, values: seq<Handle>, nil: Handle)
    requires Valid(fr) && FoldedAt(fr, h, cells, values, nil)
    ensures forall i, j :: 0 <= i < j < |cells| ==> cells[i] != cells[j]
  {
    assert IsMaximalChain(fr.interp, fr.g, nil, h, cells);
    forall i, j | 0 <= i < j < |cells| ensures cells[i] != cells[j] {
      ChainDistinct(fr.interp, fr.g, nil, cells, i, j);
    }
  }

  lemma LinksDistinct(cells: seq<Handle>, values: seq<Handle>, nil: Handle)
    requires |cells| == |values| && forall i, j :: 0 <= i < j < |cells| ==> cells[i] != cells[j]
    ensures var links := FirstFacts(cells, values) + RestFacts(cells, nil);
            forall i, j :: 0 <= i < j < |links| ==> links[i] != links[j]
  {
    var n := |cells|;
    var links := FirstFacts(cells, values) + RestFacts(cells, nil);
    forall i, j | 0 <= i < j < |links| ensures links[i] != links[j] {
      assert links[i].subject == cells[if i < n then i else i - n];
      assert links[j].subject == cells[if j < n then j else j - n];
      assert links[i].FirstFact? <==> i < n;
      assert links[j].FirstFact? <==> j < n;
    }
  }

  /** The facts written for a folded list are its links, each of them once. */
  lemma ListListsOwn(fr: Forest, h: Handle, cells: seq<Handle>, values: seq<Handle>, nil: Handle)
    requires Valid(fr) && FoldedAt(fr, h, cells, values, nil)
    ensures Enumerates(FirstFacts(cells, values) + RestFacts(cells, nil), OwnFacts(fr, h))
  {
    CellsDistinct(fr, h, cells, values, nil);
    LinksDistinct(cells, values, nil);
    forall k | 0 <= k < |cells|
      ensures FirstFacts(cells, values)[k] in OwnFacts(fr, h) && RestFacts(cells, nil)[k] in OwnFacts(fr, h)
    {
      LinkIsOwned(fr, h, cells, values, nil, k);
    }
    forall f | f in OwnFacts(fr, h) ensures f in FirstFacts(cells, values) + RestFacts(cells, nil) {
      OwnedIsLink(fr, h, cells, values, nil, f);
    }
  }

  /** What a rendered object states about its own resource is what is written about it, each fact once. */
  lemma {:induction false} OwnListsOwn(fr: Forest, o: Object)
    requires Valid(fr) && TermsReady(fr) && Renders(fr, o) && Owner(fr, o.origin) == o.origin
    ensures Enumerates(Own(fr, o), OwnFacts(fr, o.origin))
  {
    if o.NodeObject? {
      NodeListsOwn(fr, o);
    } else {
      ListFolded(fr, o.origin);
      ListListsOwn(fr, o.origin, fr.lists[o.origin], OriginsOf(o.items), fr.nil.value);
    }
  }

  /** The facts through which the objects inside `o` are nested. */
  ghost function Leads(fr: Forest, o: Object): (leads: seq<Fact>)
    requires o.ListObject? ==> HasCells(fr, o)
    ensures |leads| == Count(o)
  {
    match o
    case NodeObject(s, _, _, _, entries) => EntryFacts(s, entries)
    case ListObject(head, items) => FirstFacts(fr.lists[head], OriginsOf(items))
    case ValueObject(_, _) => []
  }

  /** `k` is the position among the facts `o` states about its resource of the lead to its `n`-th child. */
  ghost predicate LeadAt(fr: Forest, o: Object, n: nat, k: int)
    requires o.ListObject? ==> HasCells(fr, o)
  {
    && (o.NodeObject? ==> k == |Own(fr, o)| - Count(o) + n)
    && (o.ListObject? ==> k == n)
    && 0 <= k < |Own(fr, o)|
  }

  lemma LeadIsOwn(fr: Forest, o: Object, n: nat) returns (k: int)
    requires (o.ListObject? ==> HasCells(fr, o)) && n < Count(o)
    ensures LeadAt(fr, o, n, k) && Own(fr, o)[k] == Leads(fr, o)[n]
  {
    k := if o.NodeObject? then |Own(fr, o)| - Count(o) + n else n;
  }

  lemma LeadsAreOwn(fr: Forest, o: Object)
    requires o.ListObject? ==> HasCells(fr, o)
    requires Enumerates(Own(fr, o), OwnFacts(fr, o.origin))
    ensures AreLeads(fr, o.origin, Leads(fr, o))
  {
    var leads := Leads(fr, o);
    forall n | 0 <= n < |leads| ensures leads[n] in OwnFacts(fr, o.origin) { var k := LeadIsOwn(fr, o, n); }
    forall m, n | 0 <= m < n < |leads| ensures leads[m] != leads[n] {
      var i := LeadIsOwn(fr, o, m);
      var j := LeadIsOwn(fr, o, n);
      assert i < j;
    }
  }

  lemma {:induction false} LeadLeads(fr: Forest, o: Object, k: nat)
    requires Valid(fr) && Renders(fr, o) && Owner(fr, o.origin) == o.origin
    requires (o.ListObject? ==> HasCells(fr, o)) && k < Count(o)
    ensures Nests(fr, Leads(fr, o)[k]) && Leads(fr, o)[k].Target() == Some(Child(o, k).origin)
  {
    if o.NodeObject? {
      if InList(fr, o.origin) { HeadOwner(fr, o.origin); }
      assert KeyName(fr, o.entries[k].key) == Some(o.entries[k].id);
    }
  }

  lemma {:induction false} LeadsOfOwn(fr: Forest, path: seq<Handle>, o: Object)
    requires Valid(fr) && TermsReady(fr) && IsPath(fr, path) && Renders(fr, o) && path[|path| - 1] == o.origin
    ensures o.ListObject? ==> HasCells(fr, o)
    ensures AreLeads(fr, o.origin, Leads(fr, o))
  {
    if o.ListObject? { ListFolded(fr, o.origin); }
    OwnListsOwn(fr, o);
    LeadsAreOwn(fr, o);
  }

  lemma OwnButLeads(fr: Forest, o: Object, e: Fact)
    requires (o.ListObject? ==> HasCells(fr, o)) && e in Own(fr, o)
    ensures e in Leads(fr, o) || (o.NodeObject? && e.Target().None?)
        || (o.ListObject? && e in RestFacts(fr.lists[o.origin], fr.nil.value))
  {
    var k :| 0 <= k < |Own(fr, o)| && Own(fr, o)[k] == e;
    var before := if o.NodeObject? then |Own(fr, o)| - Count(o) else 0;
    if before <= k < before + Count(o) { assert Leads(fr, o)[k - before] == e; }
  }

  lemma RestNestsNothing(fr: Forest, h: Handle, cells: seq<Handle>, values: seq<Handle>, nil: Handle, e: Fact)
    requires Valid(fr) && FoldedAt(fr, h, cells, values, nil) && e in RestFacts(cells, nil)
    ensures ChildFacts(fr, e) == {}
  {
    var k :| 0 <= k < |cells| && RestFacts(cells, nil)[k] == e;
    LinkIsOwned(fr, h, cells, values, nil, k);
  }

  /** Only the leads of an object nest anything. */
  lemma {:induction false} OthersNestNothing(fr: Forest, path: seq<Handle>, o: Object, e: Fact)
    requires Valid(fr) && TermsReady(fr) && IsPath(fr, path) && Renders(fr, o) && path[|path| - 1] == o.origin
    requires (o.ListObject? ==> HasCells(fr, o)) && e in OwnFacts(fr, o.origin)
    ensures e in Leads(fr, o) || ChildFacts(fr, e) == {}
  {
    OwnListsOwn(fr, o);
    OwnButLeads(fr, o, e);
    if o.ListObject? && e in RestFacts(fr.lists[o.origin], fr.nil.value) {
      ListFolded(fr, o.origin);
      RestNestsNothing(fr, o.origin, fr.lists[o.origin], OriginsOf(o.items), fr.nil.value, e);
    }
  }

  lemma {:induction false} LeadsCover(fr: Forest, path: seq<Handle>, o: Object)
    requires Valid(fr) && TermsReady(fr) && IsPath(fr, path) && Renders(fr, o) && path[|path| - 1] == o.origin
    ensures o.ListObject? ==> HasCells(fr, o)
    ensures AreLeads(fr, o.origin, Leads(fr, o))
    ensures forall e :: e in OwnFacts(fr, o.origin) && ChildFacts(fr, e) != {} ==> e in Leads(fr, o)
  {
    LeadsOfOwn(fr, path, o);
    forall e | e in OwnFacts(fr, o.origin) && ChildFacts(fr, e) != {} ensures e in Leads(fr, o) {
      OthersNestNothing(fr, path, o, e);
    }
  }

  lemma {:induction false} ReferenceStatesNothing(fr: Forest, o: Object)
    requires IsReference(fr.interp, o)
    ensures Facts(fr, o) == multiset{}
  {
  }

  /** What a lead nests is what the object it leads to states. */
  lemma {:induction false} LeadNests(fr: Forest, path: seq<Handle>, o: Object, k: nat)
    requires Valid(fr) && TermsReady(fr) && IsPath(fr, path) && Renders(fr, o) && path[|path| - 1] == o.origin
    requires k < Count(o) && (o.ListObject? ==> HasCells(fr, o))
    ensures Facts(fr, Child(o, k)) == multiset(ChildFacts(fr, Leads(fr, o)[k]))
    decreases o, 0
  {
    OwnListsOwn(fr, o);
    LeadsAreOwn(fr, o);
    LeadLeads(fr, o, k);
    var lead, child := Leads(fr, o)[k], Child(o, k);
    assert RendersValue(fr, child);
    if IsNested(fr.g, child.origin) {
      assert Edge(fr, lead, child.origin);
      PathExtends(fr, path, lead, child.origin);
      StatesBelow(fr, path + [child.origin], child);
    } else {
      ReferenceStatesNothing(fr, child);
      if Edge(fr, lead, child.origin) {
        ChildOwnsItself(fr, lead, child.origin);
        EmptyOwnsNothing(fr, child.origin);
      }
    }
  }

  lemma {:induction false} LeadsNest(fr: Forest, path: seq<Handle>, o: Object)
    requires Valid(fr) && TermsReady(fr) && IsPath(fr, path) && Renders(fr, o) && path[|path| - 1] == o.origin
    requires o.ListObject? ==> HasCells(fr, o)
    ensures ChildrenFacts(fr, o) == Counted(Nested(fr, Leads(fr, o)))
    decreases o, 1
  {
    forall k | 0 <= k < Count(o) ensures ChildrenFacts(fr, o)[k] == Counted(Nested(fr, Leads(fr, o)))[k] {
      LeadNests(fr, path, o, k);
    }
  }

  /** A rendered object states every fact below its resource once, and no other. */
  lemma {:induction false} StatesBelow(fr: Forest, path: seq<Handle>, o: Object)
    requires Valid(fr) && TermsReady(fr) && IsPath(fr, path) && Renders(fr, o) && path[|path| - 1] == o.origin
    ensures Facts(fr, o) == multiset(BelowFacts(fr, o.origin))
    decreases o, 2
  {
    LeadsCover(fr, path, o);
    var leads := Leads(fr, o);
    BelowSplits(fr, path, leads);
    OwnListsOwn(fr, o);
    EnumerationCounts(Own(fr, o), OwnFacts(fr, o.origin));
    LeadsNest(fr, path, o);
  }

  // ----- documents

  ghost function BelowSets(fr: Forest, roots: seq<Handle>): seq<set<Fact>>
  {
    seq(|roots|, i requires 0 <= i < |roots| => BelowFacts(fr, roots[i]))
  }

  lemma BelowSetsApart(fr: Forest, roots: seq<Handle>)
    requires Valid(fr) && forall i :: 0 <= i < |roots| ==> IsRoot(fr.g, roots[i])
    requires forall i, j :: 0 <= i < j < |roots| ==> roots[i] != roots[j]
    ensures forall i, k :: 0 <= i < k < |roots| ==> BelowSets(fr, roots)[i] !! BelowSets(fr, roots)[k]
  {
    forall i, k | 0 <= i < k < |roots| ensures BelowFacts(fr, roots[i]) !! BelowFacts(fr, roots[k]) {
      forall f | f in BelowFacts(fr, roots[i]) ensures f !in BelowFacts(fr, roots[k]) {
        if f in BelowFacts(fr, roots[k]) { RootsDisjoint(fr, roots[i], roots[k], Owner(fr, f.subject)); }
      }
    }
  }

  lemma BelowSetsUnion(fr: Forest, roots: seq<Handle>, all: set<Handle>)
    requires Enumerates(roots, all)
    ensures UnionAll({}, BelowSets(fr, roots)) == FactsUnder(fr, all)
  {
    forall f ensures f in UnionAll({}, BelowSets(fr, roots)) <==> f in FactsUnder(fr, all) {
      UnionHas({}, BelowSets(fr, roots), f);
      if f in FactsUnder(fr, all) {
        var r :| r in all && IsBelow(fr, r, Owner(fr, f.subject));
        var k :| 0 <= k < |roots| && roots[k] == r;
        assert f in BelowSets(fr, roots)[k];
      }
    }
  }

  lemma {:induction false} RootStates(fr: Forest, o: Object)
    requires Valid(fr) && TermsReady(fr) && IsRoot(fr.g, o.origin) && Renders(fr, o)
    ensures Facts(fr, o) == multiset(BelowFacts(fr, o.origin))
  {
    RootPath(fr, o.origin);
    StatesBelow(fr, [o.origin], o);
  }

  lemma {:induction false} EachStates(fr: Forest, doc: seq<Object>)
    requires Valid(fr) && TermsReady(fr)
    requires forall i :: 0 <= i < |doc| ==> IsRoot(fr.g, doc[i].origin) && Renders(fr, doc[i])
    ensures DocumentFacts(fr, doc) == Total(Counted(BelowSets(fr, OriginsOf(doc))))
  {
    var facts := seq(|doc|, i requires 0 <= i < |doc| => Facts(fr, doc[i]));
    forall i | 0 <= i < |doc| ensures facts[i] == Counted(BelowSets(fr, OriginsOf(doc)))[i] {
      RootStates(fr, doc[i]);
    }
    assert facts == Counted(BelowSets(fr, OriginsOf(doc)));
  }

  /** Rendered roots state everything under them, each fact once. */
  lemma {:induction false} DocumentStates(fr: Forest, doc: seq<Object>, roots: set<Handle>)
    requires Valid(fr) && TermsReady(fr) && Enumerates(OriginsOf(doc), roots)
    requires forall i :: 0 <= i < |doc| ==> IsRoot(fr.g, doc[i].origin) && Renders(fr, doc[i])
    ensures DocumentFacts(fr, doc) == multiset(FactsUnder(fr, roots))
  {
    EachStates(fr, doc);
    BelowSetsApart(fr, OriginsOf(doc));
    BelowSetsUnion(fr, OriginsOf(doc), roots);
    UnionCounts({}, BelowSets(fr, OriginsOf(doc)));
  }

  /** The content of a named graph states everything written in it. */
  lemma {:induction false} ContentStates(fr: Forest, content: seq<Object>)
    requires Valid(fr) && TermsReady(fr) && RendersAll(fr, content)
    ensures DocumentFacts(fr, content) == multiset(WrittenFacts(fr))
  {
    forall i | 0 <= i < |content| ensures IsRoot(fr.g, content[i].origin) {
      assert OriginsOf(content)[i] in Roots(fr.g);
    }
    DocumentStates(fr, content, Roots(fr.g));
    FactsUnderAllRoots(fr, Roots(fr.g));
  }

  // ----- when rendering fails

  /** The value of `f` is to be referred to, and is a literal that does not resolve. */
  ghost predicate Dangles(fr: Forest, f: Fact, e: SerializationError)
  {
    Nests(fr, f) && !IsNested(fr.g, f.Target().value) && TermOf(fr.interp, f.Target().value) == Err(e)
  }

  /** Writing `f` fails: its own value dangles, or one in the graph it names does. */
  ghost predicate Fails(fr: Forest, f: Fact, e: SerializationError)
  {
    || Dangles(fr, f, e)
    || (f.GraphFact? && f.subject in fr.g && fr.g[f.subject].graph.Some? && InnerFails(Inner(fr, f.subject), e))
  }

  ghost predicate InnerFails(fr: Forest, e: SerializationError)
  {
    exists f :: f in WrittenFacts(fr) && Dangles(fr, f, e)
  }

  ghost predicate FailsBelow(fr: Forest, x: Handle, e: SerializationError)
  {
    exists f :: f in BelowFacts(fr, x) && Fails(fr, f, e)
  }

  lemma LeadFails(fr: Forest, a: Handle, f: Fact, e: SerializationError)
    requires Valid(fr) && f in OwnFacts(fr, a)
    requires Fails(fr, f, e) || exists h :: h in ChildFacts(fr, f) && Fails(fr, h, e)
    ensures FailsBelow(fr, a, e)
  {
    if Fails(fr, f, e) {
      BelowSelf(fr, a);
    } else {
      var h :| h in ChildFacts(fr, f) && Fails(fr, h, e);
      NestedIsBelow(fr, a, f, h);
    }
  }

  /** What a lead nests is below the nested object it leads to. */
  lemma {:induction false} NestedIn(fr: Forest, path: seq<Handle>, o: Object, k: nat, f: Fact)
    requires Valid(fr) && TermsReady(fr) && IsPath(fr, path) && Renders(fr, o) && path[|path| - 1] == o.origin
    requires (o.ListObject? ==> HasCells(fr, o)) && k < Count(o) && f in ChildFacts(fr, Leads(fr, o)[k])
    requires Leads(fr, o)[k] in OwnFacts(fr, o.origin)
    ensures Renders(fr, Child(o, k)) && f in BelowFacts(fr, Child(o, k).origin)
    ensures IsPath(fr, path + [Child(o, k).origin])
  {
    var child := Child(o, k);
    LeadLeads(fr, o, k);
    PathExtends(fr, path, Leads(fr, o)[k], child.origin);
    assert RendersValue(fr, child);
    if !IsNested(fr.g, child.origin) { EmptyOwnsNothing(fr, child.origin); }
  }

  lemma NestingLead(fr: Forest, path: seq<Handle>, o: Object, f: Fact) returns (k: int)
    requires Valid(fr) && TermsReady(fr) && IsPath(fr, path) && Renders(fr, o) && path[|path| - 1] == o.origin
    requires f in BelowFacts(fr, o.origin) && f !in OwnFacts(fr, o.origin)
    ensures (o.ListObject? ==> HasCells(fr, o)) && 0 <= k < Count(o)
    ensures Leads(fr, o)[k] in OwnFacts(fr, o.origin) && f in ChildFacts(fr, Leads(fr, o)[k])
  {
    LeadsCover(fr, path, o);
    BelowIsNested(fr, o.origin, Leads(fr, o), f);
    k :| 0 <= k < |Leads(fr, o)| && f in Nested(fr, Leads(fr, o))[k];
  }

  /** What is below a rendered object and not about its own resource is below one of the objects nested in it. */
  lemma BelowSource(fr: Forest, path: seq<Handle>, o: Object, f: Fact) returns (k: int)
    requires Valid(fr) && TermsReady(fr) && IsPath(fr, path) && Renders(fr, o) && path[|path| - 1] == o.origin
    requires f in BelowFacts(fr, o.origin) && f !in OwnFacts(fr, o.origin)
    ensures 0 <= k < Count(o) && Renders(fr, Child(o, k))
    ensures f in BelowFacts(fr, Child(o, k).origin) && IsPath(fr, path + [Child(o, k).origin])
  {
    k := NestingLead(fr, path, o, f);
    NestedIn(fr, path, o, k, f);
  }

  lemma {:induction false} LeadNeverDangles(fr: Forest, o: Object, k: nat, e: SerializationError)
    requires Valid(fr) && Renders(fr, o) && Owner(fr, o.origin) == o.origin
    requires (o.ListObject? ==> HasCells(fr, o)) && k < Count(o)
    ensures !Dangles(fr, Leads(fr, o)[k], e)
  {
    LeadLeads(fr, o, k);
    assert RendersValue(fr, Child(o, k));
  }

  lemma RestNeverDangles(fr: Forest, h: Handle, cells: seq<Handle>, values: seq<Handle>, nil: Handle, f: Fact,
      e: SerializationError)
    requires Valid(fr) && FoldedAt(fr, h, cells, values, nil) && f in RestFacts(cells, nil)
    ensures !Dangles(fr, f, e)
  {
    var k :| 0 <= k < |cells| && RestFacts(cells, nil)[k] == f;
    LinkIsOwned(fr, h, cells, values, nil, k);
  }

  lemma {:induction false} OwnNeverDangles(fr: Forest, o: Object, f: Fact, e: SerializationError)
    requires Valid(fr) && TermsReady(fr) && Renders(fr, o) && Owner(fr, o.origin) == o.origin
    requires f in OwnFacts(fr, o.origin)
    ensures !Dangles(fr, f, e)
  {
    OwnListsOwn(fr, o);
    if o.ListObject? { ListFolded(fr, o.origin); }
    OwnButLeads(fr, o, f);
    if f in Leads(fr, o) {
      var k :| 0 <= k < |Leads(fr, o)| && Leads(fr, o)[k] == f;
      LeadNeverDangles(fr, o, k, e);
    } else if o.ListObject? {
      RestNeverDangles(fr, o.origin, fr.lists[o.origin], OriginsOf(o.items), fr.nil.value, f, e);
    }
  }

  lemma LinksNameNoGraph(cells: seq<Handle>, values: seq<Handle>, nil: Handle, f: Fact)
    requires |cells| == |values| && f in FirstFacts(cells, values) + RestFacts(cells, nil)
    ensures !f.GraphFact?
  {
  }

  lemma {:induction false} GraphOwner(fr: Forest, o: Object, f: Fact)
    requires Valid(fr) && TermsReady(fr) && Renders(fr, o) && Owner(fr, o.origin) == o.origin
    requires f in OwnFacts(fr, o.origin) && f.GraphFact?
    ensures o.NodeObject? && o.graph.Graph? && f.subject == o.origin
  {
    if o.NodeObject? {
      NodeOwns(fr, o.origin);
    } else {
      ListFolded(fr, o.origin);
      var cells, values, nil := fr.lists[o.origin], fr.g[o.origin].values.value, fr.nil.value;
      OwnedIsLink(fr, o.origin, cells, values, nil, f);
      LinksNameNoGraph(cells, values, nil, f);
    }
  }

  /** What is written is below a root. */
  lemma RootOf(fr: Forest, f: Fact) returns (r: Handle)
    requires Valid(fr) && f in WrittenFacts(fr)
    ensures IsRoot(fr.g, r) && f in BelowFacts(fr, r)
  {
    FactsUnderAllRoots(fr, Roots(fr.g));
    r :| r in Roots(fr.g) && IsBelow(fr, r, Owner(fr, f.subject));
  }

  lemma WrittenUnder(fr: Forest, content: seq<Object>, f: Fact) returns (i: nat)
    requires Valid(fr) && RendersAll(fr, content) && f in WrittenFacts(fr)
    ensures i < |content| && IsRoot(fr.g, content[i].origin) && f in BelowFacts(fr, content[i].origin)
  {
    var r := RootOf(fr, f);
    assert r in OriginsOf(content);
    var k :| 0 <= k < |content| && OriginsOf(content)[k] == r;
    i := k;
  }

  lemma {:induction false} ContentNeverFails(fr: Forest, level: nat, content: seq<Object>, e: SerializationError)
    requires Ready(fr, level) && RendersAll(fr, content)
    ensures !InnerFails(fr, e)
    decreases content, 0
  {
    if InnerFails(fr, e) {
      var f :| f in WrittenFacts(fr) && Dangles(fr, f, e);
      var i := WrittenUnder(fr, content, f);
      RootPath(fr, content[i].origin);
      RenderedNeverFails(fr, level, [content[i].origin], content[i], f, e);
    }
  }

  lemma {:induction false} OwnNeverFails(fr: Forest, level: nat, o: Object, f: Fact, e: SerializationError)
    requires Ready(fr, level) && Renders(fr, o) && Owner(fr, o.origin) == o.origin && f in OwnFacts(fr, o.origin)
    ensures !Fails(fr, f, e)
    decreases o, 0
  {
    OwnNeverDangles(fr, o, f, e);
    if f.GraphFact? {
      GraphOwner(fr, o, f);
      ContentNeverFails(Inner(fr, o.origin), 0, o.graph.content, e);
    }
  }

  /** What has been rendered has nothing below it that fails. */
  lemma {:induction false} RenderedNeverFails(fr: Forest, level: nat, path: seq<Handle>, o: Object, f: Fact,
      e: SerializationError)
    requires Ready(fr, level) && IsPath(fr, path) && Renders(fr, o) && path[|path| - 1] == o.origin
    requires f in BelowFacts(fr, o.origin)
    ensures !Fails(fr, f, e)
    decreases o, 1
  {
    if f in OwnFacts(fr, o.origin) {
      OwnNeverFails(fr, level, o, f, e);
    } else {
      var k := BelowSource(fr, path, o, f);
      var child := Child(o, k);
      var longer := path + [child.origin];
      assert longer[|longer| - 1] == child.origin;
      RenderedNeverFails(fr, level, longer, child, f, e);
    }
  }
}
