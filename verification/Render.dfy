/**
 Rendering the intermediate graph as JSON-LD objects (jsonld-core/src/serialization.rs:381-595).

 Each method gives the object `Renders` specifies, or fails, and then something that had
 to be written fails. Sets are iterated in an arbitrary order, so every result holds
 for all of them. `fr` is the graph with its folded lists, `path` the resources entered
 from a root down to the one being rendered, which is what bounds the recursion.
 */
module Render {
  import opened Wrappers
  import opened RdfModel
  import opened SerializationBuild
  import opened RenderForest
  import opened Rendering
  import opened Tallies

  /** `interp`, `terms` and `g` are those of `fr`, and `path` leads to `id`. */
  ghost predicate At(fr: Forest, level: nat, path: seq<Handle>, interp: Interpretation, terms: RdfTerms, g: SerGraph,
      id: Handle)
  {
    && (fr.interp, fr.terms, fr.g) == (interp, terms, g) && Ready(fr, level)
    && IsPath(fr, path) && path[|path| - 1] == id
  }

  method RenderReference(interp: Interpretation, id: Handle) returns (r: Result<Object, SerializationError>)
    ensures r.Ok? ==> r.value.origin == id && IsReference(interp, r.value)
    ensures r.Err? ==> TermOf(interp, id) == Err(r.error)
  {
    match TermOf(interp, id)
    case Ok(Some(IdTerm(i))) => r := Ok(NodeObject(id, Some(i), None, NoGraph, []));
    case Ok(Some(LiteralTerm(value))) => r := Ok(ValueObject(id, value));
    case Ok(None) => r := Ok(NodeObject(id, None, None, NoGraph, []));
    case Err(e) => r := Err(e);
  }

  /** Writing the value of `f` fails with `e`. */
  ghost predicate LeadFailing(fr: Forest, f: Fact, e: SerializationError)
  {
    Fails(fr, f, e) || exists h :: h in ChildFacts(fr, f) && Fails(fr, h, e)
  }

  method RenderObjectOrReference(interp: Interpretation, terms: RdfTerms, g: SerGraph, id: Handle,
                                 ghost fr: Forest, ghost level: nat, ghost path: seq<Handle>, ghost f: Fact)
    returns (r: Result<Object, SerializationError>)
    requires path != [] && At(fr, level, path, interp, terms, g, path[|path| - 1])
    requires f in OwnFacts(fr, path[|path| - 1]) && Nests(fr, f) && f.Target() == Some(id)
    ensures r.Ok? ==> r.value.origin == id && RendersValue(fr, r.value)
    ensures r.Err? ==> LeadFailing(fr, f, r.error)
    decreases level, |g.Keys| - |path|, 1
  {
    if id in g && g[id].references == 1 && !g[id].IsEmpty() {
      assert Edge(fr, f, id);
      PathExtends(fr, path, f, id);
      r := RenderObject(interp, terms, g, id, fr, level, path + [id]);
    } else {
      r := RenderReference(interp, id);
      if r.Err? { assert Dangles(fr, f, r.error); }
    }
  }

  method RenderObject(interp: Interpretation, terms: RdfTerms, g: SerGraph, id: Handle,
                      ghost fr: Forest, ghost level: nat, ghost path: seq<Handle>)
    returns (r: Result<Object, SerializationError>)
    requires At(fr, level, path, interp, terms, g, id)
    ensures r.Ok? ==> r.value.origin == id && if g[id].IsEmpty() then IsReference(interp, r.value)
        else Renders(fr, r.value)
    ensures r.Err? ==> if g[id].IsEmpty() then TermOf(interp, id) == Err(r.error) else FailsBelow(fr, id, r.error)
    decreases level, |g.Keys| - |path|, 6
  {
    PathFits(fr, path);
    if g[id].IsEmpty() {
      r := RenderReference(interp, id);
    } else if g[id].values.Some? {
      r := RenderList(interp, terms, g, id, g[id].values.value, fr, level, path);
    } else {
      r := RenderNode(interp, terms, g, id, fr, level, path);
    }
  }

  /** `objects` are the first `n` of `values`, written as values. */
  ghost predicate ItemsRendered(fr: Forest, objects: seq<Object>, values: seq<Handle>, n: nat)
  {
    && n <= |values| && OriginsOf(objects) == values[..n]
    && forall k :: 0 <= k < |objects| ==> RendersValue(fr, objects[k])
  }

  lemma {:induction false} ItemsStep(fr: Forest, objects: seq<Object>, values: seq<Handle>, n: nat, item: Object)
    requires ItemsRendered(fr, objects, values, n) && n < |values|
    requires item.origin == values[n] && RendersValue(fr, item)
    ensures ItemsRendered(fr, objects + [item], values, n + 1)
  {
    assert OriginsOf(objects + [item]) == OriginsOf(objects) + [item.origin];
  }

  method RenderList(interp: Interpretation, terms: RdfTerms, g: SerGraph, id: Handle, values: seq<Handle>,
                    ghost fr: Forest, ghost level: nat, ghost path: seq<Handle>)
    returns (r: Result<Object, SerializationError>)
    requires At(fr, level, path, interp, terms, g, id) && g[id].values == Some(values)
    ensures r.Ok? ==> r.value.origin == id && Renders(fr, r.value)
    ensures r.Err? ==> FailsBelow(fr, id, r.error)
    decreases level, |g.Keys| - |path|, 4
  {
    ListFolded(fr, id);
    ghost var cells, nil := fr.lists[id], fr.nil.value;
    var objects := [];
    for n := 0 to |values|
      invariant ItemsRendered(fr, objects, values, n)
    {
      LinkIsOwned(fr, id, cells, values, nil, n);
      ghost var lead := FirstFact(cells[n], values[n]);
      var item := RenderObjectOrReference(interp, terms, g, values[n], fr, level, path, lead);
      if item.Err? {
        LeadFails(fr, id, lead, item.error);
        return Err(item.error);
      }
      ItemsStep(fr, objects, values, n, item.value);
      objects := objects + [item.value];
    }
    assert values[..|values|] == values;
    r := Ok(ListObject(id, objects));
  }

  // ----- node objects

  /** `entries` are the values in `slots`, each written once under its name. */
  ghost predicate EntriesRendered(fr: Forest, entries: seq<Entry>, slots: set<Slot>)
  {
    && EntriesNamed(fr, entries) && Enumerates(SlotsOf(entries), slots)
    && forall k :: 0 <= k < |entries| ==> RendersValue(fr, entries[k].value)
  }

  lemma {:induction false} EntriesStep(fr: Forest, entries: seq<Entry>, slots: set<Slot>, entry: Entry)
    requires EntriesRendered(fr, entries, slots)
    requires KeyName(fr, entry.key) == Some(entry.id) && RendersValue(fr, entry.value)
    requires Slot(entry.key, entry.value.origin) !in slots
    ensures EntriesRendered(fr, entries + [entry], slots + {Slot(entry.key, entry.value.origin)})
  {
    var slot := Slot(entry.key, entry.value.origin);
    EnumeratesOneMore(SlotsOf(entries), slots, slot);
    assert SlotsOf(entries + [entry]) == SlotsOf(entries) + [slot];
  }

  lemma OneLess<T>(all: set<T>, todo: set<T>, x: T)
    requires x in todo && todo <= all
    ensures all - (todo - {x}) == (all - todo) + {x} && x !in all - todo
  {
  }

  lemma KeySlotsStep(done: set<Slot>, key: Key, values: set<Handle>, todo: set<Handle>, v: Handle)
    requires v in todo && todo <= values && done !! KeySlots(key, values)
    ensures Slot(key, v) !in done + KeySlots(key, values - todo)
    ensures done + KeySlots(key, values - (todo - {v})) == done + KeySlots(key, values - todo) + {Slot(key, v)}
  {
    assert Slot(key, v) in KeySlots(key, values);
    OneLess(values, todo, v);
    assert KeySlots(key, (values - todo) + {v}) == KeySlots(key, values - todo) + {Slot(key, v)};
  }

  lemma KeyFactIsOwn(fr: Forest, path: seq<Handle>, key: Key, v: Handle)
    requires Valid(fr) && IsPath(fr, path) && fr.g[path[|path| - 1]].values.None?
    requires Holds(fr.g, KeyFact(path[|path| - 1], key, v)) && KeyName(fr, key).Some?
    ensures KeyFact(path[|path| - 1], key, v) in OwnFacts(fr, path[|path| - 1])
    ensures Nests(fr, KeyFact(path[|path| - 1], key, v)) && KeyFact(path[|path| - 1], key, v).Target() == Some(v)
  {
    var id := path[|path| - 1];
    NodeOwnFacts(fr, id, KeyFact(id, key, v));
    if InList(fr, id) { HeadOwner(fr, id); }
  }

  method InsertProperty(interp: Interpretation, terms: RdfTerms, g: SerGraph, id: Handle, key: Key, prop: Handle,
                        values: set<Handle>, entries: seq<Entry>, ghost done: set<Slot>,
                        ghost fr: Forest, ghost level: nat, ghost path: seq<Handle>)
    returns (r: Result<seq<Entry>, SerializationError>)
    requires At(fr, level, path, interp, terms, g, id) && g[id].values.None?
    requires KeyName(fr, key) == IdOf(interp, prop)
    requires forall v :: v in values ==> Holds(g, KeyFact(id, key, v))
    requires EntriesRendered(fr, entries, done) && done !! KeySlots(key, values)
    ensures r.Ok? ==> EntriesRendered(fr, r.value, done + if IdOf(interp, prop).Some? then KeySlots(key, values)
        else {})
    ensures r.Err? ==> FailsBelow(fr, id, r.error)
    decreases level, |g.Keys| - |path|, 2
  {
    var name := IdOf(interp, prop);
    if name.None? {
      assert done + {} == done;
      return Ok(entries);
    }
    var node := entries;
    var todo := values;
    assert done + KeySlots(key, values - todo) == done;
    while todo != {}
      invariant todo <= values
      invariant EntriesRendered(fr, node, done + KeySlots(key, values - todo))
      decreases todo
    {
      var value :| value in todo;
      ghost var lead := KeyFact(id, key, value);
      KeyFactIsOwn(fr, path, key, value);
      var v := RenderObjectOrReference(interp, terms, g, value, fr, level, path, lead);
      if v.Err? {
        LeadFails(fr, id, lead, v.error);
        return Err(v.error);
      }
      KeySlotsStep(done, key, values, todo, value);
      EntriesStep(fr, node, done + KeySlots(key, values - todo), Entry(key, name.value, v.value));
      node := node + [Entry(key, name.value, v.value)];
      todo := todo - {value};
    }
    assert values - todo == values;
    r := Ok(node);
  }

  method RenderProperties(interp: Interpretation, terms: RdfTerms, g: SerGraph, id: Handle,
                          ghost fr: Forest, ghost level: nat, ghost path: seq<Handle>)
    returns (r: Result<seq<Entry>, SerializationError>)
    requires At(fr, level, path, interp, terms, g, id) && g[id].values.None?
    ensures r.Ok? ==> EntriesRendered(fr, r.value, PropertySlots(fr, id, g[id].properties.Keys))
    ensures r.Err? ==> FailsBelow(fr, id, r.error)
    decreases level, |g.Keys| - |path|, 3
  {
    var node := [];
    var all := g[id].properties.Keys;
    var todo := all;
    assert PropertySlots(fr, id, all - todo) == {};
    while todo != {}
      invariant todo <= all
      invariant EntriesRendered(fr, node, PropertySlots(fr, id, all - todo))
      decreases todo
    {
      var prop :| prop in todo;
      var values := g[id].properties[prop];
      OneLess(all, todo, prop);
      PropertySlotsStep(fr, id, all - todo, prop);
      var more := InsertProperty(interp, terms, g, id, OtherKey(prop), prop, values, node,
                                 PropertySlots(fr, id, all - todo), fr, level, path);
      if more.Err? { return Err(more.error); }
      node := more.value;
      todo := todo - {prop};
    }
    assert all - todo == all;
    r := Ok(node);
  }

  lemma PropertySlotsStep(fr: Forest, id: Handle, props: set<Handle>, prop: Handle)
    requires id in fr.g && prop in fr.g[id].properties && prop !in props
    ensures PropertySlots(fr, id, props) !! KeySlots(OtherKey(prop), fr.g[id].properties[prop])
    ensures PropertySlots(fr, id, props + {prop}) ==
            PropertySlots(fr, id, props)
            + if IdOf(fr.interp, prop).Some? then KeySlots(OtherKey(prop), fr.g[id].properties[prop]) else {}
  {
  }

  /** The `rdf:first` and `rdf:rest` values of a cell that could not be folded. */
  method RenderLinks(interp: Interpretation, terms: RdfTerms, g: SerGraph, id: Handle, entries: seq<Entry>,
                     ghost fr: Forest, ghost level: nat, ghost path: seq<Handle>)
    returns (r: Result<seq<Entry>, SerializationError>)
    requires At(fr, level, path, interp, terms, g, id) && g[id].values.None?
    requires EntriesRendered(fr, entries, PropertySlots(fr, id, g[id].properties.Keys))
    ensures r.Ok? ==> EntriesRendered(fr, r.value, NamedSlots(fr, id))
    ensures r.Err? ==> FailsBelow(fr, id, r.error)
    decreases level, |g.Keys| - |path|, 3
  {
    r := Ok(entries);
    ghost var done := PropertySlots(fr, id, g[id].properties.Keys);
    if g[id].first != {} {
      r := InsertProperty(interp, terms, g, id, FirstKey, terms.first.value, g[id].first, entries, done, fr, level,
          path);
      if r.Err? { return; }
    }
    NothingUnder(done, FirstKey, g[id].first);
    done := done + KeySlots(FirstKey, g[id].first);
    if g[id].rest != {} {
      r := InsertProperty(interp, terms, g, id, RestKey, terms.rest.value, g[id].rest, r.value, done, fr, level, path);
    }
    NothingUnder(done, RestKey, g[id].rest);
  }

  lemma NothingUnder(done: set<Slot>, key: Key, values: set<Handle>)
    ensures values == {} ==> done + KeySlots(key, values) == done
  {
  }

  /** `types` are the named types among `done`, each written once. */
  ghost predicate TypesRendered(fr: Forest, types: seq<TypeEntry>, done: set<RdfType>)
  {
    TypesNamed(fr, types) && Enumerates(Origins(types), NamedOf(fr, done))
  }

  lemma TypesStep(fr: Forest, types: seq<TypeEntry>, done: set<RdfType>, ty: RdfType)
    requires TypesRendered(fr, types, done) && ty !in done
    ensures TypeName(fr, ty).Some? ==> TypesRendered(fr, types + [TypeEntry(ty, TypeName(fr, ty).value)], done + {ty})
    ensures TypeName(fr, ty).None? ==> TypesRendered(fr, types, done + {ty})
  {
    if TypeName(fr, ty).Some? {
      EnumeratesOneMore(Origins(types), NamedOf(fr, done), ty);
      assert NamedOf(fr, done + {ty}) == NamedOf(fr, done) + {ty};
      assert Origins(types + [TypeEntry(ty, TypeName(fr, ty).value)]) == Origins(types) + [ty];
    } else {
      assert NamedOf(fr, done + {ty}) == NamedOf(fr, done);
    }
  }

  method RenderTypes(interp: Interpretation, terms: RdfTerms, g: SerGraph, id: Handle,
                     ghost fr: Forest, ghost level: nat, ghost path: seq<Handle>)
    returns (types: seq<TypeEntry>)
    requires At(fr, level, path, interp, terms, g, id)
    ensures TypesNamed(fr, types) && Enumerates(Origins(types), NamedTypes(fr, id))
  {
    types := [];
    var all := g[id].types;
    var todo := all;
    assert NamedOf(fr, all - todo) == {};
    while todo != {}
      invariant todo <= all && TypesRendered(fr, types, all - todo)
      decreases todo
    {
      var ty :| ty in todo;
      var resource := match ty case ListType => terms.list.value case OtherType(o) => o;
      var name := IdOf(interp, resource);
      OneLess(all, todo, ty);
      TypesStep(fr, types, all - todo, ty);
      if name.Some? {
        types := types + [TypeEntry(ty, name.value)];
      }
      todo := todo - {ty};
    }
    assert all - todo == all;
  }

  method RenderNode(interp: Interpretation, terms: RdfTerms, g: SerGraph, id: Handle,
                    ghost fr: Forest, ghost level: nat, ghost path: seq<Handle>)
    returns (r: Result<Object, SerializationError>)
    requires At(fr, level, path, interp, terms, g, id) && g[id].values.None?
    ensures r.Ok? ==> r.value.origin == id && Renders(fr, r.value)
    ensures r.Err? ==> FailsBelow(fr, id, r.error)
    decreases level, |g.Keys| - |path|, 5
  {
    var types := RenderTypes(interp, terms, g, id, fr, level, path);

    var graph := NoGraph;
    if g[id].graph.Some? {
      var content := RenderGraph(interp, terms, g[id].graph.value, Inner(fr, id));
      if content.Err? {
        GraphFails(fr, path, content.error);
        return Err(content.error);
      }
      graph := Graph(content.value);
    }
    var entries := RenderProperties(interp, terms, g, id, fr, level, path);
    if entries.Err? { return Err(entries.error); }
    entries := RenderLinks(interp, terms, g, id, entries.value, fr, level, path);
    if entries.Err? { return Err(entries.error); }
    r := Ok(NodeObject(id, IdOf(interp, id), if types == [] then None else Some(types), graph, entries.value));
  }

  lemma GraphFails(fr: Forest, path: seq<Handle>, e: SerializationError)
    requires Valid(fr) && IsPath(fr, path) && fr.g[path[|path| - 1]].values.None?
    requires fr.g[path[|path| - 1]].graph.Some? && InnerFails(Inner(fr, path[|path| - 1]), e)
    ensures FailsBelow(fr, path[|path| - 1], e)
  {
    var id := path[|path| - 1];
    NodeOwnFacts(fr, id, GraphFact(id));
    assert Fails(fr, GraphFact(id), e);
    LeadFails(fr, id, GraphFact(id), e);
  }

  /** A root is always written as a node object under its own name. */
  lemma RootIsNode(fr: Forest, id: Handle)
    requires Valid(fr) && IsRoot(fr.g, id)
    ensures fr.g[id].values.None?
  {
    if id in fr.lists {
      HeadOwner(fr, id);
      CellLink(fr, id, 0);
    }
  }

  method RenderRoot(interp: Interpretation, terms: RdfTerms, g: SerGraph, id: Handle,
                    ghost fr: Forest, ghost level: nat)
    returns (r: Result<Object, SerializationError>)
    requires (fr.interp, fr.terms, fr.g) == (interp, terms, g) && Ready(fr, level) && IsRoot(g, id)
    ensures r.Ok? ==> r.value.origin == id && Renders(fr, r.value)
    ensures r.Ok? ==> r.value.NodeObject? && r.value.id == IdOf(interp, id)
    ensures r.Err? ==> exists f :: f in WrittenFacts(fr) && Fails(fr, f, r.error)
    decreases level, |g.Keys|
  {
    RootPath(fr, id);
    RootIsNode(fr, id);
    r := RenderObject(interp, terms, g, id, fr, level, [id]);
    if r.Err? {
      ghost var f :| f in BelowFacts(fr, id) && Fails(fr, f, r.error);
      assert f in WrittenFacts(fr);
    }
  }

  /** The content of a named graph: one object for each of its roots. */
  method RenderGraph(interp: Interpretation, terms: RdfTerms, g: SerGraph, ghost fr: Forest)
    returns (r: Result<seq<Object>, SerializationError>)
    requires (fr.interp, fr.terms, fr.g) == (interp, terms, g) && Ready(fr, 0)
    ensures r.Ok? ==> RendersAll(fr, r.value)
    ensures r.Err? ==> InnerFails(fr, r.error)
    decreases 0, |g.Keys| + 1
  {
    var content := [];
    var todo := Roots(g);
    while todo != {}
      invariant todo <= Roots(g) && RootsRendered(fr, content, Roots(g) - todo)
      decreases todo
    {
      var id :| id in todo;
      var o := RenderRoot(interp, terms, g, id, fr, 0);
      if o.Err? { return Err(o.error); }
      OneLess(Roots(g), todo, id);
      RootsStep(fr, content, Roots(g) - todo, o.value);
      todo := todo - {id};
      content := content + [o.value];
    }
    assert Roots(g) - todo == Roots(g);
    r := Ok(content);
  }

  /** `content` holds an object for each of the resources in `done`. */
  ghost predicate RootsRendered(fr: Forest, content: seq<Object>, done: set<Handle>)
  {
    Enumerates(OriginsOf(content), done) && forall i :: 0 <= i < |content| ==> Renders(fr, content[i])
  }

  lemma {:induction false} RootsStep(fr: Forest, content: seq<Object>, done: set<Handle>, o: Object)
    requires RootsRendered(fr, content, done) && o.origin !in done && Renders(fr, o)
    ensures RootsRendered(fr, content + [o], done + {o.origin})
  {
    EnumeratesOneMore(OriginsOf(content), done, o.origin);
    assert OriginsOf(content + [o]) == OriginsOf(content) + [o.origin];
  }
}
