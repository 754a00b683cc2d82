/**
 Lists of lists in JSON-LD 1.0 (jsonld-expansion/src/array.rs:65-72, jsonld-expansion/src/element.rs:423-428,
 jsonld-expansion/src/node.rs:936-949): however an element expands, no list in what comes out holds a list.
 */
module ListsOfLists {
  import opened Wrappers
  import opened Values
  import opened ExpansionTypes
  import opened ExpansionRelation
  import J = Json

  /** No list inside `item`, at any depth, has a list for a direct item. */
  predicate Clean(item: Item)
    decreases item, 1
  {
    match item
    case ValueItem(_, _) => true
    case NodeItem(node, _) => CleanNode(node)
    case ListItem(items, _) => NoListAmong(items) && AllClean(items)
  }

  predicate AllClean(items: seq<Item>)
    decreases items, 0
  {
    forall i :: 0 <= i < |items| ==> Clean(items[i])
  }

  predicate CleanNode(node: Node)
    decreases node, 0
  {
    forall i :: 0 <= i < |node.entries| ==> CleanEntry(node.entries[i])
  }

  predicate CleanEntry(entry: NodeEntry)
    decreases entry, 0
  {
    AllClean(entry.items)
  }

  /** What expansion in 1.0 leaves, when it succeeds. */
  predicate CleanOutcome(r: Outcome) {
    r.Ok? ==> AllClean(r.value.Items())
  }

  predicate CleanState(r: Result<NodeState, Error>) {
    r.Ok? ==> CleanNode(r.value.node)
  }

  lemma {:induction false} AddEntry(node: Node, entry: NodeEntry)
    requires CleanNode(node) && AllClean(entry.items)
    ensures CleanNode(node.(entries := node.entries + [entry]))
  {
  }

  lemma {:induction false} SameEntriesClean(node: Node, after: Node)
    requires after.entries == node.entries
    ensures CleanNode(after) <==> CleanNode(node)
  {
  }

  lemma {:induction false} ConcatClean(parts: seq<Outcome>)
    requires forall i :: 0 <= i < |parts| ==> CleanOutcome(parts[i])
    ensures AllClean(Concat(parts))
  {
    if parts != [] { ConcatClean(parts[..|parts| - 1]); }
  }

  lemma {:induction false} ListClean<C>(env: Env<C>, items: seq<Item>, index: Option<string>)
    requires !env.mode11 && AllClean(items)
    ensures CleanOutcome(ListOutcome(env, Ok(items), index))
  {
  }

  // ----- elements

  lemma {:induction false} ExpandsClean<C>(env: Env<C>, ctx: C, property: Option<string>, element: J.Value,
      fromMap: bool, r: Outcome)
    requires !env.mode11 && Expands(env, ctx, property, element, fromMap, r)
    ensures CleanOutcome(r)
    decreases Size(element), 2
  {
    match element
    case Null =>
    case Array(items) =>
      var isList := WrapsArrays(env, ctx, property);
      var parts :| EachExpands(env, ctx, property, items, fromMap, parts)
                   && r == ArrayOutcome(env, isList, Together(parts));
      EachClean(env, ctx, property, items, fromMap, parts);
      if r.Ok? { ListClean(env, Concat(parts), None); }
    case Object(entries) =>
      var inside := env.enter(ctx, property, fromMap, entries);
      if inside.Ok? { MapClean(env, inside.value, property, entries, r); }
    case _ =>
  }

  lemma {:induction false} EachClean<C>(env: Env<C>, ctx: C, property: Option<string>, items: seq<J.Value>,
      fromMap: bool, parts: seq<Outcome>)
    requires !env.mode11 && EachExpands(env, ctx, property, items, fromMap, parts)
    ensures AllClean(Concat(parts))
    decreases ItemsSize(items), 3
  {
    forall i | 0 <= i < |parts| ensures CleanOutcome(parts[i]) {
      ItemSmaller(items, i);
      ExpandsClean(env, ctx, property, items[i], fromMap, parts[i]);
    }
    ConcatClean(parts);
  }

  lemma {:induction false} MapClean<C>(env: Env<C>, ctx: C, property: Option<string>, entries: seq<J.Entry>, r: Outcome)
    requires !env.mode11 && MapExpands(env, ctx, property, entries, r)
    ensures CleanOutcome(r)
    decreases EntriesSize(entries), 9
  {
    if KeyFails(env, ctx, entries) {
    } else if Has(env, ctx, entries, KwList) && !IsFree(property) {
      var at :| IsLast(env, ctx, entries, KwList, at) && ListObjectExpands(env, ctx, property, entries, at, r);
      ListObjectClean(env, ctx, property, entries, at, r);
    } else if Has(env, ctx, entries, KwSet) {
      var at :| IsLast(env, ctx, entries, KwSet, at) && SetObjectExpands(env, ctx, property, entries, at, r);
      if OnlyKeywords(env, ctx, entries, {KwIndex, KwSet}) {
        EntrySmaller(entries, at);
        ExpandsClean(env, ctx, property, entries[at].value, false, r);
      }
    } else if Has(env, ctx, entries, KwValue) {
    } else {
      var steps :| EntriesExpand(env, ctx, property, entries, START, steps)
                   && r == NodeOutcome(property, After(START, steps));
      EntriesClean(env, ctx, property, entries, START, steps);
    }
  }

  lemma {:induction false} ListObjectClean<C>(env: Env<C>, ctx: C, property: Option<string>, entries: seq<J.Entry>,
      at: nat, r: Outcome)
    requires at < |entries| && !env.mode11 && ListObjectExpands(env, ctx, property, entries, at, r)
    ensures CleanOutcome(r)
    decreases EntriesSize(entries), 7
  {
    if OnlyKeywords(env, ctx, entries, {KwIndex, KwList}) && IndexIsString(env, ctx, entries) {
      EntrySmaller(entries, at);
      ForcedSize(entries[at].value);
      var items := J.ForceArray(entries[at].value);
      var parts, index :| EachExpands(env, ctx, property, items, false, parts)
                          && IsIndex(env, ctx, entries, index) && r == ListOutcome(env, Together(parts), index);
      EachClean(env, ctx, property, items, false, parts);
      if r.Ok? { ListClean(env, Concat(parts), index); }
    }
  }

  // ----- nodes

  lemma {:induction false} EntriesClean<C>(env: Env<C>, ctx: C, property: Option<string>, entries: seq<J.Entry>,
      start: NodeState, steps: seq<Result<NodeState, Error>>)
    requires !env.mode11 && CleanNode(start.node) && EntriesExpand(env, ctx, property, entries, start, steps)
    ensures CleanState(After(start, steps))
    decreases EntriesSize(entries), 7
  {
    EntriesCleanUpTo(env, ctx, property, entries, start, steps, |steps|);
  }

  lemma {:induction false} EntriesCleanUpTo<C>(env: Env<C>, ctx: C, property: Option<string>, entries: seq<J.Entry>,
      start: NodeState, steps: seq<Result<NodeState, Error>>, i: nat)
    requires !env.mode11 && CleanNode(start.node) && EntriesExpand(env, ctx, property, entries, start, steps)
    requires i <= |steps|
    ensures CleanNode(Before(start, steps, i).node)
    decreases EntriesSize(entries), 6, i
  {
    if i > 0 {
      EntriesCleanUpTo(env, ctx, property, entries, start, steps, i - 1);
      EntrySmaller(entries, i - 1);
      EntryClean(env, ctx, property, entries[i - 1], Before(start, steps, i - 1), steps[i - 1]);
    }
  }

  lemma {:induction false} EntryClean<C>(env: Env<C>, ctx: C, property: Option<string>, entry: J.Entry,
      state: NodeState, out: Result<NodeState, Error>)
    requires !env.mode11 && CleanNode(state.node) && EntryExpands(env, ctx, property, entry, state, out)
    ensures CleanState(out)
    decreases Size(entry.value), 7
  {
    match env.expandKey(ctx, entry.key)
    case Ok(KeywordKey(k)) =>
      if k != KwContext && property != Some("@reverse") && !Collides(env, state.node, k) {
        KeywordClean(env, ctx, property, k, entry, state, out);
      }
    case Ok(PropertyKey(p)) =>
      var reverse := env.definition(ctx, entry.key).isReverse;
      var e :| ValueExpands(env, ctx, entry.key, entry.value, e) && out == StateAdded(state, p, e, reverse);
      ValueClean(env, ctx, entry.key, entry.value, e);
      AddedClean(state.node, p, e, reverse);
    case _ =>
  }

  lemma {:induction false} AddedClean(node: Node, property: string, e: Outcome, reverse: bool)
    requires CleanNode(node) && CleanOutcome(e)
    ensures Added(node, property, e, reverse).Ok? ==> CleanNode(Added(node, property, e, reverse).value)
  {
    if e.Ok? {
      AddEntry(node, PropertyEntry(property, e.value.Items()));
      AddEntry(node, ReverseEntry(property, e.value.Items()));
    }
  }

  // ----- the value of a property

  lemma {:induction false} ValueClean<C>(env: Env<C>, ctx: C, key: string, value: J.Value, r: Outcome)
    requires !env.mode11 && ValueExpands(env, ctx, key, value, r)
    ensures CleanOutcome(r)
    decreases Size(value), 6
  {
    var e :| UncontainedExpands(env, ctx, key, value, e)
             && r == GraphsOutcome(env, ctx, key, ListTermOutcome(env, ctx, key, e));
    UncontainedClean(env, ctx, key, value, e);
    if e.Ok? { ListClean(env, e.value.Items(), None); }
    var listed := ListTermOutcome(env, ctx, key, e);
    assert CleanOutcome(listed);
    if listed.Ok? {
      forall i | 0 <= i < |listed.value.Items()| ensures Clean(InGraph(listed.value.Items()[i])) {
        InGraphClean(listed.value.Items()[i]);
      }
    }
  }

  lemma {:induction false} InGraphClean(item: Item)
    requires Clean(item)
    ensures Clean(InGraph(item))
  {
    assert AllClean([item]);
    AddEntry(EMPTY_NODE, GraphEntry([item]));
    assert EMPTY_NODE.entries + [GraphEntry([item])] == [GraphEntry([item])];
  }

  lemma {:induction false} UncontainedClean<C>(env: Env<C>, ctx: C, key: string, value: J.Value, r: Outcome)
    requires !env.mode11 && UncontainedExpands(env, ctx, key, value, r)
    ensures CleanOutcome(r)
    decreases Size(value), 5
  {
    var definition := env.definition(ctx, key);
    if definition.isJson || (value.Object? && Language in definition.container) {
    } else if value.Object? && definition.container * {Index, ByType, ById} != {} {
      var parts :| MapEntriesExpand(env, ctx, key, definition.container, value.entries, parts)
                   && r == ArrayOutcome(env, false, Together(parts));
      MapEntriesClean(env, ctx, key, definition.container, value.entries, parts);
    } else {
      ExpandsClean(env, ctx, Some(key), value, false, r);
    }
  }

  // ----- index, id and type maps

  lemma {:induction false} MapEntriesClean<C>(env: Env<C>, ctx: C, key: string, container: set<ContainerKind>,
      entries: seq<J.Entry>, parts: seq<Outcome>)
    requires !env.mode11 && MapEntriesExpand(env, ctx, key, container, entries, parts)
    ensures AllClean(Concat(parts))
    decreases EntriesSize(entries), 4
  {
    forall i | 0 <= i < |parts| ensures CleanOutcome(parts[i]) {
      EntrySmaller(entries, i);
      MapEntryClean(env, ctx, key, container, entries[i], parts[i]);
    }
    ConcatClean(parts);
  }

  lemma {:induction false} MapEntryClean<C>(env: Env<C>, ctx: C, key: string, container: set<ContainerKind>,
      entry: J.Entry, part: Outcome)
    requires !env.mode11 && MapEntryExpands(env, ctx, key, container, entry, part)
    ensures CleanOutcome(part)
    decreases Size(entry.value), 4
  {
    var inside, named := env.enterMap(ctx, key, entry.key), env.expandKey(ctx, entry.key);
    if inside.Ok? && named.Ok? {
      var e :| Expands(env, inside.value, Some(key), entry.value, true, e)
               && IsKeyed(env, ctx, key, container, entry.key, named.value, e, part);
      ExpandsClean(env, inside.value, Some(key), entry.value, true, e);
      if e.Ok? { EachKeyedClean(env, ctx, key, container, entry.key, named.value, e.value.Items(), part); }
    }
  }

  lemma {:induction false} EachKeyedClean<C>(env: Env<C>, ctx: C, key: string, container: set<ContainerKind>,
      index: string, named: Key, items: seq<Item>, part: Outcome)
    requires AllClean(items)
    requires exists keyed :: EachKeyed(env, ctx, key, container, index, named, items, keyed)
                             && part == ArrayOutcome(env, false, Together(keyed))
    ensures CleanOutcome(part)
  {
    var keyed :| EachKeyed(env, ctx, key, container, index, named, items, keyed)
                 && part == ArrayOutcome(env, false, Together(keyed));
    forall i | 0 <= i < |keyed| ensures CleanOutcome(keyed[i]) {
      assert IsItemKeyed(env, ctx, key, container, index, named, items[i], keyed[i]);
      InGraphClean(items[i]);
      KeyedClean(env, ctx, key, container, index,
                 if Graph in container && !IsGraph(items[i]) then InGraph(items[i]) else items[i]);
    }
    ConcatClean(keyed);
  }

  lemma {:induction false} KeyedClean<C>(env: Env<C>, ctx: C, key: string, container: set<ContainerKind>, index: string,
      item: Item)
    requires Clean(item)
    ensures CleanOutcome(Keyed(env, ctx, key, container, index, item))
  {
    if item.NodeItem? {
      var entry := env.indexEntry(ctx, key, index);
      if entry.Ok? && entry.value.AsProperty? {
        assert AllClean([entry.value.scalar.AsItem()]);
        AddEntry(item.node, PropertyEntry(entry.value.property, [entry.value.scalar.AsItem()]));
      }
      var id, types := env.expandId(ctx, index), env.expandTypes(ctx, J.Str(index));
      if id.Ok? { SameEntriesClean(item.node, item.node.(id := id.value)); }
      if types.Ok? { SameEntriesClean(item.node, item.node.(types := types.value + item.node.types)); }
    }
  }

  // ----- keywords in a node

  lemma {:induction false} FilterClean(keep: Item -> bool, items: seq<Item>)
    requires AllClean(items)
    ensures AllClean(Filter(keep, items))
  {
    if items != [] { FilterClean(keep, items[..|items| - 1]); }
  }

  lemma {:induction false} KeywordClean<C>(env: Env<C>, ctx: C, property: Option<string>, k: Keyword, entry: J.Entry,
      state: NodeState, out: Result<NodeState, Error>)
    requires !env.mode11 && CleanNode(state.node) && KeywordExpands(env, ctx, property, k, entry, state, out)
    ensures CleanState(out)
    decreases Size(entry.value), 6
  {
    var value := entry.value;
    match k
    case KwId => if out.Ok? { SameEntriesClean(state.node, out.value.node); }
    case KwType => if out.Ok? { SameEntriesClean(state.node, out.value.node); }
    case KwGraph =>
      var e :| Expands(env, ctx, Some("@graph"), value, false, e) && out == GraphGiven(env, state, e);
      ExpandsClean(env, ctx, Some("@graph"), value, false, e);
      if e.Ok? {
        FilterClean(env.keptAtTop, e.value.Items());
        AddEntry(state.node, GraphEntry(Filter(env.keptAtTop, e.value.Items())));
      }
    case KwReverse =>
      if value.Object? {
        var steps :| ReverseExpands(env, ctx, value.entries, state.node, steps)
                     && out == NodeGiven(state, After(state.node, steps));
        ReverseCleanUpTo(env, ctx, value.entries, state.node, steps, |steps|);
      }
    case KwNest =>
      ForcedSize(value);
      var values := J.ForceArray(value);
      var steps :| NestsExpand(env, ctx, property, entry.key, values, state, steps) && out == After(state, steps);
      NestsCleanUpTo(env, ctx, property, entry.key, values, state, steps, |steps|);
    case _ =>
  }

  lemma {:induction false} ReverseCleanUpTo<C>(env: Env<C>, ctx: C, entries: seq<J.Entry>, start: Node,
      steps: seq<Result<Node, Error>>, i: nat)
    requires !env.mode11 && CleanNode(start) && ReverseExpands(env, ctx, entries, start, steps) && i <= |steps|
    ensures CleanNode(Before(start, steps, i))
    decreases EntriesSize(entries), 4, i
  {
    if i > 0 {
      ReverseCleanUpTo(env, ctx, entries, start, steps, i - 1);
      EntrySmaller(entries, i - 1);
      ReverseEntryClean(env, ctx, entries[i - 1], Before(start, steps, i - 1), steps[i - 1]);
    }
  }

  lemma {:induction false} ReverseEntryClean<C>(env: Env<C>, ctx: C, entry: J.Entry, node: Node,
      out: Result<Node, Error>)
    requires !env.mode11 && CleanNode(node) && ReverseEntryExpands(env, ctx, entry, node, out)
    ensures out.Ok? ==> CleanNode(out.value)
    decreases Size(entry.value), 3
  {
    match env.expandKey(ctx, entry.key)
    case Ok(PropertyKey(p)) =>
      var reverse := !env.definition(ctx, entry.key).isReverse;
      var e :| Expands(env, ctx, Some(entry.key), entry.value, false, e) && out == Added(node, p, e, reverse);
      ExpandsClean(env, ctx, Some(entry.key), entry.value, false, e);
      AddedClean(node, p, e, reverse);
    case _ =>
  }

  lemma {:induction false} NestsCleanUpTo<C>(env: Env<C>, ctx: C, property: Option<string>, key: string,
      values: seq<J.Value>, start: NodeState, steps: seq<Result<NodeState, Error>>, i: nat)
    requires !env.mode11 && CleanNode(start.node) && NestsExpand(env, ctx, property, key, values, start, steps)
    requires i <= |steps|
    ensures CleanNode(Before(start, steps, i).node)
    decreases ItemsSize(values), 4, i
  {
    if i > 0 {
      NestsCleanUpTo(env, ctx, property, key, values, start, steps, i - 1);
      ItemSmaller(values, i - 1);
      NestClean(env, ctx, property, key, values[i - 1], Before(start, steps, i - 1), steps[i - 1]);
    }
  }

  lemma {:induction false} NestClean<C>(env: Env<C>, ctx: C, property: Option<string>, key: string, value: J.Value,
      state: NodeState, out: Result<NodeState, Error>)
    requires !env.mode11 && CleanNode(state.node) && NestExpands(env, ctx, property, key, value, state, out)
    ensures CleanState(out)
    decreases Size(value), 3
  {
    var inside := env.enterNest(ctx, key);
    if inside.Ok? && value.Object? {
      var steps :| EntriesExpand(env, inside.value, property, value.entries, state, steps)
                   && out == After(state, steps);
      EntriesClean(env, inside.value, property, value.entries, state, steps);
    }
  }

  /** A successful expansion of a document in 1.0 holds no list directly in a list. */
  lemma {:induction false} DocumentClean<C>(env: Env<C>, ctx: C, element: J.Value, r: Result<seq<Item>, Error>)
    requires !env.mode11 && DocumentExpands(env, ctx, element, r) && r.Ok?
    ensures AllClean(r.value)
  {
    var e :| Expands(env, ctx, None, element, false, e)
             && r == if e.Err? then Err(e.error) else Ok(Filter(env.keptAtTop, e.value.Items()));
    ExpandsClean(env, ctx, None, element, false, e);
    FilterClean(env.keptAtTop, e.value.Items());
  }
}
