/**
 Expansion of elements, arrays and nodes (jsonld-expansion/src/element.rs:78-557,
 jsonld-expansion/src/array.rs:13-77, jsonld-expansion/src/node.rs:63-1033).

 The methods terminate on the size of the element, whatever the parameters do, and what they return is the outcome
 that the relation gives the element.
 */
module Expansion {
  import opened Wrappers
  import opened Values
  import opened ExpansionTypes
  import opened ExpansionRelation
  import opened ExpansionLaws
  import opened ListsOfLists
  import J = Json

  /** What every expansion ensures: no list of lists in 1.0. */
  predicate Good<C>(env: Env<C>, r: Outcome) {
    r.Ok? && !env.mode11 ==> AllClean(r.value.Items())
  }

  // ----- loops, step by step

  ghost predicate AllTaken<T>(steps: seq<Result<T, Error>>) {
    forall i :: 0 <= i < |steps| ==> steps[i].Ok?
  }

  lemma OneTaken<T>(steps: seq<Result<T, Error>>, n: nat, next: Result<T, Error>)
    requires AllTaken(steps) && |steps| < n
    ensures next.Ok? ==> AllTaken(steps + [next])
    ensures next.Err? ==> InTurn(steps + [next], n)
  {
  }

  lemma {:induction false} OnePart(parts: seq<Outcome>, e: Outcome)
    ensures Concat(parts + [e]) == Concat(parts) + (if e.Ok? then e.value.Items() else [])
    ensures Together(parts + [e]) == if e.Err? then Err(e.error) else Ok(Concat(parts + [e]))
  {
    assert (parts + [e])[..|parts|] == parts;
  }

  /** The items taken so far, none of which failed. */
  ghost predicate SoFar<C>(env: Env<C>, ctx: C, property: Option<string>, items: seq<J.Value>, fromMap: bool,
      parts: seq<Outcome>)
  {
    && |parts| <= |items| && AllTaken(parts)
    && forall i :: 0 <= i < |parts| ==> Expands(env, ctx, property, items[i], fromMap, parts[i])
  }

  lemma {:induction false} OneMoreItem<C>(env: Env<C>, ctx: C, property: Option<string>, items: seq<J.Value>,
      fromMap: bool, parts: seq<Outcome>, e: Outcome)
    requires SoFar(env, ctx, property, items, fromMap, parts) && |parts| < |items|
    requires Expands(env, ctx, property, items[|parts|], fromMap, e)
    ensures e.Ok? ==> SoFar(env, ctx, property, items, fromMap, parts + [e])
    ensures e.Err? ==> EachExpands(env, ctx, property, items, fromMap, parts + [e])
  {
    var more := parts + [e];
    OneTaken(parts, |items|, e);
    forall i | 0 <= i < |more| ensures Expands(env, ctx, property, items[i], fromMap, more[i]) {
      if i < |parts| { assert more[i] == parts[i]; }
    }
  }

  lemma {:induction false} AllItems<C>(env: Env<C>, ctx: C, property: Option<string>, items: seq<J.Value>,
      fromMap: bool, parts: seq<Outcome>)
    requires SoFar(env, ctx, property, items, fromMap, parts) && |parts| == |items|
    ensures EachExpands(env, ctx, property, items, fromMap, parts) && Together(parts) == Ok(Concat(parts))
  {
  }

  // ----- elements

  /** The outcome of an element; nests of scalars and arrays come out as the laws of the relation say. */
  method ExpandElement<C>(env: Env<C>, ctx: C, property: Option<string>, element: J.Value, fromMap: bool)
      returns (r: Outcome)
    ensures Expands(env, ctx, property, element, fromMap, r)
    ensures Good(env, r)
    ensures IsNest(env, ctx, property, element) ==> r == NestResult(env, ctx, property.value, element)
    ensures element.Null? || (!element.Array? && !element.Object? && IsFree(property)) ==> r == Ok(ExpandedNull)
    ensures element.Array? && r.Ok? ==> if WrapsArrays(env, ctx, property) then IsListOf(r.value, None)
        else r.value.ExpandedArray?
    decreases Size(element), 2
  {
    match element {
      case Null => r := Ok(ExpandedNull);
      case Array(items) => r := ExpandArray(env, ctx, property, items, fromMap);
      case Object(entries) =>
        var inside := env.enter(ctx, property, fromMap, entries);
        if inside.Err? {
          r := Err(inside.error);
        } else {
          r := ExpandMap(env, inside.value, property, entries);
        }
      case _ =>
        if IsFree(property) {
          r := Ok(ExpandedNull);
        } else {
          var scalar := env.scalar(ctx, property.value, element);
          r := if scalar.Err? then Err(scalar.error) else Ok(ExpandedObject(scalar.value.AsItem()));
        }
    }
    if !env.mode11 { ExpandsClean(env, ctx, property, element, fromMap, r); }
    if IsNest(env, ctx, property, element) { NestLaw(env, ctx, property, element, fromMap, r); }
    if element.Array? && r.Ok? { ArrayLaw(env, ctx, property, element.items, fromMap, r); }
  }

  /** The expansions of the items, one after the other. */
  method ExpandItems<C>(env: Env<C>, ctx: C, property: Option<string>, items: seq<J.Value>, fromMap: bool)
      returns (r: Result<seq<Item>, Error>, ghost parts: seq<Outcome>)
    ensures EachExpands(env, ctx, property, items, fromMap, parts) && r == Together(parts)
    decreases ItemsSize(items), 3
  {
    var result := [];
    parts := [];
    for i := 0 to |items|
      invariant |parts| == i && SoFar(env, ctx, property, items, fromMap, parts)
      invariant result == Concat(parts)
    {
      ItemSmaller(items, i);
      var e := ExpandElement(env, ctx, property, items[i], fromMap);
      OneMoreItem(env, ctx, property, items, fromMap, parts, e);
      OnePart(parts, e);
      parts := parts + [e];
      if e.Err? { return Err(e.error), parts; }
      result := result + e.value.Items();
    }
    AllItems(env, ctx, property, items, fromMap, parts);
    r := Ok(result);
  }

  method ExpandArray<C>(env: Env<C>, ctx: C, property: Option<string>, items: seq<J.Value>, fromMap: bool)
      returns (r: Outcome)
    ensures Expands(env, ctx, property, J.Array(items), fromMap, r)
    ensures Good(env, r)
    ensures IsNest(env, ctx, property, J.Array(items)) ==> r == NestResult(env, ctx, property.value, J.Array(items))
    ensures r.Ok? ==> if WrapsArrays(env, ctx, property) then IsListOf(r.value, None) else r.value.ExpandedArray?
    decreases ItemsSize(items), 4
  {
    var isList := WrapsArrays(env, ctx, property);
    var result, parts := ExpandItems(env, ctx, property, items, fromMap);
    if result.Err? {
      r := Err(result.error);
    } else if isList {
      if !env.mode11 && exists i :: 0 <= i < |result.value| && result.value[i].ListItem? {
        r := Err(ListOfLists);
      } else {
        r := Ok(ExpandedObject(ListItem(result.value, None)));
      }
    } else {
      r := Ok(ExpandedArray(result.value));
    }
    ArrayContract(env, ctx, property, items, fromMap, r);
  }

  lemma {:induction false} ArrayContract<C>(env: Env<C>, ctx: C, property: Option<string>, items: seq<J.Value>,
      fromMap: bool, r: Outcome)
    requires Expands(env, ctx, property, J.Array(items), fromMap, r)
    ensures Good(env, r)
    ensures IsNest(env, ctx, property, J.Array(items)) ==> r == NestResult(env, ctx, property.value, J.Array(items))
    ensures r.Ok? ==> if WrapsArrays(env, ctx, property) then IsListOf(r.value, None) else r.value.ExpandedArray?
  {
    if !env.mode11 { ExpandsClean(env, ctx, property, J.Array(items), fromMap, r); }
    if IsNest(env, ctx, property, J.Array(items)) { NestLaw(env, ctx, property, J.Array(items), fromMap, r); }
    if r.Ok? { ArrayLaw(env, ctx, property, items, fromMap, r); }
  }

  /** The last entry whose key expands to a keyword. */
  method LastEntry<C>(env: Env<C>, ctx: C, entries: seq<J.Entry>, k: Keyword) returns (r: Option<nat>)
    ensures r.Some? ==> IsLast(env, ctx, entries, k, r.value)
    ensures r.None? ==> !Has(env, ctx, entries, k)
  {
    r := None;
    for i := 0 to |entries|
      invariant r.Some? ==> r.value < i && env.expandKey(ctx, entries[r.value].key) == Ok(KeywordKey(k))
      invariant forall j :: (if r.Some? then r.value + 1 else 0) <= j < i ==>
          env.expandKey(ctx, entries[j].key) != Ok(KeywordKey(k))
    {
      if env.expandKey(ctx, entries[i].key) == Ok(KeywordKey(k)) { r := Some(i); }
    }
  }

  method ExpandMap<C>(env: Env<C>, ctx: C, property: Option<string>, entries: seq<J.Entry>) returns (r: Outcome)
    ensures MapExpands(env, ctx, property, entries, r)
    decreases EntriesSize(entries), 9
  {
    if exists i :: 0 <= i < |entries| && env.expandKey(ctx, entries[i].key).Err? { return Err(OtherError); }
    var listEntry := LastEntry(env, ctx, entries, KwList);
    var setEntry := LastEntry(env, ctx, entries, KwSet);
    var valueEntry := LastEntry(env, ctx, entries, KwValue);
    if listEntry.Some? && property.Some? && property.value != "@graph" {
      r := ExpandListObject(env, ctx, property, entries, listEntry.value);
    } else if setEntry.Some? {
      r := ExpandSetObject(env, ctx, property, entries, setEntry.value);
    } else if valueEntry.Some? {
      var value := env.valueObject(ctx, entries, entries[valueEntry.value].value);
      if value.Err? { return Err(value.error); }
      r := Ok(if value.value.Some? then ExpandedObject(ValueItem(value.value.value.0, value.value.value.1))
          else ExpandedNull);
    } else {
      r := ExpandNode(env, ctx, property, entries);
    }
  }

  method ExpandSetObject<C>(env: Env<C>, ctx: C, property: Option<string>, entries: seq<J.Entry>, at: nat)
      returns (r: Outcome)
    requires at < |entries|
    ensures SetObjectExpands(env, ctx, property, entries, at, r)
    decreases EntriesSize(entries), 7
  {
    if !OnlyKeywords(env, ctx, entries, {KwIndex, KwSet}) { return Err(OtherError); }
    EntrySmaller(entries, at);
    r := ExpandElement(env, ctx, property, entries[at].value, false);
  }

  method ExpandListObject<C>(env: Env<C>, ctx: C, property: Option<string>, entries: seq<J.Entry>, at: nat)
      returns (r: Outcome)
    requires at < |entries|
    ensures ListObjectExpands(env, ctx, property, entries, at, r)
    ensures Good(env, r)
    ensures r.Ok? ==> OnlyKeywords(env, ctx, entries, {KwIndex, KwList})
    ensures r.Ok? ==> exists index :: IsIndex(env, ctx, entries, index) && IsListOf(r.value, index)
    decreases EntriesSize(entries), 7
  {
    if !OnlyKeywords(env, ctx, entries, {KwIndex, KwList}) { return Err(OtherError); }
    if exists i :: 0 <= i < |entries| && env.expandKey(ctx, entries[i].key) == Ok(KeywordKey(KwIndex))
        && !entries[i].value.Str? {
      return Err(OtherError);
    }
    var indexEntry := LastEntry(env, ctx, entries, KwIndex);
    var index := if indexEntry.Some? then Some(entries[indexEntry.value].value.s) else None;
    assert IsIndex(env, ctx, entries, index);
    EntrySmaller(entries, at);
    ForcedSize(entries[at].value);
    var items, parts := ExpandItems(env, ctx, property, J.ForceArray(entries[at].value), false);
    if items.Err? { return Err(items.error); }
    if !env.mode11 && exists i :: 0 <= i < |items.value| && items.value[i].ListItem? { return Err(ListOfLists); }
    r := Ok(ExpandedObject(ListItem(items.value, index)));
    ListObjectLaw(env, ctx, property, entries, at, r);
    if !env.mode11 { ListObjectClean(env, ctx, property, entries, at, r); }
  }

  // ----- nodes

  method ExpandNode<C>(env: Env<C>, ctx: C, property: Option<string>, entries: seq<J.Entry>) returns (r: Outcome)
    ensures NodeExpands(env, ctx, property, entries, r)
    decreases EntriesSize(entries), 8
  {
    var e, steps := ExpandNodeEntries(env, START, ctx, property, entries);
    if e.Err? { return Err(e.error); }
    var state := e.value;
    var bare := state.node.entries == [] && state.node.types == [];
    if state.hasValueObjectEntries && bare && state.node.id.None? { return Ok(ExpandedNull); }
    if (property.None? || property.value == "@graph") && bare && state.index.None? { return Ok(ExpandedNull); }
    r := Ok(ExpandedObject(NodeItem(state.node, state.index)));
  }

  ghost predicate EntriesSoFar<C>(env: Env<C>, ctx: C, property: Option<string>, entries: seq<J.Entry>,
      start: NodeState, steps: seq<Result<NodeState, Error>>)
  {
    && |steps| <= |entries| && AllTaken(steps)
    && forall i :: 0 <= i < |steps| ==>
         EntryExpands(env, ctx, property, entries[i], Before(start, steps, i), steps[i])
  }

  lemma {:induction false} OneMoreEntry<C>(env: Env<C>, ctx: C, property: Option<string>, entries: seq<J.Entry>,
      start: NodeState, steps: seq<Result<NodeState, Error>>, next: Result<NodeState, Error>)
    requires EntriesSoFar(env, ctx, property, entries, start, steps) && |steps| < |entries|
    requires EntryExpands(env, ctx, property, entries[|steps|], Before(start, steps, |steps|), next)
    ensures next.Ok? ==> EntriesSoFar(env, ctx, property, entries, start, steps + [next])
    ensures next.Err? ==> EntriesExpand(env, ctx, property, entries, start, steps + [next])
  {
    var more := steps + [next];
    OneTaken(steps, |entries|, next);
    forall i | 0 <= i < |more| ensures EntryExpands(env, ctx, property, entries[i], Before(start, more, i), more[i]) {
      assert Before(start, more, i) == Before(start, steps, i);
    }
  }

  method ExpandNodeEntries<C>(env: Env<C>, start: NodeState, ctx: C, property: Option<string>, entries: seq<J.Entry>)
      returns (r: Result<NodeState, Error>, ghost steps: seq<Result<NodeState, Error>>)
    ensures EntriesExpand(env, ctx, property, entries, start, steps) && r == After(start, steps)
    ensures r.Ok? && !env.mode11 && CleanNode(start.node) ==> CleanNode(r.value.node)
    decreases EntriesSize(entries), 7
  {
    var state := start;
    steps := [];
    for i := 0 to |entries|
      invariant |steps| == i && EntriesSoFar(env, ctx, property, entries, start, steps)
      invariant After(start, steps) == Ok(state)
    {
      EntrySmaller(entries, i);
      var next := ExpandEntry(env, state, ctx, property, entries[i]);
      OneMoreEntry(env, ctx, property, entries, start, steps, next);
      steps := steps + [next];
      if next.Err? { return next, steps; }
      state := next.value;
    }
    r := Ok(state);
    if !env.mode11 && CleanNode(start.node) { EntriesClean(env, ctx, property, entries, start, steps); }
  }

  method ExpandEntry<C>(env: Env<C>, state: NodeState, ctx: C, property: Option<string>, entry: J.Entry)
      returns (r: Result<NodeState, Error>)
    ensures EntryExpands(env, ctx, property, entry, state, r)
    decreases Size(entry.value), 7
  {
    var expanded := env.expandKey(ctx, entry.key);
    if expanded.Err? { return Err(expanded.error); }
    match expanded.value {
      case NoKey => r := Ok(state);
      case NullKey => r := Ok(state);
      case UndefinedKey => r := Ok(state);
      case KeywordKey(k) =>
        if k == KwContext { return Ok(state); }
        if property == Some("@reverse") { return Err(OtherError); }
        if (!env.mode11 || (k != KwIncluded && k != KwType)) && env.collides(state.node, k) {
          return Err(OtherError);
        }
        r := ExpandKeyword(env, state, ctx, property, k, entry);
      case PropertyKey(p) =>
        var value := ExpandProperty(env, ctx, entry.key, entry.value);
        if value.Err? { return Err(value.error); }
        if value.value.ExpandedNull? { return Ok(state); }
        var added := AddProperty(state.node, p, value.value.Items(), env.definition(ctx, entry.key).isReverse);
        if added.Err? { return Err(added.error); }
        r := Ok(state.(node := added.value));
    }
  }

  /** Values of a property, or subjects of its reverse, which have to be nodes. */
  method AddProperty(node: Node, property: string, items: seq<Item>, reverse: bool) returns (r: Result<Node, Error>)
    ensures forall e: Outcome :: e.Ok? && e.value.Items() == items ==> r == Added(node, property, e, reverse)
  {
    if !reverse {
      return Ok(node.(entries := node.entries + [PropertyEntry(property, items)]));
    }
    for i := 0 to |items|
      invariant forall j :: 0 <= j < i ==> items[j].NodeItem?
    {
      if !items[i].NodeItem? { return Err(OtherError); }
    }
    r := Ok(node.(entries := node.entries + [ReverseEntry(property, items)]));
  }

  // ----- the value of a property

  method ExpandProperty<C>(env: Env<C>, ctx: C, key: string, value: J.Value) returns (r: Outcome)
    ensures ValueExpands(env, ctx, key, value, r)
    ensures Good(env, r)
    ensures IsNest(env, ctx, Some(key), value) && value.Array? && !env.definition(ctx, key).isJson
      && Graph !in env.definition(ctx, key).container
      ==> r == NestResult(env, ctx, key, value)
    ensures r.Ok? && List in env.definition(ctx, key).container && Graph !in env.definition(ctx, key).container
        ==> r.value.IsList()
    decreases Size(value), 6
  {
    var container := env.definition(ctx, key).container;
    r := ExpandUncontained(env, ctx, key, value);
    if r.Ok? && List in container && !r.value.IsList() {
      var items := r.value.Items();
      if !env.mode11 && exists i :: 0 <= i < |items| && items[i].ListItem? {
        r := Err(ListOfLists);
      } else {
        r := Ok(ExpandedObject(ListItem(items, None)));
      }
    }
    if r.Ok? && Graph in container && ById !in container && Index !in container {
      var items := r.value.Items();
      r := Ok(ExpandedArray(seq(|items|, i requires 0 <= i < |items| => InGraph(items[i]))));
    }
    if !env.mode11 { ValueClean(env, ctx, key, value, r); }
    if Graph !in container { ValueLaw(env, ctx, key, value, r); }
  }

  method ExpandUncontained<C>(env: Env<C>, ctx: C, key: string, value: J.Value) returns (r: Outcome)
    ensures UncontainedExpands(env, ctx, key, value, r)
    decreases Size(value), 5
  {
    var definition := env.definition(ctx, key);
    if definition.isJson {
      r := Ok(ExpandedObject(ValueItem(JsonValue(value), None)));
    } else if value.Object? && Language in definition.container {
      var values := env.languageMap(ctx, key, value.entries);
      if values.Err? { return Err(values.error); }
      var items := seq(|values.value|, i requires 0 <= i < |values.value| => ValueItem(values.value[i], None));
      r := Ok(ExpandedArray(items));
    } else if value.Object? && definition.container * {Index, ByType, ById} != {} {
      var items, parts := ExpandIndexMap(env, ctx, key, value.entries, definition.container);
      if items.Err? { return Err(items.error); }
      r := Ok(ExpandedArray(items.value));
    } else {
      r := ExpandElement(env, ctx, Some(key), value, false);
    }
  }

  // ----- index, id and type maps

  ghost predicate MapSoFar<C>(env: Env<C>, ctx: C, key: string, container: set<ContainerKind>, entries: seq<J.Entry>,
      parts: seq<Outcome>)
  {
    && |parts| <= |entries| && AllTaken(parts)
    && forall i :: 0 <= i < |parts| ==> MapEntryExpands(env, ctx, key, container, entries[i], parts[i])
  }

  lemma {:induction false} OneMoreMapEntry<C>(env: Env<C>, ctx: C, key: string, container: set<ContainerKind>,
      entries: seq<J.Entry>, parts: seq<Outcome>, e: Outcome)
    requires MapSoFar(env, ctx, key, container, entries, parts) && |parts| < |entries|
    requires MapEntryExpands(env, ctx, key, container, entries[|parts|], e)
    ensures e.Ok? ==> MapSoFar(env, ctx, key, container, entries, parts + [e])
    ensures e.Err? ==> MapEntriesExpand(env, ctx, key, container, entries, parts + [e])
  {
    var more := parts + [e];
    OneTaken(parts, |entries|, e);
    forall i | 0 <= i < |more| ensures MapEntryExpands(env, ctx, key, container, entries[i], more[i]) {
      if i < |parts| { assert more[i] == parts[i]; }
    }
  }

  method ExpandIndexMap<C>(env: Env<C>, ctx: C, key: string, entries: seq<J.Entry>, container: set<ContainerKind>)
      returns (r: Result<seq<Item>, Error>, ghost parts: seq<Outcome>)
    ensures MapEntriesExpand(env, ctx, key, container, entries, parts) && r == Together(parts)
    ensures r.Ok? && !env.mode11 ==> AllClean(r.value)
    decreases EntriesSize(entries), 4
  {
    var result := [];
    parts := [];
    for i := 0 to |entries|
      invariant |parts| == i && MapSoFar(env, ctx, key, container, entries, parts)
      invariant result == Concat(parts)
    {
      EntrySmaller(entries, i);
      var items := ExpandMapEntry(env, ctx, key, entries[i], container);
      ghost var e: Outcome := if items.Err? then Err(items.error) else Ok(ExpandedArray(items.value));
      OneMoreMapEntry(env, ctx, key, container, entries, parts, e);
      OnePart(parts, e);
      parts := parts + [e];
      if items.Err? { return Err(items.error), parts; }
      result := result + items.value;
    }
    assert MapEntriesExpand(env, ctx, key, container, entries, parts);
    r := Ok(result);
    if !env.mode11 { MapEntriesClean(env, ctx, key, container, entries, parts); }
  }

  method ExpandMapEntry<C>(env: Env<C>, ctx: C, key: string, entry: J.Entry, container: set<ContainerKind>)
      returns (r: Result<seq<Item>, Error>)
    ensures MapEntryExpands(env, ctx, key, container, entry, ArrayOutcome(env, false, r))
    decreases Size(entry.value), 4
  {
    var mapContext := env.enterMap(ctx, key, entry.key);
    if mapContext.Err? { return Err(mapContext.error); }
    var expandedIndex := env.expandKey(ctx, entry.key);
    if expandedIndex.Err? { return Err(expandedIndex.error); }
    var e := ExpandElement(env, mapContext.value, Some(key), entry.value, true);
    if e.Err? {
      assert IsKeyed(env, ctx, key, container, entry.key, expandedIndex.value, e, e);
      return Err(e.error);
    }
    ghost var keyed: seq<Outcome>;
    r, keyed := KeyItems(env, ctx, key, entry.key, expandedIndex.value, container, e.value.Items());
    assert IsKeyed(env, ctx, key, container, entry.key, expandedIndex.value, e, ArrayOutcome(env, false, r));
  }

  ghost predicate KeyedSoFar<C>(env: Env<C>, ctx: C, key: string, container: set<ContainerKind>, index: string,
      named: Key, items: seq<Item>, keyed: seq<Outcome>)
  {
    && |keyed| <= |items| && AllTaken(keyed)
    && forall i :: 0 <= i < |keyed| ==> IsItemKeyed(env, ctx, key, container, index, named, items[i], keyed[i])
  }

  lemma {:induction false} OneMoreKeyed<C>(env: Env<C>, ctx: C, key: string, container: set<ContainerKind>,
      index: string, named: Key, items: seq<Item>, keyed: seq<Outcome>, e: Outcome)
    requires KeyedSoFar(env, ctx, key, container, index, named, items, keyed) && |keyed| < |items|
    requires IsItemKeyed(env, ctx, key, container, index, named, items[|keyed|], e)
    ensures e.Ok? ==> KeyedSoFar(env, ctx, key, container, index, named, items, keyed + [e])
    ensures e.Err? ==> EachKeyed(env, ctx, key, container, index, named, items, keyed + [e])
  {
  }

  /** Each item with what the map's key gives it; one that the key cannot be given to is an error. */
  method KeyItems<C>(env: Env<C>, ctx: C, key: string, index: string, named: Key, container: set<ContainerKind>,
      items: seq<Item>)
      returns (r: Result<seq<Item>, Error>, ghost keyed: seq<Outcome>)
    ensures EachKeyed(env, ctx, key, container, index, named, items, keyed) && r == Together(keyed)
  {
    var result := [];
    keyed := [];
    for i := 0 to |items|
      invariant |keyed| == i && result == Concat(keyed)
      invariant KeyedSoFar(env, ctx, key, container, index, named, items, keyed)
    {
      var item := if Graph in container && !IsGraph(items[i]) then InGraph(items[i]) else items[i];
      var next: Result<Option<Item>, Error> := Ok(Some(item));
      if named != NoKey && named != NullKey && named != KeywordKey(KwNone) {
        next := WithIndex(env, ctx, key, index, container, item);
      }
      ghost var e := OptionalOutcome(next);
      OneMoreKeyed(env, ctx, key, container, index, named, items, keyed, e);
      OnePart(keyed, e);
      keyed := keyed + [e];
      if next.Err? { return Err(next.error), keyed; }
      if next.value.Some? { result := result + [next.value.value]; }
    }
    r := Ok(result);
  }

  ghost function OptionalOutcome(item: Result<Option<Item>, Error>): Outcome {
    match item
    case Err(e) => Err(e)
    case Ok(None) => Ok(ExpandedNull)
    case Ok(Some(item)) => Ok(ExpandedObject(item))
  }

  /**
   The map's key goes into the item; an item that cannot take it is an error, and one with no key to
   take is skipped.
   */
  method WithIndex<C>(env: Env<C>, ctx: C, key: string, index: string, container: set<ContainerKind>, item: Item)
      returns (r: Result<Option<Item>, Error>)
    ensures OptionalOutcome(r) == Keyed(env, ctx, key, container, index, item)
  {
    if Index in container {
      var entry := env.indexEntry(ctx, key, index);
      if entry.Err? { return Err(entry.error); }
      if entry.value.SkipItem? { return Ok(None); }
      if entry.value.AsProperty? {
        if !item.NodeItem? { return Err(OtherError); }
        var added := PropertyEntry(entry.value.property, [entry.value.scalar.AsItem()]);
        return Ok(Some(item.(node := item.node.(entries := item.node.entries + [added]))));
      }
      if item.index.None? { return Ok(Some(item.(index := Some(index)))); }
    }
    if ById in container && (!item.NodeItem? || item.node.id.None?) {
      if !item.NodeItem? { return Ok(Some(item)); }
      var id := env.expandId(ctx, index);
      if id.Err? { return Err(id.error); }
      return Ok(Some(item.(node := item.node.(id := id.value))));
    }
    if ByType in container {
      var types := env.expandTypes(ctx, J.Str(index));
      if types.Err? { return Err(types.error); }
      if item.NodeItem? {
        return Ok(Some(item.(node := item.node.(types := types.value + item.node.types))));
      }
    }
    r := Ok(Some(item));
  }

  // ----- keywords in a node

  method ExpandKeyword<C>(env: Env<C>, state: NodeState, ctx: C, property: Option<string>, k: Keyword, entry: J.Entry)
      returns (r: Result<NodeState, Error>)
    ensures KeywordExpands(env, ctx, property, k, entry, state, r)
    decreases Size(entry.value), 6
  {
    var value := entry.value;
    match k {
      case KwId =>
        if !value.Str? { return Err(OtherError); }
        var id := env.expandId(ctx, value.s);
        if id.Err? { return Err(id.error); }
        r := Ok(state.(node := state.node.(id := id.value)));
      case KwType =>
        var types := env.expandTypes(ctx, value);
        if types.Err? { return Err(types.error); }
        r := Ok(state.(node := state.node.(types := state.node.types + types.value)));
      case KwGraph =>
        var e := ExpandElement(env, ctx, Some("@graph"), value, false);
        if e.Err? { return Err(e.error); }
        var kept := Filter(env.keptAtTop, e.value.Items());
        r := Ok(state.(node := state.node.(entries := state.node.entries + [GraphEntry(kept)])));
      case KwIncluded =>
        if !env.mode11 { return Ok(state); }
        var e := ExpandElement(env, ctx, Some("@included"), value, false);
        if e.Err? { return Err(e.error); }
        var items := e.value.Items();
        if exists i :: 0 <= i < |items| && !items[i].NodeItem? { return Err(OtherError); }
        r := Ok(state.(node := state.node.(entries := state.node.entries + [IncludedEntry(items)])));
      case KwLanguage => r := Ok(state.(hasValueObjectEntries := true));
      case KwDirection => r := Ok(state.(hasValueObjectEntries := true));
      case KwIndex =>
        if !value.Str? { return Err(OtherError); }
        r := Ok(state.(index := Some(value.s)));
      case KwReverse =>
        if !value.Object? { return Err(OtherError); }
        var node, steps := ExpandReverse(env, state.node, ctx, value.entries);
        if node.Err? { return Err(node.error); }
        r := Ok(state.(node := node.value));
      case KwNest =>
        ForcedSize(value);
        ghost var steps;
        r, steps := ExpandNest(env, state, ctx, property, entry.key, J.ForceArray(value));
      case KwValue => r := Err(OtherError);
      case _ => r := Ok(state);
    }
  }

  ghost predicate ReverseSoFar<C>(env: Env<C>, ctx: C, entries: seq<J.Entry>, start: Node,
      steps: seq<Result<Node, Error>>)
  {
    && |steps| <= |entries| && AllTaken(steps)
    && forall i :: 0 <= i < |steps| ==> ReverseEntryExpands(env, ctx, entries[i], Before(start, steps, i), steps[i])
  }

  lemma {:induction false} OneMoreReverse<C>(env: Env<C>, ctx: C, entries: seq<J.Entry>, start: Node,
      steps: seq<Result<Node, Error>>, next: Result<Node, Error>)
    requires ReverseSoFar(env, ctx, entries, start, steps) && |steps| < |entries|
    requires ReverseEntryExpands(env, ctx, entries[|steps|], Before(start, steps, |steps|), next)
    ensures next.Ok? ==> ReverseSoFar(env, ctx, entries, start, steps + [next])
    ensures next.Err? ==> ReverseExpands(env, ctx, entries, start, steps + [next])
  {
    var more := steps + [next];
    OneTaken(steps, |entries|, next);
    forall i | 0 <= i < |more| ensures ReverseEntryExpands(env, ctx, entries[i], Before(start, more, i), more[i]) {
      assert Before(start, more, i) == Before(start, steps, i);
    }
  }

  method ExpandReverse<C>(env: Env<C>, start: Node, ctx: C, entries: seq<J.Entry>)
      returns (r: Result<Node, Error>, ghost steps: seq<Result<Node, Error>>)
    ensures ReverseExpands(env, ctx, entries, start, steps) && r == After(start, steps)
    decreases EntriesSize(entries), 5
  {
    var node := start;
    steps := [];
    for i := 0 to |entries|
      invariant |steps| == i && ReverseSoFar(env, ctx, entries, start, steps)
      invariant After(start, steps) == Ok(node)
    {
      EntrySmaller(entries, i);
      var next := ExpandReverseEntry(env, node, ctx, entries[i]);
      OneMoreReverse(env, ctx, entries, start, steps, next);
      steps := steps + [next];
      if next.Err? { return next, steps; }
      node := next.value;
    }
    r := Ok(node);
  }

  method ExpandReverseEntry<C>(env: Env<C>, node: Node, ctx: C, entry: J.Entry) returns (r: Result<Node, Error>)
    ensures ReverseEntryExpands(env, ctx, entry, node, r)
    decreases Size(entry.value), 3
  {
    var expanded := env.expandKey(ctx, entry.key);
    if expanded.Err? { return Err(expanded.error); }
    match expanded.value {
      case KeywordKey(_) => r := Err(OtherError);
      case PropertyKey(p) =>
        var e := ExpandElement(env, ctx, Some(entry.key), entry.value, false);
        if e.Err? { return Err(e.error); }
        // a term that is reversed itself is reversed twice
        r := AddProperty(node, p, e.value.Items(), !env.definition(ctx, entry.key).isReverse);
      case _ => r := Ok(node);
    }
  }

  ghost predicate NestsSoFar<C>(env: Env<C>, ctx: C, property: Option<string>, key: string, values: seq<J.Value>,
      start: NodeState, steps: seq<Result<NodeState, Error>>)
  {
    && |steps| <= |values| && AllTaken(steps)
    && forall i :: 0 <= i < |steps| ==>
         NestExpands(env, ctx, property, key, values[i], Before(start, steps, i), steps[i])
  }

  lemma {:induction false} OneMoreNest<C>(env: Env<C>, ctx: C, property: Option<string>, key: string,
      values: seq<J.Value>, start: NodeState, steps: seq<Result<NodeState, Error>>, next: Result<NodeState, Error>)
    requires NestsSoFar(env, ctx, property, key, values, start, steps) && |steps| < |values|
    requires NestExpands(env, ctx, property, key, values[|steps|], Before(start, steps, |steps|), next)
    ensures next.Ok? ==> NestsSoFar(env, ctx, property, key, values, start, steps + [next])
    ensures next.Err? ==> NestsExpand(env, ctx, property, key, values, start, steps + [next])
  {
    var more := steps + [next];
    OneTaken(steps, |values|, next);
    forall i | 0 <= i < |more|
      ensures NestExpands(env, ctx, property, key, values[i], Before(start, more, i), more[i])
    {
      assert Before(start, more, i) == Before(start, steps, i);
    }
  }

  method ExpandNest<C>(env: Env<C>, start: NodeState, ctx: C, property: Option<string>, key: string,
      values: seq<J.Value>)
      returns (r: Result<NodeState, Error>, ghost steps: seq<Result<NodeState, Error>>)
    ensures NestsExpand(env, ctx, property, key, values, start, steps) && r == After(start, steps)
    decreases ItemsSize(values), 5
  {
    var state := start;
    steps := [];
    for i := 0 to |values|
      invariant |steps| == i && NestsSoFar(env, ctx, property, key, values, start, steps)
      invariant After(start, steps) == Ok(state)
    {
      ItemSmaller(values, i);
      var next := ExpandNested(env, state, ctx, property, key, values[i]);
      OneMoreNest(env, ctx, property, key, values, start, steps, next);
      steps := steps + [next];
      if next.Err? { return next, steps; }
      state := next.value;
    }
    r := Ok(state);
  }

  method ExpandNested<C>(env: Env<C>, state: NodeState, ctx: C, property: Option<string>, key: string, value: J.Value)
      returns (r: Result<NodeState, Error>)
    ensures NestExpands(env, ctx, property, key, value, state, r)
    decreases Size(value), 4
  {
    var inside := env.enterNest(ctx, key);
    if inside.Err? { return Err(inside.error); }
    if !value.Object? { return Err(OtherError); }
    ghost var steps;
    r, steps := ExpandNodeEntries(env, state, inside.value, property, value.entries);
  }

  /** A document is what the relation makes of it; in JSON-LD 1.0 it holds no list directly in a list. */
  method ExpandDocument<C>(env: Env<C>, ctx: C, element: J.Value) returns (r: Result<seq<Item>, Error>)
    ensures DocumentExpands(env, ctx, element, r)
    ensures r.Ok? && !env.mode11 ==> AllClean(r.value)
  {
    var e := ExpandElement(env, ctx, None, element, false);
    if e.Err? { return Err(e.error); }
    r := Ok(Filter(env.keptAtTop, e.value.Items()));
    if !env.mode11 { DocumentClean(env, ctx, element, r); }
  }
}
