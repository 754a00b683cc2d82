/**
 What an element expands to, said as a relation between the element and the outcome
 (jsonld-expansion/src/element.rs:78-557, jsonld-expansion/src/array.rs:13-77, jsonld-expansion/src/node.rs:63-1033).

 Wherever the expander walks a collection, the relation asks for the outcomes of its elements, one for each up to the
 first that fails, and says what follows from them together. An element has exactly one outcome.
 */
module ExpansionRelation {
  import opened Wrappers
  import opened Values
  import opened ExpansionTypes
  import J = Json

  type Outcome = Result<Expanded, Error>

  // ----- steps taken in turn

  /** Of `n` steps all are taken, or those up to the first that fails. */
  ghost predicate InTurn<T>(steps: seq<Result<T, Error>>, n: nat) {
    && |steps| <= n
    && (forall i :: 0 <= i < |steps| - 1 ==> steps[i].Ok?)
    && (|steps| < n ==> steps != [] && steps[|steps| - 1].Err?)
  }

  /** What there is before step `i`, when each step works on what the one before it left. */
  ghost function Before<T>(start: T, steps: seq<Result<T, Error>>, i: nat): T
    requires i <= |steps|
  {
    if i > 0 && steps[i - 1].Ok? then steps[i - 1].value else start
  }

  ghost function After<T>(start: T, steps: seq<Result<T, Error>>): Result<T, Error> {
    if steps == [] then Ok(start) else steps[|steps| - 1]
  }

  /** The items of all the parts, in order. */
  ghost function Concat(parts: seq<Outcome>): seq<Item> {
    if parts == [] then []
    else
      var last := parts[|parts| - 1];
      Concat(parts[..|parts| - 1]) + (if last.Ok? then last.value.Items() else [])
  }

  ghost function Together(parts: seq<Outcome>): Result<seq<Item>, Error> {
    if parts != [] && parts[|parts| - 1].Err? then Err(parts[|parts| - 1].error) else Ok(Concat(parts))
  }

  // ----- elements

  /** In 1.0 a list must not hold a list. */
  ghost function ListOutcome<C>(env: Env<C>, items: Result<seq<Item>, Error>, index: Option<string>): Outcome {
    match items
    case Err(e) => Err(e)
    case Ok(items) =>
      if !env.mode11 && !NoListAmong(items) then Err(ListOfLists) else Ok(ExpandedObject(ListItem(items, index)))
  }

  ghost function ArrayOutcome<C>(env: Env<C>, isList: bool, items: Result<seq<Item>, Error>): Outcome {
    if isList then ListOutcome(env, items, None)
    else match items case Err(e) => Err(e) case Ok(items) => Ok(ExpandedArray(items))
  }

  ghost function ScalarOutcome(scalar: Result<Scalar, Error>): Outcome {
    match scalar case Err(e) => Err(e) case Ok(s) => Ok(ExpandedObject(s.AsItem()))
  }

  ghost predicate Expands<C>(env: Env<C>, ctx: C, property: Option<string>, element: J.Value, fromMap: bool, r: Outcome)
    decreases Size(element), 2
  {
    match element
    case Null => r == Ok(ExpandedNull)
    case Array(items) =>
      exists parts :: EachExpands(env, ctx, property, items, fromMap, parts)
                      && r == ArrayOutcome(env, WrapsArrays(env, ctx, property), Together(parts))
    case Object(entries) =>
      (match env.enter(ctx, property, fromMap, entries)
       case Err(e) => r == Err(e)
       case Ok(inside) => MapExpands(env, inside, property, entries, r))
    case _ =>
      if IsFree(property) then r == Ok(ExpandedNull)
      else r == ScalarOutcome(env.scalar(ctx, property.value, element))
  }

  /** The outcomes of the items, up to the first that fails. */
  ghost predicate EachExpands<C>(env: Env<C>, ctx: C, property: Option<string>, items: seq<J.Value>, fromMap: bool,
      parts: seq<Outcome>)
    decreases ItemsSize(items), 3
  {
    && InTurn(parts, |items|)
    && (forall i :: 0 <= i < |parts| ==>
          (ItemSmaller(items, i); Expands(env, ctx, property, items[i], fromMap, parts[i])))
  }

  // ----- maps

  ghost predicate Has<C>(env: Env<C>, ctx: C, entries: seq<J.Entry>, k: Keyword) {
    exists at :: IsLast(env, ctx, entries, k, at)
  }

  /** The last entry whose key expands to the keyword. */
  ghost predicate IsLast<C>(env: Env<C>, ctx: C, entries: seq<J.Entry>, k: Keyword, at: int) {
    && 0 <= at < |entries| && env.expandKey(ctx, entries[at].key) == Ok(KeywordKey(k))
    && forall j :: at < j < |entries| ==> env.expandKey(ctx, entries[j].key) != Ok(KeywordKey(k))
  }

  ghost predicate KeyFails<C>(env: Env<C>, ctx: C, entries: seq<J.Entry>) {
    exists i :: 0 <= i < |entries| && env.expandKey(ctx, entries[i].key).Err?
  }

  /** A list object, a set object, a value object or a node object, looked for in this order. */
  ghost predicate MapExpands<C>(env: Env<C>, ctx: C, property: Option<string>, entries: seq<J.Entry>, r: Outcome)
    decreases EntriesSize(entries), 9
  {
    if KeyFails(env, ctx, entries) then r == Err(OtherError)
    else if Has(env, ctx, entries, KwList) && !IsFree(property) then
      exists at :: IsLast(env, ctx, entries, KwList, at) && ListObjectExpands(env, ctx, property, entries, at, r)
    else if Has(env, ctx, entries, KwSet) then
      exists at :: IsLast(env, ctx, entries, KwSet, at) && SetObjectExpands(env, ctx, property, entries, at, r)
    else if Has(env, ctx, entries, KwValue) then
      exists at :: IsLast(env, ctx, entries, KwValue, at) && ValueObjectExpands(env, ctx, entries, at, r)
    else NodeExpands(env, ctx, property, entries, r)
  }

  ghost predicate ValueObjectExpands<C>(env: Env<C>, ctx: C, entries: seq<J.Entry>, at: nat, r: Outcome)
    requires at < |entries|
  {
    r == ValueOutcome(env.valueObject(ctx, entries, entries[at].value))
  }

  ghost function ValueOutcome(value: Result<Option<(Value, Option<string>)>, Error>): Outcome {
    match value
    case Err(e) => Err(e)
    case Ok(None) => Ok(ExpandedNull)
    case Ok(Some(v)) => Ok(ExpandedObject(ValueItem(v.0, v.1)))
  }

  ghost predicate IndexIsString<C>(env: Env<C>, ctx: C, entries: seq<J.Entry>) {
    forall i :: 0 <= i < |entries| && env.expandKey(ctx, entries[i].key) == Ok(KeywordKey(KwIndex)) ==>
      entries[i].value.Str?
  }

  /** The index of a list object is the last it is given. */
  ghost predicate IsIndex<C>(env: Env<C>, ctx: C, entries: seq<J.Entry>, index: Option<string>) {
    if index.None? then !Has(env, ctx, entries, KwIndex)
    else exists at :: IsLast(env, ctx, entries, KwIndex, at) && entries[at].value == J.Str(index.value)
  }

  ghost predicate ListObjectExpands<C>(env: Env<C>, ctx: C, property: Option<string>, entries: seq<J.Entry>, at: nat,
      r: Outcome)
    requires at < |entries|
    decreases EntriesSize(entries), 7
  {
    if !OnlyKeywords(env, ctx, entries, {KwIndex, KwList}) || !IndexIsString(env, ctx, entries)
      then r == Err(OtherError)
    else
      EntrySmaller(entries, at);
      ForcedSize(entries[at].value);
      exists parts, index :: EachExpands(env, ctx, property, J.ForceArray(entries[at].value), false, parts)
                             && IsIndex(env, ctx, entries, index) && r == ListOutcome(env, Together(parts), index)
  }

  /** A set object is what it holds; an index beside it is ignored. */
  ghost predicate SetObjectExpands<C>(env: Env<C>, ctx: C, property: Option<string>, entries: seq<J.Entry>, at: nat,
      r: Outcome)
    requires at < |entries|
    decreases EntriesSize(entries), 7
  {
    if !OnlyKeywords(env, ctx, entries, {KwIndex, KwSet}) then r == Err(OtherError)
    else
      EntrySmaller(entries, at);
      Expands(env, ctx, property, entries[at].value, false, r)
  }

  // ----- nodes

  /** Nothing comes of a node with nothing in it where it would say nothing. */
  ghost function NodeOutcome(property: Option<string>, state: Result<NodeState, Error>): Outcome {
    match state
    case Err(e) => Err(e)
    case Ok(s) =>
      var bare := s.node.entries == [] && s.node.types == [];
      if bare && ((s.hasValueObjectEntries && s.node.id.None?) || (IsFree(property) && s.index.None?))
        then Ok(ExpandedNull)
      else Ok(ExpandedObject(NodeItem(s.node, s.index)))
  }

  ghost predicate NodeExpands<C>(env: Env<C>, ctx: C, property: Option<string>, entries: seq<J.Entry>, r: Outcome)
    decreases EntriesSize(entries), 8
  {
    exists steps :: EntriesExpand(env, ctx, property, entries, START, steps)
                    && r == NodeOutcome(property, After(START, steps))
  }

  ghost predicate EntriesExpand<C>(env: Env<C>, ctx: C, property: Option<string>, entries: seq<J.Entry>,
      start: NodeState, steps: seq<Result<NodeState, Error>>)
    decreases EntriesSize(entries), 7
  {
    && InTurn(steps, |entries|)
    && (forall i :: 0 <= i < |steps| ==>
          (EntrySmaller(entries, i); EntryExpands(env, ctx, property, entries[i], Before(start, steps, i), steps[i])))
  }

  ghost predicate EntryExpands<C>(env: Env<C>, ctx: C, property: Option<string>, entry: J.Entry, state: NodeState,
      out: Result<NodeState, Error>)
    decreases Size(entry.value), 7
  {
    match env.expandKey(ctx, entry.key)
    case Err(e) => out == Err(e)
    case Ok(KeywordKey(k)) =>
      if k == KwContext then out == Ok(state)
      else if property == Some("@reverse") || Collides(env, state.node, k) then out == Err(OtherError)
      else KeywordExpands(env, ctx, property, k, entry, state, out)
    case Ok(PropertyKey(p)) =>
      exists e :: ValueExpands(env, ctx, entry.key, entry.value, e)
                  && out == StateAdded(state, p, e, env.definition(ctx, entry.key).isReverse)
    case Ok(_) => out == Ok(state)
  }

  /** A keyword may be given twice only where the mode says so. */
  ghost predicate Collides<C>(env: Env<C>, node: Node, k: Keyword) {
    (!env.mode11 || (k != KwIncluded && k != KwType)) && env.collides(node, k)
  }

  /** The values of a property, or the subjects of its reverse, which have to be nodes. */
  ghost function Added(node: Node, property: string, e: Outcome, reverse: bool): Result<Node, Error> {
    match e
    case Err(error) => Err(error)
    case Ok(expanded) =>
      var items := expanded.Items();
      if !reverse then Ok(node.(entries := node.entries + [PropertyEntry(property, items)]))
      else if forall i :: 0 <= i < |items| ==> items[i].NodeItem?
        then Ok(node.(entries := node.entries + [ReverseEntry(property, items)]))
      else Err(OtherError)
  }

  /** Null is no value of a property. */
  ghost function StateAdded(state: NodeState, property: string, e: Outcome, reverse: bool): Result<NodeState, Error> {
    if e == Ok(ExpandedNull) then Ok(state)
    else match Added(state.node, property, e, reverse)
      case Err(error) => Err(error)
      case Ok(node) => Ok(state.(node := node))
  }

  // ----- the value of a property

  /** A JSON literal, a language map, an index map, or an element; then as the container says. */
  ghost predicate ValueExpands<C>(env: Env<C>, ctx: C, key: string, value: J.Value, r: Outcome)
    decreases Size(value), 6
  {
    exists e :: UncontainedExpands(env, ctx, key, value, e)
                && r == GraphsOutcome(env, ctx, key, ListTermOutcome(env, ctx, key, e))
  }

  ghost predicate UncontainedExpands<C>(env: Env<C>, ctx: C, key: string, value: J.Value, e: Outcome)
    decreases Size(value), 5
  {
    var definition := env.definition(ctx, key);
    if definition.isJson then e == Ok(ExpandedObject(ValueItem(JsonValue(value), None)))
    else if value.Object? && Language in definition.container then
      e == LanguageMapOutcome(env.languageMap(ctx, key, value.entries))
    else if value.Object? && definition.container * {Index, ByType, ById} != {} then
      exists parts :: MapEntriesExpand(env, ctx, key, definition.container, value.entries, parts)
                      && e == ArrayOutcome(env, false, Together(parts))
    else Expands(env, ctx, Some(key), value, false, e)
  }

  ghost function LanguageMapOutcome(values: Result<seq<Value>, Error>): Outcome {
    match values
    case Err(e) => Err(e)
    case Ok(values) =>
      Ok(ExpandedArray(seq(|values|, i requires 0 <= i < |values| => ValueItem(values[i], None))))
  }

  /** What a list term holds is one list. */
  ghost function ListTermOutcome<C>(env: Env<C>, ctx: C, key: string, e: Outcome): Outcome {
    if e.Err? || List !in env.definition(ctx, key).container || e.value.IsList() then e
    else ListOutcome(env, Ok(e.value.Items()), None)
  }

  /** What a graph term holds are graphs, unless it has an id or index map for them. */
  ghost function GraphsOutcome<C>(env: Env<C>, ctx: C, key: string, e: Outcome): Outcome {
    var container := env.definition(ctx, key).container;
    if e.Err? || Graph !in container || ById in container || Index in container then e
    else
      var items := e.value.Items();
      Ok(ExpandedArray(seq(|items|, i requires 0 <= i < |items| => InGraph(items[i]))))
  }

  // ----- index, id and type maps

  ghost predicate MapEntriesExpand<C>(env: Env<C>, ctx: C, key: string, container: set<ContainerKind>,
      entries: seq<J.Entry>, parts: seq<Outcome>)
    decreases EntriesSize(entries), 4
  {
    && InTurn(parts, |entries|)
    && (forall i :: 0 <= i < |parts| ==>
          (EntrySmaller(entries, i); MapEntryExpands(env, ctx, key, container, entries[i], parts[i])))
  }

  /** The value under the map's own context, and each of its items with what the map's key gives it. */
  ghost predicate MapEntryExpands<C>(env: Env<C>, ctx: C, key: string, container: set<ContainerKind>, entry: J.Entry,
      part: Outcome)
    decreases Size(entry.value), 4
  {
    match env.enterMap(ctx, key, entry.key)
    case Err(e) => part == Err(e)
    case Ok(inside) =>
      match env.expandKey(ctx, entry.key)
      case Err(e) => part == Err(e)
      case Ok(named) =>
        exists e :: Expands(env, inside, Some(key), entry.value, true, e)
                    && IsKeyed(env, ctx, key, container, entry.key, named, e, part)
  }

  ghost predicate IsKeyed<C>(env: Env<C>, ctx: C, key: string, container: set<ContainerKind>, index: string, named: Key,
      e: Outcome, part: Outcome)
  {
    if e.Err? then part == e
    else exists keyed :: EachKeyed(env, ctx, key, container, index, named, e.value.Items(), keyed)
                         && part == ArrayOutcome(env, false, Together(keyed))
  }

  ghost predicate EachKeyed<C>(env: Env<C>, ctx: C, key: string, container: set<ContainerKind>, index: string,
      named: Key, items: seq<Item>, keyed: seq<Outcome>)
  {
    && InTurn(keyed, |items|)
    && (forall i :: 0 <= i < |keyed| ==> IsItemKeyed(env, ctx, key, container, index, named, items[i], keyed[i]))
  }

  /** Items of a graph map are put in graphs first; a key that expands to nothing or to `@none` gives them nothing. */
  ghost predicate IsItemKeyed<C>(env: Env<C>, ctx: C, key: string, container: set<ContainerKind>, index: string,
      named: Key, item: Item, keyed: Outcome)
  {
    var inGraph := if Graph in container && !IsGraph(item) then InGraph(item) else item;
    keyed == if named in {NoKey, NullKey, KeywordKey(KwNone)} then Ok(ExpandedObject(inGraph))
             else Keyed(env, ctx, key, container, index, inGraph)
  }

  /** What the key of a map gives an item: an index, a value of a property, an identifier or a type. */
  ghost function Keyed<C>(env: Env<C>, ctx: C, key: string, container: set<ContainerKind>, index: string, item: Item)
    : Outcome
  {
    if Index in container then
      match env.indexEntry(ctx, key, index)
      case Err(e) => Err(e)
      case Ok(SkipItem) => Ok(ExpandedNull)
      case Ok(AsProperty(property, scalar)) =>
        if item.NodeItem?
        then Ok(ExpandedObject(item.(node := item.node.(entries :=
               item.node.entries + [PropertyEntry(property, [scalar.AsItem()])]))))
        else Err(OtherError)
      case Ok(AsIndex) =>
        if item.index.None? then Ok(ExpandedObject(item.(index := Some(index))))
        else Identified(env, ctx, container, index, item)
    else Identified(env, ctx, container, index, item)
  }

  ghost function Identified<C>(env: Env<C>, ctx: C, container: set<ContainerKind>, index: string, item: Item): Outcome {
    if ById in container && (!item.NodeItem? || item.node.id.None?) then
      if !item.NodeItem? then Ok(ExpandedObject(item))
      else match env.expandId(ctx, index)
        case Err(e) => Err(e)
        case Ok(id) => Ok(ExpandedObject(item.(node := item.node.(id := id))))
    else if ByType in container then
      match env.expandTypes(ctx, J.Str(index))
      case Err(e) => Err(e)
      case Ok(types) =>
        Ok(ExpandedObject(
             if item.NodeItem? then item.(node := item.node.(types := types + item.node.types)) else item))
    else Ok(ExpandedObject(item))
  }

  // ----- keywords in a node

  ghost predicate KeywordExpands<C>(env: Env<C>, ctx: C, property: Option<string>, k: Keyword, entry: J.Entry,
      state: NodeState, out: Result<NodeState, Error>)
    decreases Size(entry.value), 6
  {
    var value := entry.value;
    match k
    case KwId => out == if value.Str? then IdGiven(state, env.expandId(ctx, value.s)) else Err(OtherError)
    case KwType => out == TypesGiven(state, env.expandTypes(ctx, value))
    case KwGraph =>
      exists e :: Expands(env, ctx, Some("@graph"), value, false, e) && out == GraphGiven(env, state, e)
    case KwIncluded =>
      if !env.mode11 then out == Ok(state)
      else exists e :: Expands(env, ctx, Some("@included"), value, false, e) && out == IncludedGiven(state, e)
    case KwLanguage => out == Ok(state.(hasValueObjectEntries := true))
    case KwDirection => out == Ok(state.(hasValueObjectEntries := true))
    case KwIndex => out == if value.Str? then Ok(state.(index := Some(value.s))) else Err(OtherError)
    case KwReverse =>
      if !value.Object? then out == Err(OtherError)
      else exists steps :: ReverseExpands(env, ctx, value.entries, state.node, steps)
                           && out == NodeGiven(state, After(state.node, steps))
    case KwNest =>
      ForcedSize(value);
      exists steps :: NestsExpand(env, ctx, property, entry.key, J.ForceArray(value), state, steps)
                      && out == After(state, steps)
    case KwValue => out == Err(OtherError)
    case _ => out == Ok(state)
  }

  ghost function IdGiven(state: NodeState, id: Result<Option<string>, Error>): Result<NodeState, Error> {
    match id case Err(e) => Err(e) case Ok(id) => Ok(state.(node := state.node.(id := id)))
  }

  ghost function TypesGiven(state: NodeState, types: Result<seq<string>, Error>): Result<NodeState, Error> {
    match types
    case Err(e) => Err(e)
    case Ok(types) => Ok(state.(node := state.node.(types := state.node.types + types)))
  }

  ghost function NodeGiven(state: NodeState, node: Result<Node, Error>): Result<NodeState, Error> {
    match node case Err(e) => Err(e) case Ok(node) => Ok(state.(node := node))
  }

  ghost function WithEntry(state: NodeState, entry: NodeEntry): NodeState {
    state.(node := state.node.(entries := state.node.entries + [entry]))
  }

  function Filter(keep: Item -> bool, items: seq<Item>): seq<Item> {
    if items == [] then []
    else
      Filter(keep, items[..|items| - 1])
      + (if keep(items[|items| - 1]) then [items[|items| - 1]] else [])
  }

  ghost function GraphGiven<C>(env: Env<C>, state: NodeState, e: Outcome): Result<NodeState, Error> {
    if e.Err? then Err(e.error) else Ok(WithEntry(state, GraphEntry(Filter(env.keptAtTop, e.value.Items()))))
  }

  ghost function IncludedGiven(state: NodeState, e: Outcome): Result<NodeState, Error> {
    if e.Err? then Err(e.error)
    else if exists i :: 0 <= i < |e.value.Items()| && !e.value.Items()[i].NodeItem? then Err(OtherError)
    else Ok(WithEntry(state, IncludedEntry(e.value.Items())))
  }

  /** A term that is reversed itself is reversed twice. */
  ghost predicate ReverseExpands<C>(env: Env<C>, ctx: C, entries: seq<J.Entry>, start: Node,
      steps: seq<Result<Node, Error>>)
    decreases EntriesSize(entries), 5
  {
    && InTurn(steps, |entries|)
    && (forall i :: 0 <= i < |steps| ==>
          (EntrySmaller(entries, i); ReverseEntryExpands(env, ctx, entries[i], Before(start, steps, i), steps[i])))
  }

  ghost predicate ReverseEntryExpands<C>(env: Env<C>, ctx: C, entry: J.Entry, node: Node, out: Result<Node, Error>)
    decreases Size(entry.value), 3
  {
    match env.expandKey(ctx, entry.key)
    case Err(e) => out == Err(e)
    case Ok(KeywordKey(_)) => out == Err(OtherError)
    case Ok(PropertyKey(p)) =>
      exists e :: Expands(env, ctx, Some(entry.key), entry.value, false, e)
                  && out == Added(node, p, e, !env.definition(ctx, entry.key).isReverse)
    case Ok(_) => out == Ok(node)
  }

  /** Nested entries land in the same node. */
  ghost predicate NestsExpand<C>(env: Env<C>, ctx: C, property: Option<string>, key: string, values: seq<J.Value>,
      start: NodeState, steps: seq<Result<NodeState, Error>>)
    decreases ItemsSize(values), 5
  {
    && InTurn(steps, |values|)
    && (forall i :: 0 <= i < |steps| ==>
          (ItemSmaller(values, i); NestExpands(env, ctx, property, key, values[i], Before(start, steps, i), steps[i])))
  }

  ghost predicate NestExpands<C>(env: Env<C>, ctx: C, property: Option<string>, key: string, value: J.Value,
      state: NodeState, out: Result<NodeState, Error>)
    decreases Size(value), 4
  {
    match env.enterNest(ctx, key)
    case Err(e) => out == Err(e)
    case Ok(inside) =>
      if !value.Object? then out == Err(OtherError)
      else exists steps :: EntriesExpand(env, inside, property, value.entries, state, steps)
                           && out == After(state, steps)
  }

  /** A whole document: what an element comes to without a property, without free-floating values. */
  ghost predicate DocumentExpands<C>(env: Env<C>, ctx: C, element: J.Value, r: Result<seq<Item>, Error>) {
    exists e :: Expands(env, ctx, None, element, false, e)
                && r == if e.Err? then Err(e.error) else Ok(Filter(env.keptAtTop, e.value.Items()))
  }
}
