/**
 What expansion works on and what comes out of it (jsonld-expansion/src/element.rs, jsonld-expansion/src/node.rs).

 Context processing, IRI expansion and literal parsing are parameters.
 */
module ExpansionTypes {
  import opened Wrappers
  import opened Values
  import J = Json

  // ----- what comes out

  datatype Item =
    | ValueItem(value: Value, index: Option<string>)
    | NodeItem(node: Node, index: Option<string>)
    | ListItem(items: seq<Item>, index: Option<string>)

  datatype Node = Node(id: Option<string>, types: seq<string>, entries: seq<NodeEntry>)

  datatype NodeEntry =
    | PropertyEntry(property: string, items: seq<Item>)
    | ReverseEntry(property: string, items: seq<Item>)
    | IncludedEntry(items: seq<Item>)
    | GraphEntry(items: seq<Item>)

  datatype Expanded = ExpandedNull | ExpandedObject(item: Item) | ExpandedArray(items: seq<Item>)
  {
    function Items(): seq<Item> {
      match this
      case ExpandedNull => []
      case ExpandedObject(item) => [item]
      case ExpandedArray(items) => items
    }

    function IsList(): bool { ExpandedObject? && item.ListItem? }
  }

  const EMPTY_NODE := Node(None, [], [])

  // ----- the parameters

  datatype Keyword =
    | KwId | KwType | KwGraph | KwIncluded | KwLanguage | KwDirection | KwIndex | KwReverse | KwNest | KwValue
    | KwList | KwSet
    | KwContext | KwNone | KwOther

  /** What a key expands to: nothing, null, a keyword, a property, or something that is none of these. */
  datatype Key = NoKey | NullKey | KeywordKey(k: Keyword) | PropertyKey(property: string) | UndefinedKey

  datatype Error = ListOfLists | OtherError

  /** What a scalar expands to: it is never a list, and nothing is nested in it. */
  datatype Scalar = ScalarValue(value: Value) | ScalarNode(id: Option<string>)
  {
    function AsItem(): Item {
      match this
      case ScalarValue(v) => ValueItem(v, None)
      case ScalarNode(id) => NodeItem(Node(id, [], []), None)
    }
  }

  /** What an index map's key becomes: an `@index`, nothing at all with its item, or a value of a property. */
  datatype IndexEntry = AsIndex | SkipItem | AsProperty(property: string, scalar: Scalar)

  datatype Definition = Definition(container: set<ContainerKind>, isJson: bool, isReverse: bool)

  /** The active context is a `C`; `enter` is every change to it on entering a map. */
  datatype Env<!C> = Env(
    mode11: bool,
    expandKey: (C, string) -> Result<Key, Error>,
    definition: (C, string) -> Definition,
    enter: (C, Option<string>, bool, seq<J.Entry>) -> Result<C, Error>,
    enterNest: (C, string) -> Result<C, Error>,
    enterMap: (C, string, string) -> Result<C, Error>,
    scalar: (C, string, J.Value) -> Result<Scalar, Error>,
    valueObject: (C, seq<J.Entry>, J.Value) -> Result<Option<(Value, Option<string>)>, Error>,
    languageMap: (C, string, seq<J.Entry>) -> Result<seq<Value>, Error>,
    expandId: (C, string) -> Result<Option<string>, Error>,
    expandTypes: (C, J.Value) -> Result<seq<string>, Error>,
    indexEntry: (C, string, string) -> Result<IndexEntry, Error>,
    collides: (Node, Keyword) -> bool,
    keptAtTop: Item -> bool)

  // ----- termination

  function Size(v: J.Value): nat
    decreases v, 0
  {
    match v
    case Array(items) => 1 + ItemsSize(items)
    case Object(entries) => 1 + EntriesSize(entries)
    case _ => 1
  }

  function ItemsSize(items: seq<J.Value>): nat
    decreases items, 0
  {
    if items == [] then 0 else Size(items[0]) + ItemsSize(items[1..])
  }

  function EntrySize(entry: J.Entry): nat
    decreases entry, 0
  {
    Size(entry.value)
  }

  function EntriesSize(entries: seq<J.Entry>): nat
    decreases entries, 0
  {
    if entries == [] then 0 else 1 + EntrySize(entries[0]) + EntriesSize(entries[1..])
  }

  lemma {:induction false} ItemSmaller(items: seq<J.Value>, i: nat)
    requires i < |items|
    ensures Size(items[i]) <= ItemsSize(items)
  {
    if i > 0 { ItemSmaller(items[1..], i - 1); }
  }

  lemma {:induction false} EntrySmaller(entries: seq<J.Entry>, i: nat)
    requires i < |entries|
    ensures Size(entries[i].value) < EntriesSize(entries)
  {
    if i > 0 { EntrySmaller(entries[1..], i - 1); }
  }

  lemma {:induction false} ForcedSize(v: J.Value)
    ensures ItemsSize(J.ForceArray(v)) <= Size(v)
  {
  }

  // ----- properties and maps

  /** No property, or `@graph`: nothing for a scalar to be a value of. */
  predicate IsFree(property: Option<string>) {
    property.None? || property.value == "@graph"
  }

  /** An array under the property becomes a list. */
  predicate WrapsArrays<C>(env: Env<C>, ctx: C, property: Option<string>) {
    property.Some? && List in env.definition(ctx, property.value).container
  }

  predicate NoListAmong(items: seq<Item>) {
    forall i :: 0 <= i < |items| ==> !items[i].ListItem?
  }

  /** All keys expand, and those that do to something are among these keywords. */
  predicate OnlyKeywords<C>(env: Env<C>, ctx: C, entries: seq<J.Entry>, allowed: set<Keyword>) {
    forall i :: 0 <= i < |entries| ==>
      var key := env.expandKey(ctx, entries[i].key);
      key.Ok? && (key.value == NoKey || (key.value.KeywordKey? && key.value.k in allowed))
  }

  /** The node under construction, its index, and whether it had an entry only a value object may have. */
  datatype NodeState = NodeState(node: Node, index: Option<string>, hasValueObjectEntries: bool)

  const START := NodeState(EMPTY_NODE, None, false)

  predicate IsGraph(item: Item) {
    item.NodeItem? && exists i :: 0 <= i < |item.node.entries| && item.node.entries[i].GraphEntry?
  }

  function InGraph(item: Item): Item {
    NodeItem(Node(None, [], [GraphEntry([item])]), None)
  }
}
