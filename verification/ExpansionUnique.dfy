/** An element has at most one outcome of expansion. */
module ExpansionUnique {
  import opened Wrappers
  import opened Values
  import opened ExpansionTypes
  import opened ExpansionRelation
  import J = Json

  /** Steps that agree as far as both go stop at the same one. */
  lemma SameSteps<T>(a: seq<Result<T, Error>>, b: seq<Result<T, Error>>, n: nat)
    requires InTurn(a, n) && InTurn(b, n)
    requires forall i :: 0 <= i < |a| && i < |b| ==> a[i] == b[i]
    ensures a == b
  {
    if 0 < |a| <= |b| { assert a[|a| - 1] == b[|a| - 1]; }
    if 0 < |b| <= |a| { assert a[|b| - 1] == b[|b| - 1]; }
  }

  lemma LastUnique<C>(env: Env<C>, ctx: C, entries: seq<J.Entry>, k: Keyword, a: int, b: int)
    requires IsLast(env, ctx, entries, k, a) && IsLast(env, ctx, entries, k, b)
    ensures a == b
  {
  }

  lemma {:induction false} ExpandsUnique<C>(env: Env<C>, ctx: C, property: Option<string>, element: J.Value,
      fromMap: bool, r: Outcome, s: Outcome)
    requires Expands(env, ctx, property, element, fromMap, r) && Expands(env, ctx, property, element, fromMap, s)
    ensures r == s
    decreases Size(element), 2
  {
    match element
    case Array(items) =>
      var isList := WrapsArrays(env, ctx, property);
      var a :| EachExpands(env, ctx, property, items, fromMap, a) && r == ArrayOutcome(env, isList, Together(a));
      var b :| EachExpands(env, ctx, property, items, fromMap, b) && s == ArrayOutcome(env, isList, Together(b));
      EachUnique(env, ctx, property, items, fromMap, a, b);
    case Object(entries) =>
      var inside := env.enter(ctx, property, fromMap, entries);
      if inside.Ok? { MapUnique(env, inside.value, property, entries, r, s); }
    case _ =>
  }

  lemma {:induction false} EachUnique<C>(env: Env<C>, ctx: C, property: Option<string>, items: seq<J.Value>,
      fromMap: bool, a: seq<Outcome>, b: seq<Outcome>)
    requires EachExpands(env, ctx, property, items, fromMap, a) && EachExpands(env, ctx, property, items, fromMap, b)
    ensures a == b
    decreases ItemsSize(items), 3
  {
    forall i | 0 <= i < |a| && i < |b| ensures a[i] == b[i] {
      ItemSmaller(items, i);
      ExpandsUnique(env, ctx, property, items[i], fromMap, a[i], b[i]);
    }
    SameSteps(a, b, |items|);
  }

  lemma {:induction false} MapUnique<C>(env: Env<C>, ctx: C, property: Option<string>, entries: seq<J.Entry>,
      r: Outcome, s: Outcome)
    requires MapExpands(env, ctx, property, entries, r) && MapExpands(env, ctx, property, entries, s)
    ensures r == s
    decreases EntriesSize(entries), 9
  {
    if KeyFails(env, ctx, entries) {
    } else if Has(env, ctx, entries, KwList) && !IsFree(property) {
      var a :| IsLast(env, ctx, entries, KwList, a) && ListObjectExpands(env, ctx, property, entries, a, r);
      var b :| IsLast(env, ctx, entries, KwList, b) && ListObjectExpands(env, ctx, property, entries, b, s);
      LastUnique(env, ctx, entries, KwList, a, b);
      ListObjectUnique(env, ctx, property, entries, a, r, s);
    } else if Has(env, ctx, entries, KwSet) {
      var a :| IsLast(env, ctx, entries, KwSet, a) && SetObjectExpands(env, ctx, property, entries, a, r);
      var b :| IsLast(env, ctx, entries, KwSet, b) && SetObjectExpands(env, ctx, property, entries, b, s);
      LastUnique(env, ctx, entries, KwSet, a, b);
      SetObjectUnique(env, ctx, property, entries, a, r, s);
    } else if Has(env, ctx, entries, KwValue) {
      var a :| IsLast(env, ctx, entries, KwValue, a) && ValueObjectExpands(env, ctx, entries, a, r);
      var b :| IsLast(env, ctx, entries, KwValue, b) && ValueObjectExpands(env, ctx, entries, b, s);
      LastUnique(env, ctx, entries, KwValue, a, b);
    } else {
      NodeUnique(env, ctx, property, entries, r, s);
    }
  }

  lemma {:induction false} NodeUnique<C>(env: Env<C>, ctx: C, property: Option<string>, entries: seq<J.Entry>,
      r: Outcome, s: Outcome)
    requires NodeExpands(env, ctx, property, entries, r) && NodeExpands(env, ctx, property, entries, s)
    ensures r == s
    decreases EntriesSize(entries), 8
  {
    var a :| EntriesExpand(env, ctx, property, entries, START, a) && r == NodeOutcome(property, After(START, a));
    var b :| EntriesExpand(env, ctx, property, entries, START, b) && s == NodeOutcome(property, After(START, b));
    EntriesUnique(env, ctx, property, entries, START, a, b);
  }

  lemma {:induction false} ListObjectUnique<C>(env: Env<C>, ctx: C, property: Option<string>, entries: seq<J.Entry>,
      at: nat, r: Outcome, s: Outcome)
    requires at < |entries|
    requires ListObjectExpands(env, ctx, property, entries, at, r)
    requires ListObjectExpands(env, ctx, property, entries, at, s)
    ensures r == s
    decreases EntriesSize(entries), 7
  {
    if OnlyKeywords(env, ctx, entries, {KwIndex, KwList}) && IndexIsString(env, ctx, entries) {
      EntrySmaller(entries, at);
      ForcedSize(entries[at].value);
      var items := J.ForceArray(entries[at].value);
      var a, i :| EachExpands(env, ctx, property, items, false, a)
                  && IsIndex(env, ctx, entries, i) && r == ListOutcome(env, Together(a), i);
      var b, j :| EachExpands(env, ctx, property, items, false, b)
                  && IsIndex(env, ctx, entries, j) && s == ListOutcome(env, Together(b), j);
      EachUnique(env, ctx, property, items, false, a, b);
      IndexUnique(env, ctx, entries, i, j);
    }
  }

  lemma IndexUnique<C>(env: Env<C>, ctx: C, entries: seq<J.Entry>, i: Option<string>, j: Option<string>)
    requires IsIndex(env, ctx, entries, i) && IsIndex(env, ctx, entries, j)
    ensures i == j
  {
    if i.Some? && j.Some? {
      var a :| IsLast(env, ctx, entries, KwIndex, a) && entries[a].value == J.Str(i.value);
      var b :| IsLast(env, ctx, entries, KwIndex, b) && entries[b].value == J.Str(j.value);
      LastUnique(env, ctx, entries, KwIndex, a, b);
    }
  }

  lemma {:induction false} SetObjectUnique<C>(env: Env<C>, ctx: C, property: Option<string>, entries: seq<J.Entry>,
      at: nat, r: Outcome, s: Outcome)
    requires at < |entries|
    requires SetObjectExpands(env, ctx, property, entries, at, r)
    requires SetObjectExpands(env, ctx, property, entries, at, s)
    ensures r == s
    decreases EntriesSize(entries), 7
  {
    if OnlyKeywords(env, ctx, entries, {KwIndex, KwSet}) {
      EntrySmaller(entries, at);
      ExpandsUnique(env, ctx, property, entries[at].value, false, r, s);
    }
  }

  // ----- nodes

  lemma {:induction false} EntriesUnique<C>(env: Env<C>, ctx: C, property: Option<string>, entries: seq<J.Entry>,
      start: NodeState, a: seq<Result<NodeState, Error>>, b: seq<Result<NodeState, Error>>)
    requires EntriesExpand(env, ctx, property, entries, start, a)
    requires EntriesExpand(env, ctx, property, entries, start, b)
    ensures a == b
    decreases EntriesSize(entries), 7
  {
    forall i | 0 <= i < |a| && i < |b| ensures a[i] == b[i] {
      EntryUniqueAt(env, ctx, property, entries, start, a, b, i);
    }
    SameSteps(a, b, |entries|);
  }

  lemma {:induction false} EntryUniqueAt<C>(env: Env<C>, ctx: C, property: Option<string>, entries: seq<J.Entry>,
      start: NodeState, a: seq<Result<NodeState, Error>>, b: seq<Result<NodeState, Error>>, i: nat)
    requires EntriesExpand(env, ctx, property, entries, start, a)
    requires EntriesExpand(env, ctx, property, entries, start, b)
    requires i < |a| && i < |b|
    ensures a[i] == b[i]
    decreases EntriesSize(entries), 6, i
  {
    if i > 0 { EntryUniqueAt(env, ctx, property, entries, start, a, b, i - 1); }
    EntrySmaller(entries, i);
    EntryUnique(env, ctx, property, entries[i], Before(start, a, i), a[i], b[i]);
  }

  lemma {:induction false} EntryUnique<C>(env: Env<C>, ctx: C, property: Option<string>, entry: J.Entry,
      state: NodeState, r: Result<NodeState, Error>, s: Result<NodeState, Error>)
    requires EntryExpands(env, ctx, property, entry, state, r) && EntryExpands(env, ctx, property, entry, state, s)
    ensures r == s
    decreases Size(entry.value), 7
  {
    match env.expandKey(ctx, entry.key)
    case Ok(KeywordKey(k)) =>
      if k != KwContext && property != Some("@reverse") && !Collides(env, state.node, k) {
        KeywordUnique(env, ctx, property, k, entry, state, r, s);
      }
    case Ok(PropertyKey(p)) =>
      var reverse := env.definition(ctx, entry.key).isReverse;
      var a :| ValueExpands(env, ctx, entry.key, entry.value, a) && r == StateAdded(state, p, a, reverse);
      var b :| ValueExpands(env, ctx, entry.key, entry.value, b) && s == StateAdded(state, p, b, reverse);
      ValueUnique(env, ctx, entry.key, entry.value, a, b);
    case _ =>
  }

  lemma {:induction false} ValueUnique<C>(env: Env<C>, ctx: C, key: string, value: J.Value, r: Outcome, s: Outcome)
    requires ValueExpands(env, ctx, key, value, r) && ValueExpands(env, ctx, key, value, s)
    ensures r == s
    decreases Size(value), 6
  {
    var a :| UncontainedExpands(env, ctx, key, value, a)
             && r == GraphsOutcome(env, ctx, key, ListTermOutcome(env, ctx, key, a));
    var b :| UncontainedExpands(env, ctx, key, value, b)
             && s == GraphsOutcome(env, ctx, key, ListTermOutcome(env, ctx, key, b));
    UncontainedUnique(env, ctx, key, value, a, b);
  }

  lemma {:induction false} UncontainedUnique<C>(env: Env<C>, ctx: C, key: string, value: J.Value, r: Outcome,
      s: Outcome)
    requires UncontainedExpands(env, ctx, key, value, r) && UncontainedExpands(env, ctx, key, value, s)
    ensures r == s
    decreases Size(value), 5
  {
    var definition := env.definition(ctx, key);
    if definition.isJson || (value.Object? && Language in definition.container) {
    } else if value.Object? && definition.container * {Index, ByType, ById} != {} {
      var a :| MapEntriesExpand(env, ctx, key, definition.container, value.entries, a)
               && r == ArrayOutcome(env, false, Together(a));
      var b :| MapEntriesExpand(env, ctx, key, definition.container, value.entries, b)
               && s == ArrayOutcome(env, false, Together(b));
      MapEntriesUnique(env, ctx, key, definition.container, value.entries, a, b);
    } else {
      ExpandsUnique(env, ctx, Some(key), value, false, r, s);
    }
  }

  // ----- index, id and type maps

  lemma {:induction false} MapEntriesUnique<C>(env: Env<C>, ctx: C, key: string, container: set<ContainerKind>,
      entries: seq<J.Entry>, a: seq<Outcome>, b: seq<Outcome>)
    requires MapEntriesExpand(env, ctx, key, container, entries, a)
    requires MapEntriesExpand(env, ctx, key, container, entries, b)
    ensures a == b
    decreases EntriesSize(entries), 4
  {
    forall i | 0 <= i < |a| && i < |b| ensures a[i] == b[i] {
      EntrySmaller(entries, i);
      MapEntryUnique(env, ctx, key, container, entries[i], a[i], b[i]);
    }
    SameSteps(a, b, |entries|);
  }

  lemma {:induction false} MapEntryUnique<C>(env: Env<C>, ctx: C, key: string, container: set<ContainerKind>,
      entry: J.Entry, r: Outcome, s: Outcome)
    requires MapEntryExpands(env, ctx, key, container, entry, r)
    requires MapEntryExpands(env, ctx, key, container, entry, s)
    ensures r == s
    decreases Size(entry.value), 4
  {
    var inside, named := env.enterMap(ctx, key, entry.key), env.expandKey(ctx, entry.key);
    if inside.Ok? && named.Ok? {
      var a :| Expands(env, inside.value, Some(key), entry.value, true, a)
               && IsKeyed(env, ctx, key, container, entry.key, named.value, a, r);
      var b :| Expands(env, inside.value, Some(key), entry.value, true, b)
               && IsKeyed(env, ctx, key, container, entry.key, named.value, b, s);
      ExpandsUnique(env, inside.value, Some(key), entry.value, true, a, b);
      KeyedUnique(env, ctx, key, container, entry.key, named.value, a, r, s);
    }
  }

  lemma {:induction false} KeyedUnique<C>(env: Env<C>, ctx: C, key: string, container: set<ContainerKind>,
      index: string, named: Key, e: Outcome, r: Outcome, s: Outcome)
    requires IsKeyed(env, ctx, key, container, index, named, e, r)
    requires IsKeyed(env, ctx, key, container, index, named, e, s)
    ensures r == s
  {
    if e.Ok? {
      var items := e.value.Items();
      var a :| EachKeyed(env, ctx, key, container, index, named, items, a)
               && r == ArrayOutcome(env, false, Together(a));
      var b :| EachKeyed(env, ctx, key, container, index, named, items, b)
               && s == ArrayOutcome(env, false, Together(b));
      SameSteps(a, b, |items|);
    }
  }

  // ----- keywords in a node

  lemma {:induction false} KeywordUnique<C>(env: Env<C>, ctx: C, property: Option<string>, k: Keyword, entry: J.Entry,
      state: NodeState, r: Result<NodeState, Error>, s: Result<NodeState, Error>)
    requires KeywordExpands(env, ctx, property, k, entry, state, r)
    requires KeywordExpands(env, ctx, property, k, entry, state, s)
    ensures r == s
    decreases Size(entry.value), 6
  {
    var value := entry.value;
    match k
    case KwGraph =>
      var a :| Expands(env, ctx, Some("@graph"), value, false, a) && r == GraphGiven(env, state, a);
      var b :| Expands(env, ctx, Some("@graph"), value, false, b) && s == GraphGiven(env, state, b);
      ExpandsUnique(env, ctx, Some("@graph"), value, false, a, b);
    case KwIncluded =>
      if env.mode11 {
        var a :| Expands(env, ctx, Some("@included"), value, false, a) && r == IncludedGiven(state, a);
        var b :| Expands(env, ctx, Some("@included"), value, false, b) && s == IncludedGiven(state, b);
        ExpandsUnique(env, ctx, Some("@included"), value, false, a, b);
      }
    case KwReverse =>
      if value.Object? {
        var a :| ReverseExpands(env, ctx, value.entries, state.node, a) && r == NodeGiven(state, After(state.node, a));
        var b :| ReverseExpands(env, ctx, value.entries, state.node, b) && s == NodeGiven(state, After(state.node, b));
        ReverseUnique(env, ctx, value.entries, state.node, a, b);
      }
    case KwNest =>
      ForcedSize(value);
      var values := J.ForceArray(value);
      var a :| NestsExpand(env, ctx, property, entry.key, values, state, a) && r == After(state, a);
      var b :| NestsExpand(env, ctx, property, entry.key, values, state, b) && s == After(state, b);
      NestsUnique(env, ctx, property, entry.key, values, state, a, b);
    case _ =>
  }

  lemma {:induction false} ReverseUnique<C>(env: Env<C>, ctx: C, entries: seq<J.Entry>, start: Node,
      a: seq<Result<Node, Error>>, b: seq<Result<Node, Error>>)
    requires ReverseExpands(env, ctx, entries, start, a) && ReverseExpands(env, ctx, entries, start, b)
    ensures a == b
    decreases EntriesSize(entries), 5
  {
    forall i | 0 <= i < |a| && i < |b| ensures a[i] == b[i] {
      ReverseUniqueAt(env, ctx, entries, start, a, b, i);
    }
    SameSteps(a, b, |entries|);
  }

  lemma {:induction false} ReverseUniqueAt<C>(env: Env<C>, ctx: C, entries: seq<J.Entry>, start: Node,
      a: seq<Result<Node, Error>>, b: seq<Result<Node, Error>>, i: nat)
    requires ReverseExpands(env, ctx, entries, start, a) && ReverseExpands(env, ctx, entries, start, b)
    requires i < |a| && i < |b|
    ensures a[i] == b[i]
    decreases EntriesSize(entries), 4, i
  {
    if i > 0 { ReverseUniqueAt(env, ctx, entries, start, a, b, i - 1); }
    EntrySmaller(entries, i);
    ReverseEntryUnique(env, ctx, entries[i], Before(start, a, i), a[i], b[i]);
  }

  lemma {:induction false} ReverseEntryUnique<C>(env: Env<C>, ctx: C, entry: J.Entry, node: Node,
      r: Result<Node, Error>, s: Result<Node, Error>)
    requires ReverseEntryExpands(env, ctx, entry, node, r) && ReverseEntryExpands(env, ctx, entry, node, s)
    ensures r == s
    decreases Size(entry.value), 3
  {
    match env.expandKey(ctx, entry.key)
    case Ok(PropertyKey(p)) =>
      var reverse := !env.definition(ctx, entry.key).isReverse;
      var a :| Expands(env, ctx, Some(entry.key), entry.value, false, a) && r == Added(node, p, a, reverse);
      var b :| Expands(env, ctx, Some(entry.key), entry.value, false, b) && s == Added(node, p, b, reverse);
      ExpandsUnique(env, ctx, Some(entry.key), entry.value, false, a, b);
    case _ =>
  }

  lemma {:induction false} NestsUnique<C>(env: Env<C>, ctx: C, property: Option<string>, key: string,
      values: seq<J.Value>, start: NodeState, a: seq<Result<NodeState, Error>>, b: seq<Result<NodeState, Error>>)
    requires NestsExpand(env, ctx, property, key, values, start, a)
    requires NestsExpand(env, ctx, property, key, values, start, b)
    ensures a == b
    decreases ItemsSize(values), 5
  {
    forall i | 0 <= i < |a| && i < |b| ensures a[i] == b[i] {
      NestUniqueAt(env, ctx, property, key, values, start, a, b, i);
    }
    SameSteps(a, b, |values|);
  }

  lemma {:induction false} NestUniqueAt<C>(env: Env<C>, ctx: C, property: Option<string>, key: string,
      values: seq<J.Value>, start: NodeState, a: seq<Result<NodeState, Error>>, b: seq<Result<NodeState, Error>>,
      i: nat)
    requires NestsExpand(env, ctx, property, key, values, start, a)
    requires NestsExpand(env, ctx, property, key, values, start, b)
    requires i < |a| && i < |b|
    ensures a[i] == b[i]
    decreases ItemsSize(values), 4, i
  {
    if i > 0 { NestUniqueAt(env, ctx, property, key, values, start, a, b, i - 1); }
    ItemSmaller(values, i);
    NestUnique(env, ctx, property, key, values[i], Before(start, a, i), a[i], b[i]);
  }

  lemma {:induction false} NestUnique<C>(env: Env<C>, ctx: C, property: Option<string>, key: string, value: J.Value,
      state: NodeState, r: Result<NodeState, Error>, s: Result<NodeState, Error>)
    requires NestExpands(env, ctx, property, key, value, state, r)
    requires NestExpands(env, ctx, property, key, value, state, s)
    ensures r == s
    decreases Size(value), 3
  {
    var inside := env.enterNest(ctx, key);
    if inside.Ok? && value.Object? {
      var a :| EntriesExpand(env, inside.value, property, value.entries, state, a) && r == After(state, a);
      var b :| EntriesExpand(env, inside.value, property, value.entries, state, b) && s == After(state, b);
      EntriesUnique(env, inside.value, property, value.entries, state, a, b);
    }
  }

  /** A document expands to one thing at most. */
  lemma {:induction false} DocumentUnique<C>(env: Env<C>, ctx: C, element: J.Value, r: Result<seq<Item>, Error>,
      s: Result<seq<Item>, Error>)
    requires DocumentExpands(env, ctx, element, r) && DocumentExpands(env, ctx, element, s)
    ensures r == s
  {
    var a :| Expands(env, ctx, None, element, false, a)
             && r == if a.Err? then Err(a.error) else Ok(Filter(env.keptAtTop, a.value.Items()));
    var b :| Expands(env, ctx, None, element, false, b)
             && s == if b.Err? then Err(b.error) else Ok(Filter(env.keptAtTop, b.value.Items()));
    ExpandsUnique(env, ctx, None, element, false, a, b);
  }
}
