/**
 What expansion makes of nests of arrays of scalars, and of the entries of a node
 (jsonld-expansion/src/array.rs:13-77, jsonld-expansion/src/node.rs:140-1033): laws of the relation that
 say which items and entries come out.
 */
module ExpansionLaws {
  import opened Wrappers
  import opened Values
  import opened ExpansionTypes
  import opened ExpansionRelation
  import J = Json

  // ----- nests of scalars under a list term, where nothing but arrays and scalars is met

  predicate ScalarNest(v: J.Value)
    decreases v, 0
  {
    !v.Object? && (v.Array? ==> ScalarNests(v.items))
  }

  predicate ScalarNests(items: seq<J.Value>)
    decreases items, 0
  {
    items == [] || (ScalarNest(items[|items| - 1]) && ScalarNests(items[..|items| - 1]))
  }

  /** Every scalar expands. */
  predicate Scalars<C>(env: Env<C>, ctx: C, term: string, v: J.Value)
    requires ScalarNest(v)
    decreases v, 0
  {
    match v
    case Null => true
    case Array(items) => AllScalars(env, ctx, term, items)
    case _ => env.scalar(ctx, term, v).Ok?
  }

  predicate AllScalars<C>(env: Env<C>, ctx: C, term: string, items: seq<J.Value>)
    requires ScalarNests(items)
    decreases items, 0
  {
    items == [] || (Scalars(env, ctx, term, items[|items| - 1]) && AllScalars(env, ctx, term, items[..|items| - 1]))
  }

  /** One list for each array, nulls left out. */
  function NestExpanded<C>(env: Env<C>, ctx: C, term: string, v: J.Value): Expanded
    requires ScalarNest(v) && Scalars(env, ctx, term, v)
    decreases v, 0
  {
    match v
    case Null => ExpandedNull
    case Array(items) => ExpandedObject(ListItem(NestItems(env, ctx, term, items), None))
    case _ =>
      var scalar := env.scalar(ctx, term, v);
      if scalar.Ok? then ExpandedObject(scalar.value.AsItem()) else ExpandedNull
  }

  function NestItems<C>(env: Env<C>, ctx: C, term: string, items: seq<J.Value>): seq<Item>
    requires ScalarNests(items) && AllScalars(env, ctx, term, items)
    decreases items, 0
  {
    if items == [] then []
    else NestItems(env, ctx, term, items[..|items| - 1]) + NestExpanded(env, ctx, term, items[|items| - 1]).Items()
  }

  lemma {:induction false} NestPrefix<C>(env: Env<C>, ctx: C, term: string, items: seq<J.Value>, i: nat)
    requires ScalarNests(items) && AllScalars(env, ctx, term, items) && i <= |items|
    ensures ScalarNests(items[..i]) && AllScalars(env, ctx, term, items[..i])
    ensures i < |items| ==> ScalarNest(items[i]) && Scalars(env, ctx, term, items[i])
  {
    if i < |items| {
      var init := items[..|items| - 1];
      if i < |init| {
        NestPrefix(env, ctx, term, init, i);
        assert init[..i] == items[..i] && init[i] == items[i];
      } else {
        assert items[..i] == init;
      }
    } else {
      assert items[..i] == items;
    }
  }

  predicate IsListTerm<C>(env: Env<C>, ctx: C, property: Option<string>) {
    property.Some? && property.value != "@graph" && List in env.definition(ctx, property.value).container
  }

  predicate IsNest<C>(env: Env<C>, ctx: C, property: Option<string>, v: J.Value) {
    IsListTerm(env, ctx, property) && ScalarNest(v) && Scalars(env, ctx, property.value, v)
  }

  predicate ArrayInArray(v: J.Value) {
    v.Array? && exists i :: 0 <= i < |v.items| && v.items[i].Array?
  }

  /** In 1.0 a nest is refused exactly when it has an array in an array. */
  function NestResult<C>(env: Env<C>, ctx: C, term: string, v: J.Value): Result<Expanded, Error>
    requires ScalarNest(v) && Scalars(env, ctx, term, v)
  {
    if !env.mode11 && ArrayInArray(v) then Err(ListOfLists) else Ok(NestExpanded(env, ctx, term, v))
  }

  lemma {:induction false} ListForEachArray<C>(env: Env<C>, ctx: C, term: string, items: seq<J.Value>)
    requires ScalarNests(items) && AllScalars(env, ctx, term, items)
    ensures NoListAmong(NestItems(env, ctx, term, items)) <==> !ArrayInArray(J.Array(items))
  {
    if items != [] {
      var init, last := items[..|items| - 1], items[|items| - 1];
      ListForEachArray(env, ctx, term, init);
      var before, more := NestItems(env, ctx, term, init), NestExpanded(env, ctx, term, last).Items();
      assert forall i :: 0 <= i < |init| ==> init[i] == items[i];
      NoListAppend(before, more);
      if last.Array? { assert more[0].ListItem?; }
    }
  }

  lemma NoListAppend(a: seq<Item>, b: seq<Item>)
    ensures NoListAmong(a + b) <==> NoListAmong(a) && NoListAmong(b)
  {
    forall i | 0 <= i < |a| ensures (a + b)[i] == a[i] {}
    forall i | 0 <= i < |b| ensures (a + b)[|a| + i] == b[i] {}
    if NoListAmong(a + b) {
      forall i | 0 <= i < |b| ensures !b[i].ListItem? { assert (a + b)[|a| + i] == b[i]; }
    }
  }

  /** A nest under a list term has one outcome, whatever else the relation allows. */
  lemma {:induction false} NestLaw<C>(env: Env<C>, ctx: C, property: Option<string>, v: J.Value, fromMap: bool,
      r: Outcome)
    requires IsNest(env, ctx, property, v) && Expands(env, ctx, property, v, fromMap, r)
    ensures r == NestResult(env, ctx, property.value, v)
    decreases Size(v), 2
  {
    if v.Array? {
      var parts :| EachExpands(env, ctx, property, v.items, fromMap, parts)
                   && r == ArrayOutcome(env, true, Together(parts));
      ArrayNestLaw(env, ctx, property, v.items, fromMap, parts);
    }
  }

  lemma {:induction false} ArrayNestLaw<C>(env: Env<C>, ctx: C, property: Option<string>, items: seq<J.Value>,
      fromMap: bool, parts: seq<Outcome>)
    requires IsNest(env, ctx, property, J.Array(items)) && EachExpands(env, ctx, property, items, fromMap, parts)
    ensures ArrayOutcome(env, true, Together(parts)) == NestResult(env, ctx, property.value, J.Array(items))
    decreases ItemsSize(items), 5
  {
    forall i | 0 <= i < |parts| ensures IsNestPart(env, ctx, property.value, items[i], parts[i]) {
      NestPart(env, ctx, property, items, fromMap, parts, i);
    }
    NestPartsTogether(env, ctx, property.value, items, parts);
  }

  predicate IsNestPart<C>(env: Env<C>, ctx: C, term: string, v: J.Value, part: Outcome) {
    ScalarNest(v) && Scalars(env, ctx, term, v) && part == NestResult(env, ctx, term, v)
  }

  lemma {:induction false} NestPart<C>(env: Env<C>, ctx: C, property: Option<string>, items: seq<J.Value>,
      fromMap: bool, parts: seq<Outcome>, i: nat)
    requires IsNest(env, ctx, property, J.Array(items)) && EachExpands(env, ctx, property, items, fromMap, parts)
    requires i < |parts|
    ensures IsNestPart(env, ctx, property.value, items[i], parts[i])
    decreases ItemsSize(items), 3
  {
    NestPrefix(env, ctx, property.value, items, i);
    ItemSmaller(items, i);
    NestLaw(env, ctx, property, items[i], fromMap, parts[i]);
  }

  lemma {:induction false} NestPartsTogether<C>(env: Env<C>, ctx: C, term: string, items: seq<J.Value>,
      parts: seq<Outcome>)
    requires ScalarNests(items) && AllScalars(env, ctx, term, items) && InTurn(parts, |items|)
    requires forall i :: 0 <= i < |parts| ==> IsNestPart(env, ctx, term, items[i], parts[i])
    ensures ArrayOutcome(env, true, Together(parts)) == NestResult(env, ctx, term, J.Array(items))
  {
    if parts != [] && parts[|parts| - 1].Err? {
      assert IsNestPart(env, ctx, term, items[|parts| - 1], parts[|parts| - 1]);
    } else {
      NestParts(env, ctx, term, items, parts, |parts|);
      assert parts[..|parts|] == parts && items[..|items|] == items;
      ListForEachArray(env, ctx, term, items);
    }
  }

  lemma {:induction false} NestParts<C>(env: Env<C>, ctx: C, term: string, items: seq<J.Value>, parts: seq<Outcome>,
      i: nat)
    requires ScalarNests(items) && AllScalars(env, ctx, term, items) && i <= |parts| <= |items|
    requires forall k :: 0 <= k < i ==> IsNestPart(env, ctx, term, items[k], parts[k]) && parts[k].Ok?
    ensures ScalarNests(items[..i]) && AllScalars(env, ctx, term, items[..i])
    ensures Concat(parts[..i]) == NestItems(env, ctx, term, items[..i])
  {
    NestPrefix(env, ctx, term, items, i);
    if i > 0 {
      NestParts(env, ctx, term, items, parts, i - 1);
      NestAppended(env, ctx, term, items, parts, i);
    }
  }

  lemma {:induction false} NestAppended<C>(env: Env<C>, ctx: C, term: string, items: seq<J.Value>, parts: seq<Outcome>,
      i: nat)
    requires 0 < i <= |parts| <= |items| && IsNestPart(env, ctx, term, items[i - 1], parts[i - 1]) && parts[i - 1].Ok?
    requires ScalarNests(items[..i]) && AllScalars(env, ctx, term, items[..i])
    requires ScalarNests(items[..i - 1]) && AllScalars(env, ctx, term, items[..i - 1])
    requires Concat(parts[..i - 1]) == NestItems(env, ctx, term, items[..i - 1])
    ensures Concat(parts[..i]) == NestItems(env, ctx, term, items[..i])
  {
    assert items[..i][..i - 1] == items[..i - 1] && parts[..i][..i - 1] == parts[..i - 1];
  }

  predicate IsListOf(e: Expanded, index: Option<string>) {
    e.IsList() && e.item.index == index
  }

  /** An array is one list under a property that wraps arrays, and the items of its elements elsewhere. */
  lemma {:induction false} ArrayLaw<C>(env: Env<C>, ctx: C, property: Option<string>, items: seq<J.Value>,
      fromMap: bool, r: Outcome)
    requires Expands(env, ctx, property, J.Array(items), fromMap, r) && r.Ok?
    ensures if WrapsArrays(env, ctx, property) then IsListOf(r.value, None) else r.value.ExpandedArray?
  {
  }

  lemma {:induction false} ListObjectLaw<C>(env: Env<C>, ctx: C, property: Option<string>, entries: seq<J.Entry>,
      at: nat, r: Outcome)
    requires at < |entries| && ListObjectExpands(env, ctx, property, entries, at, r) && r.Ok?
    ensures OnlyKeywords(env, ctx, entries, {KwIndex, KwList})
    ensures exists index :: IsIndex(env, ctx, entries, index) && IsListOf(r.value, index)
  {
    var parts, index :| EachExpands(env, ctx, property, J.ForceArray(entries[at].value), false, parts)
                        && IsIndex(env, ctx, entries, index) && r == ListOutcome(env, Together(parts), index);
  }

  /** A nest under a list term is wrapped once, and whatever is under one is a list. */
  lemma {:induction false} ValueLaw<C>(env: Env<C>, ctx: C, key: string, value: J.Value, r: Outcome)
    requires ValueExpands(env, ctx, key, value, r) && Graph !in env.definition(ctx, key).container
    ensures r.Ok? && List in env.definition(ctx, key).container ==> r.value.IsList()
    ensures IsNest(env, ctx, Some(key), value) && value.Array? && !env.definition(ctx, key).isJson ==>
              r == NestResult(env, ctx, key, value)
  {
    var e :| UncontainedExpands(env, ctx, key, value, e)
             && r == GraphsOutcome(env, ctx, key, ListTermOutcome(env, ctx, key, e));
    if IsNest(env, ctx, Some(key), value) && value.Array? && !env.definition(ctx, key).isJson {
      NestLaw(env, ctx, Some(key), value, false, e);
    }
  }

  // ----- nests of scalars under a property whose arrays are sets

  /** The scalars of a nest, in order, at every depth, nulls left out. */
  function Leaves(v: J.Value): seq<J.Value>
    requires ScalarNest(v)
    decreases v, 0
  {
    match v
    case Null => []
    case Array(items) => AllLeaves(items)
    case _ => [v]
  }

  function AllLeaves(items: seq<J.Value>): seq<J.Value>
    requires ScalarNests(items)
    decreases items, 0
  {
    if items == [] then [] else AllLeaves(items[..|items| - 1]) + Leaves(items[|items| - 1])
  }

  /** Each item is what the scalar beside it expands to. */
  predicate AreScalars<C>(env: Env<C>, ctx: C, term: string, leaves: seq<J.Value>, items: seq<Item>) {
    |items| == |leaves|
    && forall i :: 0 <= i < |items| ==> Ok(items[i]) == ItemOf(env.scalar(ctx, term, leaves[i]))
  }

  function ItemOf(scalar: Result<Scalar, Error>): Result<Item, Error> {
    match scalar case Err(e) => Err(e) case Ok(s) => Ok(s.AsItem())
  }

  /** Such a nest expands to its scalars, in order, however deep they are. */
  lemma {:induction false} FlatNestLaw<C>(env: Env<C>, ctx: C, property: string, v: J.Value, fromMap: bool, r: Outcome)
    requires property != "@graph" && !WrapsArrays(env, ctx, Some(property))
    requires ScalarNest(v) && Scalars(env, ctx, property, v) && Expands(env, ctx, Some(property), v, fromMap, r)
    ensures r.Ok? && AreScalars(env, ctx, property, Leaves(v), r.value.Items())
    ensures r.value.ExpandedArray? <==> v.Array?
    decreases Size(v), 2
  {
    if v.Array? {
      var parts :| EachExpands(env, ctx, Some(property), v.items, fromMap, parts)
                   && r == ArrayOutcome(env, false, Together(parts));
      FlatPartsLaw(env, ctx, property, v.items, fromMap, parts);
    }
  }

  lemma {:induction false} FlatPartsLaw<C>(env: Env<C>, ctx: C, property: string, items: seq<J.Value>, fromMap: bool,
      parts: seq<Outcome>)
    requires property != "@graph" && !WrapsArrays(env, ctx, Some(property))
    requires ScalarNests(items) && AllScalars(env, ctx, property, items)
    requires EachExpands(env, ctx, Some(property), items, fromMap, parts)
    ensures Together(parts) == Ok(Concat(parts)) && AreScalars(env, ctx, property, AllLeaves(items), Concat(parts))
    decreases ItemsSize(items), 4
  {
    forall i | 0 <= i < |parts| ensures IsFlatPart(env, ctx, property, items[i], parts[i]) {
      FlatPart(env, ctx, property, items, fromMap, parts, i);
    }
    FlatPartsTogether(env, ctx, property, items, parts);
  }

  predicate IsFlatPart<C>(env: Env<C>, ctx: C, term: string, v: J.Value, part: Outcome) {
    ScalarNest(v) && part.Ok? && AreScalars(env, ctx, term, Leaves(v), part.value.Items())
  }

  lemma {:induction false} FlatPart<C>(env: Env<C>, ctx: C, property: string, items: seq<J.Value>, fromMap: bool,
      parts: seq<Outcome>, i: nat)
    requires property != "@graph" && !WrapsArrays(env, ctx, Some(property))
    requires ScalarNests(items) && AllScalars(env, ctx, property, items)
    requires EachExpands(env, ctx, Some(property), items, fromMap, parts) && i < |parts|
    ensures IsFlatPart(env, ctx, property, items[i], parts[i])
    decreases ItemsSize(items), 3
  {
    NestPrefix(env, ctx, property, items, i);
    ItemSmaller(items, i);
    FlatNestLaw(env, ctx, property, items[i], fromMap, parts[i]);
  }

  lemma {:induction false} FlatPartsTogether<C>(env: Env<C>, ctx: C, term: string, items: seq<J.Value>,
      parts: seq<Outcome>)
    requires ScalarNests(items) && InTurn(parts, |items|)
    requires forall i :: 0 <= i < |parts| ==> IsFlatPart(env, ctx, term, items[i], parts[i])
    ensures Together(parts) == Ok(Concat(parts)) && AreScalars(env, ctx, term, AllLeaves(items), Concat(parts))
  {
    if parts != [] { assert IsFlatPart(env, ctx, term, items[|parts| - 1], parts[|parts| - 1]); }
    FlatParts(env, ctx, term, items, parts);
  }

  lemma {:induction false} FlatParts<C>(env: Env<C>, ctx: C, term: string, items: seq<J.Value>, parts: seq<Outcome>)
    requires ScalarNests(items) && |parts| == |items|
    requires forall i :: 0 <= i < |parts| ==> IsFlatPart(env, ctx, term, items[i], parts[i])
    ensures AreScalars(env, ctx, term, AllLeaves(items), Concat(parts))
  {
    if items != [] {
      var n := |items| - 1;
      FlatParts(env, ctx, term, items[..n], parts[..n]);
      assert IsFlatPart(env, ctx, term, items[n], parts[n]);
    }
  }

  /** A set object is the scalars of its nest. */
  lemma {:induction false} SetObjectLaw<C>(env: Env<C>, ctx: C, property: string, entries: seq<J.Entry>, at: nat,
      r: Outcome)
    requires property != "@graph" && !WrapsArrays(env, ctx, Some(property)) && at < |entries|
    requires OnlyKeywords(env, ctx, entries, {KwIndex, KwSet})
    requires ScalarNest(entries[at].value) && Scalars(env, ctx, property, entries[at].value)
    requires SetObjectExpands(env, ctx, Some(property), entries, at, r)
    ensures r.Ok? && AreScalars(env, ctx, property, Leaves(entries[at].value), r.value.Items())
  {
    FlatNestLaw(env, ctx, property, entries[at].value, false, r);
  }

  /** A list object holds the scalars of its nest, in order, with the index it is given. */
  lemma {:induction false} ListObjectItems<C>(env: Env<C>, ctx: C, property: string, entries: seq<J.Entry>, at: nat,
      r: Outcome)
    requires property != "@graph" && !WrapsArrays(env, ctx, Some(property)) && at < |entries|
    requires OnlyKeywords(env, ctx, entries, {KwIndex, KwList}) && IndexIsString(env, ctx, entries)
    requires ScalarNest(entries[at].value) && Scalars(env, ctx, property, entries[at].value)
    requires ListObjectExpands(env, ctx, Some(property), entries, at, r)
    ensures r.Ok? && r.value.IsList() && IsIndex(env, ctx, entries, r.value.item.index)
    ensures AreScalars(env, ctx, property, Leaves(entries[at].value), r.value.item.items)
  {
    var value := entries[at].value;
    var items := J.ForceArray(value);
    var parts, index :| EachExpands(env, ctx, Some(property), items, false, parts)
                        && IsIndex(env, ctx, entries, index) && r == ListOutcome(env, Together(parts), index);
    NestForced(env, ctx, property, value);
    FlatPartsLaw(env, ctx, property, items, false, parts);
    ScalarsAreNoLists(env, ctx, property, Leaves(value), Concat(parts));
  }

  lemma {:induction false} NestForced<C>(env: Env<C>, ctx: C, term: string, v: J.Value)
    requires ScalarNest(v) && Scalars(env, ctx, term, v)
    ensures ScalarNests(J.ForceArray(v)) && AllScalars(env, ctx, term, J.ForceArray(v))
    ensures AllLeaves(J.ForceArray(v)) == Leaves(v)
  {
    if !v.Array? {
      assert [v][..0] == [];
      assert AllLeaves([]) + Leaves(v) == Leaves(v);
    }
  }

  lemma {:induction false} ScalarsAreNoLists<C>(env: Env<C>, ctx: C, term: string, leaves: seq<J.Value>,
      items: seq<Item>)
    requires AreScalars(env, ctx, term, leaves, items)
    ensures NoListAmong(items)
  {
    forall i | 0 <= i < |items| ensures !items[i].ListItem? {
      assert Ok(items[i]) == ItemOf(env.scalar(ctx, term, leaves[i]));
    }
  }

  /** What sort of thing a map comes to: a list, what its set holds, a value, or a node. */
  lemma {:induction false} MapLaw<C>(env: Env<C>, ctx: C, property: Option<string>, entries: seq<J.Entry>, r: Outcome)
    requires MapExpands(env, ctx, property, entries, r) && r.Ok?
    ensures if Has(env, ctx, entries, KwList) && !IsFree(property) then r.value.IsList()
            else if Has(env, ctx, entries, KwSet) then OnlyKeywords(env, ctx, entries, {KwIndex, KwSet})
            else r.value.ExpandedNull?
                 || (r.value.ExpandedObject?
                     && if Has(env, ctx, entries, KwValue) then r.value.item.ValueItem? else r.value.item.NodeItem?)
  {
    if Has(env, ctx, entries, KwList) && !IsFree(property) {
      var at :| IsLast(env, ctx, entries, KwList, at) && ListObjectExpands(env, ctx, property, entries, at, r);
      ListObjectLaw(env, ctx, property, entries, at, r);
    } else if !Has(env, ctx, entries, KwSet) && !Has(env, ctx, entries, KwValue) && !r.value.ExpandedNull? {
      NodeLaw(env, ctx, property, entries, r);
    }
  }

  // ----- the entries of a node, one after the other

  function Flat(parts: seq<seq<NodeEntry>>): seq<NodeEntry> {
    if parts == [] then [] else Flat(parts[..|parts| - 1]) + parts[|parts| - 1]
  }

  /** `given` are the node's entries that the map's entries give, in order, each its own. */
  ghost predicate Give<C>(env: Env<C>, ctx: C, entries: seq<J.Entry>, given: seq<NodeEntry>)
    decreases EntriesSize(entries), 3
  {
    exists parts :: EachGives(env, ctx, entries, parts) && given == Flat(parts)
  }

  ghost predicate EachGives<C>(env: Env<C>, ctx: C, entries: seq<J.Entry>, parts: seq<seq<NodeEntry>>)
    decreases EntriesSize(entries), 2
  {
    && |parts| == |entries|
    && (forall i :: 0 <= i < |parts| ==> (EntrySmaller(entries, i); Gives(env, ctx, entries[i], parts[i])))
  }

  /** The entry of a property has the items of its value; null gives none. */
  ghost predicate Gives<C>(env: Env<C>, ctx: C, entry: J.Entry, given: seq<NodeEntry>)
    decreases Size(entry.value), 4
  {
    match env.expandKey(ctx, entry.key)
    case Ok(PropertyKey(p)) =>
      exists e :: ValueExpands(env, ctx, entry.key, entry.value, Ok(e))
                  && given == (if e.ExpandedNull? then []
                               else [EntryFor(p, e.Items(), env.definition(ctx, entry.key).isReverse)])
    case Ok(KeywordKey(KwGraph)) =>
      exists e :: Expands(env, ctx, Some("@graph"), entry.value, false, Ok(e))
                  && given == [GraphEntry(Filter(env.keptAtTop, e.Items()))]
    case Ok(KeywordKey(KwIncluded)) =>
      if !env.mode11 then given == []
      else exists e :: Expands(env, ctx, Some("@included"), entry.value, false, Ok(e))
                       && given == [IncludedEntry(e.Items())]
    case Ok(KeywordKey(KwReverse)) =>
      entry.value.Object?
      && ReverseGive(env, ctx, entry.value.entries, given)
    case Ok(KeywordKey(KwNest)) =>
      ForcedSize(entry.value);
      NestsGiven(env, ctx, entry.key, J.ForceArray(entry.value), given)
    case _ => given == []
  }

  function EntryFor(property: string, items: seq<Item>, reverse: bool): NodeEntry {
    if reverse then ReverseEntry(property, items) else PropertyEntry(property, items)
  }

  ghost predicate ReverseGive<C>(env: Env<C>, ctx: C, entries: seq<J.Entry>, given: seq<NodeEntry>) {
    exists parts :: EachReverseGives(env, ctx, entries, parts) && given == Flat(parts)
  }

  ghost predicate EachReverseGives<C>(env: Env<C>, ctx: C, entries: seq<J.Entry>, parts: seq<seq<NodeEntry>>) {
    && |parts| == |entries|
    && (forall i :: 0 <= i < |entries| ==> ReverseGives(env, ctx, entries[i], parts[i]))
  }

  ghost predicate ReverseGives<C>(env: Env<C>, ctx: C, entry: J.Entry, given: seq<NodeEntry>) {
    match env.expandKey(ctx, entry.key)
    case Ok(PropertyKey(p)) =>
      exists e :: Expands(env, ctx, Some(entry.key), entry.value, false, Ok(e))
                  && given == [EntryFor(p, e.Items(), !env.definition(ctx, entry.key).isReverse)]
    case _ => given == []
  }

  /** Nested maps give their entries under the context of the nesting key. */
  ghost predicate NestsGiven<C>(env: Env<C>, ctx: C, key: string, values: seq<J.Value>, given: seq<NodeEntry>)
    decreases ItemsSize(values), 3
  {
    exists parts :: EachNestGives(env, ctx, key, values, parts) && given == Flat(parts)
  }

  ghost predicate EachNestGives<C>(env: Env<C>, ctx: C, key: string, values: seq<J.Value>,
      parts: seq<seq<NodeEntry>>)
    decreases ItemsSize(values), 2
  {
    && |parts| == |values|
    && (forall i :: 0 <= i < |values| ==> (ItemSmaller(values, i); NestGives(env, ctx, key, values[i], parts[i])))
  }

  ghost predicate NestGives<C>(env: Env<C>, ctx: C, key: string, value: J.Value, given: seq<NodeEntry>)
    decreases Size(value), 1
  {
    value.Object? && env.enterNest(ctx, key).Ok? && Give(env, env.enterNest(ctx, key).value, value.entries, given)
  }

  /** A node that comes out has the entries that its map gives. */
  lemma {:induction false} NodeLaw<C>(env: Env<C>, ctx: C, property: Option<string>, entries: seq<J.Entry>,
      r: Outcome)
    requires NodeExpands(env, ctx, property, entries, r) && r.Ok? && !r.value.ExpandedNull?
    ensures r.value.ExpandedObject? && r.value.item.NodeItem?
    ensures Give(env, ctx, entries, r.value.item.node.entries)
  {
    var steps :| EntriesExpand(env, ctx, property, entries, START, steps)
                 && r == NodeOutcome(property, After(START, steps));
    var given := EntriesGive(env, ctx, property, entries, START, steps);
    assert START.node.entries + given == given;
  }

  /** The entries that a node has more than before. */
  ghost function Grown(before: Node, after: Node): seq<NodeEntry> {
    if |before.entries| <= |after.entries| then after.entries[|before.entries|..] else []
  }

  /** `after` has the entries of `before` and then others. */
  ghost predicate Grows(before: Node, after: Node) {
    after.entries == before.entries + Grown(before, after)
  }

  lemma GrownIs(before: Node, after: Node, given: seq<NodeEntry>)
    requires after.entries == before.entries + given
    ensures Grows(before, after) && Grown(before, after) == given
  {
  }

  /** What the nodes have in turn, one by one. */
  ghost function Parts(nodes: seq<Node>): seq<seq<NodeEntry>>
    requires nodes != []
  {
    seq(|nodes| - 1, i requires 0 <= i < |nodes| - 1 => Grown(nodes[i], nodes[i + 1]))
  }

  ghost predicate GrowInTurn(nodes: seq<Node>) {
    forall i :: 0 <= i < |nodes| - 1 ==> GrowsAt(nodes, i)
  }

  ghost predicate GrowsAt(nodes: seq<Node>, i: nat)
    requires i < |nodes| - 1
  {
    Grows(nodes[i], nodes[i + 1])
  }

  lemma {:induction false} PartsInit(nodes: seq<Node>)
    requires |nodes| > 1
    ensures var n := |nodes| - 1;
            Flat(Parts(nodes)) == Flat(Parts(nodes[..n])) + Grown(nodes[n - 1], nodes[n])
  {
    var n := |nodes| - 1;
    assert Parts(nodes)[..n - 1] == Parts(nodes[..n]);
  }

  lemma {:induction false} GrownInTurn(nodes: seq<Node>)
    requires nodes != [] && GrowInTurn(nodes)
    ensures nodes[|nodes| - 1].entries == nodes[0].entries + Flat(Parts(nodes))
  {
    if |nodes| > 1 {
      var n, init := |nodes| - 1, nodes[..|nodes| - 1];
      forall i | 0 <= i < |init| - 1 ensures GrowsAt(init, i) {
        assert GrowsAt(nodes, i);
      }
      GrownInTurn(init);
      PartsInit(nodes);
      assert GrowsAt(nodes, n - 1);
    }
  }

  /** When all goes well, each step works on what the one before it left. */
  lemma {:induction false} StepTaken<T>(start: T, steps: seq<Result<T, Error>>, n: nat, i: nat)
    requires InTurn(steps, n) && After(start, steps).Ok? && i < |steps|
    ensures |steps| == n && steps[i].Ok? && Before(start, steps, i + 1) == steps[i].value
  {
  }

  ghost function Nodes(start: NodeState, steps: seq<Result<NodeState, Error>>): seq<Node> {
    seq(|steps| + 1, i requires 0 <= i <= |steps| => Before(start, steps, i).node)
  }

  lemma {:induction false} EntriesGive<C>(env: Env<C>, ctx: C, property: Option<string>, entries: seq<J.Entry>,
      start: NodeState, steps: seq<Result<NodeState, Error>>) returns (given: seq<NodeEntry>)
    requires EntriesExpand(env, ctx, property, entries, start, steps) && After(start, steps).Ok?
    ensures Give(env, ctx, entries, given)
    ensures After(start, steps).value.node.entries == start.node.entries + given
    decreases EntriesSize(entries), 7
  {
    EachEntryGives(env, ctx, property, entries, start, steps);
    GrownInTurn(Nodes(start, steps));
    LastNode(start, steps, |entries|);
    given := Flat(Parts(Nodes(start, steps)));
  }

  lemma {:induction false} LastNode(start: NodeState, steps: seq<Result<NodeState, Error>>, n: nat)
    requires InTurn(steps, n) && After(start, steps).Ok?
    ensures Nodes(start, steps)[0] == start.node && Nodes(start, steps)[|steps|] == After(start, steps).value.node
  {
    if steps != [] { StepTaken(start, steps, n, |steps| - 1); }
  }

  lemma {:induction false} EachEntryGives<C>(env: Env<C>, ctx: C, property: Option<string>, entries: seq<J.Entry>,
      start: NodeState, steps: seq<Result<NodeState, Error>>)
    requires EntriesExpand(env, ctx, property, entries, start, steps) && After(start, steps).Ok?
    ensures EachGives(env, ctx, entries, Parts(Nodes(start, steps))) && GrowInTurn(Nodes(start, steps))
    decreases EntriesSize(entries), 6
  {
    var nodes := Nodes(start, steps);
    if steps != [] { StepTaken(start, steps, |entries|, 0); }
    forall i | 0 <= i < |steps| ensures Gives(env, ctx, entries[i], Parts(nodes)[i]) && GrowsAt(nodes, i) {
      NextEntryGives(env, ctx, property, entries, start, steps, i);
    }
  }

  lemma {:induction false} NextEntryGives<C>(env: Env<C>, ctx: C, property: Option<string>, entries: seq<J.Entry>,
      start: NodeState, steps: seq<Result<NodeState, Error>>, i: nat)
    requires EntriesExpand(env, ctx, property, entries, start, steps) && After(start, steps).Ok? && i < |steps|
    ensures i < |entries| && GrowsAt(Nodes(start, steps), i)
    ensures Gives(env, ctx, entries[i], Parts(Nodes(start, steps))[i])
    decreases EntriesSize(entries), 5
  {
    StepTaken(start, steps, |entries|, i);
    EntrySmaller(entries, i);
    var given := EntryGives(env, ctx, property, entries[i], Before(start, steps, i), steps[i]);
    GrownIs(Before(start, steps, i).node, Before(start, steps, i + 1).node, given);
  }

  lemma {:induction false} EntryGives<C>(env: Env<C>, ctx: C, property: Option<string>, entry: J.Entry,
      state: NodeState, out: Result<NodeState, Error>) returns (given: seq<NodeEntry>)
    requires EntryExpands(env, ctx, property, entry, state, out) && out.Ok?
    ensures Gives(env, ctx, entry, given) && out.value.node.entries == state.node.entries + given
    decreases Size(entry.value), 7
  {
    match env.expandKey(ctx, entry.key)
    case Ok(KeywordKey(k)) =>
      if k == KwContext {
        given := [];
      } else {
        given := KeywordGives(env, ctx, property, k, entry, state, out);
      }
    case Ok(PropertyKey(p)) =>
      var reverse := env.definition(ctx, entry.key).isReverse;
      var e :| ValueExpands(env, ctx, entry.key, entry.value, e) && out == StateAdded(state, p, e, reverse);
      given := if e.value.ExpandedNull? then [] else [EntryFor(p, e.value.Items(), reverse)];
      assert e == Ok(e.value);
    case _ => given := [];
  }

  lemma {:induction false} KeywordGives<C>(env: Env<C>, ctx: C, property: Option<string>, k: Keyword, entry: J.Entry,
      state: NodeState, out: Result<NodeState, Error>) returns (given: seq<NodeEntry>)
    requires env.expandKey(ctx, entry.key) == Ok(KeywordKey(k)) && k != KwContext
    requires KeywordExpands(env, ctx, property, k, entry, state, out) && out.Ok?
    ensures Gives(env, ctx, entry, given) && out.value.node.entries == state.node.entries + given
    decreases Size(entry.value), 6
  {
    var value := entry.value;
    given := [];
    match k
    case KwGraph =>
      var e :| Expands(env, ctx, Some("@graph"), value, false, e) && out == GraphGiven(env, state, e);
      given := [GraphEntry(Filter(env.keptAtTop, e.value.Items()))];
      assert e == Ok(e.value);
    case KwIncluded =>
      if env.mode11 {
        var e :| Expands(env, ctx, Some("@included"), value, false, e) && out == IncludedGiven(state, e);
        given := [IncludedEntry(e.value.Items())];
        assert e == Ok(e.value);
      }
    case KwReverse =>
      var steps :| ReverseExpands(env, ctx, value.entries, state.node, steps)
                   && out == NodeGiven(state, After(state.node, steps));
      given := ReverseEntriesGive(env, ctx, value.entries, state.node, steps);
    case KwNest =>
      ForcedSize(value);
      var values := J.ForceArray(value);
      var steps :| NestsExpand(env, ctx, property, entry.key, values, state, steps) && out == After(state, steps);
      given := NestsGive(env, ctx, property, entry.key, values, state, steps);
    case _ =>
  }

  ghost function ReverseNodes(start: Node, steps: seq<Result<Node, Error>>): seq<Node> {
    seq(|steps| + 1, i requires 0 <= i <= |steps| => Before(start, steps, i))
  }

  lemma {:induction false} ReverseEntriesGive<C>(env: Env<C>, ctx: C, entries: seq<J.Entry>, start: Node,
      steps: seq<Result<Node, Error>>) returns (given: seq<NodeEntry>)
    requires ReverseExpands(env, ctx, entries, start, steps) && After(start, steps).Ok?
    ensures ReverseGive(env, ctx, entries, given) && After(start, steps).value.entries == start.entries + given
  {
    EachReverseEntryGives(env, ctx, entries, start, steps);
    GrownInTurn(ReverseNodes(start, steps));
    if steps != [] { StepTaken(start, steps, |entries|, |steps| - 1); }
    given := Flat(Parts(ReverseNodes(start, steps)));
  }

  lemma {:induction false} EachReverseEntryGives<C>(env: Env<C>, ctx: C, entries: seq<J.Entry>, start: Node,
      steps: seq<Result<Node, Error>>)
    requires ReverseExpands(env, ctx, entries, start, steps) && After(start, steps).Ok?
    ensures EachReverseGives(env, ctx, entries, Parts(ReverseNodes(start, steps)))
    ensures GrowInTurn(ReverseNodes(start, steps))
  {
    var nodes := ReverseNodes(start, steps);
    if steps != [] { StepTaken(start, steps, |entries|, 0); }
    forall i | 0 <= i < |steps| ensures ReverseGives(env, ctx, entries[i], Parts(nodes)[i]) && GrowsAt(nodes, i) {
      NextReverseGives(env, ctx, entries, start, steps, i);
    }
  }

  lemma {:induction false} NextReverseGives<C>(env: Env<C>, ctx: C, entries: seq<J.Entry>, start: Node,
      steps: seq<Result<Node, Error>>, i: nat)
    requires ReverseExpands(env, ctx, entries, start, steps) && After(start, steps).Ok? && i < |steps|
    ensures i < |entries| && GrowsAt(ReverseNodes(start, steps), i)
    ensures ReverseGives(env, ctx, entries[i], Parts(ReverseNodes(start, steps))[i])
  {
    StepTaken(start, steps, |entries|, i);
    var given := ReverseEntryGives(env, ctx, entries[i], Before(start, steps, i), steps[i]);
    GrownIs(Before(start, steps, i), Before(start, steps, i + 1), given);
  }

  lemma {:induction false} ReverseEntryGives<C>(env: Env<C>, ctx: C, entry: J.Entry, node: Node,
      out: Result<Node, Error>) returns (given: seq<NodeEntry>)
    requires ReverseEntryExpands(env, ctx, entry, node, out) && out.Ok?
    ensures ReverseGives(env, ctx, entry, given) && out.value.entries == node.entries + given
  {
    match env.expandKey(ctx, entry.key)
    case Ok(PropertyKey(p)) =>
      var reverse := !env.definition(ctx, entry.key).isReverse;
      var e :| Expands(env, ctx, Some(entry.key), entry.value, false, e) && out == Added(node, p, e, reverse);
      given := [EntryFor(p, e.value.Items(), reverse)];
      assert e == Ok(e.value);
    case _ => given := [];
  }

  lemma {:induction false} NestsGive<C>(env: Env<C>, ctx: C, property: Option<string>, key: string,
      values: seq<J.Value>, start: NodeState, steps: seq<Result<NodeState, Error>>) returns (given: seq<NodeEntry>)
    requires NestsExpand(env, ctx, property, key, values, start, steps) && After(start, steps).Ok?
    ensures NestsGiven(env, ctx, key, values, given)
    ensures After(start, steps).value.node.entries == start.node.entries + given
    decreases ItemsSize(values), 5
  {
    EachNestEntryGives(env, ctx, property, key, values, start, steps);
    GrownInTurn(Nodes(start, steps));
    LastNode(start, steps, |values|);
    given := Flat(Parts(Nodes(start, steps)));
  }

  lemma {:induction false} EachNestEntryGives<C>(env: Env<C>, ctx: C, property: Option<string>, key: string,
      values: seq<J.Value>, start: NodeState, steps: seq<Result<NodeState, Error>>)
    requires NestsExpand(env, ctx, property, key, values, start, steps) && After(start, steps).Ok?
    ensures EachNestGives(env, ctx, key, values, Parts(Nodes(start, steps))) && GrowInTurn(Nodes(start, steps))
    decreases ItemsSize(values), 4
  {
    var nodes := Nodes(start, steps);
    if steps != [] { StepTaken(start, steps, |values|, 0); }
    forall i | 0 <= i < |steps| ensures NestGives(env, ctx, key, values[i], Parts(nodes)[i]) && GrowsAt(nodes, i) {
      NextNestGives(env, ctx, property, key, values, start, steps, i);
    }
  }

  lemma {:induction false} NextNestGives<C>(env: Env<C>, ctx: C, property: Option<string>, key: string,
      values: seq<J.Value>, start: NodeState, steps: seq<Result<NodeState, Error>>, i: nat)
    requires NestsExpand(env, ctx, property, key, values, start, steps) && After(start, steps).Ok? && i < |steps|
    ensures i < |values| && GrowsAt(Nodes(start, steps), i)
    ensures NestGives(env, ctx, key, values[i], Parts(Nodes(start, steps))[i])
    decreases ItemsSize(values), 3
  {
    StepTaken(start, steps, |values|, i);
    ItemSmaller(values, i);
    var given := NestEntriesGive(env, ctx, property, key, values[i], Before(start, steps, i), steps[i]);
    GrownIs(Before(start, steps, i).node, Before(start, steps, i + 1).node, given);
  }

  lemma {:induction false} NestEntriesGive<C>(env: Env<C>, ctx: C, property: Option<string>, key: string,
      value: J.Value, state: NodeState, out: Result<NodeState, Error>) returns (given: seq<NodeEntry>)
    requires NestExpands(env, ctx, property, key, value, state, out) && out.Ok?
    ensures NestGives(env, ctx, key, value, given) && out.value.node.entries == state.node.entries + given
    decreases Size(value), 2
  {
    var inside := env.enterNest(ctx, key).value;
    var steps :| EntriesExpand(env, inside, property, value.entries, state, steps) && out == After(state, steps);
    given := EntriesGive(env, inside, property, value.entries, state, steps);
  }

  /** So each key that expands to a property gives its entry, with the items of its value. */
  lemma {:induction false} KeyHasEntry<C>(env: Env<C>, ctx: C, entries: seq<J.Entry>, given: seq<NodeEntry>, i: nat,
      p: string) returns (e: Expanded)
    requires Give(env, ctx, entries, given) && i < |entries|
    requires env.expandKey(ctx, entries[i].key) == Ok(PropertyKey(p))
    ensures ValueExpands(env, ctx, entries[i].key, entries[i].value, Ok(e))
    ensures e.ExpandedNull? || EntryFor(p, e.Items(), env.definition(ctx, entries[i].key).isReverse) in given
  {
    var parts :| EachGives(env, ctx, entries, parts) && given == Flat(parts);
    assert Gives(env, ctx, entries[i], parts[i]);
    e :| ValueExpands(env, ctx, entries[i].key, entries[i].value, Ok(e))
         && parts[i] == (if e.ExpandedNull? then []
                         else [EntryFor(p, e.Items(), env.definition(ctx, entries[i].key).isReverse)]);
    if !e.ExpandedNull? { InFlat(parts, i, parts[i][0]); }
  }

  lemma {:induction false} InFlat(parts: seq<seq<NodeEntry>>, i: nat, entry: NodeEntry)
    requires i < |parts| && entry in parts[i]
    ensures entry in Flat(parts)
  {
    if i < |parts| - 1 { InFlat(parts[..|parts| - 1], i, entry); }
  }
}
