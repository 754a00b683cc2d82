/**
 Lists of lists in JSON-LD 1.1: what expansion makes of a nest of arrays under a list term,
 and compaction writing the identical nest back (jsonld-compaction/src/lib.rs:372-420, 548-593,
 jsonld-compaction/src/property.rs:40-110).
 */
module NestedLists {
  import opened Wrappers
  import opened Values
  import opened ExpansionTypes
  import opened ExpansionLaws
  import opened AddValue
  import J = Json
  import V = ValueRoundTrip

  /**
   Everything compaction of items needs besides the term; nodes, and lists in other lists' objects, are
   not part of this model.
   */
  datatype Compactor<!E> = Compactor(printer: V.Printer<E>, compactArrays: bool, node: Item -> Result<J.Value, E>,
                                     listObject: Item -> Result<J.Value, E>, listAlias: string)

  function CompactItem<E>(c: Compactor<E>, scope: Scope, item: Item): Result<J.Value, E>
    decreases item, 1
  {
    match item
    case ValueItem(v, index) => V.Compacted(c.printer, scope, v, index)
    case NodeItem(_, _) => c.node(item)
    case ListItem(items, _) => if scope.Has(List) then CompactCollection(c, scope, items) else c.listObject(item)
  }

  function CompactItems<E>(c: Compactor<E>, scope: Scope, items: seq<Item>): Result<seq<J.Value>, E>
    decreases items, 0
  {
    if items == [] then Ok([])
    else
      match CompactItems(c, scope, items[..|items| - 1])
      case Err(e) => Err(e)
      case Ok(before) =>
        match CompactItem(c, scope, items[|items| - 1])
        case Err(e) => Err(e)
        case Ok(json) => Ok(if json.Null? then before else before + [json])
  }

  /** A collection under a list or set term stays an array, whatever its length. */
  function CompactCollection<E>(c: Compactor<E>, scope: Scope, items: seq<Item>): Result<J.Value, E>
    decreases items, 1
  {
    match CompactItems(c, scope, items)
    case Err(e) => Err(e)
    case Ok(result) =>
      if |result| != 1 || !c.compactArrays || scope.Has(List) || scope.Has(Set) then Ok(J.Array(result))
          else Ok(result[0])
  }

  method CompactEach<E>(c: Compactor<E>, scope: Scope, items: seq<Item>) returns (r: Result<J.Value, E>)
    ensures r == CompactCollection(c, scope, items)
  {
    var result: seq<J.Value> := [];
    for i := 0 to |items|
      invariant CompactItems(c, scope, items[..i]) == Ok(result)
    {
      assert items[..i + 1][..i] == items[..i];
      var compacted := CompactItem(c, scope, items[i]);
      if compacted.Err? {
        ItemsFail(c, scope, items, i + 1, compacted.error);
        return Err(compacted.error);
      }
      if !compacted.value.Null? {
        result := result + [compacted.value];
      }
    }
    assert items[..|items|] == items;
    if |result| != 1 || !c.compactArrays || scope.Has(List) || scope.Has(Set) {
      return Ok(J.Array(result));
    }
    r := Ok(result[0]);
  }

  lemma {:induction false} ItemsFail<E>(c: Compactor<E>, scope: Scope, items: seq<Item>, i: nat, e: E)
    requires i <= |items| && CompactItems(c, scope, items[..i]) == Err(e)
    ensures CompactItems(c, scope, items) == Err(e)
  {
    if i == |items| {
      assert items[..i] == items;
    } else {
      assert items[..|items| - 1][..i] == items[..i];
      ItemsFail(c, scope, items[..|items| - 1], i, e);
    }
  }

  function IndexEntry<E>(c: Compactor<E>, index: Option<string>): seq<J.Entry> {
    if index.Some? then [J.Entry(c.printer.alias(V.IndexKeyword), J.Str(index.value))] else []
  }

  /** A list under a list term is assigned to its key as an array; elsewhere it is added as a list object. */
  method CompactPropertyList<E>(c: Compactor<E>, scope: Scope, nestResult: JsonObject, term: string, list: Item,
      asArray: bool)
      returns (r: Result<(), E>)
    requires list.ListItem? && J.DistinctKeys(nestResult.entries)
    modifies nestResult
    ensures r.Ok? <==> CompactItems(c, scope, list.items).Ok?
    ensures r.Ok? ==> KeepsOthers(old(nestResult.entries), nestResult.entries, term)
    ensures r.Ok? && scope.Has(List) ==>
              Lookup(nestResult.entries, term) == Some(J.Array(CompactItems(c, scope, list.items).value))
    ensures r.Ok? && !scope.Has(List) ==>
      Items(nestResult.entries, term) == Items(old(nestResult.entries), term)
        + [J.Object([J.Entry(c.listAlias, J.Array(J.ForceArray(CompactCollection(c, scope, list.items).value)))]
            + IndexEntry(c, list.index))]
  {
    var compacted := CompactEach(c, scope, list.items);
    if compacted.Err? { return Err(compacted.error); }
    var written := compacted.value;
    if scope.Has(List) {
      InsertKeepsOthers(nestResult.entries, term, written);
      nestResult.Put(term, written);
    } else {
      var listObject := J.Object([J.Entry(c.listAlias, J.Array(J.ForceArray(written)))] + IndexEntry(c, list.index));
      AddedConserves(nestResult.entries, term, listObject, asArray);
      nestResult.Add(term, listObject, asArray);
    }
    r := Ok(());
  }

  // ----- the round trip

  function WithoutNulls(v: J.Value): J.Value
    decreases v, 0
  {
    if v.Array? then J.Array(AllWithoutNulls(v.items)) else v
  }

  function AllWithoutNulls(items: seq<J.Value>): seq<J.Value>
    decreases items, 0
  {
    if items == [] then []
    else
      var last := items[|items| - 1];
      AllWithoutNulls(items[..|items| - 1]) + (if last.Null? then [] else [WithoutNulls(last)])
  }

  predicate NullFree(v: J.Value)
    decreases v, 0
  {
    !v.Null? && (v.Array? ==> AllNullFree(v.items))
  }

  predicate AllNullFree(items: seq<J.Value>)
    decreases items, 0
  {
    items == [] || (NullFree(items[|items| - 1]) && AllNullFree(items[..|items| - 1]))
  }

  function AsLiteral(v: J.Value): Literal {
    match v
    case Boolean(b) => LBoolean(b)
    case Number(n) => LNumber(n)
    case Str(s) => LString(s)
    case _ => LNull
  }

  /** Expansion expands scalars under this term's mappings. */
  ghost predicate ScalarsUnder<C(!new)>(env: Env<C>, ctx: C, term: string, scope: Scope) {
    forall v: J.Value :: v.Boolean? || v.Number? || v.Str? ==>
      ExpandScalar(scope, AsLiteral(v)).Plain?
          && env.scalar(ctx, term, v) == Ok(ScalarValue(ExpandScalar(scope, AsLiteral(v)).value))
  }

  /** A term without a type mapping, or with a datatype, in whose language and direction strings are written. */
  predicate BareTerm(scope: Scope) {
    scope.Type() == None || (scope.Type().Some? && scope.Type().value.IriType?)
  }

  /** A scalar is written back as it was, whatever language and direction are in force. */
  lemma ScalarComesBack<E>(c: Compactor<E>, scope: Scope, v: J.Value)
    requires BareTerm(scope) && (v.Boolean? || v.Number? || v.Str?)
    ensures ExpandScalar(scope, AsLiteral(v)).Plain?
    ensures V.Compacted(c.printer, scope, ExpandScalar(scope, AsLiteral(v)).value, None) == Ok(v)
  {
  }

  /** An expanded scalar is written back as it was. */
  lemma {:induction false} ScalarItemComesBack<C(!new), E>(env: Env<C>, ctx: C, term: string, scope: Scope,
      c: Compactor<E>, v: J.Value)
    requires ScalarsUnder(env, ctx, term, scope) && BareTerm(scope) && (v.Boolean? || v.Number? || v.Str?)
    ensures env.scalar(ctx, term, v).Ok? && CompactItem(c, scope, env.scalar(ctx, term, v).value.AsItem()) == Ok(v)
  {
    ScalarComesBack(c, scope, v);
  }

  lemma {:induction false} NestComesBack<C(!new), E>(env: Env<C>, ctx: C, term: string, scope: Scope,
      c: Compactor<E>, items: seq<J.Value>)
    requires ScalarNests(items) && AllScalars(env, ctx, term, items)
    requires ScalarsUnder(env, ctx, term, scope) && BareTerm(scope) && scope.Has(List)
    ensures CompactItems(c, scope, NestItems(env, ctx, term, items)) == Ok(AllWithoutNulls(items))
    decreases items
  {
    if items != [] {
      var init, last := items[..|items| - 1], items[|items| - 1];
      NestComesBack(env, ctx, term, scope, c, init);
      if last.Null? {
        assert NestItems(env, ctx, term, items) == NestItems(env, ctx, term, init);
        assert AllWithoutNulls(items) == AllWithoutNulls(init);
      } else if last.Array? {
        NestComesBack(env, ctx, term, scope, c, last.items);
        ArrayComesBack(env, ctx, term, scope, c, items);
      } else {
        ScalarItemComesBack(env, ctx, term, scope, c, last);
        ItemComesBack(c, scope, NestItems(env, ctx, term, init), env.scalar(ctx, term, last).value.AsItem(), last);
      }
    }
  }

  lemma {:induction false} ArrayComesBack<C(!new), E>(env: Env<C>, ctx: C, term: string, scope: Scope,
      c: Compactor<E>, items: seq<J.Value>)
    requires ScalarNests(items) && AllScalars(env, ctx, term, items) && items != [] && scope.Has(List)
    requires items[|items| - 1].Array?
    requires ScalarNests(items[|items| - 1].items) && AllScalars(env, ctx, term, items[|items| - 1].items)
    requires ScalarNests(items[..|items| - 1]) && AllScalars(env, ctx, term, items[..|items| - 1])
    requires CompactItems(c, scope, NestItems(env, ctx, term, items[..|items| - 1]))
        == Ok(AllWithoutNulls(items[..|items| - 1]))
    requires CompactItems(c, scope, NestItems(env, ctx, term, items[|items| - 1].items))
        == Ok(AllWithoutNulls(items[|items| - 1].items))
    ensures CompactItems(c, scope, NestItems(env, ctx, term, items)) == Ok(AllWithoutNulls(items))
  {
    var init, last := items[..|items| - 1], items[|items| - 1];
    ItemComesBack(c, scope, NestItems(env, ctx, term, init), ListItem(NestItems(env, ctx, term, last.items), None),
                  J.Array(AllWithoutNulls(last.items)));
  }

  lemma {:induction false} ItemComesBack<E>(c: Compactor<E>, scope: Scope, init: seq<Item>, item: Item, json: J.Value)
    requires CompactItems(c, scope, init).Ok? && CompactItem(c, scope, item) == Ok(json) && !json.Null?
    ensures CompactItems(c, scope, init + [item]) == Ok(CompactItems(c, scope, init).value + [json])
  {
    assert (init + [item])[..|init|] == init;
  }

  lemma {:induction false} NullFreeIsUnchanged(items: seq<J.Value>)
    ensures AllWithoutNulls(items) == items <==> AllNullFree(items)
    ensures |AllWithoutNulls(items)| <= |items|
    decreases items
  {
    if items != [] {
      var init, last := items[..|items| - 1], items[|items| - 1];
      NullFreeIsUnchanged(init);
      assert items == init + [last];
      if last.Array? { NullFreeIsUnchanged(last.items); }
      if !last.Null? {
        assert AllWithoutNulls(items)[..|AllWithoutNulls(items)| - 1] == AllWithoutNulls(init);
        if AllWithoutNulls(items) == items {
          assert AllWithoutNulls(init) == init;
          assert WithoutNulls(last) == last;
        }
      }
    }
  }

  /**
   A nest of arrays of scalars under a list term, with any language and direction and no type
   mapping or a datatype, comes back with its nulls left out; so it comes back identical
   exactly when it has none. Empty and one-element arrays are no exception.
   */
  lemma {:induction false} NestRoundTrip<C(!new), E>(env: Env<C>, ctx: C, term: string, scope: Scope,
      c: Compactor<E>, items: seq<J.Value>)
    requires IsNest(env, ctx, Some(term), J.Array(items))
    requires ScalarsUnder(env, ctx, term, scope) && BareTerm(scope) && scope.Has(List)
    ensures var expanded := NestExpanded(env, ctx, term, J.Array(items));
            && expanded.IsList()
            && CompactCollection(c, scope, expanded.item.items) == Ok(WithoutNulls(J.Array(items)))
            && (CompactCollection(c, scope, expanded.item.items) == Ok(J.Array(items)) <==> NullFree(J.Array(items)))
  {
    NestComesBack(env, ctx, term, scope, c, items);
    NullFreeIsUnchanged(items);
  }
}
