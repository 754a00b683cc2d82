/**
 All the values of a property, under one plain term: compacted and added one after the other
 (jsonld-compaction/src/property.rs:443-756, jsonld-compaction/src/lib.rs:478-523), read back from the
 entry (jsonld-expansion/src/node.rs:578-587, 928-945; jsonld-expansion/src/array.rs:13-77), and exactly
 which properties come back.
 */
module PropertyRoundTrip {
  import opened Wrappers
  import opened Values
  import opened ValueRoundTrip
  import opened AddValue
  import J = Json

  datatype Item = Item(value: Value, index: Option<string>)

  /** No container but `@set`: values go under the term itself. */
  predicate IsPlain(scope: Scope) {
    forall kind :: scope.Has(kind) ==> kind == Set
  }

  // ----- writing

  function WrittenAll<E>(printer: Printer<E>, scope: Scope, items: seq<Item>): Result<seq<J.Value>, E> {
    if items == [] then Ok([])
    else
      match WrittenAll(printer, scope, items[..|items| - 1])
      case Err(e) => Err(e)
      case Ok(before) =>
        match Compacted(printer, scope, items[|items| - 1].value, items[|items| - 1].index)
        case Err(e) => Err(e)
        case Ok(last) => Ok(before + [last])
  }

  function AddedEach(entries: seq<J.Entry>, key: string, values: seq<J.Value>, asArray: bool): seq<J.Entry> {
    if values == [] then entries
    else Added(AddedEach(entries, key, values[..|values| - 1], asArray), key, values[|values| - 1], asArray)
  }

  /** A property without values leaves an empty array. */
  function Stored(entries: seq<J.Entry>, key: string, values: seq<J.Value>, asArray: bool): seq<J.Entry> {
    if values == [] then Added(entries, key, J.Array([]), true) else AddedEach(entries, key, values, asArray)
  }

  lemma WrittenNext<E>(printer: Printer<E>, scope: Scope, items: seq<Item>, n: nat)
    requires n < |items| && WrittenAll(printer, scope, items[..n]).Ok?
    ensures WrittenAll(printer, scope, items[..n + 1])
         == match Compacted(printer, scope, items[n].value, items[n].index)
            case Err(e) => Err(e)
            case Ok(last) => Ok(WrittenAll(printer, scope, items[..n]).value + [last])
  {
    assert items[..n + 1][..n] == items[..n];
  }

  lemma AddedNext(entries: seq<J.Entry>, key: string, values: seq<J.Value>, last: J.Value, asArray: bool)
    ensures AddedEach(entries, key, values + [last], asArray)
         == Added(AddedEach(entries, key, values, asArray), key, last, asArray)
  {
    assert (values + [last])[..|values|] == values;
  }

  method CompactProperty<E>(printer: Printer<E>, scope: Scope, nestResult: JsonObject, key: string, items: seq<Item>,
                            asArray: bool)
      returns (r: Result<(), E>)
    requires J.DistinctKeys(nestResult.entries) && forall i :: 0 <= i < |items| ==> Valid(items[i].value)
    modifies nestResult
    ensures r.Ok? <==> WrittenAll(printer, scope, items).Ok?
    ensures r.Ok? ==>
              nestResult.entries
              == Stored(old(nestResult.entries), key, WrittenAll(printer, scope, items).value, asArray)
    ensures r.Err? ==>
              exists i :: 0 <= i < |items| && Compacted(printer, scope, items[i].value, items[i].index) == Err(r.error)
  {
    ghost var entries, written := nestResult.entries, [];
    for i := 0 to |items|
      invariant J.DistinctKeys(nestResult.entries) && WrittenAll(printer, scope, items[..i]) == Ok(written)
      invariant |written| == i && nestResult.entries == AddedEach(entries, key, written, asArray)
    {
      var compacted := CompactValue(printer, scope, items[i].value, items[i].index);
      WrittenNext(printer, scope, items, i);
      if compacted.Err? {
        FailsLater(printer, scope, items, i + 1);
        return Err(compacted.error);
      }
      nestResult.Add(key, compacted.value, asArray);
      AddedNext(entries, key, written, compacted.value, asArray);
      written := written + [compacted.value];
    }
    assert items[..|items|] == items;
    if items == [] { nestResult.Add(key, J.Array([]), true); }
    r := Ok(());
  }

  lemma {:induction false} FailsLater<E>(printer: Printer<E>, scope: Scope, items: seq<Item>, n: nat)
    requires n <= |items| && WrittenAll(printer, scope, items[..n]).Err?
    ensures WrittenAll(printer, scope, items).Err?
    decreases |items| - n
  {
    if n < |items| {
      assert items[..n + 1][..n] == items[..n];
      FailsLater(printer, scope, items, n + 1);
    } else {
      assert items[..n] == items;
    }
  }

  // ----- reading

  /** The values of an entry: arrays are opened, and nulls dropped. */
  function ReadItems(parser: Parser, scope: Scope, json: J.Value): seq<ReadBack>
    decreases json
  {
    match json
    case Array(items) => ReadAllItems(parser, scope, items)
    case _ => if ReadValue(parser, scope, json).Dropped? then [] else [ReadValue(parser, scope, json)]
  }

  function ReadAllItems(parser: Parser, scope: Scope, items: seq<J.Value>): seq<ReadBack>
    decreases items
  {
    if items == [] then []
    else ReadAllItems(parser, scope, items[..|items| - 1]) + ReadItems(parser, scope, items[|items| - 1])
  }

  /** A `@json` term takes the entry as it is, arrays included. */
  function ReadProperty(parser: Parser, scope: Scope, entry: Option<J.Value>): seq<ReadBack> {
    if entry.None? then []
    else if scope.Type() == Some(JsonType) then [ReadValue(parser, scope, entry.value)]
    else ReadItems(parser, scope, entry.value)
  }

  predicate ReadsAs(read: seq<ReadBack>, items: seq<Item>) {
    && |read| == |items|
    && forall i :: 0 <= i < |items| ==>
         read[i].Read? && SameValue(read[i].value, items[i].value) && read[i].index == items[i].index
  }

  // ----- the round trip

  /** What is written under an unused key is read as the items, in order. */
  predicate PropertyComesBack<E>(printer: Printer<E>, parser: Parser, scope: Scope, entries: seq<J.Entry>, key: string,
      items: seq<Item>, asArray: bool) {
    var written := WrittenAll(printer, scope, items);
    && written.Ok?
    && ReadsAs(ReadProperty(parser, scope, Lookup(Stored(entries, key, written.value, asArray), key)), items)
  }

  predicate NoArrayIn(values: seq<J.Value>) {
    forall i :: 0 <= i < |values| ==> !values[i].Array?
  }

  /** Adding `json` under an unused key leaves it there as it is. */
  predicate StaysAsItIs(json: J.Value, asArray: bool) {
    match json
    case Array(items) => NoArrayIn(items) && (asArray || |items| >= 2)
    case _ => !asArray
  }

  /** The condition for it. */
  predicate PropertySurvives(scope: Scope, items: seq<Item>, asArray: bool) {
    if scope.Type() == Some(JsonType) then
      |items| == 1 && items[0].value.JsonValue? && items[0].index.None? && StaysAsItIs(items[0].value.json, asArray)
    else forall i :: 0 <= i < |items| ==> Survives(scope, items[i].value, items[i].index)
  }

  lemma {:induction false} FlatStays(values: seq<J.Value>)
    requires NoArrayIn(values)
    ensures FlattenAll(values) == values
  {
    if values != [] { FlatStays(values[..|values| - 1]); }
  }

  lemma {:induction false} FlattenedIsFlat(value: J.Value)
    ensures NoArrayIn(Flatten(value))
    decreases value
  {
    if value.Array? { FlattenedAllIsFlat(value.items); }
  }

  lemma {:induction false} FlattenedAllIsFlat(values: seq<J.Value>)
    ensures NoArrayIn(FlattenAll(values))
    decreases values
  {
    if values != [] {
      FlattenedAllIsFlat(values[..|values| - 1]);
      FlattenedIsFlat(values[|values| - 1]);
    }
  }

  /** Two values or more are kept in an array. */
  lemma {:induction false} TwoMakeAnArray(entries: seq<J.Entry>, key: string, values: seq<J.Value>)
    requires J.DistinctKeys(entries) && Lookup(entries, key).None? && NoArrayIn(values) && |values| >= 2
    ensures HasArray(AddedAll(entries, key, values), key)
  {
    var init, last := values[..|values| - 1], values[|values| - 1];
    var before := AddedAll(entries, key, init);
    AddedAllConserves(entries, key, init);
    FlatStays(init);
    assert Items(before, key) != [];
    InsertKeepsOthers(before, key, J.Array(J.ForceArray(Lookup(before, key).value) + [last]));
  }

  lemma {:induction false} AddedStays(entries: seq<J.Entry>, key: string, json: J.Value, asArray: bool)
    requires J.DistinctKeys(entries) && Lookup(entries, key).None?
    ensures Lookup(Added(entries, key, json, asArray), key) == Some(json) <==> StaysAsItIs(json, asArray)
  {
    AddedConserves(entries, key, json, asArray);
    if json.Array? {
      ArrayStays(entries, key, json.items, asArray);
    } else {
      InsertKeepsOthers(entries, key, if asArray then J.Array([json]) else json);
    }
  }

  lemma NestedChanges(after: seq<J.Entry>, key: string, values: seq<J.Value>)
    requires Items(after, key) == FlattenAll(values) && !NoArrayIn(values)
    ensures Lookup(after, key) != Some(J.Array(values))
  {
    FlattenedAllIsFlat(values);
  }

  lemma ArrayKept(after: seq<J.Entry>, key: string, values: seq<J.Value>)
    requires Items(after, key) == values && HasArray(after, key)
    ensures Lookup(after, key) == Some(J.Array(values))
  {
    assert Lookup(after, key).value == J.Array(Lookup(after, key).value.items);
  }

  lemma {:induction false} ShortChanges(entries: seq<J.Entry>, key: string, values: seq<J.Value>)
    requires J.DistinctKeys(entries) && Lookup(entries, key).None? && NoArrayIn(values) && |values| < 2
    ensures Lookup(AddedAll(entries, key, values), key) != Some(J.Array(values))
  {
    if |values| == 1 {
      assert values[..0] == [];
      InsertKeepsOthers(entries, key, values[0]);
    }
  }

  lemma {:induction false} ArrayStays(entries: seq<J.Entry>, key: string, values: seq<J.Value>, asArray: bool)
    requires J.DistinctKeys(entries) && Lookup(entries, key).None?
    ensures Lookup(Added(entries, key, J.Array(values), asArray), key) == Some(J.Array(values))
        <==> StaysAsItIs(J.Array(values), asArray)
  {
    var after := Added(entries, key, J.Array(values), asArray);
    AddedConserves(entries, key, J.Array(values), asArray);
    assert Items(after, key) == FlattenAll(values);
    if !NoArrayIn(values) {
      NestedChanges(after, key, values);
    } else if !asArray && |values| < 2 {
      ShortChanges(entries, key, values);
    } else {
      FlatStays(values);
      if !asArray { TwoMakeAnArray(entries, key, values); }
      ArrayKept(after, key, values);
    }
  }

  /** Under a `@json` term, one JSON value is stored as adding it leaves it. */
  lemma {:induction false} OneStored<E>(printer: Printer<E>, scope: Scope, entries: seq<J.Entry>, key: string,
      item: Item, asArray: bool)
    requires scope.Type() == Some(JsonType) && item.value.JsonValue? && item.index.None?
    ensures WrittenAll(printer, scope, [item]) == Ok([item.value.json])
    ensures Stored(entries, key, [item.value.json], asArray) == Added(entries, key, item.value.json, asArray)
  {
    assert Compacted(printer, scope, item.value, item.index) == Ok(item.value.json);
    WrittenNext(printer, scope, [item], 0);
    assert [item][..0] == [] && [item][..1] == [item] && [] + [item.value.json] == [item.value.json];
    AddedNext(entries, key, [], item.value.json, asArray);
  }

  /** A `@json` term reads one JSON value without an index, or nothing. */
  lemma JsonReadsOne(parser: Parser, scope: Scope, entry: Option<J.Value>, items: seq<Item>)
    requires scope.Type() == Some(JsonType)
    ensures ReadsAs(ReadProperty(parser, scope, entry), items)
        <==> if entry.None? then items == [] else items == [Item(JsonValue(entry.value), None)]
  {
    if entry.Some? && |items| == 1 && items[0].value == JsonValue(entry.value) && items[0].index.None? {
      assert items[0] == Item(JsonValue(entry.value), None);
    }
  }

  lemma {:induction false} JsonPropertyComesBack<E>(printer: Printer<E>, parser: Parser, scope: Scope,
      entries: seq<J.Entry>, key: string, items: seq<Item>, asArray: bool)
    requires scope.Type() == Some(JsonType)
    requires J.DistinctKeys(entries) && Lookup(entries, key).None?
    requires WrittenAll(printer, scope, items).Ok?
    ensures PropertyComesBack(printer, parser, scope, entries, key, items, asArray)
        <==> PropertySurvives(scope, items, asArray)
  {
    var entry := Lookup(Stored(entries, key, WrittenAll(printer, scope, items).value, asArray), key);
    JsonReadsOne(parser, scope, entry, items);
    if |items| == 1 && items[0].value.JsonValue? && items[0].index.None? {
      assert items == [items[0]];
      OneStored(printer, scope, entries, key, items[0], asArray);
      AddedStays(entries, key, items[0].value.json, asArray);
    } else if items == [] {
      AddedConserves(entries, key, J.Array([]), true);
    }
  }

  // ----- elsewhere

  lemma {:induction false} WrittenIs<E>(printer: Printer<E>, scope: Scope, items: seq<Item>)
    requires forall i :: 0 <= i < |items| ==> Compacted(printer, scope, items[i].value, items[i].index).Ok?
    ensures WrittenAll(printer, scope, items).Ok? && |WrittenAll(printer, scope, items).value| == |items|
    ensures forall i :: 0 <= i < |items| ==>
        WrittenAll(printer, scope, items).value[i] == Compacted(printer, scope, items[i].value, items[i].index).value
  {
    if items != [] { WrittenIs(printer, scope, items[..|items| - 1]); }
  }

  lemma {:induction false} AddedOneMore(entries: seq<J.Entry>, key: string, last: J.Value, asArray: bool)
    requires J.DistinctKeys(entries) && !last.Array?
    ensures J.DistinctKeys(Added(entries, key, last, asArray))
    ensures Items(Added(entries, key, last, asArray), key) == Items(entries, key) + [last]
  {
    AddedConserves(entries, key, last, asArray);
  }

  lemma {:induction false} AddedEachConserves(entries: seq<J.Entry>, key: string, values: seq<J.Value>, asArray: bool)
    requires J.DistinctKeys(entries) && Lookup(entries, key).None? && NoArrayIn(values)
    ensures J.DistinctKeys(AddedEach(entries, key, values, asArray))
    ensures Items(AddedEach(entries, key, values, asArray), key) == values
  {
    if values != [] {
      var init, last := values[..|values| - 1], values[|values| - 1];
      AddedEachConserves(entries, key, init, asArray);
      AddedOneMore(AddedEach(entries, key, init, asArray), key, last, asArray);
      assert init + [last] == values;
    }
  }

  /** What is stored is the values, in order, alone or in an array. */
  lemma {:induction false} StoredItems(entries: seq<J.Entry>, key: string, values: seq<J.Value>, asArray: bool)
    requires J.DistinctKeys(entries) && Lookup(entries, key).None? && NoArrayIn(values)
    ensures var found := Lookup(Stored(entries, key, values, asArray), key);
            found.Some? && J.ForceArray(found.value) == values
  {
    if values == [] {
      AddedConserves(entries, key, J.Array([]), true);
    } else {
      AddedEachConserves(entries, key, values, asArray);
    }
  }

  lemma {:induction false} ReadsEach(parser: Parser, scope: Scope, values: seq<J.Value>)
    requires NoArrayIn(values)
    ensures |ReadAllItems(parser, scope, values)| <= |values|
    ensures |ReadAllItems(parser, scope, values)| == |values|
        <==> forall i :: 0 <= i < |values| ==> !ReadValue(parser, scope, values[i]).Dropped?
    ensures |ReadAllItems(parser, scope, values)| == |values| ==>
              forall i :: 0 <= i < |values| ==>
                ReadAllItems(parser, scope, values)[i] == ReadValue(parser, scope, values[i])
  {
    if values != [] { ReadsEach(parser, scope, values[..|values| - 1]); }
  }

  lemma {:induction false} ReadsForced(parser: Parser, scope: Scope, json: J.Value)
    requires NoArrayIn(J.ForceArray(json))
    ensures ReadItems(parser, scope, json) == ReadAllItems(parser, scope, J.ForceArray(json))
  {
    if !json.Array? { assert [json][..0] == []; }
  }

  lemma NoArrayWritten<E>(printer: Printer<E>, scope: Scope, value: Value, index: Option<string>)
    requires scope.Type() != Some(JsonType) && Compacted(printer, scope, value, index).Ok?
    ensures !Compacted(printer, scope, value, index).value.Array?
  {
  }

  lemma {:induction false} CompactedIsOk<E>(printer: Printer<E>, parser: Parser, scope: Scope, value: Value,
      index: Option<string>)
    requires DatatypeReadsBack(printer, parser, value)
    ensures Compacted(printer, scope, value, index).Ok?
  {
  }

  /** Elsewhere, what is read is what each value written is read as, unless one of them is dropped. */
  lemma {:induction false} StoredReads(parser: Parser, scope: Scope, entries: seq<J.Entry>, key: string,
      written: seq<J.Value>, asArray: bool)
    requires scope.Type() != Some(JsonType) && NoArrayIn(written)
    requires J.DistinctKeys(entries) && Lookup(entries, key).None?
    ensures ReadProperty(parser, scope, Lookup(Stored(entries, key, written, asArray), key))
         == ReadAllItems(parser, scope, written)
  {
    StoredItems(entries, key, written, asArray);
    ReadsForced(parser, scope, Lookup(Stored(entries, key, written, asArray), key).value);
  }

  /** Read one by one, the values come back when each does. */
  lemma {:induction false} EachReadsAs<E>(printer: Printer<E>, parser: Parser, scope: Scope, items: seq<Item>,
      written: seq<J.Value>)
    requires IsPlain(scope) && |written| == |items| && NoArrayIn(written)
    requires forall i :: 0 <= i < |items| ==>
      Compacted(printer, scope, items[i].value, items[i].index) == Ok(written[i])
    ensures ReadsAs(ReadAllItems(parser, scope, written), items)
        <==> forall i :: 0 <= i < |items| ==> ComesBack(printer, parser, scope, items[i].value, items[i].index)
  {
    ReadsEach(parser, scope, written);
    forall i | 0 <= i < |items|
      ensures ComesBack(printer, parser, scope, items[i].value, items[i].index)
          <==> var read := ReadValue(parser, scope, written[i]);
               read.Read? && SameValue(read.value, items[i].value) && read.index == items[i].index
    {
      assert KeptIndex(scope, items[i].index) == items[i].index;
    }
  }

  lemma {:induction false} OtherPropertyComesBack<E>(printer: Printer<E>, parser: Parser, scope: Scope,
      entries: seq<J.Entry>, key: string, items: seq<Item>, asArray: bool)
    requires scope.Type() != Some(JsonType) && IsPlain(scope)
    requires forall i :: 0 <= i < |items| ==> Compacted(printer, scope, items[i].value, items[i].index).Ok?
    requires J.DistinctKeys(entries) && Lookup(entries, key).None?
    ensures PropertyComesBack(printer, parser, scope, entries, key, items, asArray)
        <==> forall i :: 0 <= i < |items| ==> ComesBack(printer, parser, scope, items[i].value, items[i].index)
  {
    WrittenIs(printer, scope, items);
    var written := WrittenAll(printer, scope, items).value;
    forall i | 0 <= i < |items| ensures !written[i].Array? {
      NoArrayWritten(printer, scope, items[i].value, items[i].index);
    }
    StoredReads(parser, scope, entries, key, written, asArray);
    EachReadsAs(printer, parser, scope, items, written);
  }

  /**
   In JSON-LD 1.1, a property comes back exactly when: under a `@json` term, it has one value, which is JSON
   without an index and which adding leaves as it is (an array of two or more values that are no arrays, or
   of any number with `as_array`, or no array without it); elsewhere, each of its values comes back.
   */
  lemma PropertyComesBackExactlyWhen<E>(printer: Printer<E>, parser: Parser, scope: Scope, entries: seq<J.Entry>,
      key: string, items: seq<Item>, asArray: bool)
    requires IsPlain(scope) && parser.mode11 && AliasesReadBack(printer, parser)
    requires forall i :: 0 <= i < |items| ==>
      Valid(items[i].value) && DatatypeReadsBack(printer, parser, items[i].value)
    requires J.DistinctKeys(entries) && Lookup(entries, key).None?
    ensures PropertyComesBack(printer, parser, scope, entries, key, items, asArray)
        <==> PropertySurvives(scope, items, asArray)
  {
    forall i | 0 <= i < |items|
      ensures Compacted(printer, scope, items[i].value, items[i].index).Ok?
      ensures ComesBack(printer, parser, scope, items[i].value, items[i].index)
          <==> Survives(scope, items[i].value, items[i].index)
    {
      CompactedIsOk(printer, parser, scope, items[i].value, items[i].index);
      ComesBackExactlyWhen(printer, parser, scope, items[i].value, items[i].index);
    }
    if scope.Type() == Some(JsonType) {
      WrittenIs(printer, scope, items);
      JsonPropertyComesBack(printer, parser, scope, entries, key, items, asArray);
    } else {
      OtherPropertyComesBack(printer, parser, scope, entries, key, items, asArray);
    }
  }
}
