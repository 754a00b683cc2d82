/**
 Language maps: building one (jsonld-compaction/src/property.rs:517-722) and reading
 it back (jsonld-expansion/src/node.rs:588-681).
 */
module LanguageMap {
  import opened Wrappers
  import opened LangTag
  import opened Values
  import opened AddValue
  import opened Tallies
  import J = Json

  /** How keys are written and read: the alias of `@none`, and which keys expand to it. */
  datatype Keys = Keys(noneAlias: string, expandsToNone: string -> bool)

  predicate KeysReadBack(keys: Keys) {
    keys.expandsToNone(keys.noneAlias)
  }

  /** Values whose `@value` is a string. */
  predicate IsString(value: Value) {
    value.LangString? || (value.LiteralValue? && value.literal.LString?)
  }

  function Text(value: Value): string
    requires IsString(value)
  {
    if value.LangString? then value.s else value.literal.s
  }

  function MapKey(keys: Keys, value: Value): string {
    if value.LangString? && value.language.Some? then value.language.value else keys.noneAlias
  }

  // ----- building

  /** The map after a run of values. */
  function MapAfter(keys: Keys, start: seq<J.Entry>, values: seq<Value>, asArray: bool): seq<J.Entry>
    requires forall v :: v in values ==> IsString(v)
  {
    if values == [] then start
    else
      var last := values[|values| - 1];
      Added(MapAfter(keys, start, values[..|values| - 1], asArray), MapKey(keys, last), J.Str(Text(last)), asArray)
  }

  /** Why building a map fails: a value does not compact, or the term holds something other than a map. */
  datatype MapError<E> = Uncompacted(error: E) | CollidingEntry

  /** What the term already holds is not a map. */
  predicate Collides(was: Option<J.Value>) {
    was.Some? && !was.value.Object?
  }

  function StartOf(was: Option<J.Value>): seq<J.Entry> {
    if was.Some? && was.value.Object? then was.value.entries else []
  }

  /**
   The first `n` values have gone into the map under `term`, and nowhere else; once there is
   one, the term holds the map they make of what it held before.
   */
  ghost predicate Building(keys: Keys, before: seq<J.Entry>, entries: seq<J.Entry>, term: string,
                           values: seq<Value>, n: nat, asArray: bool)
    requires n <= |values| && forall v :: v in values ==> IsString(v)
  {
    && J.DistinctKeys(entries) && J.DistinctKeys(StartOf(Lookup(entries, term)))
    && (n == 0 ==> entries == before)
    && (n > 0 ==>
          && !Collides(Lookup(before, term))
          && Lookup(entries, term) == Some(J.Object(MapAfter(keys, StartOf(Lookup(before, term)), values[..n],
              asArray))))
    && forall other :: other != term ==> Lookup(entries, other) == Lookup(before, other)
  }

  lemma {:induction false} BuildingStep(keys: Keys, before: seq<J.Entry>, entries: seq<J.Entry>, term: string,
                     values: seq<Value>, n: nat, asArray: bool)
    requires forall v :: v in values ==> IsString(v)
    requires n < |values| && Building(keys, before, entries, term, values, n, asArray)
        && !Collides(Lookup(entries, term))
    ensures Building(keys, before,
                     Insert(entries, term, J.Object(Added(StartOf(Lookup(entries, term)), MapKey(keys, values[n]),
                                                          J.Str(Text(values[n])), asArray))),
                     term, values, n + 1, asArray)
  {
    var held := StartOf(Lookup(entries, term));
    assert values[..n + 1][..n] == values[..n];
    assert held == MapAfter(keys, StartOf(Lookup(before, term)), values[..n], asArray);
    AddedConserves(held, MapKey(keys, values[n]), J.Str(Text(values[n])), asArray);
    InsertKeepsOthers(entries, term, J.Object(Added(held, MapKey(keys, values[n]), J.Str(Text(values[n])), asArray)));
  }

  /** What is in the way of the map is there before the first value. */
  lemma FoundAtOnce(keys: Keys, before: seq<J.Entry>, entries: seq<J.Entry>, term: string,
                    values: seq<Value>, n: nat, asArray: bool)
    requires n <= |values| && forall v :: v in values ==> IsString(v)
    requires Building(keys, before, entries, term, values, n, asArray) && Collides(Lookup(entries, term))
    ensures n == 0 && Collides(Lookup(before, term))
  {
  }

  lemma NotFoundLater(keys: Keys, before: seq<J.Entry>, entries: seq<J.Entry>, term: string,
                      values: seq<Value>, n: nat, asArray: bool)
    requires n <= |values| && forall v :: v in values ==> IsString(v)
    requires Building(keys, before, entries, term, values, n, asArray) && !Collides(Lookup(entries, term))
    ensures !Collides(Lookup(before, term))
  {
  }

  /** The entries once there is something under the term. */
  function Made(entries: seq<J.Entry>, term: string): seq<J.Entry>
  {
    if Lookup(entries, term).None? then Insert(entries, term, J.Object([])) else entries
  }

  lemma MadeOrFound(entries: seq<J.Entry>, term: string)
    requires J.DistinctKeys(entries)
    ensures var was, now := Lookup(entries, term), Lookup(Made(entries, term), term);
            && now.Some? && (now.value.Object? <==> !Collides(was))
                && (now.value.Object? ==> now.value.entries == StartOf(was))
    ensures Collides(Lookup(entries, term)) ==> Made(entries, term) == entries
    ensures forall after :: Insert(Made(entries, term), term, after) == Insert(entries, term, after)
  {
    InsertKeepsOthers(entries, term, J.Object([]));
    forall after ensures Insert(Made(entries, term), term, after) == Insert(entries, term, after) {
      PutTwice(entries, term, J.Object([]), after);
    }
  }

  lemma PutTwice(entries: seq<J.Entry>, key: string, first: J.Value, second: J.Value)
    ensures Insert(Insert(entries, key, first), key, second) == Insert(entries, key, second)
  {
    var at, once := Position(entries, key), Insert(entries, key, first);
    assert once[at].key == key && forall i :: 0 <= i < at ==> once[i] == entries[i];
    assert Position(once, key) == at;
    assert once[at := J.Entry(key, second)] == Insert(entries, key, second);
  }

  /** One value goes into the map under a term, which is made when there is none. */
  method AddToMap(nestResult: JsonObject, term: string, key: string, value: J.Value, asArray: bool) returns (ok: bool)
    requires J.DistinctKeys(nestResult.entries)
    requires J.DistinctKeys(StartOf(Lookup(nestResult.entries, term)))
    modifies nestResult
    ensures ok <==> !Collides(Lookup(old(nestResult.entries), term))
    ensures ok ==> nestResult.entries
                   == Insert(old(nestResult.entries), term,
                             J.Object(Added(StartOf(Lookup(old(nestResult.entries), term)), key, value, asArray)))
    ensures !ok ==> nestResult.entries == old(nestResult.entries)
  {
    ghost var entries := nestResult.entries;
    if Lookup(nestResult.entries, term).None? {
      nestResult.Put(term, J.Object([]));
    }
    assert nestResult.entries == Made(entries, term);
    MadeOrFound(entries, term);
    var mapObject := Lookup(nestResult.entries, term).value;
    if !mapObject.Object? { return false; }
    AddedConserves(mapObject.entries, key, value, asArray);
    var after := J.Object(Added(mapObject.entries, key, value, asArray));
    nestResult.Put(term, after);
    assert nestResult.entries == Insert(Made(entries, term), term, after) == Insert(entries, term, after);
    ok := true;
  }

  /**
   The values of a property go into the map under its term, one by one. Each is compacted
   first, which may fail; the map takes its string all the same.
   */
  method CompactLanguageMap<E>(keys: Keys, compact: Value -> Result<J.Value, E>, nestResult: JsonObject, term: string,
                               values: seq<Value>, asArray: bool)
      returns (r: Result<(), MapError<E>>)
    requires J.DistinctKeys(nestResult.entries) && forall v :: v in values ==> IsString(v)
    requires J.DistinctKeys(StartOf(Lookup(nestResult.entries, term)))
    modifies nestResult
    ensures r.Ok? <==>
              (values != [] ==> !Collides(Lookup(old(nestResult.entries), term)))
              && FirstCompact(compact, values, |values|)
    ensures r == Err(CollidingEntry) <==>
            values != [] && compact(values[0]).Ok? && Collides(Lookup(old(nestResult.entries), term))
    ensures r.Err? && r.error.Uncompacted? ==> exists i :: 0 <= i < |values| && compact(values[i]) == Err(r.error.error)
    ensures r.Ok? ==> Building(keys, old(nestResult.entries), nestResult.entries, term, values, |values|, asArray)
  {
    ghost var before := nestResult.entries;
    for i := 0 to |values|
      invariant Building(keys, before, nestResult.entries, term, values, i, asArray)
      invariant FirstCompact(compact, values, i)
    {
      var compacted := compact(values[i]);
      if compacted.Err? { return Err(Uncompacted(compacted.error)); }
      ghost var entries := nestResult.entries;
      var ok := AddToMap(nestResult, term, MapKey(keys, values[i]), J.Str(Text(values[i])), asArray);
      if !ok {
        FoundAtOnce(keys, before, entries, term, values, i, asArray);
        return Err(CollidingEntry);
      }
      NotFoundLater(keys, before, entries, term, values, i, asArray);
      FirstCompactMore(compact, values, i);
      BuildingStep(keys, before, entries, term, values, i, asArray);
    }
    r := Ok(());
  }

  /** The first `n` values compact. */
  ghost predicate FirstCompact<E>(compact: Value -> Result<J.Value, E>, values: seq<Value>, n: nat)
    requires n <= |values|
  {
    forall i :: 0 <= i < n ==> compact(values[i]).Ok?
  }

  lemma FirstCompactMore<E>(compact: Value -> Result<J.Value, E>, values: seq<Value>, n: nat)
    requires n < |values| && FirstCompact(compact, values, n) && compact(values[n]).Ok?
    ensures FirstCompact(compact, values, n + 1)
  {
  }

  // ----- reading

  /** A string under a key of the map. */
  function ReadString(keys: Keys, direction: Option<Direction>, key: string, s: string): (v: Value)
    ensures Valid(v)
  {
    Tagged(s, if keys.expandsToNone(key) then None else Some(key), direction)
  }

  datatype InvalidLanguageMapValue = InvalidLanguageMapValue

  function ReadStrings(keys: Keys, direction: Option<Direction>, key: string, items: seq<J.Value>):
      Result<seq<Value>, InvalidLanguageMapValue> {
    if items == [] then Ok([])
    else
      var last := items[|items| - 1];
      match ReadStrings(keys, direction, key, items[..|items| - 1])
      case Err(e) => Err(e)
      case Ok(before) =>
        if last.Null? then Ok(before)
        else if last.Str? then Ok(before + [ReadString(keys, direction, key, last.s)])
        else Err(InvalidLanguageMapValue)
  }

  /** Only strings and nulls may stand under a language. */
  lemma {:induction false} ReadStringsExactlyWhen(keys: Keys, direction: Option<Direction>, key: string,
      items: seq<J.Value>)
    ensures ReadStrings(keys, direction, key, items).Ok? <==>
            forall i :: 0 <= i < |items| ==> items[i].Null? || items[i].Str?
  {
    if items != [] {
      var init := items[..|items| - 1];
      ReadStringsExactlyWhen(keys, direction, key, init);
      assert forall i :: 0 <= i < |init| ==> init[i] == items[i];
    }
  }

  function WithoutNulls(items: seq<J.Value>): seq<J.Value> {
    if items == [] then []
    else WithoutNulls(items[..|items| - 1]) + (if items[|items| - 1].Null? then [] else [items[|items| - 1]])
  }

  /** The strings are tagged in order, with the language unless it is `@none`, and nulls give nothing. */
  lemma {:induction false} StringsAreTagged(keys: Keys, direction: Option<Direction>, key: string,
      items: seq<J.Value>)
    requires ReadStrings(keys, direction, key, items).Ok?
    ensures var r, strings := ReadStrings(keys, direction, key, items).value, WithoutNulls(items);
      && |r| == |strings|
      && (forall i :: 0 <= i < |r| ==>
            && strings[i].Str?
            && r[i] == Tagged(strings[i].s, if keys.expandsToNone(key) then None else Some(key), direction))
  {
    if items != [] { StringsAreTagged(keys, direction, key, items[..|items| - 1]); }
  }

  function ReadMap(keys: Keys, direction: Option<Direction>, entries: seq<J.Entry>):
      Result<seq<Value>, InvalidLanguageMapValue> {
    if entries == [] then Ok([])
    else
      var last := entries[|entries| - 1];
      match ReadMap(keys, direction, entries[..|entries| - 1])
      case Err(e) => Err(e)
      case Ok(before) =>
        match ReadStrings(keys, direction, last.key, J.ForceArray(last.value))
        case Err(e) => Err(e)
        case Ok(items) => Ok(before + items)
  }

  method ExpandLanguageMap(keys: Keys, scope: Scope, languageEntries: seq<J.Entry>)
      returns (r: Result<seq<Value>, InvalidLanguageMapValue>)
    ensures r == ReadMap(keys, scope.EffectiveDirection(), languageEntries)
  {
    var direction := scope.defaultDirection;
    if scope.definition.Some? && scope.definition.value.direction.Some? {
      direction := scope.definition.value.direction.value.Opt();
    }
    var expanded: seq<Value> := [];
    for i := 0 to |languageEntries|
      invariant ReadMap(keys, direction, languageEntries[..i]) == Ok(expanded)
    {
      var entry := languageEntries[i];
      assert languageEntries[..i + 1][..i] == languageEntries[..i];
      var items := ExpandItems(keys, direction, entry.key, J.ForceArray(entry.value));
      if items.Err? {
        assert items.error.InvalidLanguageMapValue?;
        MapFails(keys, direction, languageEntries, i + 1);
        return Err(InvalidLanguageMapValue);
      }
      expanded := expanded + items.value;
    }
    assert languageEntries[..|languageEntries|] == languageEntries;
    r := Ok(expanded);
  }

  method ExpandItems(keys: Keys, direction: Option<Direction>, key: string, items: seq<J.Value>)
      returns (r: Result<seq<Value>, InvalidLanguageMapValue>)
    ensures r == ReadStrings(keys, direction, key, items)
  {
    var expanded: seq<Value> := [];
    for j := 0 to |items|
      invariant ReadStrings(keys, direction, key, items[..j]) == Ok(expanded)
    {
      assert items[..j + 1][..j] == items[..j];
      match items[j] {
        case Null =>
        case Str(s) => expanded := expanded + [ReadString(keys, direction, key, s)];
        case _ =>
          ItemsFail(keys, direction, key, items, j + 1);
          return Err(InvalidLanguageMapValue);
      }
    }
    assert items[..|items|] == items;
    r := Ok(expanded);
  }

  lemma {:induction false} ItemsFail(keys: Keys, direction: Option<Direction>, key: string, items: seq<J.Value>, j: nat)
    requires j <= |items| && ReadStrings(keys, direction, key, items[..j]) == Err(InvalidLanguageMapValue)
    ensures ReadStrings(keys, direction, key, items) == Err(InvalidLanguageMapValue)
  {
    if j == |items| {
      assert items[..j] == items;
    } else {
      assert items[..|items| - 1][..j] == items[..j];
      ItemsFail(keys, direction, key, items[..|items| - 1], j);
    }
  }

  lemma {:induction false} MapFails(keys: Keys, direction: Option<Direction>, entries: seq<J.Entry>, j: nat)
    requires j <= |entries| && ReadMap(keys, direction, entries[..j]) == Err(InvalidLanguageMapValue)
    ensures ReadMap(keys, direction, entries) == Err(InvalidLanguageMapValue)
  {
    if j == |entries| {
      assert entries[..j] == entries;
    } else {
      assert entries[..|entries| - 1][..j] == entries[..j];
      MapFails(keys, direction, entries[..|entries| - 1], j);
    }
  }

  // ----- what a map of strings means

  predicate AllStrings(entries: seq<J.Entry>) {
    forall i :: 0 <= i < |entries| ==> StringsOnly(J.ForceArray(entries[i].value))
  }

  predicate StringsOnly(items: seq<J.Value>) {
    forall i :: 0 <= i < |items| ==> items[i].Str?
  }

  /** How often a value is read from the items under a key. */
  function ItemsCount(keys: Keys, direction: Option<Direction>, key: string, items: seq<J.Value>, v: Value): nat {
    if items == [] then 0
    else
      var last := items[|items| - 1];
      ItemsCount(keys, direction, key, items[..|items| - 1], v)
          + (if last.Str? && ReadString(keys, direction, key, last.s) == v then 1 else 0)
  }

  function EntryCount(keys: Keys, direction: Option<Direction>, entry: J.Entry, v: Value): nat {
    ItemsCount(keys, direction, entry.key, J.ForceArray(entry.value), v)
  }

  function Count(keys: Keys, direction: Option<Direction>, entries: seq<J.Entry>, v: Value): nat {
    if entries == [] then 0
    else Count(keys, direction, entries[..|entries| - 1], v) + EntryCount(keys, direction, entries[|entries| - 1], v)
  }

  lemma {:induction false} ItemsCounted(keys: Keys, direction: Option<Direction>, key: string, items: seq<J.Value>,
      v: Value)
    requires StringsOnly(items)
    ensures ReadStrings(keys, direction, key, items).Ok?
    ensures multiset(ReadStrings(keys, direction, key, items).value)[v] == ItemsCount(keys, direction, key, items, v)
  {
    if items != [] {
      ItemsCounted(keys, direction, key, items[..|items| - 1], v);
    }
  }

  /** Reading a map of strings gives each value as often as the map holds it. */
  lemma {:induction false} MapCounted(keys: Keys, direction: Option<Direction>, entries: seq<J.Entry>, v: Value)
    requires AllStrings(entries)
    ensures ReadMap(keys, direction, entries).Ok?
    ensures multiset(ReadMap(keys, direction, entries).value)[v] == Count(keys, direction, entries, v)
  {
    if entries != [] {
      var init, last := entries[..|entries| - 1], entries[|entries| - 1];
      assert forall i :: 0 <= i < |init| ==> init[i] == entries[i];
      MapCounted(keys, direction, init, v);
      ItemsCounted(keys, direction, last.key, J.ForceArray(last.value), v);
    }
  }

  lemma {:induction false} CountUpdate(keys: Keys, direction: Option<Direction>, entries: seq<J.Entry>, i: nat,
      entry: J.Entry, v: Value)
    requires i < |entries|
    ensures Count(keys, direction, entries[i := entry], v) + EntryCount(keys, direction, entries[i], v)
         == Count(keys, direction, entries, v) + EntryCount(keys, direction, entry, v)
  {
    var n := |entries| - 1;
    if i < n {
      assert entries[i := entry][..n] == entries[..n][i := entry];
      CountUpdate(keys, direction, entries[..n], i, entry, v);
    } else {
      assert entries[i := entry][..n] == entries[..n];
    }
  }

  lemma {:induction false} ItemsMore(keys: Keys, direction: Option<Direction>, key: string, items: seq<J.Value>,
      s: string, v: Value)
    ensures ItemsCount(keys, direction, key, items + [J.Str(s)], v)
         == ItemsCount(keys, direction, key, items, v) + (if ReadString(keys, direction, key, s) == v then 1 else 0)
  {
    assert (items + [J.Str(s)])[..|items|] == items;
  }

  /** Adding a string under a key adds the value it reads as, and nothing else. */
  lemma {:induction false} AddedCounted(keys: Keys, direction: Option<Direction>, entries: seq<J.Entry>, key: string,
      s: string, asArray: bool, v: Value)
    ensures Count(keys, direction, Added(entries, key, J.Str(s), asArray), v)
         == Count(keys, direction, entries, v) + (if ReadString(keys, direction, key, s) == v then 1 else 0)
  {
    var i := Position(entries, key);
    if i < |entries| {
      var items := J.ForceArray(entries[i].value);
      var entry := J.Entry(key, J.Array(items + [J.Str(s)]));
      ItemsMore(keys, direction, key, items, s, v);
      CountUpdate(keys, direction, entries, i, entry, v);
    } else {
      var entry := J.Entry(key, if asArray then J.Array([J.Str(s)]) else J.Str(s));
      OneItem(keys, direction, key, s, v);
      assert (entries + [entry])[..|entries|] == entries;
      assert J.ForceArray(entry.value) == [J.Str(s)];
    }
  }

  lemma {:induction false} OneItem(keys: Keys, direction: Option<Direction>, key: string, s: string, v: Value)
    ensures ItemsCount(keys, direction, key, [J.Str(s)], v) == if ReadString(keys, direction, key, s) == v then 1 else 0
  {
    assert [] + [J.Str(s)] == [J.Str(s)];
    ItemsMore(keys, direction, key, [], s, v);
  }

  lemma {:induction false} AddedStrings(entries: seq<J.Entry>, key: string, s: string, asArray: bool)
    requires AllStrings(entries)
    ensures AllStrings(Added(entries, key, J.Str(s), asArray))
  {
    var i := Position(entries, key);
    if i < |entries| { assert StringsOnly(J.ForceArray(entries[i].value)); }
  }

  /** The value as it comes back. */
  function Back(keys: Keys, direction: Option<Direction>, value: Value): Value
    requires IsString(value)
  {
    ReadString(keys, direction, MapKey(keys, value), Text(value))
  }

  function Backs(keys: Keys, direction: Option<Direction>, values: seq<Value>): (r: seq<Value>)
    requires forall v :: v in values ==> IsString(v)
    ensures |r| == |values|
    ensures forall i :: 0 <= i < |values| ==> r[i] == Back(keys, direction, values[i])
  {
    if values == [] then []
    else
      assert values[|values| - 1] in values;
      Backs(keys, direction, values[..|values| - 1]) + [Back(keys, direction, values[|values| - 1])]
  }

  lemma {:induction false} MapAfterStrings(keys: Keys, values: seq<Value>, asArray: bool)
    requires forall v :: v in values ==> IsString(v)
    ensures AllStrings(MapAfter(keys, [], values, asArray)) && J.DistinctKeys(MapAfter(keys, [], values, asArray))
  {
    if values != [] {
      var init, last := values[..|values| - 1], values[|values| - 1];
      var before := MapAfter(keys, [], init, asArray);
      MapAfterStrings(keys, init, asArray);
      AddedStrings(before, MapKey(keys, last), Text(last), asArray);
      AddedConserves(before, MapKey(keys, last), J.Str(Text(last)), asArray);
    }
  }

  lemma {:induction false} MapAfterCounted(keys: Keys, direction: Option<Direction>, values: seq<Value>, asArray: bool,
      v: Value)
    requires forall v :: v in values ==> IsString(v)
    ensures Count(keys, direction, MapAfter(keys, [], values, asArray), v)
        == multiset(Backs(keys, direction, values))[v]
  {
    if values != [] {
      var init, last := values[..|values| - 1], values[|values| - 1];
      MapAfterCounted(keys, direction, init, asArray, v);
      assert Backs(keys, direction, values) == Backs(keys, direction, init) + [Back(keys, direction, last)];
      AddedCounted(keys, direction, MapAfter(keys, [], init, asArray), MapKey(keys, last), Text(last), asArray, v);
    }
  }

  // ----- the round trip

  /** The value says no more than a language map can, under this term. */
  predicate Fits(keys: Keys, direction: Option<Direction>, value: Value) {
    match value
    case LangString(_, language, d) => d == direction && (language.Some? ==> !keys.expandsToNone(language.value))
    case LiteralValue(_, ty) => ty.None? && direction.None?
    case JsonValue(_) => false
  }

  lemma BackIsSame(keys: Keys, direction: Option<Direction>, value: Value)
    requires KeysReadBack(keys) && IsString(value) && Valid(value)
    ensures Back(keys, direction, value) == value <==> Fits(keys, direction, value)
    ensures IsString(Back(keys, direction, value))
        && Back(keys, direction, Back(keys, direction, value)) == Back(keys, direction, value)
  {
  }

  lemma SameElements(p: seq<J.Entry>, q: seq<J.Entry>)
    requires multiset(p) == multiset(q) && AllStrings(p)
    ensures AllStrings(q)
  {
    forall i | 0 <= i < |q| ensures StringsOnly(J.ForceArray(q[i].value)) {
      assert q[i] in multiset(p);
      var j :| 0 <= j < |p| && p[j] == q[i];
    }
  }

  lemma CountSplit(keys: Keys, direction: Option<Direction>, entries: seq<J.Entry>, init: seq<J.Entry>, last: J.Entry,
      v: Value)
    requires entries != [] && entries[..|entries| - 1] == init && entries[|entries| - 1] == last
    ensures Count(keys, direction, entries, v)
        == Count(keys, direction, init, v) + EntryCount(keys, direction, last, v)
  {
  }

  lemma {:induction false} CountWithout(keys: Keys, direction: Option<Direction>, q: seq<J.Entry>, j: nat, v: Value)
    requires j < |q|
    ensures Count(keys, direction, q, v)
        == Count(keys, direction, Without(q, j), v) + EntryCount(keys, direction, q[j], v)
  {
    var n := |q| - 1;
    WithoutLast(q, j);
    CountSplit(keys, direction, q, q[..n], q[n], v);
    if j < n {
      CountWithout(keys, direction, q[..n], j, v);
      CountSplit(keys, direction, Without(q, j), Without(q[..n], j), q[n], v);
    }
  }

  /** Any order of the map's entries is read to the same values. */
  lemma {:induction false} CountAnyOrder(keys: Keys, direction: Option<Direction>, p: seq<J.Entry>, q: seq<J.Entry>,
      v: Value)
    requires multiset(p) == multiset(q)
    ensures Count(keys, direction, p, v) == Count(keys, direction, q, v)
    decreases |p|
  {
    assert |p| == |multiset(p)| == |q|;
    if p != [] {
      var j := LastIn(p, q);
      CountAnyOrder(keys, direction, p[..|p| - 1], Without(q, j), v);
      CountWithout(keys, direction, q, j, v);
    }
  }

  /** What comes back, in whatever order the entries of the map are read. */
  lemma {:induction false} MapReadsBack(keys: Keys, direction: Option<Direction>, values: seq<Value>, asArray: bool,
      order: seq<J.Entry>)
    requires forall v :: v in values ==> IsString(v)
    requires multiset(order) == multiset(MapAfter(keys, [], values, asArray))
    ensures ReadMap(keys, direction, order).Ok?
    ensures multiset(ReadMap(keys, direction, order).value) == multiset(Backs(keys, direction, values))
  {
    var built := MapAfter(keys, [], values, asArray);
    MapAfterStrings(keys, values, asArray);
    SameElements(built, order);
    MapCounted(keys, direction, order, JsonValue(J.Null));
    forall v ensures multiset(ReadMap(keys, direction, order).value)[v] == multiset(Backs(keys, direction, values))[v] {
      MapAfterCounted(keys, direction, values, asArray, v);
      CountAnyOrder(keys, direction, built, order, v);
      MapCounted(keys, direction, order, v);
    }
  }

  /**
   A sequence of strings goes through a language map and comes back as the same multiset
   exactly when each value is untyped, has the direction of the term, and has no tag that
   expands to `@none`.
   */
  lemma {:induction false} LanguageMapRoundTrip(keys: Keys, direction: Option<Direction>, values: seq<Value>,
      asArray: bool, order: seq<J.Entry>)
    requires KeysReadBack(keys) && forall v :: v in values ==> IsString(v) && Valid(v)
    requires multiset(order) == multiset(MapAfter(keys, [], values, asArray))
    ensures ReadMap(keys, direction, order).Ok?
    ensures multiset(ReadMap(keys, direction, order).value) == multiset(values)
        <==> forall v :: v in values ==> Fits(keys, direction, v)
  {
    MapReadsBack(keys, direction, values, asArray, order);
    SameExactlyWhenAllFit(keys, direction, values);
  }

  lemma {:induction false} SameExactlyWhenAllFit(keys: Keys, direction: Option<Direction>, values: seq<Value>)
    requires KeysReadBack(keys) && forall v :: v in values ==> IsString(v) && Valid(v)
    ensures multiset(Backs(keys, direction, values)) == multiset(values)
        <==> forall v :: v in values ==> Fits(keys, direction, v)
  {
    var backs := Backs(keys, direction, values);
    if forall v :: v in values ==> Fits(keys, direction, v) {
      forall i | 0 <= i < |values| ensures backs[i] == values[i] {
        assert values[i] in values;
        BackIsSame(keys, direction, values[i]);
      }
      assert backs == values;
    }
    if multiset(backs) == multiset(values) {
      forall v | v in values ensures Fits(keys, direction, v) {
        assert v in multiset(backs);
        var i :| 0 <= i < |backs| && backs[i] == v;
        assert values[i] in values;
        BackIsSame(keys, direction, values[i]);
        BackIsSame(keys, direction, v);
      }
    }
  }
}
