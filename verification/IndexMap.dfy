/**
 Index maps: building one (jsonld-compaction/src/property.rs:517-722) and reading it back
 (jsonld-expansion/src/node.rs:683-928), and exactly which values come back with their indices.
 */
module IndexMap {
  import opened Wrappers
  import opened Values
  import opened ValueRoundTrip
  import opened AddValue
  import opened LanguageMap
  import opened PropertyRoundTrip
  import opened Tallies
  import J = Json

  /** Values go into a map by their index: an `@index` container, and neither `@graph` nor `@language`. */
  predicate IsIndexTerm(scope: Scope) {
    scope.definition.Some?
    && Index in scope.definition.value.container
    && Language !in scope.definition.value.container && Graph !in scope.definition.value.container
    && List !in scope.definition.value.container
  }

  function IndexKey(keys: Keys, item: Item): string {
    if item.index.Some? then item.index.value else keys.noneAlias
  }

  // ----- building

  /** A key of the map and a value under it. */
  datatype Pair = Pair(key: string, json: J.Value)

  function PairsOf(keys: Keys, items: seq<Item>, written: seq<J.Value>): (r: seq<Pair>)
    requires |items| == |written|
    ensures |r| == |items|
  {
    seq(|items|, i requires 0 <= i < |items| => Pair(IndexKey(keys, items[i]), written[i]))
  }

  function AddedPairs(start: seq<J.Entry>, pairs: seq<Pair>, asArray: bool): seq<J.Entry> {
    if pairs == [] then start
    else
      Added(AddedPairs(start, pairs[..|pairs| - 1], asArray), pairs[|pairs| - 1].key, pairs[|pairs| - 1].json, asArray)
  }

  /** What the term holds afterwards: the map, or an empty array when there are no values. */
  function MapStored(entries: seq<J.Entry>, term: string, pairs: seq<Pair>, asArray: bool): seq<J.Entry> {
    if pairs == [] then Added(entries, term, J.Array([]), true)
    else Insert(entries, term, J.Object(AddedPairs(StartOf(Lookup(entries, term)), pairs, asArray)))
  }

  lemma {:induction false} AddedPairsDistinct(start: seq<J.Entry>, pairs: seq<Pair>, asArray: bool)
    requires J.DistinctKeys(start)
    ensures J.DistinctKeys(AddedPairs(start, pairs, asArray))
  {
    if pairs != [] {
      var init, last := pairs[..|pairs| - 1], pairs[|pairs| - 1];
      AddedPairsDistinct(start, init, asArray);
      AddedConserves(AddedPairs(start, init, asArray), last.key, last.json, asArray);
    }
  }

  lemma MapStoredNext(entries: seq<J.Entry>, term: string, pairs: seq<Pair>, pair: Pair, asArray: bool)
    requires J.DistinctKeys(entries) && pairs != []
    ensures Lookup(MapStored(entries, term, pairs, asArray), term)
         == Some(J.Object(AddedPairs(StartOf(Lookup(entries, term)), pairs, asArray)))
    ensures MapStored(entries, term, pairs + [pair], asArray)
         == Insert(MapStored(entries, term, pairs, asArray), term,
                   J.Object(Added(AddedPairs(StartOf(Lookup(entries, term)), pairs, asArray), pair.key, pair.json,
                                  asArray)))
  {
    assert (pairs + [pair])[..|pairs|] == pairs;
    var first := J.Object(AddedPairs(StartOf(Lookup(entries, term)), pairs, asArray));
    InsertKeepsOthers(entries, term, first);
    PutTwice(entries, term, first, J.Object(AddedPairs(StartOf(Lookup(entries, term)), pairs + [pair], asArray)));
  }

  lemma MapStoredFirst(entries: seq<J.Entry>, term: string, pair: Pair, asArray: bool)
    ensures MapStored(entries, term, [pair], asArray)
         == Insert(entries, term, J.Object(Added(StartOf(Lookup(entries, term)), pair.key, pair.json, asArray)))
  {
    assert [pair][..|[pair]| - 1] == [];
    assert AddedPairs(StartOf(Lookup(entries, term)), [], asArray) == StartOf(Lookup(entries, term));
  }

  /** The first `i` values have gone into the map. */
  ghost predicate MapBuilding<E>(printer: Printer<E>, scope: Scope, keys: Keys, before: seq<J.Entry>,
      entries: seq<J.Entry>, term: string, items: seq<Item>, written: seq<J.Value>, asArray: bool)
  {
    && |written| <= |items| && WrittenAll(printer, scope, items[..|written|]) == Ok(written)
    && J.DistinctKeys(entries)
    && if written == [] then entries == before
       else entries == MapStored(before, term, PairsOf(keys, items[..|written|], written), asArray)
  }

  lemma {:induction false} MapBuildingStep<E>(printer: Printer<E>, scope: Scope, keys: Keys, before: seq<J.Entry>,
      entries: seq<J.Entry>, term: string, items: seq<Item>, written: seq<J.Value>, asArray: bool, last: J.Value)
    requires J.DistinctKeys(before) && J.DistinctKeys(StartOf(Lookup(before, term)))
    requires MapBuilding(printer, scope, keys, before, entries, term, items, written, asArray)
    requires |written| < |items| && !Collides(Lookup(entries, term))
    requires Compacted(printer, scope, items[|written|].value, items[|written|].index) == Ok(last)
    ensures J.DistinctKeys(StartOf(Lookup(entries, term)))
    ensures var after := Insert(entries, term, J.Object(Added(StartOf(Lookup(entries, term)),
                                                              IndexKey(keys, items[|written|]), last, asArray)));
            MapBuilding(printer, scope, keys, before, after, term, items, written + [last], asArray)
  {
    var n := |written|;
    WrittenNext(printer, scope, items, n);
    var pairs, pair := PairsOf(keys, items[..n], written), Pair(IndexKey(keys, items[n]), last);
    assert PairsOf(keys, items[..n + 1], written + [last]) == pairs + [pair];
    if written == [] {
      assert pairs + [pair] == [pair];
      MapStoredFirst(before, term, pair, asArray);
    } else {
      MapStoredNext(before, term, pairs, pair, asArray);
      AddedPairsDistinct(StartOf(Lookup(before, term)), pairs, asArray);
    }
    InsertKeepsOthers(entries, term, J.Object(Added(StartOf(Lookup(entries, term)), pair.key, last, asArray)));
  }

  /** The values of a property go into the map under its term, each under its index. */
  method CompactIndexMap<E>(printer: Printer<E>, scope: Scope, keys: Keys, nestResult: JsonObject, term: string,
                            items: seq<Item>, asArray: bool)
      returns (r: Result<(), MapError<E>>)
    requires J.DistinctKeys(nestResult.entries) && J.DistinctKeys(StartOf(Lookup(nestResult.entries, term)))
    requires forall i :: 0 <= i < |items| ==> Valid(items[i].value)
    modifies nestResult
    ensures r.Ok? ==>
              && WrittenAll(printer, scope, items).Ok?
              && |WrittenAll(printer, scope, items).value| == |items|
              && nestResult.entries
                 == MapStored(old(nestResult.entries), term,
                              PairsOf(keys, items, WrittenAll(printer, scope, items).value), asArray)
    ensures r == Err(CollidingEntry) ==> items != [] && Collides(Lookup(old(nestResult.entries), term))
    ensures r.Err? && r.error.Uncompacted? ==>
              exists i :: 0 <= i < |items|
                && Compacted(printer, scope, items[i].value, items[i].index) == Err(r.error.error)
  {
    ghost var before, written := nestResult.entries, [];
    assert items[..0] == [];
    for i := 0 to |items|
      invariant |written| == i
      invariant MapBuilding(printer, scope, keys, before, nestResult.entries, term, items, written, asArray)
    {
      var compacted := CompactValue(printer, scope, items[i].value, items[i].index);
      if compacted.Err? { return Err(Uncompacted(compacted.error)); }
      if Collides(Lookup(nestResult.entries, term)) {
        NeverCollidesLater(printer, scope, keys, before, nestResult.entries, term, items, written, asArray);
        return Err(CollidingEntry);
      }
      MapBuildingStep(printer, scope, keys, before, nestResult.entries, term, items, written, asArray, compacted.value);
      var ok := AddToMap(nestResult, term, IndexKey(keys, items[i]), compacted.value, asArray);
      written := written + [compacted.value];
    }
    assert items[..|items|] == items;
    if items == [] { nestResult.Add(term, J.Array([]), true); }
    r := Ok(());
  }

  lemma NeverCollidesLater<E>(printer: Printer<E>, scope: Scope, keys: Keys, before: seq<J.Entry>,
      entries: seq<J.Entry>, term: string, items: seq<Item>, written: seq<J.Value>, asArray: bool)
    requires J.DistinctKeys(before)
    requires MapBuilding(printer, scope, keys, before, entries, term, items, written, asArray)
    requires Collides(Lookup(entries, term))
    ensures Collides(Lookup(before, term))
  {
    if written != [] {
      var pairs := PairsOf(keys, items[..|written|], written);
      InsertKeepsOthers(before, term, J.Object(AddedPairs(StartOf(Lookup(before, term)), pairs, asArray)));
    }
  }

  // ----- reading

  /** A value under a key has the key for an index, unless it has an index of its own or the key means `@none`. */
  function WithKey(keys: Keys, key: string, read: ReadBack): ReadBack {
    if read.Read? && read.index.None? && !keys.expandsToNone(key) then read.(index := Some(key)) else read
  }

  function WithKeys(keys: Keys, key: string, found: seq<ReadBack>): (r: seq<ReadBack>)
    ensures |r| == |found|
  {
    seq(|found|, i requires 0 <= i < |found| => WithKey(keys, key, found[i]))
  }

  function ReadMapEntries(parser: Parser, scope: Scope, keys: Keys, entries: seq<J.Entry>): seq<ReadBack> {
    if entries == [] then []
    else
      ReadMapEntries(parser, scope, keys, entries[..|entries| - 1])
      + WithKeys(keys, entries[|entries| - 1].key, ReadItems(parser, scope, entries[|entries| - 1].value))
  }

  method ExpandIndexEntries(parser: Parser, scope: Scope, keys: Keys, entries: seq<J.Entry>)
      returns (r: seq<ReadBack>)
    ensures r == ReadMapEntries(parser, scope, keys, entries)
  {
    r := [];
    for i := 0 to |entries|
      invariant r == ReadMapEntries(parser, scope, keys, entries[..i])
    {
      assert entries[..i + 1][..i] == entries[..i];
      var items := ReadItems(parser, scope, entries[i].value);
      for j := 0 to |items|
        invariant r == ReadMapEntries(parser, scope, keys, entries[..i])
            + WithKeys(keys, entries[i].key, items)[..j]
      {
        r := r + [WithKey(keys, entries[i].key, items[j])];
      }
    }
    assert entries[..|entries|] == entries;
  }

  /** What is under the term, its map in the order `order`: a `@json` term takes it as it is. */
  function ReadTerm(parser: Parser, scope: Scope, keys: Keys, json: J.Value, order: seq<J.Entry>): seq<ReadBack> {
    if scope.Type() == Some(JsonType) then [Read(JsonValue(json), None)]
    else if json.Object? then ReadMapEntries(parser, scope, keys, order)
    else ReadItems(parser, scope, json)
  }

  // ----- what a map holds

  function PairsUnder(key: string, values: seq<J.Value>): (r: seq<Pair>)
    ensures |r| == |values|
  {
    seq(|values|, i requires 0 <= i < |values| => Pair(key, values[i]))
  }

  function PairsIn(entries: seq<J.Entry>): multiset<Pair> {
    if entries == [] then multiset{}
    else PairsIn(entries[..|entries| - 1]) + PairsOfEntry(entries[|entries| - 1])
  }

  function PairsOfEntry(entry: J.Entry): multiset<Pair> {
    multiset(PairsUnder(entry.key, J.ForceArray(entry.value)))
  }

  predicate FlatEntries(entries: seq<J.Entry>) {
    forall i :: 0 <= i < |entries| ==> NoArrayIn(J.ForceArray(entries[i].value))
  }

  lemma SwapLast<T>(a: multiset<T>, b: multiset<T>, c: multiset<T>)
    ensures a + b + c == a + c + b
  {
  }

  lemma {:induction false} PairsUpdated(entries: seq<J.Entry>, i: nat, entry: J.Entry)
    requires i < |entries|
    ensures PairsIn(entries[i := entry]) + PairsOfEntry(entries[i]) == PairsIn(entries) + PairsOfEntry(entry)
  {
    var n := |entries| - 1;
    if i < n {
      assert entries[i := entry][..n] == entries[..n][i := entry];
      PairsUpdated(entries[..n], i, entry);
      SwapLast(PairsIn(entries[..n][i := entry]), PairsOfEntry(entries[n]), PairsOfEntry(entries[i]));
      SwapLast(PairsIn(entries[..n]), PairsOfEntry(entry), PairsOfEntry(entries[n]));
    } else {
      assert entries[i := entry][..n] == entries[..n];
      SwapLast(PairsIn(entries[..n]), PairsOfEntry(entries[i]), PairsOfEntry(entry));
    }
  }

  lemma PairsUnderMore(key: string, values: seq<J.Value>, value: J.Value)
    ensures multiset(PairsUnder(key, values + [value]))
         == multiset(PairsUnder(key, values)) + multiset{Pair(key, value)}
  {
    assert PairsUnder(key, values + [value]) == PairsUnder(key, values) + [Pair(key, value)];
  }

  lemma CancelSum<T>(a: multiset<T>, b: multiset<T>, c: multiset<T>, d: multiset<T>)
    requires a + b == c + (b + d)
    ensures a == c + d
  {
    forall x | x in a + c + d ensures a[x] == (c + d)[x] { assert (a + b)[x] == (c + (b + d))[x]; }
  }

  lemma PairsWithOneMore(entries: seq<J.Entry>, i: nat, value: J.Value)
    requires i < |entries|
    ensures PairsIn(entries[i := J.Entry(entries[i].key, J.Array(J.ForceArray(entries[i].value) + [value]))])
         == PairsIn(entries) + multiset{Pair(entries[i].key, value)}
  {
    var held := J.ForceArray(entries[i].value);
    var entry := J.Entry(entries[i].key, J.Array(held + [value]));
    PairsUnderMore(entry.key, held, value);
    PairsUpdated(entries, i, entry);
    CancelSum(PairsIn(entries[i := entry]), PairsOfEntry(entries[i]), PairsIn(entries),
              multiset{Pair(entry.key, value)});
  }

  lemma PairsWithNewEntry(entries: seq<J.Entry>, entry: J.Entry, value: J.Value)
    requires J.ForceArray(entry.value) == [value]
    ensures PairsIn(entries + [entry]) == PairsIn(entries) + multiset{Pair(entry.key, value)}
  {
    assert (entries + [entry])[..|entries|] == entries;
    assert PairsUnder(entry.key, [value]) == [Pair(entry.key, value)];
  }

  /** Adding a value under a key adds that pair, and nothing else. */
  lemma {:induction false} AddedPair(entries: seq<J.Entry>, key: string, value: J.Value, asArray: bool)
    requires !value.Array?
    ensures PairsIn(Added(entries, key, value, asArray)) == PairsIn(entries) + multiset{Pair(key, value)}
  {
    var i := Position(entries, key);
    if i < |entries| {
      PairsWithOneMore(entries, i, value);
    } else {
      PairsWithNewEntry(entries, J.Entry(key, if asArray then J.Array([value]) else value), value);
    }
  }

  lemma {:induction false} AddedFlat(entries: seq<J.Entry>, key: string, value: J.Value, asArray: bool)
    requires !value.Array? && FlatEntries(entries)
    ensures FlatEntries(Added(entries, key, value, asArray))
  {
    var i := Position(entries, key);
    if i < |entries| { assert NoArrayIn(J.ForceArray(entries[i].value)); }
  }

  predicate NoArrayPaired(pairs: seq<Pair>) {
    forall i :: 0 <= i < |pairs| ==> !pairs[i].json.Array?
  }

  lemma {:induction false} AddedPairsHeld(pairs: seq<Pair>, asArray: bool)
    requires NoArrayPaired(pairs)
    ensures PairsIn(AddedPairs([], pairs, asArray)) == multiset(pairs)
    ensures FlatEntries(AddedPairs([], pairs, asArray))
  {
    if pairs != [] {
      var init, last := pairs[..|pairs| - 1], pairs[|pairs| - 1];
      AddedPairsHeld(init, asArray);
      AddedPair(AddedPairs([], init, asArray), last.key, last.json, asArray);
      AddedFlat(AddedPairs([], init, asArray), last.key, last.json, asArray);
      LastOne(pairs);
    }
  }

  lemma {:induction false} PairsJoined(a: seq<J.Entry>, b: seq<J.Entry>)
    ensures PairsIn(a + b) == PairsIn(a) + PairsIn(b)
  {
    if b == [] {
      assert a + b == a;
    } else {
      var n := |b| - 1;
      assert (a + b)[..|a + b| - 1] == a + b[..n];
      PairsJoined(a, b[..n]);
    }
  }

  lemma {:induction false} PairsWithout(entries: seq<J.Entry>, j: nat)
    requires j < |entries|
    ensures PairsIn(entries) == PairsIn(Without(entries, j)) + PairsOfEntry(entries[j])
  {
    var a, b := entries[..j], entries[j + 1..];
    assert entries == (a + [entries[j]]) + b && Without(entries, j) == a + b;
    PairsJoined(a + [entries[j]], b);
    assert (a + [entries[j]])[..|a|] == a;
    PairsJoined(a, b);
    SwapLast(PairsIn(a), PairsOfEntry(entries[j]), PairsIn(b));
  }

  lemma {:induction false} PairsAnyOrder(p: seq<J.Entry>, q: seq<J.Entry>)
    requires multiset(p) == multiset(q)
    ensures PairsIn(p) == PairsIn(q)
    decreases |p|
  {
    assert |p| == |multiset(p)| == |q|;
    if p != [] {
      var j := LastIn(p, q);
      PairsAnyOrder(p[..|p| - 1], Without(q, j));
      PairsWithout(q, j);
    }
  }

  lemma FlatAnyOrder(p: seq<J.Entry>, q: seq<J.Entry>)
    requires multiset(p) == multiset(q) && FlatEntries(p)
    ensures FlatEntries(q)
  {
    forall i | 0 <= i < |q| ensures NoArrayIn(J.ForceArray(q[i].value)) {
      assert q[i] in multiset(p);
      var j :| 0 <= j < |p| && p[j] == q[i];
    }
  }

  // ----- what is read of it

  function PairReader(parser: Parser, scope: Scope, keys: Keys): Pair -> ReadBack {
    (pair: Pair) => WithKey(keys, pair.key, ReadValue(parser, scope, pair.json))
  }

  function KeptReads(all: multiset<ReadBack>): multiset<ReadBack> {
    all[Dropped := 0]
  }

  lemma KeptSum(a: multiset<ReadBack>, b: multiset<ReadBack>)
    ensures KeptReads(a + b) == KeptReads(a) + KeptReads(b)
  {
  }

  lemma {:induction false} ItemsRead(parser: Parser, scope: Scope, keys: Keys, key: string, values: seq<J.Value>)
    requires NoArrayIn(values)
    ensures multiset(WithKeys(keys, key, ReadAllItems(parser, scope, values)))
         == KeptReads(multiset(Mapped(PairReader(parser, scope, keys), PairsUnder(key, values))))
  {
    if values != [] {
      var f, init, last := PairReader(parser, scope, keys), values[..|values| - 1], values[|values| - 1];
      ItemsRead(parser, scope, keys, key, init);
      var found, more := ReadAllItems(parser, scope, init), ReadItems(parser, scope, last);
      assert WithKeys(keys, key, found + more) == WithKeys(keys, key, found) + WithKeys(keys, key, more);
      assert PairsUnder(key, values) == PairsUnder(key, init) + [Pair(key, last)];
      MappedSum(f, PairsUnder(key, init), [Pair(key, last)]);
      assert Mapped(f, [Pair(key, last)]) == [f(Pair(key, last))];
      KeptSum(multiset(Mapped(f, PairsUnder(key, init))), multiset{f(Pair(key, last))});
      OneRead(parser, scope, keys, key, last);
    }
  }

  lemma OneRead(parser: Parser, scope: Scope, keys: Keys, key: string, value: J.Value)
    requires !value.Array?
    ensures multiset(WithKeys(keys, key, ReadItems(parser, scope, value)))
         == KeptReads(multiset{PairReader(parser, scope, keys)(Pair(key, value))})
  {
    var read := ReadValue(parser, scope, value);
    if !read.Dropped? {
      assert WithKeys(keys, key, [read]) == [WithKey(keys, key, read)];
    }
  }

  lemma {:induction false} MapRead(parser: Parser, scope: Scope, keys: Keys, entries: seq<J.Entry>)
    requires FlatEntries(entries)
    ensures multiset(ReadMapEntries(parser, scope, keys, entries))
         == KeptReads(Image(PairReader(parser, scope, keys), PairsIn(entries)))
  {
    var f := PairReader(parser, scope, keys);
    if entries != [] {
      var init, last := entries[..|entries| - 1], entries[|entries| - 1];
      MapRead(parser, scope, keys, init);
      ReadsForced(parser, scope, last.value);
      var pairs := PairsUnder(last.key, J.ForceArray(last.value));
      ItemsRead(parser, scope, keys, last.key, J.ForceArray(last.value));
      ImageOfSeq(f, pairs);
      ImageSum(f, PairsIn(init), multiset(pairs));
      KeptSum(Image(f, PairsIn(init)), Image(f, multiset(pairs)));
    }
  }

  /** A map built from pairs is read as what each pair is, in whatever order its entries are visited. */
  lemma BuiltMapRead(parser: Parser, scope: Scope, keys: Keys, pairs: seq<Pair>, asArray: bool, order: seq<J.Entry>)
    requires NoArrayPaired(pairs) && multiset(order) == multiset(AddedPairs([], pairs, asArray))
    ensures multiset(ReadMapEntries(parser, scope, keys, order))
         == KeptReads(multiset(Mapped(PairReader(parser, scope, keys), pairs)))
  {
    var built := AddedPairs([], pairs, asArray);
    AddedPairsHeld(pairs, asArray);
    PairsAnyOrder(built, order);
    FlatAnyOrder(built, order);
    MapRead(parser, scope, keys, order);
    ImageOfSeq(PairReader(parser, scope, keys), pairs);
  }

  // ----- the round trip

  function AsRead(item: Item): ReadBack {
    Read(item.value, item.index)
  }

  function AllAsRead(items: seq<Item>): (r: seq<ReadBack>)
    ensures |r| == |items|
  {
    seq(|items|, i requires 0 <= i < |items| => AsRead(items[i]))
  }

  /** What a value is read as from the place it takes in the map. */
  function Trip<E>(printer: Printer<E>, parser: Parser, scope: Scope, keys: Keys, item: Item): ReadBack {
    match Compacted(printer, scope, item.value, item.index)
    case Ok(json) => WithKey(keys, IndexKey(keys, item), ReadValue(parser, scope, json))
    case Err(_) => Failed
  }

  /** A tag that is left out is spelled as the one in force. */
  predicate TagIsSpelledSo(scope: Scope, item: Item) {
    item.value.LangString? && item.value.language.Some? && MayBeBare(scope, item.value, item.index) ==>
      LanguageIs(scope, item.value.language)
  }

  /** The condition for one value: it survives, its tag is spelled as it is read, its index does not mean `@none`. */
  predicate Stays(scope: Scope, keys: Keys, item: Item) {
    && Survives(scope, item.value, item.index) && TagIsSpelledSo(scope, item)
    && (item.index.Some? ==> !keys.expandsToNone(item.index.value))
  }

  ghost predicate Readable<E>(printer: Printer<E>, parser: Parser, keys: Keys, item: Item) {
    && Valid(item.value) && DatatypeReadsBack(printer, parser, item.value)
    && parser.mode11 && AliasesReadBack(printer, parser) && keys.expandsToNone(keys.noneAlias)
  }

  /** What a value is read as under an index term that is no `@json` term, its index left to the map. */
  function ReadAs(scope: Scope, item: Item): ReadBack {
    match item.value
    case LiteralValue(literal, _) => if literal.LNull? then Dropped else Read(item.value, None)
    case JsonValue(_) => Read(item.value, None)
    case LangString(s, language, direction) =>
      if MayBeBare(scope, item.value, item.index) then ReadScalar(scope, LString(s))
      else Read(Tagged(s, if language == Some("@none") then None else language, direction), None)
  }

  lemma LiteralReadsAsThat<E>(printer: Printer<E>, parser: Parser, scope: Scope, keys: Keys, item: Item)
    requires Readable(printer, parser, keys, item) && item.value.LiteralValue?
    requires IsIndexTerm(scope) && scope.Type() != Some(JsonType)
    ensures Compacted(printer, scope, item.value, item.index).Ok?
    ensures !Compacted(printer, scope, item.value, item.index).value.Array?
    ensures ReadValue(parser, scope, Compacted(printer, scope, item.value, item.index).value) == ReadAs(scope, item)
  {
    if !WritesBareLiteral(scope, item.value, item.index) {
      LiteralObject(printer, parser, scope, item.value, item.index);
    }
  }

  lemma {:induction false} ReadsAsThat<E>(printer: Printer<E>, parser: Parser, scope: Scope, keys: Keys, item: Item)
    requires Readable(printer, parser, keys, item) && IsIndexTerm(scope) && scope.Type() != Some(JsonType)
    ensures Compacted(printer, scope, item.value, item.index).Ok?
    ensures !Compacted(printer, scope, item.value, item.index).value.Array?
    ensures ReadValue(parser, scope, Compacted(printer, scope, item.value, item.index).value) == ReadAs(scope, item)
  {
    InForce(scope);
    match item.value
    case LiteralValue(_, _) => LiteralReadsAsThat(printer, parser, scope, keys, item);
    case JsonValue(_) => JsonComesBack(printer, parser, scope, item.value, item.index);
    case LangString(_, _, _) =>
      if !WritesBareString(scope, item.value, item.index) {
        LangStringObject(printer, parser, scope, item.value, item.index);
      }
  }

  lemma TripIs<E>(printer: Printer<E>, parser: Parser, scope: Scope, keys: Keys, item: Item)
    requires Readable(printer, parser, keys, item) && IsIndexTerm(scope) && scope.Type() != Some(JsonType)
    ensures Trip(printer, parser, scope, keys, item) == WithKey(keys, IndexKey(keys, item), ReadAs(scope, item))
  {
    ReadsAsThat(printer, parser, scope, keys, item);
  }

  lemma ValueStaysExactlyWhen(scope: Scope, item: Item)
    requires Valid(item.value) && IsIndexTerm(scope) && scope.Type() != Some(JsonType)
    ensures ReadAs(scope, item) == Read(item.value, None)
        <==> Survives(scope, item.value, item.index) && TagIsSpelledSo(scope, item)
    ensures ReadAs(scope, item).Read? ==> ReadAs(scope, item).index.None?
  {
    InForce(scope);
  }

  lemma TripExactlyWhen<E>(printer: Printer<E>, parser: Parser, scope: Scope, keys: Keys, item: Item)
    requires Readable(printer, parser, keys, item) && IsIndexTerm(scope) && scope.Type() != Some(JsonType)
    ensures Trip(printer, parser, scope, keys, item) == AsRead(item) <==> Stays(scope, keys, item)
  {
    TripIs(printer, parser, scope, keys, item);
    ValueStaysExactlyWhen(scope, item);
  }

  /** A tag spelled "@none" does not come out of a trip, unless it is the one in force. */
  lemma NoneTagIsInForce(scope: Scope, keys: Keys, item: Item, back: Item)
    requires IsIndexTerm(scope) && scope.Type() != Some(JsonType) && Valid(item.value)
    requires WithKey(keys, IndexKey(keys, item), ReadAs(scope, item)) == AsRead(back)
    requires back.value.LangString? && !MayBeBare(scope, back.value, back.index)
    ensures back.value.language != Some("@none")
  {
    InForce(scope);
  }

  /** A trip that drops no such tag gives a value that stays. */
  lemma BackStays(scope: Scope, keys: Keys, item: Item, back: Item)
    requires IsIndexTerm(scope) && scope.Type() != Some(JsonType)
    requires Valid(item.value) && keys.expandsToNone(keys.noneAlias)
    requires WithKey(keys, IndexKey(keys, item), ReadAs(scope, item)) == AsRead(back)
    requires item.value.LangString? && !MayBeBare(scope, item.value, item.index) ==>
      item.value.language != Some("@none")
    ensures Stays(scope, keys, back)
  {
    InForce(scope);
  }

  /** What a value comes back as after two trips comes back from a third. */
  lemma {:induction false} ThirdTrip<E>(printer: Printer<E>, parser: Parser, scope: Scope, keys: Keys, first: Item,
      second: Item, third: Item)
    requires IsIndexTerm(scope) && scope.Type() != Some(JsonType)
    requires Readable(printer, parser, keys, first) && Readable(printer, parser, keys, second)
    requires Trip(printer, parser, scope, keys, first) == AsRead(second)
    requires Trip(printer, parser, scope, keys, second) == AsRead(third)
    ensures Stays(scope, keys, third)
  {
    TripIs(printer, parser, scope, keys, first);
    TripIs(printer, parser, scope, keys, second);
    if second.value.LangString? && !MayBeBare(scope, second.value, second.index) {
      NoneTagIsInForce(scope, keys, first, second);
    }
    BackStays(scope, keys, second, third);
  }

  function Trips<E>(printer: Printer<E>, parser: Parser, scope: Scope, keys: Keys, items: seq<Item>):
      (r: seq<ReadBack>)
    ensures |r| == |items|
  {
    seq(|items|, i requires 0 <= i < |items| => Trip(printer, parser, scope, keys, items[i]))
  }

  ghost predicate AllReadable<E>(printer: Printer<E>, parser: Parser, keys: Keys, items: seq<Item>) {
    forall i :: 0 <= i < |items| ==> Readable(printer, parser, keys, items[i])
  }

  lemma FoundIn(all: seq<ReadBack>, x: ReadBack) returns (i: nat)
    requires x in multiset(all)
    ensures i < |all| && all[i] == x
  {
    i :| 0 <= i < |all| && all[i] == x;
  }

  /** A sequence comes back as the same multiset only if each of its values comes back as it is. */
  lemma {:induction false} SameOnlyIfAllStay<E>(printer: Printer<E>, parser: Parser, scope: Scope, keys: Keys,
      items: seq<Item>, i: nat)
    requires AllReadable(printer, parser, keys, items) && IsIndexTerm(scope) && scope.Type() != Some(JsonType)
    requires KeptReads(multiset(Trips(printer, parser, scope, keys, items))) == multiset(AllAsRead(items))
    requires i < |items|
    ensures Stays(scope, keys, items[i])
  {
    var trips, all := Trips(printer, parser, scope, keys, items), AllAsRead(items);
    assert all[i] in multiset(all);
    var j := FoundIn(trips, all[i]);
    assert all[j] in multiset(all);
    var k := FoundIn(trips, all[j]);
    ThirdTrip(printer, parser, scope, keys, items[k], items[j], items[i]);
  }

  lemma {:induction false} SameWhenAllStay<E>(printer: Printer<E>, parser: Parser, scope: Scope, keys: Keys,
      items: seq<Item>)
    requires AllReadable(printer, parser, keys, items) && IsIndexTerm(scope) && scope.Type() != Some(JsonType)
    requires forall i :: 0 <= i < |items| ==> Stays(scope, keys, items[i])
    ensures KeptReads(multiset(Trips(printer, parser, scope, keys, items))) == multiset(AllAsRead(items))
  {
    var trips, all := Trips(printer, parser, scope, keys, items), AllAsRead(items);
    forall i | 0 <= i < |items| ensures trips[i] == all[i] {
      TripExactlyWhen(printer, parser, scope, keys, items[i]);
    }
    assert trips == all;
    assert Dropped !in multiset(all);
  }

  /** What is read of the term, its map in the order `order`, is the items, as often. */
  ghost predicate MapComesBack<E>(printer: Printer<E>, parser: Parser, scope: Scope, keys: Keys,
      entries: seq<J.Entry>, term: string, items: seq<Item>, asArray: bool, order: seq<J.Entry>)
    requires WrittenAll(printer, scope, items).Ok? && |WrittenAll(printer, scope, items).value| == |items|
  {
    var stored := Lookup(MapStored(entries, term, PairsOf(keys, items, WrittenAll(printer, scope, items).value),
                                   asArray), term);
    stored.Some? && multiset(ReadTerm(parser, scope, keys, stored.value, order)) == multiset(AllAsRead(items))
  }

  /** `order` is some order of the entries of the map under the term, if there is one. */
  predicate IsOrderOf(json: J.Value, order: seq<J.Entry>) {
    json.Object? ==> multiset(order) == multiset(json.entries)
  }

  lemma {:induction false} MapUnder(entries: seq<J.Entry>, term: string, pairs: seq<Pair>, asArray: bool)
    requires J.DistinctKeys(entries) && Lookup(entries, term).None?
    ensures Lookup(MapStored(entries, term, pairs, asArray), term)
         == Some(if pairs == [] then J.Array([]) else J.Object(AddedPairs([], pairs, asArray)))
  {
    InsertKeepsOthers(entries, term, if pairs == [] then J.Array([]) else J.Object(AddedPairs([], pairs, asArray)));
  }

  lemma {:induction false} OtherMapComesBack<E>(printer: Printer<E>, parser: Parser, scope: Scope, keys: Keys,
      entries: seq<J.Entry>, term: string, items: seq<Item>, asArray: bool, order: seq<J.Entry>)
    requires J.DistinctKeys(entries) && Lookup(entries, term).None?
    requires AllReadable(printer, parser, keys, items) && IsIndexTerm(scope) && scope.Type() != Some(JsonType)
    requires WrittenAll(printer, scope, items).Ok? && |WrittenAll(printer, scope, items).value| == |items|
    requires forall i :: 0 <= i < |items| ==>
      Compacted(printer, scope, items[i].value, items[i].index) == Ok(WrittenAll(printer, scope, items).value[i])
    requires items != [] ==>
      multiset(order)
      == multiset(AddedPairs([], PairsOf(keys, items, WrittenAll(printer, scope, items).value), asArray))
    ensures MapComesBack(printer, parser, scope, keys, entries, term, items, asArray, order)
        <==> KeptReads(multiset(Trips(printer, parser, scope, keys, items))) == multiset(AllAsRead(items))
  {
    var written := WrittenAll(printer, scope, items).value;
    var pairs := PairsOf(keys, items, written);
    MapUnder(entries, term, pairs, asArray);
    forall i | 0 <= i < |items| ensures !written[i].Array? {
      ReadsAsThat(printer, parser, scope, keys, items[i]);
    }
    if items != [] {
      BuiltMapRead(parser, scope, keys, pairs, asArray, order);
      assert Mapped(PairReader(parser, scope, keys), pairs) == Trips(printer, parser, scope, keys, items);
    } else {
      assert ReadAllItems(parser, scope, []) == [];
    }
  }

  /** Under a `@json` term the map is read as it is: one JSON value, which no item is. */
  lemma {:induction false} JsonMapNeverComesBack<E>(printer: Printer<E>, parser: Parser, scope: Scope, keys: Keys,
      entries: seq<J.Entry>, term: string, items: seq<Item>, asArray: bool, order: seq<J.Entry>)
    requires J.DistinctKeys(entries) && Lookup(entries, term).None? && scope.Type() == Some(JsonType)
    requires IsIndexTerm(scope)
    requires WrittenAll(printer, scope, items).Ok? && |WrittenAll(printer, scope, items).value| == |items|
    ensures !MapComesBack(printer, parser, scope, keys, entries, term, items, asArray, order)
  {
    var written := WrittenAll(printer, scope, items).value;
    var pairs := PairsOf(keys, items, written);
    MapUnder(entries, term, pairs, asArray);
    var json := Lookup(MapStored(entries, term, pairs, asArray), term).value;
    if MapComesBack(printer, parser, scope, keys, entries, term, items, asArray, order) {
      assert |multiset(AllAsRead(items))| == |items|;
      assert |multiset([Read(JsonValue(json), None)])| == 1;
      assert AllAsRead(items)[0] in multiset([Read(JsonValue(json), None)]);
      assert items == [Item(JsonValue(json), None)];
      assert items[..0] == [];
      WrittenNext(printer, scope, items, 0);
      assert items[..1] == items;
      assert written == [json] && pairs == [Pair(keys.noneAlias, json)];
      MapHolds(json, keys.noneAlias, asArray);
    }
  }

  /** A map with a value in it is not that value. */
  lemma {:induction false} MapHolds(json: J.Value, key: string, asArray: bool)
    requires json.Object?
    ensures J.Object(AddedPairs([], [Pair(key, json)], asArray)) != json
  {
    assert [Pair(key, json)][..|[Pair(key, json)]| - 1] == [];
    assert AddedPairs([], [], asArray) == [];
    assert Lookup([], key).None? && Position([], key) == 0;
    var map1 := AddedPairs([], [Pair(key, json)], asArray);
    assert map1 == [J.Entry(key, if asArray then J.Array([json]) else json)];
    assert map1[0].value < J.Object(map1);
    if asArray { assert map1[0].value.items[0] < map1[0].value; }
  }

  /**
   Values go through an index map and come back, with their indices and as often, exactly when the term is no
   `@json` term and each survives, has an index that does not mean `@none`, or none, and has a tag that is
   spelled as the one in force when that is left to say it.
   */
  lemma MapComesBackExactlyWhen<E>(printer: Printer<E>, parser: Parser, scope: Scope, keys: Keys,
      entries: seq<J.Entry>, term: string, items: seq<Item>, asArray: bool, order: seq<J.Entry>)
    requires J.DistinctKeys(entries) && Lookup(entries, term).None? && IsIndexTerm(scope)
    requires AllReadable(printer, parser, keys, items)
    requires WrittenAll(printer, scope, items).Ok? && |WrittenAll(printer, scope, items).value| == |items|
    requires var stored := Lookup(MapStored(entries, term,
        PairsOf(keys, items, WrittenAll(printer, scope, items).value), asArray), term);
      stored.Some? && IsOrderOf(stored.value, order)
    ensures MapComesBack(printer, parser, scope, keys, entries, term, items, asArray, order) <==>
            && scope.Type() != Some(JsonType)
            && forall i :: 0 <= i < |items| ==> Stays(scope, keys, items[i])
  {
    if scope.Type() == Some(JsonType) {
      JsonMapNeverComesBack(printer, parser, scope, keys, entries, term, items, asArray, order);
    } else {
      forall i | 0 <= i < |items| ensures Compacted(printer, scope, items[i].value, items[i].index).Ok? {
        ReadsAsThat(printer, parser, scope, keys, items[i]);
      }
      WrittenIs(printer, scope, items);
      MapUnder(entries, term, PairsOf(keys, items, WrittenAll(printer, scope, items).value), asArray);
      OtherMapComesBack(printer, parser, scope, keys, entries, term, items, asArray, order);
      if KeptReads(multiset(Trips(printer, parser, scope, keys, items))) == multiset(AllAsRead(items)) {
        forall i | 0 <= i < |items| ensures Stays(scope, keys, items[i]) {
          SameOnlyIfAllStay(printer, parser, scope, keys, items, i);
        }
      }
      if forall i :: 0 <= i < |items| ==> Stays(scope, keys, items[i]) {
        SameWhenAllStay(printer, parser, scope, keys, items);
      }
    }
  }
}
