/**
 Adding values to the object that compaction is building (jsonld-compaction/src/lib.rs:478-523),
 and routing a run of compacted items to their terms (jsonld-compaction/src/property.rs:443-756).
 */
module AddValue {
  import opened Wrappers
  import opened Json

  /** The position of a key, or the number of entries. */
  function Position(entries: seq<Entry>, key: string): (i: nat)
    ensures i <= |entries|
    ensures i < |entries| ==> entries[i].key == key
    ensures forall j :: 0 <= j < i ==> entries[j].key != key
  {
    if entries == [] || entries[0].key == key then 0 else 1 + Position(entries[1..], key)
  }

  function Lookup(entries: seq<Entry>, key: string): Option<Value> {
    var i := Position(entries, key);
    if i < |entries| then Some(entries[i].value) else None
  }

  predicate HasArray(entries: seq<Entry>, key: string) {
    Lookup(entries, key).Some? && Lookup(entries, key).value.Array?
  }

  /** The values under a key. */
  function Items(entries: seq<Entry>, key: string): seq<Value> {
    var found := Lookup(entries, key);
    if found.Some? then ForceArray(found.value) else []
  }

  /** The values in a value once arrays, at any depth, are opened. */
  function Flatten(value: Value): seq<Value>
    decreases value
  {
    if value.Array? then FlattenAll(value.items) else [value]
  }

  function FlattenAll(values: seq<Value>): seq<Value>
    decreases values
  {
    if values == [] then [] else FlattenAll(values[..|values| - 1]) + Flatten(values[|values| - 1])
  }

  // ----- adding a value, as a function of the entries

  function Insert(entries: seq<Entry>, key: string, value: Value): seq<Entry> {
    var i := Position(entries, key);
    if i < |entries| then entries[i := Entry(key, value)] else entries + [Entry(key, value)]
  }

  function AddedScalar(entries: seq<Entry>, key: string, value: Value, asArray: bool): seq<Entry> {
    match Lookup(entries, key)
    case Some(existing) => Insert(entries, key, Array(ForceArray(existing) + [value]))
    case None => Insert(entries, key, if asArray then Array([value]) else value)
  }

  /** The shape an entry is given before the elements of an array are added to it. */
  function Shaped(entries: seq<Entry>, key: string, asArray: bool): seq<Entry> {
    match Lookup(entries, key)
    case Some(existing) => if existing.Array? then entries else Insert(entries, key, Array([existing]))
    case None => if asArray then Insert(entries, key, Array([])) else entries
  }

  function Added(entries: seq<Entry>, key: string, value: Value, asArray: bool): seq<Entry>
    decreases value
  {
    if value.Array? then AddedAll(Shaped(entries, key, asArray), key, value.items)
        else AddedScalar(entries, key, value, asArray)
  }

  function AddedAll(entries: seq<Entry>, key: string, values: seq<Value>): seq<Entry>
    decreases values
  {
    if values == [] then entries else Added(AddedAll(entries, key, values[..|values| - 1]), key, values[|values| - 1],
        false)
  }

  // ----- what an insertion does to the rest of the object

  lemma {:induction false} PositionAt(entries: seq<Entry>, i: nat)
    requires DistinctKeys(entries) && i < |entries|
    ensures Position(entries, entries[i].key) == i
  {
  }

  /** An object is its keys, in order, and what is under each. */
  ghost predicate KeepsOthers(entries: seq<Entry>, after: seq<Entry>, key: string) {
    && DistinctKeys(after)
    && (forall other :: other != key ==> Lookup(after, other) == Lookup(entries, other))
    && |entries| <= |after| <= |entries| + 1
    && (forall i :: 0 <= i < |entries| ==> after[i].key == entries[i].key)
    && (|after| > |entries| ==> after[|entries|].key == key)
  }

  lemma InsertKeepsOthers(entries: seq<Entry>, key: string, value: Value)
    requires DistinctKeys(entries)
    ensures KeepsOthers(entries, Insert(entries, key, value), key)
    ensures Lookup(Insert(entries, key, value), key) == Some(value)
  {
    var after := Insert(entries, key, value);
    var at := Position(entries, key);
    PositionAt(after, at);
    forall other | other != key ensures Lookup(after, other) == Lookup(entries, other) {
      var i := Position(entries, other);
      if i < |entries| {
        assert after[i] == entries[i];
        PositionAt(after, i);
      }
    }
  }

  lemma KeepsOthersTwice(a: seq<Entry>, b: seq<Entry>, c: seq<Entry>, key: string)
    requires KeepsOthers(a, b, key) && KeepsOthers(b, c, key)
    ensures KeepsOthers(a, c, key)
  {
    if |c| > |a| && |b| > |a| {
      assert c[|a|].key == b[|a|].key;
    }
  }

  // ----- conservation

  /** No value is lost or made up, other entries stay, and an array that was asked for is there. */
  lemma {:induction false} AddedConserves(entries: seq<Entry>, key: string, value: Value, asArray: bool)
    requires DistinctKeys(entries)
    ensures KeepsOthers(entries, Added(entries, key, value, asArray), key)
    ensures Items(Added(entries, key, value, asArray), key) == Items(entries, key) + Flatten(value)
    ensures asArray || HasArray(entries, key) || (Lookup(entries, key).Some? && value.Array?)
        ==> HasArray(Added(entries, key, value, asArray), key)
    decreases value
  {
    if value.Array? {
      ShapedConserves(entries, key, asArray);
      var shaped := Shaped(entries, key, asArray);
      AddedAllConserves(shaped, key, value.items);
      KeepsOthersTwice(entries, shaped, Added(entries, key, value, asArray), key);
    } else {
      var found := Lookup(entries, key);
      InsertKeepsOthers(entries, key, if found.Some? then Array(ForceArray(found.value) + [value]) else if asArray
          then Array([value]) else value);
    }
  }

  lemma Regrouped(a: seq<Value>, b: seq<Value>, c: seq<Value>)
    ensures (a + b) + c == a + (b + c)
  {
  }

  lemma ShapedConserves(entries: seq<Entry>, key: string, asArray: bool)
    requires DistinctKeys(entries)
    ensures KeepsOthers(entries, Shaped(entries, key, asArray), key)
    ensures Items(Shaped(entries, key, asArray), key) == Items(entries, key)
    ensures asArray || Lookup(entries, key).Some? ==> HasArray(Shaped(entries, key, asArray), key)
  {
    var found := Lookup(entries, key);
    if found.Some? && !found.value.Array? {
      InsertKeepsOthers(entries, key, Array([found.value]));
    } else if found.None? && asArray {
      InsertKeepsOthers(entries, key, Array([]));
    }
  }

  lemma {:induction false} AddedAllConserves(entries: seq<Entry>, key: string, values: seq<Value>)
    requires DistinctKeys(entries)
    ensures KeepsOthers(entries, AddedAll(entries, key, values), key)
    ensures Items(AddedAll(entries, key, values), key) == Items(entries, key) + FlattenAll(values)
    ensures HasArray(entries, key) ==> HasArray(AddedAll(entries, key, values), key)
    decreases values
  {
    if values != [] {
      var init, last := values[..|values| - 1], values[|values| - 1];
      var before := AddedAll(entries, key, init);
      AddedAllConserves(entries, key, init);
      AddedConserves(before, key, last, false);
      KeepsOthersTwice(entries, before, AddedAll(entries, key, values), key);
      Regrouped(Items(entries, key), FlattenAll(init), Flatten(last));
    }
  }

  // ----- the object as it is built

  class JsonObject {
    var entries: seq<Entry>

    constructor ()
      ensures entries == []
    {
      entries := [];
    }

    method Put(key: string, value: Value)
      modifies this
      ensures entries == Insert(old(entries), key, value)
    {
      var i := Position(entries, key);
      if i < |entries| {
        entries := entries[i := Entry(key, value)];
      } else {
        entries := entries + [Entry(key, value)];
      }
    }

    method Add(key: string, value: Value, asArray: bool)
      requires DistinctKeys(entries)
      modifies this
      ensures entries == Added(old(entries), key, value, asArray)
      ensures DistinctKeys(entries)
      decreases value
    {
      AddedConserves(entries, key, value, asArray);
      match value
      case Array(values) =>
        ShapedConserves(entries, key, asArray);
        var existing := Lookup(entries, key);
        if existing.Some? && !existing.value.Array? {
          Put(key, Array([existing.value]));
        } else if existing.None? && asArray {
          Put(key, Array([]));
        }
        ghost var shaped := entries;
        for i := 0 to |values|
          invariant DistinctKeys(entries) && entries == AddedAll(shaped, key, values[..i])
        {
          assert values[..i + 1][..i] == values[..i];
          Add(key, values[i], false);
        }
        assert values[..|values|] == values;
      case _ => AddScalar(key, value, asArray);
    }

    method AddScalar(key: string, value: Value, asArray: bool)
      modifies this
      ensures entries == AddedScalar(old(entries), key, value, asArray)
    {
      var existing := Lookup(entries, key);
      if existing.Some? {
        if existing.value.Array? {
          Put(key, Array(existing.value.items + [value]));
        } else {
          assert [existing.value, value] == ForceArray(existing.value) + [value];
          Put(key, Array([existing.value, value]));
        }
      } else if asArray {
        Put(key, Array([value]));
      } else {
        Put(key, value);
      }
    }
  }

  // ----- a run of compacted items

  /** A compacted item and the term it was routed to; the term may differ from item to item. */
  datatype Routed = Routed(key: string, item: Value, asArray: bool)

  /** What a run routes to a key, in order. */
  function RoutedTo(run: seq<Routed>, key: string): seq<Value> {
    if run == [] then []
    else
      var last := run[|run| - 1];
      RoutedTo(run[..|run| - 1], key) + (if last.key == key then Flatten(last.item) else [])
  }

  function AfterRun(entries: seq<Entry>, run: seq<Routed>): seq<Entry> {
    if run == [] then entries
    else
      var last := run[|run| - 1];
      Added(AfterRun(entries, run[..|run| - 1]), last.key, last.item, last.asArray)
  }

  lemma {:induction false} RunConserves(entries: seq<Entry>, run: seq<Routed>, key: string)
    requires DistinctKeys(entries)
    ensures DistinctKeys(AfterRun(entries, run))
    ensures Items(AfterRun(entries, run), key) == Items(entries, key) + RoutedTo(run, key)
  {
    if run != [] {
      var last := run[|run| - 1];
      RunConserves(entries, run[..|run| - 1], key);
      AddedConserves(AfterRun(entries, run[..|run| - 1]), last.key, last.item, last.asArray);
      Regrouped(Items(entries, key), RoutedTo(run[..|run| - 1], key), if last.key == key then Flatten(last.item)
          else []);
    }
  }

  /**
   Every term holds exactly what it held before, followed by the items routed to it, in order;
   a property without values leaves an empty array.
   */
  method CompactPlain(nestResult: JsonObject, run: seq<Routed>, emptyKey: string)
    requires DistinctKeys(nestResult.entries)
    modifies nestResult
    ensures DistinctKeys(nestResult.entries)
    ensures forall key :: Items(nestResult.entries, key) == Items(old(nestResult.entries), key) + RoutedTo(run, key)
    ensures run == [] ==> HasArray(nestResult.entries, emptyKey)
  {
    for i := 0 to |run|
      invariant DistinctKeys(nestResult.entries) && nestResult.entries == AfterRun(old(nestResult.entries), run[..i])
    {
      assert run[..i + 1][..i] == run[..i];
      nestResult.Add(run[i].key, run[i].item, run[i].asArray);
    }
    assert run[..|run|] == run;
    forall key ensures Items(nestResult.entries, key) == Items(old(nestResult.entries), key) + RoutedTo(run, key) {
      RunConserves(old(nestResult.entries), run, key);
    }
    if run == [] {
      ghost var before := nestResult.entries;
      AddedConserves(before, emptyKey, Array([]), true);
      nestResult.Add(emptyKey, Array([]), true);
      forall key ensures Items(nestResult.entries, key) == Items(before, key) {}
    }
  }
}
