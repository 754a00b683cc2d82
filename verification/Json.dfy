/** JSON values as the parser keeps them: objects are sequences of entries, so a key may occur twice. */
module Json {
  import opened Wrappers

  datatype Value =
    | Null
    | Boolean(b: bool)
    | Number(lexical: string)
    | Str(s: string)
    | Array(items: seq<Value>)
    | Object(entries: seq<Entry>)

  datatype Entry = Entry(key: string, value: Value)

  datatype DuplicateKey = DuplicateKey(key: string)

  /** The items of an array, or anything else as the one item. */
  function ForceArray(value: Value): seq<Value>
  {
    if value.Array? then value.items else [value]
  }

  /** The value of a key that must not occur twice. */
  function GetUnique(entries: seq<Entry>, key: string): Result<Option<Value>, DuplicateKey>
  {
    if entries == [] then Ok(None)
    else
      match GetUnique(entries[1..], key)
      case Err(e) => Err(e)
      case Ok(None) => Ok(if entries[0].key == key then Some(entries[0].value) else None)
      case Ok(Some(v)) => if entries[0].key == key then Err(DuplicateKey(key)) else Ok(Some(v))
  }

  predicate DistinctKeys(entries: seq<Entry>)
  {
    forall i, j :: 0 <= i < j < |entries| ==> entries[i].key != entries[j].key
  }

  function KeySet(entries: seq<Entry>): set<string>
  {
    set i | 0 <= i < |entries| :: entries[i].key
  }

  lemma KeySetCons(entries: seq<Entry>)
    requires entries != []
    ensures KeySet(entries) == {entries[0].key} + KeySet(entries[1..])
  {
    assert entries == [entries[0]] + entries[1..];
    forall k | k in KeySet(entries[1..]) ensures k in KeySet(entries) {
      var i :| 0 <= i < |entries[1..]| && entries[1..][i].key == k;
      assert entries[i + 1].key == k;
    }
  }

  /** There are as many keys as entries exactly when no key occurs twice. */
  lemma {:induction false} DistinctByCount(entries: seq<Entry>)
    ensures |KeySet(entries)| <= |entries|
    ensures DistinctKeys(entries) <==> |KeySet(entries)| == |entries|
  {
    if entries != [] {
      var rest := entries[1..];
      KeySetCons(entries);
      DistinctByCount(rest);
      if entries[0].key in KeySet(rest) {
        var i :| 0 <= i < |rest| && rest[i].key == entries[0].key;
        assert entries[i + 1].key == entries[0].key;
        assert KeySet(entries) == KeySet(rest);
      } else {
        assert |KeySet(entries)| == 1 + |KeySet(rest)|;
        assert forall i :: 0 <= i < |rest| ==> rest[i] == entries[i + 1];
        if DistinctKeys(rest) {
          forall i, j | 0 <= i < j < |entries| ensures entries[i].key != entries[j].key {
            assert rest[j - 1].key in KeySet(rest);
            if i > 0 { assert rest[i - 1].key != rest[j - 1].key; }
          }
        }
        if DistinctKeys(entries) {
          forall i, j | 0 <= i < j < |rest| ensures rest[i].key != rest[j].key {
            assert entries[i + 1].key != entries[j + 1].key;
          }
        }
      }
    }
  }

  /** A key is found when it occurs, and its one value is returned when it occurs once. */
  lemma {:induction false} GetUniqueFinds(entries: seq<Entry>, key: string)
    ensures GetUnique(entries, key) == Ok(None) <==> key !in KeySet(entries)
    ensures GetUnique(entries, key).Ok? && GetUnique(entries, key).value.Some?
        ==> Entry(key, GetUnique(entries, key).value.value) in entries
  {
    if entries != [] {
      KeySetCons(entries);
      GetUniqueFinds(entries[1..], key);
    }
  }

  lemma {:induction false} GetUniqueAt(entries: seq<Entry>, i: nat)
    requires i < |entries| && DistinctKeys(entries)
    ensures GetUnique(entries, entries[i].key) == Ok(Some(entries[i].value))
  {
    var rest := entries[1..];
    assert forall k :: 0 <= k < |rest| ==> rest[k] == entries[k + 1];
    GetUniqueFinds(rest, entries[i].key);
    if i == 0 {
      assert entries[0].key !in KeySet(rest);
    } else {
      assert DistinctKeys(rest);
      GetUniqueAt(rest, i - 1);
    }
  }
}
