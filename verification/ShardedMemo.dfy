/**
 The memo map split into independently locked shards (jsonld-core/src/context/memo.rs),
 and IRI compaction memoised through it (jsonld-compaction/src/iri.rs:148-170).
 */
module ShardedMemo {
  import opened Wrappers

  const SHARDS := 16
  const ENTRIES_PER_SHARD := 256
  const MAX_ENTRIES := ENTRIES_PER_SHARD * SHARDS

  type Hash = h: nat | h < 0x1_0000_0000_0000_0000

  /** The four bits below the top twelve pick the shard. */
  function ShardIndex(hash: Hash): (i: nat)
    ensures i < SHARDS
  {
    hash / 0x1_0000_0000_0000 % SHARDS
  }

  type Shard<K, V> = seq<(K, V)>

  // ----- one shard

  function Find<K(==), V>(shard: Shard<K, V>, key: K): (i: nat)
    ensures i <= |shard|
    ensures i < |shard| ==> shard[i].0 == key
    ensures forall j :: 0 <= j < i ==> shard[j].0 != key
  {
    if shard == [] || shard[0].0 == key then 0 else 1 + Find(shard[1..], key)
  }

  function Lookup<K(==), V>(shard: Shard<K, V>, key: K): Option<V> {
    var i := Find(shard, key);
    if i < |shard| then Some(shard[i].1) else None
  }

  function Store<K(==), V>(shard: Shard<K, V>, key: K, value: V): Shard<K, V> {
    var i := Find(shard, key);
    if i < |shard| then shard[i := (key, value)]
    else if |shard| >= ENTRIES_PER_SHARD then [(key, value)]
    else shard + [(key, value)]
  }

  predicate Distinct<K(==), V>(shard: Shard<K, V>) {
    forall i, j :: 0 <= i < j < |shard| ==> shard[i].0 != shard[j].0
  }

  lemma LookupAt<K, V>(shard: Shard<K, V>, i: nat)
    requires i < |shard| && Distinct(shard)
    ensures Lookup(shard, shard[i].0) == Some(shard[i].1)
  {
  }

  /** A store keeps keys distinct and the bound, and what it does to every key. */
  lemma StoreKeeps<K, V>(shard: Shard<K, V>, key: K, value: V)
    requires Distinct(shard) && |shard| <= ENTRIES_PER_SHARD
    ensures Distinct(Store(shard, key, value)) && |Store(shard, key, value)| <= ENTRIES_PER_SHARD
    ensures Lookup(Store(shard, key, value), key) == Some(value)
    ensures forall entry ::
              entry in Store(shard, key, value) ==> entry == (key, value) || (entry in shard && entry.0 != key)
  {
    var i := Find(shard, key);
    var stored := Store(shard, key, value);
    var at := if i < |shard| then i else |stored| - 1;
    LookupAt(stored, at);
  }

  /** Other keys of the shard keep their values, unless the shard was full and the key is new. */
  lemma StoreOthers<K, V>(shard: Shard<K, V>, key: K, value: V, other: K)
    requires Distinct(shard) && other != key
    ensures Lookup(Store(shard, key, value), other)
         == if Lookup(shard, key).None? && |shard| >= ENTRIES_PER_SHARD then None else Lookup(shard, other)
  {
    var stored := Store(shard, key, value);
    if Lookup(shard, key).Some? || |shard| < ENTRIES_PER_SHARD {
      var k := Find(shard, other);
      if k < |shard| {
        assert stored[k] == shard[k];
      }
    }
  }

  // ----- the shards

  datatype Memo<K, V> = Memo(shards: Option<seq<Shard<K, V>>>)

  /** Every key lies once in the shard its hash picks, and no shard is over its bound. */
  ghost predicate Placed<K(!new), V>(memo: Memo<K, V>, hash: K -> Hash) {
    memo.shards.Some? ==>
      && |memo.shards.value| == SHARDS
      && forall s :: 0 <= s < SHARDS ==> ShardPlaced(memo.shards.value[s], hash, s)
  }

  ghost predicate ShardPlaced<K(!new), V>(shard: Shard<K, V>, hash: K -> Hash, s: nat) {
    && Distinct(shard)
    && |shard| <= ENTRIES_PER_SHARD
    && forall i :: 0 <= i < |shard| ==> ShardIndex(hash(shard[i].0)) == s
  }

  function Get<K(==), V>(memo: Memo<K, V>, hash: K -> Hash, key: K): Option<V>
  {
    if memo.shards.None? || |memo.shards.value| != SHARDS then None
    else Lookup(memo.shards.value[ShardIndex(hash(key))], key)
  }

  function Shards<K, V>(memo: Memo<K, V>): seq<Shard<K, V>> {
    if memo.shards.Some? then memo.shards.value else seq(SHARDS, _ => [])
  }

  function Insert<K(==), V>(memo: Memo<K, V>, hash: K -> Hash, key: K, value: V): Memo<K, V>
    requires |Shards(memo)| == SHARDS
  {
    var shards := Shards(memo);
    var s := ShardIndex(hash(key));
    Memo(Some(shards[s := Store(shards[s], key, value)]))
  }

  /** What an insert leaves under every key. */
  lemma InsertKeeps<K(!new), V>(memo: Memo<K, V>, hash: K -> Hash, key: K, value: V, other: K)
    requires Placed(memo, hash)
    ensures Placed(Insert(memo, hash, key, value), hash)
    ensures Get(Insert(memo, hash, key, value), hash, key) == Some(value)
    ensures other != key ==>
      Get(Insert(memo, hash, key, value), hash, other)
      == (var s := ShardIndex(hash(key));
          if ShardIndex(hash(other)) == s && Get(memo, hash, key).None? && |Shards(memo)[s]| >= ENTRIES_PER_SHARD
          then None else Get(memo, hash, other))
  {
    var shards := Shards(memo);
    var s := ShardIndex(hash(key));
    assert ShardPlaced(shards[s], hash, s);
    StoreKeeps(shards[s], key, value);
    var stored := Store(shards[s], key, value);
    forall i | 0 <= i < |stored| ensures ShardIndex(hash(stored[i].0)) == s {
      assert stored[i] in stored;
      if stored[i] in shards[s] {
        var k :| 0 <= k < |shards[s]| && shards[s][k] == stored[i];
      }
    }
    if other != key { StoreOthers(shards[s], key, value, other); }
  }

  function Total<K, V>(shards: seq<Shard<K, V>>): nat {
    if shards == [] then 0 else |shards[|shards| - 1]| + Total(shards[..|shards| - 1])
  }

  lemma {:induction false} TotalBounded<K, V>(shards: seq<Shard<K, V>>)
    requires forall s :: 0 <= s < |shards| ==> |shards[s]| <= ENTRIES_PER_SHARD
    ensures Total(shards) <= ENTRIES_PER_SHARD * |shards|
  {
    if shards != [] {
      TotalBounded(shards[..|shards| - 1]);
    }
  }

  class ShardedMemo<K(==, !new), V(!new)> {
    var memo: Memo<K, V>
    const hash: K -> Hash

    ghost predicate Valid()
      reads this
    {
      Placed(memo, hash)
    }

    constructor (hash: K -> Hash)
      ensures Valid() && this.hash == hash && forall key :: Get(memo, hash, key) == None
    {
      this.hash := hash;
      memo := Memo(None);
    }

    method GetKey(key: K) returns (r: Option<V>)
      requires Valid()
      ensures r == Get(memo, hash, key)
    {
      if memo.shards.None? { return None; }
      var shard := memo.shards.value[ShardIndex(hash(key))];
      var i := 0;
      while i < |shard|
        invariant 0 <= i <= |shard|
        invariant forall j :: 0 <= j < i ==> shard[j].0 != key
      {
        if shard[i].0 == key { return Some(shard[i].1); }
        i := i + 1;
      }
      r := None;
    }

    method InsertKey(key: K, value: V)
      requires Valid()
      modifies this
      ensures Valid() && memo == Insert(old(memo), hash, key, value)
    {
      InsertKeeps(memo, hash, key, value, key);
      var shards := if memo.shards.Some? then memo.shards.value else seq(SHARDS, _ => []);
      var s := ShardIndex(hash(key));
      var i := Find(shards[s], key);
      if i < |shards[s]| {
        memo := Memo(Some(shards[s := shards[s][i := (key, value)]]));
      } else {
        ghost var before := shards;
        if |shards[s]| >= ENTRIES_PER_SHARD {
          shards := shards[s := []];
        }
        shards := shards[s := shards[s] + [(key, value)]];
        assert shards[s] == Store(before[s], key, value);
        assert shards == before[s := Store(before[s], key, value)];
        memo := Memo(Some(shards));
      }
    }

    method Len() returns (n: nat)
      requires Valid()
      ensures n == if memo.shards.Some? then Total(memo.shards.value) else 0
      ensures n <= MAX_ENTRIES
    {
      n := 0;
      if memo.shards.Some? {
        var shards := memo.shards.value;
        for i := 0 to |shards|
          invariant n == Total(shards[..i])
        {
          assert shards[..i + 1][..i] == shards[..i];
          n := n + |shards[i]|;
        }
        assert shards[..|shards|] == shards;
        forall s | 0 <= s < |shards| ensures |shards[s]| <= ENTRIES_PER_SHARD {
          assert ShardPlaced(shards[s], hash, s);
        }
        TotalBounded(shards);
      }
    }
  }

  // ----- a memo of a function

  /** Whatever is memoised is what the function gives. */
  ghost predicate Memoises<K(!new), V(!new), E(!new)>(memo: Memo<K, V>, hash: K -> Hash, f: K -> Result<V, E>) {
    forall key, v :: Get(memo, hash, key) == Some(v) ==> f(key) == Ok(v)
  }

  lemma InsertMemoises<K(!new), V(!new),
      E(!new)>(memo: Memo<K, V>, hash: K -> Hash, f: K -> Result<V, E>, key: K, value: V)
    requires Placed(memo, hash) && Memoises(memo, hash, f) && f(key) == Ok(value)
    ensures Placed(Insert(memo, hash, key, value), hash) && Memoises(Insert(memo, hash, key, value), hash, f)
  {
    InsertKeeps(memo, hash, key, value, key);
    forall other, v | Get(Insert(memo, hash, key, value), hash, other) == Some(v) ensures f(other) == Ok(v) {
      InsertKeeps(memo, hash, key, value, other);
    }
  }

  /** `compact_iri`: errors are returned but not memoised. */
  method CompactIri<K(==, !new), V(!new), E(!new)>(cache: ShardedMemo<K, V>, f: K -> Result<V, E>, key: K)
      returns (r: Result<V, E>)
    requires cache.Valid() && Memoises(cache.memo, cache.hash, f)
    modifies cache
    ensures r == f(key)
    ensures cache.Valid() && Memoises(cache.memo, cache.hash, f)
  {
    var hit := cache.GetKey(key);
    if hit.Some? { return Ok(hit.value); }
    r := f(key);
    if r.Err? { return; }
    InsertMemoises(cache.memo, cache.hash, f, key, r.value);
    cache.InsertKey(key, r.value);
  }

  // ----- threads sharing a memo

  /** Where a thread is between two lock-protected operations. */
  datatype Thread<K, V, E> =
    | Idle
    | Computing(key: K)
    | Storing(key: K, value: V)
    | Returned(key: K, result: Result<V, E>)
    | Counting(shard: nat, sum: nat)
    | Counted(total: nat)

  datatype Action<K> = CallCompactIri(key: K) | CallLen | Continue

  datatype State<K, V, E> = State(memo: Memo<K, V>, threads: seq<Thread<K, V, E>>)

  /** One thread takes one step; a thread that has returned may be called again. */
  function Step<K(==), V, E>(state: State<K, V, E>, hash: K -> Hash, f: K -> Result<V, E>, t: nat, action: Action<K>):
      State<K, V, E>
    requires t < |state.threads| && |Shards(state.memo)| == SHARDS
  {
    var (memo, thread) := Advance(state.memo, hash, f, state.threads[t], action);
    State(memo, state.threads[t := thread])
  }

  function Advance<K(==), V, E>(memo: Memo<K, V>, hash: K -> Hash, f: K -> Result<V, E>, thread: Thread<K, V, E>,
      action: Action<K>):
      (Memo<K, V>, Thread<K, V, E>)
    requires |Shards(memo)| == SHARDS
  {
    match thread
    case Idle => (memo, Call(memo, hash, thread, action))
    case Returned(_, _) => (memo, Call(memo, hash, thread, action))
    case Counted(_) => (memo, Call(memo, hash, thread, action))
    case Computing(key) =>
      (match f(key)
       case Ok(value) => (memo, Storing(key, value))
       case Err(e) => (memo, Returned(key, Err(e))))
    case Storing(key, value) => (Insert(memo, hash, key, value), Returned(key, Ok(value)))
    case Counting(shard, sum) =>
      (memo, if shard < SHARDS then Counting(shard + 1, sum + |Shards(memo)[shard]|) else Counted(sum))
  }

  function Call<K(==), V, E>(memo: Memo<K, V>, hash: K -> Hash, thread: Thread<K, V, E>, action: Action<K>):
      Thread<K, V, E> {
    match action
    case CallCompactIri(key) =>
      (match Get(memo, hash, key)
       case Some(value) => Returned(key, Ok(value))
       case None => Computing(key))
    case CallLen => if memo.shards.Some? then Counting(0, 0) else Counted(0)
    case Continue => thread
  }

  ghost predicate ThreadRight<K(!new), V, E>(thread: Thread<K, V, E>, f: K -> Result<V, E>) {
    match thread
    case Storing(key, value) => f(key) == Ok(value)
    case Returned(key, result) => result == f(key)
    case Counting(shard, sum) => shard <= SHARDS && sum <= ENTRIES_PER_SHARD * shard
    case Counted(total) => total <= MAX_ENTRIES
    case _ => true
  }

  ghost predicate Inv<K(!new), V(!new), E(!new)>(state: State<K, V, E>, hash: K -> Hash, f: K -> Result<V, E>) {
    && Placed(state.memo, hash)
    && Memoises(state.memo, hash, f)
    && forall t :: 0 <= t < |state.threads| ==> ThreadRight(state.threads[t], f)
  }

  lemma StepKeepsInv<K(!new), V(!new),
      E(!new)>(state: State<K, V, E>, hash: K -> Hash, f: K -> Result<V, E>, t: nat, action: Action<K>)
    requires Inv(state, hash, f) && t < |state.threads|
    ensures Inv(Step(state, hash, f, t, action), hash, f)
  {
    var thread := state.threads[t];
    assert ThreadRight(thread, f);
    match thread
    case Storing(key, value) => InsertMemoises(state.memo, hash, f, key, value);
    case Counting(shard, sum) =>
      if shard < SHARDS { assert |Shards(state.memo)[shard]| <= ENTRIES_PER_SHARD by { ShardBounded(state.memo, hash,
          shard); } }
    case _ =>
  }

  lemma ShardBounded<K(!new), V>(memo: Memo<K, V>, hash: K -> Hash, s: nat)
    requires Placed(memo, hash) && s < SHARDS
    ensures |Shards(memo)[s]| <= ENTRIES_PER_SHARD
  {
    if memo.shards.Some? { assert ShardPlaced(memo.shards.value[s], hash, s); }
  }

  function Run<K(==), V, E>(state: State<K, V, E>, hash: K -> Hash, f: K -> Result<V, E>,
      schedule: seq<(nat, Action<K>)>): State<K, V, E>
    decreases |schedule|
  {
    if schedule == [] || schedule[0].0 >= |state.threads| || |Shards(state.memo)| != SHARDS then state
    else Run(Step(state, hash, f, schedule[0].0, schedule[0].1), hash, f, schedule[1..])
  }

  /**
   Under every schedule, every thread that has returned from compacting an IRI returned what
   the unmemoised run gives, and every count taken one shard at a time is within the bound.
   */
  lemma {:induction false} EverySchedule<K(!new), V(!new),
      E(!new)>(state: State<K, V, E>, hash: K -> Hash, f: K -> Result<V, E>, schedule: seq<(nat, Action<K>)>)
    requires Inv(state, hash, f)
    ensures Inv(Run(state, hash, f, schedule), hash, f)
    decreases |schedule|
  {
    if schedule != [] && schedule[0].0 < |state.threads| {
      StepKeepsInv(state, hash, f, schedule[0].0, schedule[0].1);
      EverySchedule(Step(state, hash, f, schedule[0].0, schedule[0].1), hash, f, schedule[1..]);
    }
  }

  lemma FreshMemo<K(!new), V(!new), E(!new)>(threads: nat, hash: K -> Hash, f: K -> Result<V, E>,
      schedule: seq<(nat, Action<K>)>, t: nat)
    requires t < threads
    ensures var state := Run(State(Memo(None), seq(threads, _ => Idle)), hash, f, schedule);
            && (t < |state.threads| && state.threads[t].Returned?
                ==> state.threads[t].result == f(state.threads[t].key))
            && (t < |state.threads| && state.threads[t].Counted? ==> state.threads[t].total <= MAX_ENTRIES)
            && Placed(state.memo, hash) && Total(Shards(state.memo)) <= MAX_ENTRIES
  {
    var start: State<K, V, E> := State(Memo(None), seq(threads, _ => Idle));
    assert Memoises(start.memo, hash, f);
    EverySchedule(start, hash, f, schedule);
    var state := Run(start, hash, f, schedule);
    assert t < |state.threads| ==> ThreadRight(state.threads[t], f);
    forall s | 0 <= s < SHARDS ensures |Shards(state.memo)[s]| <= ENTRIES_PER_SHARD {
      ShardBounded(state.memo, hash, s);
    }
    TotalBounded(Shards(state.memo));
  }
}
