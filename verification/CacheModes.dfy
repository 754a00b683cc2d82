/**
 What the cache does not compare (jsonld-context-processing/src/cache.rs:97-146): the mode the
 active context was processed under. Processing can depend on it, and then a hit is wrong.
 */
module CacheModes {
  import opened Wrappers
  import opened SharedContexts
  import opened ProcessingCache

  /**
   Processing an empty array of contexts (jsonld-context-processing/src/algorithm/mod.rs:234-254):
   the active context under the requested mode and, without propagation, with the active
   context itself as the one to go back to.
   */
  function ProcessEmptyArray(active: Content, options: Options): Content {
    var result := active.(scalars := active.scalars.(mode := options.mode));
    if !options.propagate && active.previous.NoPrevious? then result.(previous := Previous(active)) else result
  }

  /** The mode the active context was processed under is not compared. */
  lemma ModeIsNotCompared(entry: Root, mode: Mode)
    requires entry.Cached?
    ensures Matches(entry, entry.active.(scalars := entry.active.scalars.(mode := mode)), entry.local, entry.base,
        entry.options)
  {
  }

  /**
   A hit across modes is right exactly when the context does propagate, or already has a
   previous context, or the modes agree after all.
   */
  lemma HitAcrossModesExactlyWhen(c: Content, d: Content, options: Options)
    requires SameButMode(c, d) && c.scalars.language == d.scalars.language
    ensures ProcessEmptyArray(c, options) == ProcessEmptyArray(d, options)
      <==> options.propagate || c.previous.Previous? || c.scalars.mode == d.scalars.mode
  {
    if c.scalars.mode == d.scalars.mode {
      assert c.scalars == d.scalars;
    } else if options.propagate || c.previous.Previous? {
      assert c.scalars.(mode := options.mode) == d.scalars.(mode := options.mode);
    } else {
      assert ProcessEmptyArray(c, options).previous.content.scalars.mode != ProcessEmptyArray(d,
          options).previous.content.scalars.mode;
    }
  }

  /** Inputs are processed alike by every way of processing only when they are the same. */
  lemma ProcessedAlikeExactlyWhen(c: Content, d: Content, l: Local, m: Local, base: Option<Iri>, options: Options)
    ensures (forall process: Processing :: process(c, l, base, options) == process(d, m, base, options))
      <==> c == d && l == m
  {
    if c != d || l != m {
      var other := d.(scalars := d.scalars.(mode := if d.scalars.mode == JsonLd10 then JsonLd11 else JsonLd10));
      var process: Processing := (x, y, b, o) => if x == c && y == l then d else other;
      assert process(c, l, base, options) != process(d, m, base, options);
    }
  }

  /**
   On any local context, a hit is right whatever processing does exactly when the entry's context has
   the scalars of the one given, mode included, and the local contexts spell their tags alike.
   */
  lemma {:induction false} HitRightExactlyWhen(heap: seq<Cell>, roots: seq<Root>, values: seq<Value>, e: nat, i: nat,
      local: Local, base: Option<Iri>, options: Options)
    requires Sound(heap, roots, values, multiset{}) && e < |roots| && roots[e].Cached? && i < |roots|
        && roots[i].Variable?
    requires Matches(roots[e], roots[i].context, local, base, options)
    ensures values[e].Entry? && values[i].Held?
    ensures (forall process: Processing ::
               process(values[e].active, roots[e].local, base, options)
               == process(values[i].content, local, base, options))
      <==> EqualInputs(roots[e], roots[i].context, local)
  {
    MatchIsContent(heap, roots, values, e, i, local, base, options);
    assert Represents(heap, roots[e], values[e]) && Represents(heap, roots[i], values[i]);
    ProcessedAlikeExactlyWhen(values[e].active, values[i].content, roots[e].local, local, base, options);
  }

  /** Processing, on local contexts that are empty arrays. */
  function EmptyArrays(): Processing
  {
    (active: Content, local: Local, base: Option<Iri>, options: Options) => ProcessEmptyArray(active, options)
  }

  const NOT_PROPAGATED: Options := Options(JsonLd11, false, false, Keep)

  /** Six variables and as many free cells. */
  method Room() returns (p: Program)
    ensures fresh(p) && p.Valid() && p.process == EmptyArrays() && p.entries == map[]
    ensures |p.roots| == 6 && |p.heap| == 6 && forall k :: 0 <= k < 6 ==> p.roots[k].Empty? && p.heap[k].Vacant?
  {
    p := new Program(EmptyArrays());
    for n := 0 to 6
      invariant fresh(p) && p.Valid() && p.process == EmptyArrays() && p.entries == map[]
      invariant |p.roots| == n && |p.heap| == n && forall k :: 0 <= k < n ==> p.roots[k].Empty? && p.heap[k].Vacant?
    {
      p.Extend();
    }
  }

  /** The context `c` in variables 0 and 1, which share it, and what it is processed to in 2. */
  ghost predicate Prepared(p: Program, c: Content)
    reads p
  {
    && p.entries == map[] && |p.roots| == |p.heap| == |p.values| == 6
    && p.roots[0].Variable? && p.roots[1] == p.roots[0] && p.roots[2].Variable?
    && p.roots[4].Empty? && p.roots[5].Empty? && p.heap[2].Vacant?
    && p.values[0] == p.values[1] == Held(c) && p.values[2] == Held(ProcessEmptyArray(c, NOT_PROPAGATED))
  }

  function NewContext(base: Option<Iri>): Content
  {
    Content(Scalars(base, base, None, None, None, JsonLd11), map[], NoPrevious)
  }

  /** A new context in four variables. */
  method Share(base: Option<Iri>) returns (p: Program)
    ensures fresh(p) && p.Valid() && p.process == EmptyArrays() && p.entries == map[]
    ensures |p.roots| == |p.heap| == |p.values| == 6 && p.heap[1].Vacant? && p.heap[2].Vacant?
    ensures p.roots[0].Variable? && p.roots[0] == p.roots[1] == p.roots[2] == p.roots[3]
    ensures p.roots[4].Empty? && p.roots[5].Empty?
    ensures p.values[0] == p.values[1] == p.values[2] == p.values[3] == Held(NewContext(base))
  {
    p := Room();
    p.New(0, 0, base);
    CloneThrice(p);
  }

  method Prepare(base: Option<Iri>) returns (p: Program, ghost c: Content)
    ensures fresh(p) && p.Valid() && p.process == EmptyArrays()
    ensures Prepared(p, c) && c == NewContext(base)
  {
    p := Share(base);
    c := NewContext(base);
    p.SetPrevious(2, 3, 1);
  }

  /** The context in variable 0 goes into variables 1, 2 and 3 as well. */
  method CloneThrice(p: Program)
    requires p.Valid() && |p.roots| == |p.heap| == |p.values| == 6 && p.roots[0].Variable?
    requires p.roots[1].Empty? && p.roots[2].Empty? && p.roots[3].Empty?
    modifies p
    ensures p.Valid() && p.entries == old(p.entries) && KeepsVacant(old(p.heap), p.heap)
    ensures p.roots == old(p.roots)[1 := old(p.roots[0])][2 := old(p.roots[0])][3 := old(p.roots[0])]
    ensures p.values == old(p.values)[1 := old(p.values[0])][2 := old(p.values[0])][3 := old(p.values[0])]
  {
    p.Clone(0, 1);
    p.Clone(0, 2);
    p.Clone(0, 3);
  }

  /** The result is stored for `c`; the variable that has it is then set to mode 1.0. */
  method StoreAndSwitch(p: Program, ghost c: Content, key: nat, local: Local, base: Option<Iri>)
    requires p.Valid() && p.process == EmptyArrays() && Prepared(p, c)
    modifies p
    ensures p.Valid() && p.entries == map[key := 4] && |p.roots| == |p.values| == 6
    ensures p.roots[0].Variable? && p.roots[5].Empty? && p.roots[4].Cached?
    ensures Matches(p.roots[4], p.roots[0].context, local, base, NOT_PROPAGATED)
    ensures p.values[0] == Held(c.(scalars := c.scalars.(mode := JsonLd10)))
    ensures p.values[4] == Entry(c, ProcessEmptyArray(c, NOT_PROPAGATED))
  {
    p.Insert(key, 1, local, base, NOT_PROPAGATED, 2, 2, 4);
    assert p.roots[0] == old(p.roots[0]);
    p.SetScalars(0, p.roots[0].context.scalars.(mode := JsonLd10));
    assert p.values[0].content.scalars == p.roots[0].context.scalars by {
      assert Represents(p.heap, p.roots[0], p.values[0]);
    }
  }

  /**
   A run that ends in a wrong hit. The result of processing an empty array without propagation
   is stored for a context in mode 1.1; the same context in mode 1.0 is then given that result,
   which goes back to a context in the other mode.
   */
  method WrongHit(key: nat, local: Local, base: Option<Iri>) returns (p: Program, hit: bool)
    ensures fresh(p) && p.Valid() && p.process == EmptyArrays() && hit
    ensures |p.values| == 6 && p.values[0].Held? && p.values[5].Held?
    ensures p.values[5].content != p.process(p.values[0].content, local, base, NOT_PROPAGATED)
  {
    ghost var c;
    p, c := Prepare(base);
    StoreAndSwitch(p, c, key, local, base);
    hit := p.Get(key, 0, local, base, NOT_PROPAGATED, 5);
    HitAcrossModesExactlyWhen(c, p.values[0].content, NOT_PROPAGATED);
  }
}
