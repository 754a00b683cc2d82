/**
 Contexts whose definitions and previous context are shared by counted pointers
 (jsonld-core/src/context/mod.rs:232-260, 563-625, 735-757).

 Addresses are given out again once a cell has been freed, so an address says nothing
 about contents by itself. What makes it say something is the count of live handles.
 */
module SharedContexts {
  import opened Wrappers
  import opened LangTag

  type Address = nat
  type Iri = string
  type Definitions = map<string, string>

  datatype Mode = JsonLd10 | JsonLd11

  datatype Scalars = Scalars(originalBaseUrl: Option<Iri>, baseIri: Option<Iri>, vocabulary: Option<Iri>,
                             language: Option<string>, direction: Option<Direction>, mode: Mode)

  /** A context as it is in memory. */
  datatype Context = Context(scalars: Scalars, definitions: Address, previous: Option<Address>)

  /** A context as a value. */
  datatype Content = Content(scalars: Scalars, definitions: Definitions, previous: PreviousContent)
  datatype PreviousContent = NoPrevious | Previous(content: Content)

  datatype Cell =
    | Vacant
    | DefinitionsCell(strong: nat, definitions: Definitions)
    | ContextCell(strong: nat, context: Context)

  // ----- what a context in memory means

  predicate Means(heap: seq<Cell>, context: Context, content: Content)
    decreases content
  {
    && context.scalars == content.scalars
    && context.definitions < |heap|
    && heap[context.definitions].DefinitionsCell?
    && heap[context.definitions].definitions == content.definitions
    && match (context.previous, content.previous)
       case (None, NoPrevious) => true
       case (Some(a), Previous(c)) => a < |heap| && heap[a].ContextCell? && Means(heap, heap[a].context, c)
       case _ => false
  }

  /** A context means one thing. */
  lemma {:induction false} MeansUnique(heap: seq<Cell>, context: Context, c: Content, d: Content)
    requires Means(heap, context, c) && Means(heap, context, d)
    ensures c == d
    decreases c
  {
    if context.previous.Some? {
      MeansUnique(heap, heap[context.previous.value].context, c.previous.content, d.previous.content);
    }
  }

  // ----- handles

  function Handles(context: Context): multiset<Address> {
    multiset{context.definitions} + match context.previous case None => multiset{} case Some(a) => multiset{a}
  }

  lemma HandlesAre(context: Context, x: Address)
    ensures Handles(context)[x] == 0 <==> context.definitions != x && context.previous != Some(x)
  {
  }

  function CellHandles(cell: Cell): multiset<Address> {
    if cell.ContextCell? then Handles(cell.context) else multiset{}
  }

  /** How many handles to `x` the cells of memory hold. */
  function HeapRefs(heap: seq<Cell>, x: Address): nat {
    if heap == [] then 0 else CellHandles(heap[0])[x] + HeapRefs(heap[1..], x)
  }

  lemma {:induction false} HeapRefsUpdate(heap: seq<Cell>, a: Address, cell: Cell, x: Address)
    requires a < |heap|
    ensures HeapRefs(heap[a := cell], x) + CellHandles(heap[a])[x] == HeapRefs(heap, x) + CellHandles(cell)[x]
    ensures CellHandles(heap[a])[x] <= HeapRefs(heap, x)
  {
    if a > 0 {
      HeapRefsUpdate(heap[1..], a - 1, cell, x);
      assert heap[a := cell][1..] == heap[1..][a - 1 := cell];
    } else {
      assert heap[a := cell][1..] == heap[1..];
    }
  }

  lemma {:induction false} HeapRefsVacant(heap: seq<Cell>, x: Address)
    ensures HeapRefs(heap + [Vacant], x) == HeapRefs(heap, x)
  {
    if heap == [] {
      assert HeapRefs([Vacant][1..], x) == 0;
    } else {
      HeapRefsVacant(heap[1..], x);
      assert (heap + [Vacant])[1..] == heap[1..] + [Vacant];
    }
  }

  /** How many handles the cell at an address believes there are. */
  function Strong(heap: seq<Cell>, a: Address): nat {
    if a < |heap| && !heap[a].Vacant? then heap[a].strong else 0
  }

  function WithStrong(cell: Cell, strong: nat): (r: Cell)
    requires !cell.Vacant?
    ensures !r.Vacant? && r.strong == strong && CellHandles(r) == CellHandles(cell)
  {
    match cell
    case DefinitionsCell(_, d) => DefinitionsCell(strong, d)
    case ContextCell(_, c) => ContextCell(strong, c)
  }

  /** Every cell's count is the number of handles held by cells and by `held`. */
  ghost predicate Counted(heap: seq<Cell>, held: multiset<Address>) {
    forall a: Address :: Strong(heap, a) == HeapRefs(heap, a) + held[a]
  }

  /** Cells other than the one at `x` keep what they hold. */
  ghost predicate Kept(heap: seq<Cell>, after: seq<Cell>, x: Address) {
    && |heap| <= |after|
    && forall a :: 0 <= a < |heap| && a != x && !heap[a].Vacant? ==> SameCell(heap[a], after[a])
  }

  predicate SameCell(c: Cell, d: Cell) {
    match (c, d)
    case (DefinitionsCell(_, x), DefinitionsCell(_, y)) => x == y
    case (ContextCell(_, x), ContextCell(_, y)) => x == y
    case _ => false
  }

  /** A cell nobody has a handle to can change without changing what any context means. */
  lemma {:induction false} MeansKept(heap: seq<Cell>, after: seq<Cell>, x: Address, context: Context, content: Content)
    requires Kept(heap, after, x) && HeapRefs(heap, x) == 0 && Handles(context)[x] == 0
    requires Means(heap, context, content)
    ensures Means(after, context, content)
    decreases content
  {
    HandlesAre(context, x);
    if context.previous.Some? {
      var a := context.previous.value;
      HeapRefsUpdate(heap, a, Vacant, x);
      MeansKept(heap, after, x, heap[a].context, content.previous.content);
    }
  }

  lemma {:induction false} MeansStays(heap: seq<Cell>, after: seq<Cell>, held: multiset<Address>, context: Context,
      content: Content)
    requires Counted(heap, held) && Kept(heap, after, |heap|) && Means(heap, context, content)
    ensures Means(after, context, content)
  {
    NothingBeyond(heap, held);
    MeansKept(heap, after, |heap|, context, content);
  }

  // ----- counted pointers

  /** `Arc::clone`. */
  function Retain(heap: seq<Cell>, a: Address): seq<Cell>
    requires a < |heap| && !heap[a].Vacant?
  {
    heap[a := WithStrong(heap[a], heap[a].strong + 1)]
  }

  /** Dropping a handle. The cell itself goes in a step of its own, `Free`. */
  function Release(heap: seq<Cell>, a: Address): seq<Cell>
    requires Strong(heap, a) > 0
  {
    heap[a := WithStrong(heap[a], heap[a].strong - 1)]
  }

  /** A count stays exact when the change at one address accounts for the handles gained and lost there. */
  lemma Recounted(heap: seq<Cell>, held: multiset<Address>, a: Address, cell: Cell, after: multiset<Address>)
    requires Counted(heap, held) && a < |heap|
    requires forall b :: b != a ==> after[b] + CellHandles(cell)[b] == held[b] + CellHandles(heap[a])[b]
    requires Strong(heap[a := cell], a) + held[a] + CellHandles(heap[a])[a]
        == Strong(heap, a) + after[a] + CellHandles(cell)[a]
    ensures Counted(heap[a := cell], after)
  {
    forall b: Address ensures Strong(heap[a := cell], b) == HeapRefs(heap[a := cell], b) + after[b] {
      assert Strong(heap, b) == HeapRefs(heap, b) + held[b];
      HeapRefsUpdate(heap, a, cell, b);
    }
  }

  lemma Retained(heap: seq<Cell>, held: multiset<Address>, a: Address)
    requires Counted(heap, held) && Strong(heap, a) > 0
    ensures Counted(Retain(heap, a), held + multiset{a})
    ensures Kept(heap, Retain(heap, a), |heap|)
    ensures forall b :: Strong(heap, b) > 0 ==> Strong(Retain(heap, a), b) > 0
  {
    Recounted(heap, held, a, Retain(heap, a)[a], held + multiset{a});
  }

  lemma Released(heap: seq<Cell>, held: multiset<Address>, a: Address)
    requires Counted(heap, held) && a in held
    ensures Strong(heap, a) > 0
    ensures Counted(Release(heap, a), held - multiset{a})
    ensures Kept(heap, Release(heap, a), |heap|)
  {
    assert Strong(heap, a) == HeapRefs(heap, a) + held[a];
    Recounted(heap, held, a, Release(heap, a)[a], held - multiset{a});
  }

  lemma Swapped(held: multiset<Address>, handles: multiset<Address>, a: Address)
    requires (held + handles)[a] == 0
    ensures forall b :: b != a ==> (held + multiset{a})[b] + handles[b] == (held + handles)[b]
    ensures held[a] == 0 && handles[a] == 0 && (held + multiset{a})[a] == 1
  {
  }

  lemma KeptWhenVacant(heap: seq<Cell>, a: Address, cell: Cell)
    requires a < |heap| && heap[a].Vacant?
    ensures Kept(heap, heap[a := cell], |heap|) && CellHandles(heap[a]) == multiset{}
  {
  }

  /** A new cell at any address not in use takes over the handles in what it is given. */
  lemma Allocated(heap: seq<Cell>, held: multiset<Address>, a: Address, cell: Cell)
    requires Counted(heap, held + CellHandles(cell)) && a < |heap| && heap[a].Vacant?
    requires !cell.Vacant? && cell.strong == 1
    ensures Counted(heap[a := cell], held + multiset{a})
    ensures Kept(heap, heap[a := cell], |heap|)
  {
    KeptWhenVacant(heap, a, cell);
    assert Strong(heap, a) == HeapRefs(heap, a) + (held + CellHandles(cell))[a];
    Swapped(held, CellHandles(cell), a);
    Recounted(heap, held + CellHandles(cell), a, cell, held + multiset{a});
  }

  lemma Added(held: multiset<Address>, handles: multiset<Address>)
    ensures forall b :: (held + handles)[b] + CellHandles(Vacant)[b] == held[b] + handles[b]
  {
  }

  /** Freeing a cell without handles leaves its own handles to be dropped. */
  lemma {:induction false} Freed(heap: seq<Cell>, held: multiset<Address>, a: Address)
    requires Counted(heap, held) && a < |heap| && !heap[a].Vacant? && heap[a].strong == 0
    ensures Counted(heap[a := Vacant], held + CellHandles(heap[a]))
    ensures Kept(heap, heap[a := Vacant], a)
    ensures HeapRefs(heap, a) == 0 && held[a] == 0
  {
    var handles := CellHandles(heap[a]);
    assert Strong(heap, a) == HeapRefs(heap, a) + held[a];
    HeapRefsUpdate(heap, a, Vacant, a);
    Added(held, handles);
    assert Strong(heap, a) == 0 && Strong(heap[a := Vacant], a) == 0;
    assert (held + handles)[a] == held[a] + handles[a] && CellHandles(Vacant)[a] == 0;
    Recounted(heap, held, a, Vacant, held + handles);
  }

  /** Nobody refers to an address past the end of memory. */
  lemma {:induction false} NothingBeyond(heap: seq<Cell>, held: multiset<Address>)
    requires Counted(heap, held)
    ensures HeapRefs(heap, |heap|) == 0 && held[|heap|] == 0
  {
    assert Strong(heap, |heap|) == HeapRefs(heap, |heap|) + held[|heap|];
  }

  /** Changing definitions in place, which only the holder of the one handle may do. */
  lemma ChangedInPlace(heap: seq<Cell>, held: multiset<Address>, a: Address, definitions: Definitions)
    requires Counted(heap, held) && a < |heap| && heap[a].DefinitionsCell? && heap[a].strong == 1 && a in held
    ensures Counted(heap[a := DefinitionsCell(1, definitions)], held)
    ensures Kept(heap, heap[a := DefinitionsCell(1, definitions)], a)
    ensures HeapRefs(heap, a) == 0 && held[a] == 1
  {
    assert Strong(heap, a) == HeapRefs(heap, a) + held[a];
    Recounted(heap, held, a, DefinitionsCell(1, definitions), held);
  }

  lemma KeptTwice(heap: seq<Cell>, mid: seq<Cell>, after: seq<Cell>)
    requires Kept(heap, mid, |heap|) && Kept(mid, after, |mid|)
    ensures Kept(heap, after, |heap|)
  {
    assert forall a :: 0 <= a < |heap| && !heap[a].Vacant? ==> SameCell(heap[a], mid[a]) && !mid[a].Vacant?;
  }

  /** Cloning a context clones its handles. */
  function RetainContext(heap: seq<Cell>, context: Context): seq<Cell>
    requires Strong(heap, context.definitions) > 0
        && (context.previous.Some? ==> Strong(heap, context.previous.value) > 0)
  {
    var mid := Retain(heap, context.definitions);
    if context.previous.Some? then Retain(mid, context.previous.value) else mid
  }

  lemma RetainedContext(heap: seq<Cell>, held: multiset<Address>, context: Context)
    requires Counted(heap, held)
    requires Strong(heap, context.definitions) > 0
        && (context.previous.Some? ==> Strong(heap, context.previous.value) > 0)
    ensures Counted(RetainContext(heap, context), held + Handles(context))
    ensures Kept(heap, RetainContext(heap, context), |heap|)
  {
    Retained(heap, held, context.definitions);
    if context.previous.Some? {
      var mid := Retain(heap, context.definitions);
      Retained(mid, held + multiset{context.definitions}, context.previous.value);
      KeptTwice(heap, mid, RetainContext(heap, context));
      assert held + multiset{context.definitions} + multiset{context.previous.value} == held + Handles(context);
    } else {
      assert held + multiset{context.definitions} == held + Handles(context);
    }
  }

  /** Dropping handles, one after the other. */
  function ReleaseAll(heap: seq<Cell>, handles: seq<Address>): (r: seq<Cell>)
    ensures |r| == |heap|
    ensures forall a :: 0 <= a < |heap| && heap[a].Vacant? ==> r[a].Vacant?
    decreases |handles|
  {
    if handles == [] then heap
    else if Strong(heap, handles[0]) > 0 then ReleaseAll(Release(heap, handles[0]), handles[1..])
    else heap
  }

  lemma {:induction false} ReleasedAll(heap: seq<Cell>, held: multiset<Address>, handles: seq<Address>)
    requires Counted(heap, held + multiset(handles))
    ensures Counted(ReleaseAll(heap, handles), held)
    ensures Kept(heap, ReleaseAll(heap, handles), |heap|)
    decreases |handles|
  {
    if handles != [] {
      assert handles == [handles[0]] + handles[1..];
      var all := held + multiset(handles);
      Released(heap, all, handles[0]);
      assert all - multiset{handles[0]} == held + multiset(handles[1..]);
      ReleasedAll(Release(heap, handles[0]), held, handles[1..]);
      KeptTwice(heap, Release(heap, handles[0]), ReleaseAll(heap, handles));
    } else {
      assert held + multiset(handles) == held;
    }
  }

  function HandleList(context: Context): (r: seq<Address>)
    ensures multiset(r) == Handles(context)
  {
    [context.definitions] + match context.previous case None => [] case Some(a) => [a]
  }
}
