/**
 The memo of processed contexts (jsonld-context-processing/src/cache.rs), in a program
 that allocates, clones, changes and drops contexts around it.

 `values` is the same program with every context a value of its own. Every operation
 does to memory what it says it does to the values, so sharing is never observable; and
 a hit, decided by comparing addresses, is a statement about values.
 */
module ProcessingCache {
  import opened Wrappers
  import opened LangTag
  import opened SharedContexts

  datatype Action = Keep | DropTerm | Reject
  datatype Options = Options(mode: Mode, overrideProtected: bool, propagate: bool, vocab: Action)

  /** Context processing, which the cache is a memo of. */
  type Processing = (Content, Local, Option<Iri>, Options) -> Content

  /** A local context: its language tags, and everything else about it. */
  datatype Local = Local(shape: string, tags: seq<string>)

  predicate SameLocal(a: Local, b: Local) {
    && a.shape == b.shape
    && |a.tags| == |b.tags|
    && forall i :: 0 <= i < |a.tags| ==> SameTag(a.tags[i], b.tags[i])
  }

  /** What can hold handles: a variable of the program, or an entry of the cache. */
  datatype Root =
    | Empty
    | Variable(context: Context)
    | Cached(key: nat, active: Context, local: Local, base: Option<Iri>, options: Options, result: Address)

  datatype Value = NoValue | Held(content: Content) | Entry(active: Content, result: Content)

  function RootHandles(root: Root): multiset<Address> {
    match root
    case Empty => multiset{}
    case Variable(context) => Handles(context)
    case Cached(_, active, _, _, _, result) => Handles(active) + multiset{result}
  }

  function AllHandles(roots: seq<Root>): multiset<Address> {
    if roots == [] then multiset{} else RootHandles(roots[0]) + AllHandles(roots[1..])
  }

  predicate Represents(heap: seq<Cell>, root: Root, value: Value) {
    match (root, value)
    case (Empty, NoValue) => true
    case (Variable(context), Held(content)) => Means(heap, context, content)
    case (Cached(_, active, _, _, _, result), Entry(a, r)) =>
      && Means(heap, active, a)
      && result < |heap| && heap[result].ContextCell? && Means(heap, heap[result].context, r)
    case _ => false
  }

  /** Memory represents the values and counts its handles, those of roots and those in flight. */
  ghost predicate Sound(heap: seq<Cell>, roots: seq<Root>, values: seq<Value>, flight: multiset<Address>) {
    && |values| == |roots|
    && Counted(heap, AllHandles(roots) + flight)
    && forall i :: 0 <= i < |roots| ==> Represents(heap, roots[i], values[i])
  }

  lemma Shuffled(a: multiset<Address>, b: multiset<Address>, c: multiset<Address>)
    ensures (a + c) + b == a + (b + c) && a + (b + c) == (a + b) + c
    ensures multiset{} + a == a && a + b == b + a
  {
  }

  lemma {:induction false} TakenOut(roots: seq<Root>, i: nat)
    requires i < |roots|
    ensures AllHandles(roots) == AllHandles(roots[i := Empty]) + RootHandles(roots[i])
  {
    var rest := roots[1..];
    if i > 0 {
      TakenOut(rest, i - 1);
      assert roots[i := Empty][1..] == rest[i - 1 := Empty];
      Shuffled(RootHandles(roots[0]), AllHandles(rest[i - 1 := Empty]), RootHandles(roots[i]));
    } else {
      assert roots[i := Empty][1..] == rest;
      Shuffled(AllHandles(rest), RootHandles(roots[0]), multiset{});
    }
  }

  lemma PutIn(roots: seq<Root>, i: nat, root: Root)
    requires i < |roots| && roots[i].Empty?
    ensures AllHandles(roots[i := root]) == AllHandles(roots) + RootHandles(root)
  {
    TakenOut(roots[i := root], i);
    assert roots[i := root][i := Empty] == roots;
  }

  lemma {:induction false} OneMoreRoot(roots: seq<Root>)
    ensures AllHandles(roots + [Empty]) == AllHandles(roots)
  {
    if roots == [] {
      assert roots + [Empty] == [Empty] && [Empty][1..] == [];
    } else {
      OneMoreRoot(roots[1..]);
      assert (roots + [Empty])[0] == roots[0] && (roots + [Empty])[1..] == roots[1..] + [Empty];
    }
  }

  /** What represents a value still does after a change to a cell it has no handle to. */
  lemma {:induction false} RepresentsKept(heap: seq<Cell>, after: seq<Cell>, x: Address, root: Root, value: Value)
    requires Kept(heap, after, x) && HeapRefs(heap, x) == 0 && RootHandles(root)[x] == 0
    requires Represents(heap, root, value)
    ensures Represents(after, root, value)
  {
    match (root, value)
    case (Empty, _) =>
    case (Variable(context), Held(content)) => MeansKept(heap, after, x, context, content);
    case (Cached(_, active, _, _, _, result), Entry(a, r)) =>
      EntryHandles(active, result, x);
      MeansKept(heap, after, x, active, a);
      ResultKept(heap, after, x, result, r);
  }

  lemma EntryHandles(active: Context, result: Address, x: Address)
    requires (Handles(active) + multiset{result})[x] == 0
    ensures Handles(active)[x] == 0 && result != x
  {
  }

  lemma {:induction false} ResultKept(heap: seq<Cell>, after: seq<Cell>, x: Address, result: Address, content: Content)
    requires Kept(heap, after, x) && HeapRefs(heap, x) == 0 && result != x
    requires result < |heap| && heap[result].ContextCell? && Means(heap, heap[result].context, content)
    ensures result < |after| && after[result].ContextCell? && Means(after, after[result].context, content)
  {
    HeapRefsUpdate(heap, result, Vacant, x);
    MeansKept(heap, after, x, heap[result].context, content);
  }

  lemma {:induction false} AllKept(heap: seq<Cell>, after: seq<Cell>, roots: seq<Root>, values: seq<Value>, x: Address)
    requires |values| == |roots| && Kept(heap, after, x) && HeapRefs(heap, x) == 0 && AllHandles(roots)[x] == 0
    requires forall i :: 0 <= i < |roots| ==> Represents(heap, roots[i], values[i])
    ensures forall i :: 0 <= i < |roots| ==> Represents(after, roots[i], values[i])
  {
    forall i | 0 <= i < |roots| ensures Represents(after, roots[i], values[i]) {
      TakenOut(roots, i);
      RepresentsKept(heap, after, x, roots[i], values[i]);
    }
  }

  /** The handles of a root point at cells in use. */
  lemma HandlesLive(heap: seq<Cell>, roots: seq<Root>, values: seq<Value>, flight: multiset<Address>, i: nat,
      a: Address)
    requires Sound(heap, roots, values, flight) && i < |roots| && a in RootHandles(roots[i])
    ensures Strong(heap, a) > 0
  {
    TakenOut(roots, i);
    assert Strong(heap, a) == HeapRefs(heap, a) + (AllHandles(roots) + flight)[a];
  }

  // ----- steps that operations are made of

  lemma CountedVacant(heap: seq<Cell>, held: multiset<Address>)
    requires Counted(heap, held)
    ensures Counted(heap + [Vacant], held) && Kept(heap, heap + [Vacant], |heap|)
  {
    var after := heap + [Vacant];
    forall a: Address ensures Strong(after, a) == HeapRefs(after, a) + held[a] {
      HeapRefsVacant(heap, a);
      assert Strong(heap, a) == HeapRefs(heap, a) + held[a];
    }
  }

  /** There is room for one more cell and one more root. */
  lemma Extended(heap: seq<Cell>, roots: seq<Root>, values: seq<Value>)
    requires Sound(heap, roots, values, multiset{})
    ensures Sound(heap + [Vacant], roots + [Empty], values + [NoValue], multiset{})
  {
    var held := AllHandles(roots) + multiset{};
    OneMoreRoot(roots);
    CountedVacant(heap, held);
    NothingBeyond(heap, held);
    AllKept(heap, heap + [Vacant], roots, values, |heap|);
  }

  /** Memory may change under the roots when it accounts for it. */
  lemma {:induction false} Moved(heap: seq<Cell>, after: seq<Cell>, roots: seq<Root>, values: seq<Value>,
      flight: multiset<Address>, later: multiset<Address>)
    requires Sound(heap, roots, values, flight)
    requires Counted(after, AllHandles(roots) + later) && Kept(heap, after, |heap|)
    ensures Sound(after, roots, values, later)
  {
    NothingBeyond(heap, AllHandles(roots) + flight);
    AllKept(heap, after, roots, values, |heap|);
  }

  lemma RootTaken(heap: seq<Cell>, roots: seq<Root>, values: seq<Value>, flight: multiset<Address>, i: nat)
    requires Sound(heap, roots, values, flight) && i < |roots|
    ensures Sound(heap, roots[i := Empty], values[i := NoValue], flight + RootHandles(roots[i]))
  {
    TakenOut(roots, i);
    Shuffled(AllHandles(roots[i := Empty]), flight, RootHandles(roots[i]));
  }

  lemma RootPut(heap: seq<Cell>, roots: seq<Root>, values: seq<Value>, flight: multiset<Address>, i: nat, root: Root,
      value: Value)
    requires i < |roots| && roots[i].Empty?
    requires Sound(heap, roots, values, flight + RootHandles(root)) && Represents(heap, root, value)
    ensures Sound(heap, roots[i := root], values[i := value], flight)
  {
    PutIn(roots, i, root);
    Shuffled(AllHandles(roots), flight, RootHandles(root));
  }

  lemma ContextRetained(heap: seq<Cell>, roots: seq<Root>, values: seq<Value>, flight: multiset<Address>,
      context: Context)
    requires Sound(heap, roots, values, flight)
    requires Strong(heap, context.definitions) > 0
        && (context.previous.Some? ==> Strong(heap, context.previous.value) > 0)
    ensures Sound(RetainContext(heap, context), roots, values, flight + Handles(context))
    ensures Kept(heap, RetainContext(heap, context), |heap|)
  {
    RetainedContext(heap, AllHandles(roots) + flight, context);
    assert AllHandles(roots) + flight + Handles(context) == AllHandles(roots) + (flight + Handles(context));
    Moved(heap, RetainContext(heap, context), roots, values, flight, flight + Handles(context));
  }

  lemma {:induction false} HandlesReleased(heap: seq<Cell>, roots: seq<Root>, values: seq<Value>,
      flight: multiset<Address>, handles: seq<Address>)
    requires Sound(heap, roots, values, flight + multiset(handles))
    ensures Sound(ReleaseAll(heap, handles), roots, values, flight)
    ensures Kept(heap, ReleaseAll(heap, handles), |heap|)
  {
    assert AllHandles(roots) + (flight + multiset(handles)) == AllHandles(roots) + flight + multiset(handles);
    ReleasedAll(heap, AllHandles(roots) + flight, handles);
    Moved(heap, ReleaseAll(heap, handles), roots, values, flight + multiset(handles), flight);
  }

  lemma CellAllocated(heap: seq<Cell>, roots: seq<Root>, values: seq<Value>, flight: multiset<Address>, a: Address,
      cell: Cell)
    requires Sound(heap, roots, values, flight + CellHandles(cell)) && a < |heap| && heap[a].Vacant?
    requires !cell.Vacant? && cell.strong == 1
    ensures Sound(heap[a := cell], roots, values, flight + multiset{a})
    ensures Kept(heap, heap[a := cell], |heap|)
  {
    assert AllHandles(roots) + (flight + CellHandles(cell)) == AllHandles(roots) + flight + CellHandles(cell);
    Allocated(heap, AllHandles(roots) + flight, a, cell);
    assert AllHandles(roots) + (flight + multiset{a}) == AllHandles(roots) + flight + multiset{a};
    Moved(heap, heap[a := cell], roots, values, flight + CellHandles(cell), flight + multiset{a});
  }

  lemma CellFreed(heap: seq<Cell>, roots: seq<Root>, values: seq<Value>, flight: multiset<Address>, a: Address)
    requires Sound(heap, roots, values, flight) && a < |heap| && !heap[a].Vacant? && heap[a].strong == 0
    ensures Sound(heap[a := Vacant], roots, values, flight + CellHandles(heap[a]))
  {
    Freed(heap, AllHandles(roots) + flight, a);
    AllKept(heap, heap[a := Vacant], roots, values, a);
    assert AllHandles(roots) + flight + CellHandles(heap[a]) == AllHandles(roots) + (flight + CellHandles(heap[a]));
  }

  /** Nobody but the holder of the only handle to definitions refers to them. */
  lemma OnlyHolder(heap: seq<Cell>, roots: seq<Root>, flight: multiset<Address>, i: nat, a: Address)
    requires Counted(heap, AllHandles(roots) + flight) && i < |roots| && a in RootHandles(roots[i])
        && Strong(heap, a) == 1
    ensures HeapRefs(heap, a) == 0 && AllHandles(roots[i := Empty])[a] == 0 && RootHandles(roots[i])[a] == 1
    ensures (AllHandles(roots) + flight)[a] == 1
  {
    TakenOut(roots, i);
    assert Strong(heap, a) == HeapRefs(heap, a) + (AllHandles(roots) + flight)[a];
  }

  lemma MeansChanged(heap: seq<Cell>, context: Context, content: Content, definitions: Definitions)
    requires Means(heap, context, content) && HeapRefs(heap, context.definitions) == 0
    ensures Means(heap[context.definitions := DefinitionsCell(1, definitions)], context,
        content.(definitions := definitions))
  {
    var a := context.definitions;
    if context.previous.Some? {
      var b := context.previous.value;
      HeapRefsUpdate(heap, b, Vacant, a);
      MeansKept(heap, heap[a := DefinitionsCell(1, definitions)], a, heap[b].context, content.previous.content);
    }
  }

  /** The holder of the only handle to its definitions changes them where they are. */
  lemma DefinitionsChanged(heap: seq<Cell>, roots: seq<Root>, values: seq<Value>, flight: multiset<Address>, i: nat,
      definitions: Definitions)
    requires Sound(heap, roots, values, flight) && i < |roots| && roots[i].Variable?
    requires Strong(heap, roots[i].context.definitions) == 1
    ensures values[i].Held?
    ensures Sound(heap[roots[i].context.definitions := DefinitionsCell(1, definitions)], roots,
                  values[i := Held(values[i].content.(definitions := definitions))], flight)
  {
    var context := roots[i].context;
    var a := context.definitions;
    var after := heap[a := DefinitionsCell(1, definitions)];
    assert Represents(heap, roots[i], values[i]);
    OnlyHolder(heap, roots, flight, i, a);
    ChangedInPlace(heap, AllHandles(roots) + flight, a, definitions);
    MeansChanged(heap, context, values[i].content, definitions);
    forall j | 0 <= j < |roots| && j != i ensures Represents(after, roots[j], values[j]) {
      TakenOut(roots[i := Empty], j);
      RepresentsKept(heap, after, a, roots[j], values[j]);
    }
  }

  // ----- the operations on contexts

  lemma NewSound(heap: seq<Cell>, roots: seq<Root>, values: seq<Value>, i: nat, a: Address, scalars: Scalars)
    requires Sound(heap, roots, values, multiset{}) && i < |roots| && roots[i].Empty? && a < |heap| && heap[a].Vacant?
    ensures Sound(heap[a := DefinitionsCell(1, map[])], roots[i := Variable(Context(scalars, a, None))],
                  values[i := Held(Content(scalars, map[], NoPrevious))], multiset{})
  {
    var cell := DefinitionsCell(1, map[]);
    var root := Variable(Context(scalars, a, None));
    assert multiset{} + CellHandles(cell) == multiset{};
    CellAllocated(heap, roots, values, multiset{}, a, cell);
    assert multiset{} + RootHandles(root) == multiset{} + multiset{a};
    RootPut(heap[a := cell], roots, values, multiset{}, i, root, Held(Content(scalars, map[], NoPrevious)));
  }

  lemma {:induction false} ContextLive(heap: seq<Cell>, roots: seq<Root>, values: seq<Value>, flight: multiset<Address>,
      i: nat)
    requires Sound(heap, roots, values, flight) && i < |roots| && roots[i].Variable?
    ensures Strong(heap, roots[i].context.definitions) > 0
    ensures roots[i].context.previous.Some? ==> Strong(heap, roots[i].context.previous.value) > 0
    ensures values[i].Held? && Means(heap, roots[i].context, values[i].content)
  {
    var context := roots[i].context;
    assert Represents(heap, roots[i], values[i]);
    HandlesLive(heap, roots, values, flight, i, context.definitions);
    if context.previous.Some? {
      HandlesLive(heap, roots, values, flight, i, context.previous.value);
    }
  }

  /** A second variable with the context of a first, or of a cell. */
  lemma {:induction false} CloneSound(heap: seq<Cell>, roots: seq<Root>, values: seq<Value>, context: Context,
      content: Content, j: nat)
    requires Sound(heap, roots, values, multiset{}) && j < |roots| && roots[j].Empty?
    requires Means(heap, context, content)
    requires Strong(heap, context.definitions) > 0
        && (context.previous.Some? ==> Strong(heap, context.previous.value) > 0)
    ensures Sound(RetainContext(heap, context), roots[j := Variable(context)], values[j := Held(content)], multiset{})
  {
    ContextRetained(heap, roots, values, multiset{}, context);
    MeansStays(heap, RetainContext(heap, context), AllHandles(roots) + multiset{}, context, content);
    RootPut(RetainContext(heap, context), roots, values, multiset{}, j, Variable(context), Held(content));
  }

  function RootHandleList(root: Root): (r: seq<Address>)
    ensures multiset(r) == RootHandles(root)
  {
    match root
    case Empty => []
    case Variable(context) => HandleList(context)
    case Cached(_, active, _, _, _, result) => HandleList(active) + [result]
  }

  lemma {:induction false} DropSound(heap: seq<Cell>, roots: seq<Root>, values: seq<Value>, i: nat)
    requires Sound(heap, roots, values, multiset{}) && i < |roots|
    ensures Sound(ReleaseAll(heap, RootHandleList(roots[i])), roots[i := Empty], values[i := NoValue], multiset{})
  {
    RootTaken(heap, roots, values, multiset{}, i);
    HandlesReleased(heap, roots[i := Empty], values[i := NoValue], multiset{}, RootHandleList(roots[i]));
  }

  function CellHandleList(cell: Cell): (r: seq<Address>)
    ensures multiset(r) == CellHandles(cell)
  {
    if cell.ContextCell? then HandleList(cell.context) else []
  }

  lemma FreeSound(heap: seq<Cell>, roots: seq<Root>, values: seq<Value>, a: Address)
    requires Sound(heap, roots, values, multiset{}) && a < |heap| && !heap[a].Vacant? && heap[a].strong == 0
    ensures Sound(ReleaseAll(heap[a := Vacant], CellHandleList(heap[a])), roots, values, multiset{})
  {
    CellFreed(heap, roots, values, multiset{}, a);
    HandlesReleased(heap[a := Vacant], roots, values, multiset{}, CellHandleList(heap[a]));
  }

  /** Copy on write, when there are other handles to the definitions. */
  lemma CopySound(heap: seq<Cell>, roots: seq<Root>, values: seq<Value>, i: nat, a: Address, definitions: Definitions)
    requires Sound(heap, roots, values, multiset{}) && i < |roots| && roots[i].Variable? && a < |heap|
        && heap[a].Vacant?
    ensures values[i].Held?
    ensures Sound(ReleaseAll(heap[a := DefinitionsCell(1, definitions)], [roots[i].context.definitions]),
                  roots[i := Variable(roots[i].context.(definitions := a))],
                  values[i := Held(values[i].content.(definitions := definitions))], multiset{})
  {
    var context, content := roots[i].context, values[i].content;
    ContextLive(heap, roots, values, multiset{}, i);
    var cell := DefinitionsCell(1, definitions);
    var roots1, values1 := roots[i := Empty], values[i := NoValue];
    RootTaken(heap, roots, values, multiset{}, i);
    var flight := multiset{} + RootHandles(roots[i]);
    assert flight + CellHandles(cell) == flight;
    CellAllocated(heap, roots1, values1, flight, a, cell);
    var heap1 := heap[a := cell];
    MeansStays(heap, heap1, AllHandles(roots1) + flight, context, content);
    var root := Variable(context.(definitions := a));
    var value := Held(content.(definitions := definitions));
    CopiedFlight(context, a);
    RootPut(heap1, roots1, values1, multiset([context.definitions]), i, root, value);
    assert multiset{} + multiset([context.definitions]) == multiset([context.definitions]);
    HandlesReleased(heap1, roots1[i := root], values1[i := value], multiset{}, [context.definitions]);
    assert roots1[i := root] == roots[i := root] && values1[i := value] == values[i := value];
  }

  lemma CopiedFlight(context: Context, a: Address)
    ensures multiset{} + RootHandles(Variable(context)) + multiset{a}
         == multiset([context.definitions]) + RootHandles(Variable(context.(definitions := a)))
  {
  }

  lemma ScalarsSound(heap: seq<Cell>, roots: seq<Root>, values: seq<Value>, i: nat, scalars: Scalars)
    requires Sound(heap, roots, values, multiset{}) && i < |roots| && roots[i].Variable?
    ensures values[i].Held?
    ensures Sound(heap, roots[i := Variable(roots[i].context.(scalars := scalars))],
                  values[i := Held(values[i].content.(scalars := scalars))], multiset{})
  {
    ContextLive(heap, roots, values, multiset{}, i);
    var root := Variable(roots[i].context.(scalars := scalars));
    var value := Held(values[i].content.(scalars := scalars));
    RootTaken(heap, roots, values, multiset{}, i);
    assert RootHandles(root) == RootHandles(roots[i]);
    RootPut(heap, roots[i := Empty], values[i := NoValue], multiset{}, i, root, value);
    assert roots[i := Empty][i := root] == roots[i := root] && values[i := NoValue][i := value] == values[i := value];
  }

  /** A context moves out of its variable into a cell of its own. */
  lemma BoxSound(heap: seq<Cell>, roots: seq<Root>, values: seq<Value>, j: nat, a: Address)
    requires Sound(heap, roots, values, multiset{}) && j < |roots| && roots[j].Variable? && a < |heap|
        && heap[a].Vacant?
    ensures values[j].Held?
    ensures Kept(heap, heap[a := ContextCell(1, roots[j].context)], |heap|)
    ensures Sound(heap[a := ContextCell(1, roots[j].context)], roots[j := Empty], values[j := NoValue], multiset{a})
    ensures Means(heap[a := ContextCell(1, roots[j].context)], roots[j].context, values[j].content)
  {
    ContextLive(heap, roots, values, multiset{}, j);
    RootTaken(heap, roots, values, multiset{}, j);
    var cell := ContextCell(1, roots[j].context);
    CellAllocated(heap, roots[j := Empty], values[j := NoValue], multiset{}, a, cell);
    assert multiset{} + multiset{a} == multiset{a};
    MeansStays(heap, heap[a := cell], AllHandles(roots) + multiset{}, roots[j].context, values[j].content);
  }

  function PreviousList(context: Context): seq<Address> {
    match context.previous case None => [] case Some(a) => [a]
  }

  lemma PreviousFlight(context: Context, a: Address)
    ensures multiset{a} + RootHandles(Variable(context))
         == multiset(PreviousList(context)) + RootHandles(Variable(context.(previous := Some(a))))
  {
  }

  lemma {:induction false} PreviousSound(heap: seq<Cell>, roots: seq<Root>, values: seq<Value>, i: nat, a: Address,
      previous: Content)
    requires Sound(heap, roots, values, multiset{a}) && i < |roots| && roots[i].Variable?
    requires a < |heap| && heap[a].ContextCell? && Means(heap, heap[a].context, previous)
    ensures values[i].Held?
    ensures Sound(ReleaseAll(heap, PreviousList(roots[i].context)),
        roots[i := Variable(roots[i].context.(previous := Some(a)))],
                  values[i := Held(values[i].content.(previous := Previous(previous)))], multiset{})
  {
    var context := roots[i].context;
    ContextLive(heap, roots, values, multiset{a}, i);
    var root := Variable(context.(previous := Some(a)));
    var value := Held(values[i].content.(previous := Previous(previous)));
    RootTaken(heap, roots, values, multiset{a}, i);
    PreviousFlight(context, a);
    RootPut(heap, roots[i := Empty], values[i := NoValue], multiset(PreviousList(context)), i, root, value);
    assert multiset{} + multiset(PreviousList(context)) == multiset(PreviousList(context));
    assert roots[i := Empty][i := root] == roots[i := root] && values[i := NoValue][i := value] == values[i := value];
    HandlesReleased(heap, roots[i := root], values[i := value], multiset{}, PreviousList(context));
  }

  /** An entry takes over the active context's handles and the one to the boxed result. */
  lemma {:induction false} EntrySound(heap: seq<Cell>, roots: seq<Root>, values: seq<Value>, i: nat, k: nat, root: Root,
      result: Content)
    requires Sound(heap, roots, values, if root.Cached? then multiset{root.result} else multiset{})
    requires i < |roots| && roots[i].Variable? && k < |roots| && roots[k].Empty?
    requires root.Cached? && root.active == roots[i].context
    requires root.result < |heap| && heap[root.result].ContextCell? && Means(heap, heap[root.result].context, result)
    ensures values[i].Held?
    ensures Sound(heap, roots[i := Empty][k := root], values[i := NoValue][k := Entry(values[i].content, result)],
        multiset{})
  {
    ContextLive(heap, roots, values, multiset{root.result}, i);
    RootTaken(heap, roots, values, multiset{root.result}, i);
    assert multiset{root.result} + RootHandles(roots[i]) == multiset{} + RootHandles(root);
    RootPut(heap, roots[i := Empty], values[i := NoValue], multiset{}, k, root, Entry(values[i].content, result));
  }

  // ----- the cache

  /** Addresses, scalars up to the case of the language tag, and everything of the local context and options. */
  predicate Matches(entry: Root, active: Context, local: Local, base: Option<Iri>, options: Options)
    requires entry.Cached?
  {
    && entry.active.definitions == active.definitions
    && entry.active.previous == active.previous
    && entry.active.scalars.originalBaseUrl == active.scalars.originalBaseUrl
    && entry.active.scalars.baseIri == active.scalars.baseIri
    && entry.active.scalars.vocabulary == active.scalars.vocabulary
    && SameOptionalTag(entry.active.scalars.language, active.scalars.language)
    && entry.active.scalars.direction == active.scalars.direction
    && entry.base == base
    && entry.options == options
    && SameLocal(entry.local, local)
  }

  /** Contexts that differ at most in the mode they were processed under and in the case of a language tag. */
  predicate SameButMode(c: Content, d: Content) {
    && c.definitions == d.definitions
    && c.previous == d.previous
    && c.scalars.originalBaseUrl == d.scalars.originalBaseUrl
    && c.scalars.baseIri == d.scalars.baseIri
    && c.scalars.vocabulary == d.scalars.vocabulary
    && SameOptionalTag(c.scalars.language, d.scalars.language)
    && c.scalars.direction == d.scalars.direction
  }

  /** Equal addresses are equal contents, whatever has happened since the entry was made. */
  lemma MatchIsContent(heap: seq<Cell>, roots: seq<Root>, values: seq<Value>, e: nat, i: nat, local: Local,
      base: Option<Iri>, options: Options)
    requires Sound(heap, roots, values, multiset{}) && e < |roots| && roots[e].Cached? && i < |roots|
        && roots[i].Variable?
    requires Matches(roots[e], roots[i].context, local, base, options)
    ensures values[e].Entry? && values[i].Held? && SameButMode(values[e].active, values[i].content)
  {
    assert Represents(heap, roots[e], values[e]) && Represents(heap, roots[i], values[i]);
    var entry, context := roots[e].active, roots[i].context;
    var a, c := values[e].active, values[i].content;
    if entry.previous.Some? {
      MeansUnique(heap, heap[entry.previous.value].context, a.previous.content, c.previous.content);
    }
  }

  lemma {:induction false} ResultLive(heap: seq<Cell>, roots: seq<Root>, values: seq<Value>, e: nat)
    requires Sound(heap, roots, values, multiset{}) && e < |roots| && roots[e].Cached?
    ensures roots[e].result < |heap| && heap[roots[e].result].ContextCell? && values[e].Entry?
    ensures var context := heap[roots[e].result].context;
            && Strong(heap, context.definitions) > 0
            && (context.previous.Some? ==> Strong(heap, context.previous.value) > 0)
            && Means(heap, context, values[e].result)
  {
    assert Represents(heap, roots[e], values[e]);
    var a := roots[e].result;
    var context := heap[a].context;
    CellHandlesLive(heap, AllHandles(roots) + multiset{}, a, context.definitions);
    if context.previous.Some? {
      CellHandlesLive(heap, AllHandles(roots) + multiset{}, a, context.previous.value);
    }
  }

  lemma CellHandlesLive(heap: seq<Cell>, held: multiset<Address>, a: Address, b: Address)
    requires Counted(heap, held) && a < |heap| && b in CellHandles(heap[a])
    ensures Strong(heap, b) > 0
  {
    HeapRefsUpdate(heap, a, Vacant, b);
    assert Strong(heap, b) == HeapRefs(heap, b) + held[b];
  }

  /** The other way round: the same context, unchanged, is recognised. */
  lemma MatchesItself(entry: Root)
    requires entry.Cached?
    ensures Matches(entry, entry.active, entry.local, entry.base, entry.options)
  {
  }

  /** Every entry's result is that of processing the entry's inputs. */
  ghost predicate EntriesRight(entries: map<nat, nat>, roots: seq<Root>, values: seq<Value>, process: Processing) {
    && |values| == |roots|
    && forall k :: k in entries ==>
         && entries[k] < |roots| && roots[entries[k]].Cached? && roots[entries[k]].key == k
         && values[entries[k]].Entry?
         && var r := roots[entries[k]];
            values[entries[k]].result == process(values[entries[k]].active, r.local, r.base, r.options)
  }

  ghost predicate Right(heap: seq<Cell>, roots: seq<Root>, entries: map<nat, nat>, values: seq<Value>,
                        process: Processing) {
    Sound(heap, roots, values, multiset{}) && EntriesRight(entries, roots, values, process)
  }

  /** Memory once a root has given up its handles. */
  function Dropped(heap: seq<Cell>, root: Root): (after: seq<Cell>)
    ensures KeepsVacant(heap, after)
  {
    ReleaseAll(heap, RootHandleList(root))
  }

  lemma RemoveRight(heap: seq<Cell>, roots: seq<Root>, entries: map<nat, nat>, values: seq<Value>, process: Processing,
      key: nat, e: nat)
    requires Right(heap, roots, entries, values, process) && key in entries && entries[key] == e
    ensures e < |roots| == |values|
    ensures Right(Dropped(heap, roots[e]), roots[e := Empty], entries - {key}, values[e := NoValue], process)
    ensures NoNewEntry(entries, roots, entries - {key}, roots[e := Empty], None)
  {
    DropSound(heap, roots, values, e);
    EntriesRemoved(entries, roots, values, process, key);
  }

  lemma {:induction false} InsertRight(heap: seq<Cell>, roots: seq<Root>, entries: map<nat, nat>, values: seq<Value>,
                    process: Processing, i: nat, k: nat, root: Root)
    requires root.Cached? && Sound(heap, roots, values, multiset{root.result})
        && EntriesRight(entries, roots, values, process)
    requires i < |roots| && roots[i].Variable? && k < |roots| && roots[k].Empty? && root.active == roots[i].context
    requires root.result < |heap| && heap[root.result].ContextCell?
    requires values[i].Held? && Means(heap, heap[root.result].context,
        process(values[i].content, root.local, root.base, root.options))
    ensures Right(heap, roots[i := Empty][k := root], entries[root.key := k],
                  values[i := NoValue][k := Entry(values[i].content,
                      process(values[i].content, root.local, root.base, root.options))], process)
  {
    var result := process(values[i].content, root.local, root.base, root.options);
    EntrySound(heap, roots, values, i, k, root, result);
    EntriesUntouched(entries, roots, values, process, i, Empty, NoValue);
    EntryAdded(entries, roots[i := Empty], values[i := NoValue], process, k, root, values[i].content);
  }

  /** There are no entries but those there were, except under `key`. */
  ghost predicate NoNewEntry(entries: map<nat, nat>, roots: seq<Root>, entries1: map<nat, nat>, roots1: seq<Root>,
      but: Option<nat>) {
    forall k :: k in entries1 && Some(k) != but ==>
      k in entries && entries[k] < |roots| && entries1[k] < |roots1| && roots1[entries1[k]] == roots[entries[k]]
  }

  lemma NoNewEntryStill(entries: map<nat, nat>, roots: seq<Root>, entries1: map<nat, nat>, roots1: seq<Root>,
      entries2: map<nat, nat>, roots2: seq<Root>, but: Option<nat>)
    requires NoNewEntry(entries, roots, entries1, roots1, None) && NoNewEntry(entries1, roots1, entries2, roots2, but)
    ensures NoNewEntry(entries, roots, entries2, roots2, but)
  {
  }

  /** Roots that are no entries may change. */
  lemma EntriesUntouched(entries: map<nat, nat>, roots: seq<Root>, values: seq<Value>, process: Processing,
                         i: nat, root: Root, value: Value)
    requires EntriesRight(entries, roots, values, process) && i < |roots| && !roots[i].Cached?
    ensures EntriesRight(entries, roots[i := root], values[i := value], process)
    ensures NoNewEntry(entries, roots, entries, roots[i := root], None)
  {
    forall k | k in entries ensures entries[k] != i { assert roots[entries[k]].Cached?; }
  }

  lemma EntriesRemoved(entries: map<nat, nat>, roots: seq<Root>, values: seq<Value>, process: Processing, key: nat)
    requires EntriesRight(entries, roots, values, process) && key in entries
    ensures EntriesRight(entries - {key}, roots[entries[key] := Empty], values[entries[key] := NoValue], process)
    ensures NoNewEntry(entries, roots, entries - {key}, roots[entries[key] := Empty], None)
  {
    forall k | k in entries - {key} ensures entries[k] != entries[key] { assert roots[entries[k]].key == k; }
  }

  lemma EntryAdded(entries: map<nat, nat>, roots: seq<Root>, values: seq<Value>, process: Processing,
                   k: nat, root: Root, active: Content)
    requires EntriesRight(entries, roots, values, process) && k < |roots| && !roots[k].Cached? && root.Cached?
    ensures EntriesRight(entries[root.key := k], roots[k := root],
                         values[k := Entry(active, process(active, root.local, root.base, root.options))], process)
  {
    forall other | other in entries ensures entries[other] != k { assert roots[entries[other]].Cached?; }
  }

  /** An entry is added, and the variables its contexts come from are emptied. */
  lemma OneNewEntry(entries: map<nat, nat>, roots: seq<Root>, values: seq<Value>, process: Processing,
      i: nat, j: nat, k: nat, root: Root)
    requires EntriesRight(entries, roots, values, process) && root.Cached?
    requires i < |roots| && j < |roots| && k < |roots|
    requires !roots[i].Cached? && !roots[j].Cached? && !roots[k].Cached?
    ensures NoNewEntry(entries, roots, entries[root.key := k], roots[j := Empty][i := Empty][k := root], Some(root.key))
  {
    forall other | other in entries ensures entries[other] !in [i, j, k] { assert roots[entries[other]].Cached?; }
  }

  ghost predicate OthersKept(roots: seq<Root>, values: seq<Value>, roots1: seq<Root>, values1: seq<Value>) {
    && |roots1| == |roots| == |values| == |values1|
    && forall v :: 0 <= v < |roots| && !roots[v].Cached? ==> roots1[v] == roots[v] && values1[v] == values[v]
  }

  ghost predicate KeepsVacant(heap: seq<Cell>, after: seq<Cell>) {
    |heap| == |after| && forall a :: 0 <= a < |heap| && heap[a].Vacant? ==> after[a].Vacant?
  }

  ghost predicate KeepsVacantBut(heap: seq<Cell>, after: seq<Cell>, x: Address) {
    |heap| == |after| && forall a :: 0 <= a < |heap| && a != x && heap[a].Vacant? ==> after[a].Vacant?
  }

  ghost predicate SameRootsBut(roots: seq<Root>, after: seq<Root>, i: nat) {
    |roots| == |after| && forall v :: 0 <= v < |roots| && v != i ==> after[v] == roots[v]
  }

  /** Variables other than the three named keep what they hold. */
  ghost predicate SameVariables(roots: seq<Root>, after: seq<Root>, i: nat, j: nat, k: nat) {
    && |roots| == |after|
    && forall v :: 0 <= v < |roots| && !roots[v].Cached? && v != i && v != j && v != k ==> after[v] == roots[v]
  }

  lemma OneEmptied(roots: seq<Root>, values: seq<Value>, e: nat)
    requires |values| == |roots| && e < |roots| && roots[e].Cached?
    ensures OthersKept(roots, values, roots[e := Empty], values[e := NoValue])
  {
  }

  lemma OthersKeptStill(roots: seq<Root>, values: seq<Value>, roots1: seq<Root>, values1: seq<Value>, roots2: seq<Root>,
      values2: seq<Value>)
    requires OthersKept(roots, values, roots1, values1) && OthersKept(roots1, values1, roots2, values2)
    ensures OthersKept(roots, values, roots2, values2)
  {
  }

  lemma Readded(m: map<nat, nat>, key: nat, k: nat)
    ensures (m - {key})[key := k] == m[key := k]
  {
  }

  /** The values without the entry under a key. */
  ghost function WithoutEntry(entries: map<nat, nat>, values: seq<Value>, key: nat): (r: seq<Value>)
    ensures |r| == |values|
  {
    if key in entries && entries[key] < |values| then values[entries[key] := NoValue] else values
  }

  /** Processing gives one answer to inputs the cache cannot tell apart. */
  ghost predicate Indifferent(process: Processing) {
    forall c: Content, d: Content, l: Local, m: Local, base: Option<Iri>, options: Options ::
      SameButMode(c, d) && SameLocal(l, m) ==> process(c, l, base, options) == process(d, m, base, options)
  }

  /** Inputs that are told apart by comparing them: one mode, and one spelling of each tag. */
  datatype Use = Use(mode: Mode, tags: set<string>) {
    predicate OneSpelling() {
      forall s, t :: s in tags && t in tags && SameTag(s, t) ==> s == t
    }

    predicate Covers(scalars: Scalars, local: Local) {
      && scalars.mode == mode
      && (scalars.language.Some? ==> scalars.language.value in tags)
      && forall i :: 0 <= i < |local.tags| ==> local.tags[i] in tags
    }
  }

  /** Every entry was made for inputs that `use` covers. */
  ghost predicate UsedWith(entries: map<nat, nat>, roots: seq<Root>, use: Use) {
    forall k :: k in entries ==>
      entries[k] < |roots| && roots[entries[k]].Cached?
      && use.Covers(roots[entries[k]].active.scalars, roots[entries[k]].local)
  }

  /** A cache goes on being used with covered inputs when nothing but an entry for such inputs is added. */
  lemma UseKept(entries: map<nat, nat>, roots: seq<Root>, entries1: map<nat, nat>, roots1: seq<Root>,
      but: Option<nat>, use: Use)
    requires UsedWith(entries, roots, use) && NoNewEntry(entries, roots, entries1, roots1, but)
    requires but.Some? && but.value in entries1 ==>
      entries1[but.value] < |roots1| && roots1[entries1[but.value]].Cached?
      && use.Covers(roots1[entries1[but.value]].active.scalars, roots1[entries1[but.value]].local)
    ensures UsedWith(entries1, roots1, use)
  {
  }

  /** What a match leaves open is settled: the modes agree, and the spelling of tags. */
  predicate EqualInputs(entry: Root, active: Context, local: Local) {
    entry.Cached? && entry.active.scalars == active.scalars && entry.local == local
  }

  /** Covered inputs that match an entry are the entry's. */
  lemma CoveredMatchIsEqual(use: Use, entry: Root, active: Context, local: Local, base: Option<Iri>, options: Options)
    requires use.OneSpelling() && entry.Cached? && Matches(entry, active, local, base, options)
    requires use.Covers(entry.active.scalars, entry.local) && use.Covers(active.scalars, local)
    ensures EqualInputs(entry, active, local)
  {
    assert entry.active.scalars == active.scalars;
    assert entry.local.tags == local.tags;
  }

  /** The value of an entry is what its inputs are processed to. */
  ghost predicate ResultOfEntry(process: Processing, entry: Root, value: Value) {
    && entry.Cached? && value.Entry?
    && value.result == process(value.active, entry.local, entry.base, entry.options)
  }

  /** A hit gives the result of the entry's inputs, and so of the inputs given when those are the same. */
  lemma {:induction false} EqualHitRight(heap: seq<Cell>, roots: seq<Root>, entries: map<nat, nat>, values: seq<Value>,
      process: Processing, key: nat, i: nat, local: Local, base: Option<Iri>, options: Options)
    requires Right(heap, roots, entries, values, process) && key in entries
    requires i < |roots| && roots[i].Variable?
    requires Matches(roots[entries[key]], roots[i].context, local, base, options)
    ensures values[i].Held? && ResultOfEntry(process, roots[entries[key]], values[entries[key]])
    ensures EqualInputs(roots[entries[key]], roots[i].context, local)
        ==> values[entries[key]].result == process(values[i].content, local, base, options)
  {
    var e := entries[key];
    MatchIsContent(heap, roots, values, e, i, local, base, options);
    assert Represents(heap, roots[e], values[e]) && Represents(heap, roots[i], values[i]);
  }

  /** The entries and the inputs given are covered by one use. */
  ghost predicate OneUse(entries: map<nat, nat>, roots: seq<Root>, active: Context, local: Local) {
    exists use: Use :: use.OneSpelling() && UsedWith(entries, roots, use) && use.Covers(active.scalars, local)
  }

  /** A cache that is used with inputs that one use covers settles what a match leaves open. */
  lemma OneUseIsEqual(entries: map<nat, nat>, roots: seq<Root>, key: nat, active: Context, local: Local,
      base: Option<Iri>, options: Options)
    requires OneUse(entries, roots, active, local) && key in entries
    requires entries[key] < |roots| && roots[entries[key]].Cached?
    requires Matches(roots[entries[key]], active, local, base, options)
    ensures EqualInputs(roots[entries[key]], active, local)
  {
    var use: Use :| use.OneSpelling() && UsedWith(entries, roots, use) && use.Covers(active.scalars, local);
    CoveredMatchIsEqual(use, roots[entries[key]], active, local, base, options);
  }

  /** What makes a hit the result of processing the inputs given. */
  ghost predicate Settled(entries: map<nat, nat>, roots: seq<Root>, process: Processing, key: nat, active: Context,
      local: Local)
    requires key in entries && entries[key] < |roots|
  {
    EqualInputs(roots[entries[key]], active, local) || OneUse(entries, roots, active, local) || Indifferent(process)
  }

  lemma {:induction false} SettledHit(heap: seq<Cell>, roots: seq<Root>, entries: map<nat, nat>, values: seq<Value>,
      process: Processing, key: nat, i: nat, local: Local, base: Option<Iri>, options: Options)
    requires Right(heap, roots, entries, values, process) && key in entries
    requires i < |roots| && roots[i].Variable?
    requires Matches(roots[entries[key]], roots[i].context, local, base, options)
    ensures values[i].Held? && ResultOfEntry(process, roots[entries[key]], values[entries[key]])
    ensures SameButMode(values[entries[key]].active, values[i].content)
    ensures Settled(entries, roots, process, key, roots[i].context, local)
        ==> values[entries[key]].result == process(values[i].content, local, base, options)
  {
    EqualHitRight(heap, roots, entries, values, process, key, i, local, base, options);
    MatchIsContent(heap, roots, values, entries[key], i, local, base, options);
    if OneUse(entries, roots, roots[i].context, local) {
      OneUseIsEqual(entries, roots, key, roots[i].context, local, base, options);
    }
  }

  method WithEntry(heap: seq<Cell>, roots: seq<Root>, entries: map<nat, nat>, ghost values: seq<Value>,
      ghost process: Processing, i: nat, k: nat, root: Root)
    returns (roots': seq<Root>, entries': map<nat, nat>, ghost values': seq<Value>)
    requires root.Cached? && Sound(heap, roots, values, multiset{root.result})
        && EntriesRight(entries, roots, values, process)
    requires i < |roots| && roots[i].Variable? && k < |roots| && roots[k].Empty? && root.active == roots[i].context
    requires root.result < |heap| && heap[root.result].ContextCell? && values[i].Held?
    requires Means(heap, heap[root.result].context, process(values[i].content, root.local, root.base, root.options))
    ensures Right(heap, roots', entries', values', process)
    ensures roots' == roots[i := Empty][k := root] && entries' == entries[root.key := k]
    ensures values' == values[i := NoValue][k :=
        Entry(values[i].content, process(values[i].content, root.local, root.base, root.options))]
  {
    InsertRight(heap, roots, entries, values, process, i, k, root);
    roots', entries' := roots[i := Empty][k := root], entries[root.key := k];
    values' := values[i := NoValue][k :=
        Entry(values[i].content, process(values[i].content, root.local, root.base, root.options))];
  }

  method WithoutKey(heap: seq<Cell>, roots: seq<Root>, entries: map<nat, nat>, ghost values: seq<Value>,
      ghost process: Processing, key: nat)
    returns (heap': seq<Cell>, roots': seq<Root>, entries': map<nat, nat>, ghost values': seq<Value>)
    requires Right(heap, roots, entries, values, process) && key in entries
    ensures Right(heap', roots', entries', values', process) && KeepsVacant(heap, heap')
    ensures NoNewEntry(entries, roots, entries', roots', None)
    ensures entries[key] < |roots| == |values|
    ensures roots' == roots[entries[key] := Empty] && entries' == entries - {key}
        && values' == values[entries[key] := NoValue]
  {
    var e := entries[key];
    RemoveRight(heap, roots, entries, values, process, key, e);
    heap', roots', entries', values' := Dropped(heap, roots[e]), roots[e := Empty], entries - {key},
        values[e := NoValue];
  }

  lemma HitRight(heap: seq<Cell>, roots: seq<Root>, entries: map<nat, nat>, values: seq<Value>, process: Processing,
                 key: nat, i: nat, local: Local, base: Option<Iri>, options: Options, j: nat)
    requires Right(heap, roots, entries, values, process) && key in entries
    requires i < |roots| && roots[i].Variable? && j < |roots| && roots[j].Empty?
    requires Matches(roots[entries[key]], roots[i].context, local, base, options)
    ensures roots[entries[key]].result < |heap| && heap[roots[entries[key]].result].ContextCell?
    ensures var context := heap[roots[entries[key]].result].context;
            && Strong(heap, context.definitions) > 0
                && (context.previous.Some? ==> Strong(heap, context.previous.value) > 0)
            && Right(RetainContext(heap, context), roots[j := Variable(context)], entries,
                     values[j := Held(values[entries[key]].result)], process)
    ensures NoNewEntry(entries, roots, entries,
        roots[j := Variable(heap[roots[entries[key]].result].context)], None)
  {
    var e := entries[key];
    ResultLive(heap, roots, values, e);
    var context := heap[roots[e].result].context;
    CloneSound(heap, roots, values, context, values[e].result, j);
    EntriesUntouched(entries, roots, values, process, j, Variable(context), Held(values[e].result));
  }

  /** What a hit does to the values. */
  ghost predicate Found(entries: map<nat, nat>, roots: seq<Root>, values: seq<Value>, process: Processing, key: nat,
      i: nat, local: Local, base: Option<Iri>, options: Options, j: nat, after: seq<Value>)
    requires |values| == |roots| && key in entries && entries[key] < |roots|
    requires i < |roots| && roots[i].Variable? && j < |roots|
  {
    && values[i].Held? && values[entries[key]].Entry?
    && after == values[j := Held(values[entries[key]].result)]
    // it is the result of the entry's inputs, which are the inputs given up to the mode and the case of tags
    && ResultOfEntry(process, roots[entries[key]], values[entries[key]])
    && SameButMode(values[entries[key]].active, values[i].content)
    && (Settled(entries, roots, process, key, roots[i].context, local) ==>
          after == values[j := Held(process(values[i].content, local, base, options))])
  }

  method WithResult(heap: seq<Cell>, roots: seq<Root>, entries: map<nat, nat>, ghost values: seq<Value>,
      ghost process: Processing, key: nat, ghost i: nat, ghost local: Local, ghost base: Option<Iri>,
      ghost options: Options, j: nat)
    returns (heap': seq<Cell>, roots': seq<Root>, ghost values': seq<Value>)
    requires Right(heap, roots, entries, values, process) && key in entries
    requires i < |roots| && roots[i].Variable? && j < |roots| && roots[j].Empty?
    requires Matches(roots[entries[key]], roots[i].context, local, base, options)
    ensures Right(heap', roots', entries, values', process) && NoNewEntry(entries, roots, entries, roots', None)
    ensures Found(entries, roots, values, process, key, i, local, base, options, j, values')
  {
    SettledHit(heap, roots, entries, values, process, key, i, local, base, options);
    HitRight(heap, roots, entries, values, process, key, i, local, base, options, j);
    var context := heap[roots[entries[key]].result].context;
    heap', roots' := RetainContext(heap, context), roots[j := Variable(context)];
    values' := values[j := Held(values[entries[key]].result)];
  }

  class Program {
    var heap: seq<Cell>
    var roots: seq<Root>
    var entries: map<nat, nat>
    ghost var values: seq<Value>
    ghost const process: Processing

    ghost predicate Valid()
      reads this
    {
      Right(heap, roots, entries, values, process)
    }

    constructor (ghost process: Processing)
      ensures Valid() && heap == [] && roots == [] && values == [] && entries == map[] && this.process == process
    {
      this.process := process;
      heap, roots, entries, values := [], [], map[], [];
      new;
      assert forall a: Address :: Strong(heap, a) == HeapRefs(heap, a) + (AllHandles(roots) + multiset{})[a];
    }

    method Extend()
      requires Valid()
      modifies this
      ensures Valid() && values == old(values) + [NoValue] && entries == old(entries)
      ensures NoNewEntry(old(entries), old(roots), entries, roots, None)
      ensures heap == old(heap) + [Vacant] && roots == old(roots) + [Empty]
    {
      Extended(heap, roots, values);
      heap, roots, values := heap + [Vacant], roots + [Empty], values + [NoValue];
    }

    /** `Context::new`, at whatever free address the allocator picks. */
    method New(i: nat, a: Address, base: Option<Iri>)
      requires Valid() && i < |roots| && roots[i].Empty? && a < |heap| && heap[a].Vacant?
      modifies this
      ensures Valid() && entries == old(entries)
      ensures NoNewEntry(old(entries), old(roots), entries, roots, None)
      ensures KeepsVacantBut(old(heap), heap, a) && SameRootsBut(old(roots), roots, i) && roots[i].Variable?
      ensures values == old(values)[i :=
          Held(Content(Scalars(base, base, None, None, None, JsonLd11), map[], NoPrevious))]
    {
      var scalars := Scalars(base, base, None, None, None, JsonLd11);
      NewSound(heap, roots, values, i, a, scalars);
      heap := heap[a := DefinitionsCell(1, map[])];
      roots := roots[i := Variable(Context(scalars, a, None))];
      values := values[i := Held(Content(scalars, map[], NoPrevious))];
    }

    method Clone(i: nat, j: nat)
      requires Valid() && i < |roots| && roots[i].Variable? && j < |roots| && roots[j].Empty?
      modifies this
      ensures Valid() && entries == old(entries)
      ensures NoNewEntry(old(entries), old(roots), entries, roots, None)
      ensures KeepsVacant(old(heap), heap) && roots == old(roots)[j := old(roots[i])]
      ensures values == old(values)[j := old(values[i])]
    {
      ContextLive(heap, roots, values, multiset{}, i);
      CloneSound(heap, roots, values, roots[i].context, values[i].content, j);
      EntriesUntouched(entries, roots, values, process, j, Variable(roots[i].context), values[i]);
      heap := RetainContext(heap, roots[i].context);
      roots := roots[j := Variable(roots[i].context)];
      values := values[j := values[i]];
    }

    method Drop(i: nat)
      requires Valid() && i < |roots| && roots[i].Variable?
      modifies this
      ensures Valid() && entries == old(entries)
      ensures NoNewEntry(old(entries), old(roots), entries, roots, None)
      ensures values == old(values)[i := NoValue]
    {
      DropSound(heap, roots, values, i);
      EntriesUntouched(entries, roots, values, process, i, Empty, NoValue);
      heap := ReleaseAll(heap, RootHandleList(roots[i]));
      roots := roots[i := Empty];
      values := values[i := NoValue];
    }

    /** A cell whose last handle is gone gives its address back. */
    method Free(a: Address)
      requires Valid() && a < |heap| && !heap[a].Vacant? && heap[a].strong == 0
      modifies this
      ensures Valid() && entries == old(entries) && values == old(values)
      ensures NoNewEntry(old(entries), old(roots), entries, roots, None)
    {
      FreeSound(heap, roots, values, a);
      heap := ReleaseAll(heap[a := Vacant], CellHandleList(heap[a]));
    }

    /** `set_normal` and `set_type`: through `Arc::make_mut`, in place or on a copy at `a`. */
    method SetTerm(i: nat, term: string, definition: Option<string>, a: Address)
      requires Valid() && i < |roots| && roots[i].Variable? && a < |heap| && heap[a].Vacant?
      modifies this
      ensures Valid() && entries == old(entries)
      ensures NoNewEntry(old(entries), old(roots), entries, roots, None)
      ensures old(values[i]).Held?
      ensures var was := old(values[i]).content;
              var now := if definition.Some? then was.definitions[term := definition.value]
                  else was.definitions - {term};
              values == old(values)[i := Held(was.(definitions := now))]
    {
      ContextLive(heap, roots, values, multiset{}, i);
      var context := roots[i].context;
      var d := context.definitions;
      var now := if definition.Some? then heap[d].definitions[term := definition.value]
          else heap[d].definitions - {term};
      if heap[d].strong == 1 {
        DefinitionsChanged(heap, roots, values, multiset{}, i, now);
        heap := heap[d := DefinitionsCell(1, now)];
      } else {
        CopySound(heap, roots, values, i, a, now);
        heap := ReleaseAll(heap[a := DefinitionsCell(1, now)], [d]);
        roots := roots[i := Variable(context.(definitions := a))];
      }
      values := values[i := Held(values[i].content.(definitions := now))];
    }

    /** Base IRI, vocabulary, default language and direction, and processing mode. */
    method SetScalars(i: nat, scalars: Scalars)
      requires Valid() && i < |roots| && roots[i].Variable?
      modifies this
      ensures Valid() && entries == old(entries)
      ensures NoNewEntry(old(entries), old(roots), entries, roots, None)
      ensures heap == old(heap)
      ensures roots == old(roots)[i := Variable(old(roots[i]).context.(scalars := scalars))]
      ensures old(values[i]).Held? && values == old(values)[i := Held(old(values[i]).content.(scalars := scalars))]
    {
      ScalarsSound(heap, roots, values, i, scalars);
      roots := roots[i := Variable(roots[i].context.(scalars := scalars))];
      values := values[i := Held(values[i].content.(scalars := scalars))];
    }

    /** `set_previous_context`, which moves the context in variable `j`. */
    method SetPrevious(i: nat, j: nat, a: Address)
      requires Valid() && i < |roots| && roots[i].Variable? && j < |roots| && roots[j].Variable? && i != j
      requires a < |heap| && heap[a].Vacant?
      modifies this
      ensures Valid() && entries == old(entries)
      ensures NoNewEntry(old(entries), old(roots), entries, roots, None)
      ensures KeepsVacantBut(old(heap), heap, a)
      ensures roots == old(roots)[j := Empty][i := Variable(old(roots[i]).context.(previous := Some(a)))]
      ensures old(values[i]).Held? && old(values[j]).Held?
      ensures values == old(values)[j := NoValue][i :=
          Held(old(values[i]).content.(previous := Previous(old(values[j]).content)))]
    {
      ghost var previous := values[j].content;
      Box(j, a);
      ghost var value := Held(values[i].content.(previous := Previous(previous)));
      PreviousSound(heap, roots, values, i, a, previous);
      EntriesUntouched(entries, roots, values, process, i, Variable(roots[i].context.(previous := Some(a))), value);
      heap := ReleaseAll(heap, PreviousList(roots[i].context));
      roots := roots[i := Variable(roots[i].context.(previous := Some(a)))];
      values := values[i := value];
    }

    /** `Arc::new`: the context in a variable moves to a cell, whose one handle is in flight. */
    method Box(j: nat, a: Address)
      requires Valid() && j < |roots| && roots[j].Variable? && a < |heap| && heap[a].Vacant?
      modifies this
      ensures Sound(heap, roots, values, multiset{a}) && EntriesRight(entries, roots, values, process)
      ensures entries == old(entries) && old(values[j]).Held?
      ensures roots == old(roots)[j := Empty] && values == old(values)[j := NoValue]
      ensures KeepsVacantBut(old(heap), heap, a)
      ensures a < |heap| && heap[a].ContextCell? && Means(heap, heap[a].context, old(values[j]).content)
    {
      BoxSound(heap, roots, values, j, a);
      EntriesUntouched(entries, roots, values, process, j, Empty, NoValue);
      heap := heap[a := ContextCell(1, roots[j].context)];
      roots, values := roots[j := Empty], values[j := NoValue];
    }

    /** Looks the key up and verifies the hit against the inputs; a hit clones the result into `j`. */
    method Get(key: nat, i: nat, local: Local, base: Option<Iri>, options: Options, j: nat) returns (hit: bool)
      requires Valid() && i < |roots| && roots[i].Variable? && j < |roots| && roots[j].Empty?
      modifies this
      ensures Valid() && entries == old(entries)
      ensures NoNewEntry(old(entries), old(roots), entries, roots, None)
      ensures hit <==>
                key in old(entries)
                && Matches(old(roots[entries[key]]), old(roots[i]).context, local, base, options)
      ensures !hit ==> values == old(values)
      ensures |old(values)| == |old(roots)|
      ensures hit ==> Found(old(entries), old(roots), old(values), process, key, i, local, base, options, j, values)
    {
      hit := key in entries && Matches(roots[entries[key]], roots[i].context, local, base, options);
      if hit {
        heap, roots, values := WithResult(heap, roots, entries, values, process, key, i, local, base, options, j);
      }
    }

    /** Stores a result under a key, moving the contexts in `i` and `j`; a colliding entry is overwritten. */
    method Insert(key: nat, i: nat, local: Local, base: Option<Iri>, options: Options, j: nat, a: Address, k: nat)
      requires Valid() && i < |roots| && roots[i].Variable? && j < |roots| && roots[j].Variable? && i != j
      requires a < |heap| && heap[a].Vacant? && k < |roots| && roots[k].Empty?
      requires values[i].Held? && values[j] == Held(process(values[i].content, local, base, options))
      modifies this
      ensures Valid()
      ensures entries == old(entries)[key := k]
      ensures NoNewEntry(old(entries), old(roots), entries, roots, Some(key))
      ensures SameVariables(old(roots), roots, i, j, k)
          && roots[k] == Cached(key, old(roots[i]).context, local, base, options, a)
      ensures |old(values)| == |old(roots)|
      ensures values == WithoutEntry(old(entries), old(values), key)[j := NoValue][i := NoValue]
                        [k := Entry(old(values[i]).content, old(values[j]).content)]
    {
      Readded(entries, key, k);
      Evict(key);
      ghost var entries1, roots1 := entries, roots;
      Fill(key, i, local, base, options, j, a, k);
      NoNewEntryStill(old(entries), old(roots), entries1, roots1, entries, roots, Some(key));
    }

    method Fill(key: nat, i: nat, local: Local, base: Option<Iri>, options: Options, j: nat, a: Address, k: nat)
      requires Valid() && key !in entries
      requires i < |roots| && roots[i].Variable? && j < |roots| && roots[j].Variable? && i != j
      requires a < |heap| && heap[a].Vacant? && k < |roots| && roots[k].Empty?
      requires |values| == |roots| && values[i].Held?
          && values[j] == Held(process(values[i].content, local, base, options))
      modifies this
      ensures Valid()
      ensures entries == old(entries)[key := k]
      ensures NoNewEntry(old(entries), old(roots), entries, roots, Some(key))
      ensures roots == old(roots)[j := Empty][i := Empty][k :=
          Cached(key, old(roots[i]).context, local, base, options, a)]
      ensures values == old(values)[j := NoValue][i := NoValue][k :=
          Entry(old(values[i]).content, old(values[j]).content)]
    {
      OneNewEntry(entries, roots, values, process, i, j, k, Cached(key, roots[i].context, local, base, options, a));
      Box(j, a);
      var root := Cached(key, roots[i].context, local, base, options, a);
      roots, entries, values := WithEntry(heap, roots, entries, values, process, i, k, root);
    }

    /** Makes way for an entry under a key. */
    method Evict(key: nat)
      requires Valid()
      modifies this
      ensures Valid() && entries == old(entries) - {key}
      ensures NoNewEntry(old(entries), old(roots), entries, roots, None)
      ensures KeepsVacant(old(heap), heap)
      ensures OthersKept(old(roots), old(values), roots, values)
      ensures values == WithoutEntry(old(entries), old(values), key)
    {
      if key in entries {
        ghost var e := entries[key];
        assert roots[e].Cached?;
        OneEmptied(roots, values, e);
        Remove(key);
      } else {
        assert entries == entries - {key};
      }
    }

    /** Drops the entry under a key. */
    method Remove(key: nat)
      requires Valid() && key in entries
      modifies this
      ensures Valid() && entries == old(entries) - {key} && KeepsVacant(old(heap), heap)
      ensures NoNewEntry(old(entries), old(roots), entries, roots, None)
      ensures old(entries)[key] < |old(roots)| == |old(values)|
      ensures roots == old(roots)[old(entries)[key] := Empty]
      ensures values == old(values)[old(entries)[key] := NoValue]
    {
      heap, roots, entries, values := WithoutKey(heap, roots, entries, values, process, key);
    }

    method Clear()
      requires Valid()
      modifies this
      ensures Valid() && entries == map[]
      ensures NoNewEntry(old(entries), old(roots), entries, roots, None)
      ensures OthersKept(old(roots), old(values), roots, values)
    {
      while entries != map[]
        invariant Valid() && OthersKept(old(roots), old(values), roots, values)
        decreases entries.Keys
      {
        var key :| key in entries;
        ghost var roots1, values1 := roots, values;
        Evict(key);
        OthersKeptStill(old(roots), old(values), roots1, values1, roots, values);
      }
    }
  }
}
