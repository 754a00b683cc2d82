/**
 Folding chains of `rdf:rest` links into lists (jsonld-core/src/serialization.rs:326-369).

 The walk starts at each cell whose rest is `rdf:nil` and goes backwards. On an
 arbitrary graph, cycles included, it never meets a cell twice; which element of a
 hash set it takes never matters, because every set it takes from is a singleton.
 */
module ListFolding {
  import opened Wrappers
  import opened RdfModel
  import opened SerializationBuild
  import opened Tallies

  /** What the pass over the quads guarantees about the graph it leaves, whatever the quads were. */
  ghost predicate Coherent(g: SerGraph)
  {
    && (forall f :: Holds(g, f) && f.Target().Some? ==> f.Target().value in g)
    && (forall f, f' :: Holds(g, f) && Holds(g, f') && SoleTarget(g, f) && f'.Target() == f.Target() ==> f == f')
    && (forall s, o :: o in g && s in g[o].reverseRest <==> Holds(g, RestFact(s, o)))
  }

  /** `f` points at a resource referenced once. */
  predicate SoleTarget(g: SerGraph, f: Fact)
  {
    f.Target().Some? && f.Target().value in g && g[f.Target().value].references == 1
  }

  lemma {:induction false} FactSource(interp: Interpretation, quads: seq<Quad>, name: Option<Handle>, f: Fact)
      returns (i: int)
    requires f in QuadFacts(interp, quads, name)
    ensures 0 <= i < |quads| && quads[i].graph == name && FactOf(interp, quads[i]) == f
    ensures f.Target().Some? ==> PointsAt(quads, name, f.Target().value, i)
  {
    var n := |quads| - 1;
    if quads[n].graph == name && f == FactOf(interp, quads[n]) {
      i := n;
    } else {
      i := FactSource(interp, quads[..n], name, f);
    }
  }

  lemma {:induction false} QuadMentions(quads: seq<Quad>, name: Option<Handle>, i: int)
    requires 0 <= i < |quads| && quads[i].graph == name
    ensures quads[i].subject in Mentioned(quads, name) && quads[i].value in Mentioned(quads, name)
  {
    var n := |quads| - 1;
    if i < n {
      QuadMentions(quads[..n], name, i);
    }
  }

  /** Two facts about the same singly-referenced resource come from the same quad. */
  lemma {:induction false} SoleFact(interp: Interpretation, quads: seq<Quad>, name: Option<Handle>, f: Fact, f': Fact)
    requires f in QuadFacts(interp, quads, name) && f' in QuadFacts(interp, quads, name)
    requires f.Target().Some? && f'.Target() == f.Target() && RefCount(quads, name, f.Target().value) == 1
    ensures f == f'
  {
    var i := FactSource(interp, quads, name, f);
    var i' := FactSource(interp, quads, name, f');
    SingleReference(quads, name, f.Target().value);
    assert i == i';
  }

  /** `g` stores the facts of graph `name` and possibly the names of graphs. */
  lemma {:induction false} CoherentGraph(interp: Interpretation, quads: seq<Quad>, name: Option<Handle>, g: SerGraph)
    requires Mentioned(quads, name) <= g.Keys
    requires forall f :: Holds(g, f) && !f.GraphFact? <==> f in QuadFacts(interp, quads, name)
    requires StoresReverse(interp, quads, name, g) && StoresCounts(quads, name, g)
    ensures Coherent(g)
  {
    forall f | Holds(g, f) && f.Target().Some? ensures f.Target().value in g {
      var i := FactSource(interp, quads, name, f);
      QuadMentions(quads, name, i);
    }
    forall f, f' | Holds(g, f) && Holds(g, f') && SoleTarget(g, f) && f'.Target() == f.Target() ensures f == f' {
      SoleFact(interp, quads, name, f, f');
    }
    forall s, o ensures o in g && s in g[o].reverseRest <==> Holds(g, RestFact(s, o)) {
      assert Holds(g, RestFact(s, o)) <==> RestFact(s, o) in QuadFacts(interp, quads, name);
    }
  }

  lemma {:induction false} NoGraphFacts(interp: Interpretation, quads: seq<Quad>, name: Option<Handle>, f: Fact)
    ensures f.GraphFact? ==> f !in QuadFacts(interp, quads, name)
  {
    if quads != [] { NoGraphFacts(interp, quads[..|quads| - 1], name, f); }
  }

  lemma {:induction false} FoldedIsCoherent(interp: Interpretation, quads: seq<Quad>, g: SerGraph)
    requires Folded(interp, quads, g)
    ensures Coherent(g)
    ensures forall x :: x in g && g[x].graph.Some? ==> x in GraphNames(quads) && Coherent(g[x].graph.value)
  {
    forall f: Fact ensures f.GraphFact? ==> f !in QuadFacts(interp, quads, None) {
      NoGraphFacts(interp, quads, None, f);
    }
    CoherentGraph(interp, quads, None, g);
    forall x | x in g && g[x].graph.Some? ensures x in GraphNames(quads) && Coherent(g[x].graph.value) {
      assert Holds(g, GraphFact(x));
      var named := g[x].graph.value;
      forall f: Fact ensures f.GraphFact? ==> f !in QuadFacts(interp, quads, Some(x)) {
        NoGraphFacts(interp, quads, Some(x), f);
      }
      assert forall f: Fact :: f.GraphFact? ==> !Holds(named, f);
      CoherentGraph(interp, quads, Some(x), named);
    }
  }

  /** A resource the walk may fold into a list. */
  predicate IsCell(interp: Interpretation, g: SerGraph, x: Handle)
  {
    IsAnonymous(interp, x) && x in g && g[x].references == 1 && g[x].IsListNode()
  }

  function NextOf(cells: seq<Handle>, nil: Handle, k: nat): Handle
    requires k < |cells|
  {
    if k + 1 < |cells| then cells[k + 1] else nil
  }

  /** `cells`, from head to last, are list cells linked by `rdf:rest` and ending at `nil`. */
  ghost predicate IsChain(interp: Interpretation, g: SerGraph, nil: Handle, cells: seq<Handle>)
  {
    && |cells| > 0
    && forall k :: 0 <= k < |cells| ==> LinkAt(interp, g, nil, cells, k)
  }

  ghost predicate LinkAt(interp: Interpretation, g: SerGraph, nil: Handle, cells: seq<Handle>, k: nat)
    requires k < |cells|
  {
    IsCell(interp, g, cells[k]) && g[cells[k]].rest == {NextOf(cells, nil, k)}
  }

  /** No cell points at `head`, so the walk stops there. */
  ghost predicate IsMaximal(interp: Interpretation, g: SerGraph, head: Handle)
    requires head in g
  {
    forall p :: p in g[head].reverseRest ==> !IsCell(interp, g, p)
  }

  lemma SingletonElement<T>(s: set<T>, x: T, y: T)
    requires |s| == 1 && x in s && y in s
    ensures x == y
  {
    assert |s - {x}| == 0;
    assert x != y ==> y in s - {x};
  }

  /** Going forward from two equal cells meets `nil` after as many steps; a chain cannot run through `nil`. */
  lemma {:induction false} AlignedForward(interp: Interpretation, g: SerGraph, nil: Handle, c: seq<Handle>,
      d: seq<Handle>, i: nat, j: nat)
    requires IsChain(interp, g, nil, c) && IsChain(interp, g, nil, d) && IsNil(interp, nil)
    requires i < |c| && j < |d| && c[i] == d[j]
    ensures |c| - i == |d| - j && c[|c| - 1] == d[|d| - 1]
    decreases |c| - i
  {
    assert LinkAt(interp, g, nil, c, i) && LinkAt(interp, g, nil, d, j);
    assert NextOf(c, nil, i) in g[d[j]].rest;
    assert j + 1 < |d| ==> LinkAt(interp, g, nil, d, j + 1);
    if i + 1 < |c| {
      assert LinkAt(interp, g, nil, c, i + 1);
      AlignedForward(interp, g, nil, c, d, i + 1, j + 1);
    }
  }

  /** A chain never repeats a cell, even in a cyclic graph. */
  lemma ChainDistinct(interp: Interpretation, g: SerGraph, nil: Handle, cells: seq<Handle>, i: nat, j: nat)
    requires IsChain(interp, g, nil, cells) && IsNil(interp, nil)
    requires i < j < |cells|
    ensures cells[i] != cells[j]
  {
    if cells[i] == cells[j] {
      AlignedForward(interp, g, nil, cells, cells, i, j);
    }
  }

  /** Only one cell can precede a cell. */
  lemma SolePredecessor(interp: Interpretation, g: SerGraph, x: Handle, p: Handle, q: Handle)
    requires Coherent(g) && x in g && g[x].references == 1
    requires p in g[x].reverseRest && q in g[x].reverseRest
    ensures p == q
  {
    assert Holds(g, RestFact(p, x)) && Holds(g, RestFact(q, x));
    assert RestFact(p, x) == RestFact(q, x);
  }

  lemma {:induction false} AlignedBackward(interp: Interpretation, g: SerGraph, nil: Handle, c: seq<Handle>,
      d: seq<Handle>, k: nat)
    requires Coherent(g) && IsChain(interp, g, nil, c) && IsChain(interp, g, nil, d)
    requires c[|c| - 1] == d[|d| - 1]
    requires k < |c| && k < |d|
    ensures c[|c| - 1 - k] == d[|d| - 1 - k]
  {
    if k > 0 {
      AlignedBackward(interp, g, nil, c, d, k - 1);
      var x, p, q := c[|c| - k], c[|c| - 1 - k], d[|d| - 1 - k];
      assert LinkAt(interp, g, nil, c, |c| - k) && LinkAt(interp, g, nil, c, |c| - 1 - k)
          && LinkAt(interp, g, nil, d, |d| - 1 - k);
      assert Holds(g, RestFact(p, x)) && Holds(g, RestFact(q, x));
      SolePredecessor(interp, g, x, p, q);
    }
  }

  lemma LongerChainExtends(interp: Interpretation, g: SerGraph, nil: Handle, c: seq<Handle>, d: seq<Handle>)
    requires Coherent(g) && IsChain(interp, g, nil, c) && IsChain(interp, g, nil, d)
    requires c[|c| - 1] == d[|d| - 1] && |c| < |d|
    ensures c[0] in g && !IsMaximal(interp, g, c[0])
  {
    AlignedBackward(interp, g, nil, c, d, |c| - 1);
    var k := |d| - |c| - 1;
    assert d[k + 1] == c[0] == NextOf(d, nil, k);
    assert LinkAt(interp, g, nil, d, k) && LinkAt(interp, g, nil, c, 0);
    assert Holds(g, RestFact(d[k], c[0]));
  }

  /** The last cell alone determines the maximal chain, whatever order hash sets are visited in. */
  lemma ChainUnique(interp: Interpretation, g: SerGraph, nil: Handle, c: seq<Handle>, d: seq<Handle>)
    requires Coherent(g) && IsChain(interp, g, nil, c) && IsChain(interp, g, nil, d)
    requires c[0] in g && d[0] in g && IsMaximal(interp, g, c[0]) && IsMaximal(interp, g, d[0])
    requires c[|c| - 1] == d[|d| - 1]
    ensures c == d
  {
    if |c| < |d| {
      LongerChainExtends(interp, g, nil, c, d);
    } else if |d| < |c| {
      LongerChainExtends(interp, g, nil, d, c);
    } else {
      forall i | 0 <= i < |c| ensures c[i] == d[i] {
        AlignedBackward(interp, g, nil, c, d, |c| - 1 - i);
      }
    }
  }

  ghost predicate ValuesOf(g: SerGraph, cells: seq<Handle>, values: seq<Handle>)
  {
    && |values| == |cells|
    && forall k :: 0 <= k < |cells| ==> cells[k] in g && g[cells[k]].first == {values[k]}
  }

  /** The folded lists: head to cells, exactly one maximal chain for each cell whose rest is `nil`. */
  ghost predicate IsFolding(interp: Interpretation, g: SerGraph, nil: Option<Handle>, lists: map<Handle, seq<Handle>>)
  {
    && (nil.None? ==> lists == map[])
    && (nil.Some? ==>
          && (forall h :: h in lists ==> IsMaximalChain(interp, g, nil.value, h, lists[h]))
          && (forall c ::
                nil.value in g && c in g[nil.value].reverseRest && IsCell(interp, g, c)
                ==> EndsSomewhere(lists, c)))
  }

  ghost predicate IsMaximalChain(interp: Interpretation, g: SerGraph, nil: Handle, head: Handle, cells: seq<Handle>)
  {
    IsChain(interp, g, nil, cells) && cells[0] == head && head in g && IsMaximal(interp, g, head)
  }

  ghost predicate EndsSomewhere(lists: map<Handle, seq<Handle>>, c: Handle)
  {
    exists h :: h in lists && |lists[h]| > 0 && lists[h][|lists[h]| - 1] == c
  }

  /** No cell belongs to two folded lists. */
  lemma ListsDisjoint(interp: Interpretation, g: SerGraph, nil: Option<Handle>, lists: map<Handle, seq<Handle>>,
      h: Handle, h': Handle, x: Handle)
    requires Coherent(g) && IsFolding(interp, g, nil, lists) && (nil.Some? ==> IsNil(interp, nil.value))
    requires h in lists && h' in lists && x in lists[h] && x in lists[h']
    ensures h == h'
  {
    var c, d := lists[h], lists[h'];
    assert IsMaximalChain(interp, g, nil.value, h, c) && IsMaximalChain(interp, g, nil.value, h', d);
    var i :| 0 <= i < |c| && c[i] == x;
    var j :| 0 <= j < |d| && d[j] == x;
    AlignedForward(interp, g, nil.value, c, d, i, j);
    ChainUnique(interp, g, nil.value, c, d);
  }

  /** Folding has one possible outcome: it does not depend on the order anything is iterated in. */
  lemma FoldingUnique(interp: Interpretation, g: SerGraph, nil: Option<Handle>, a: map<Handle, seq<Handle>>,
      b: map<Handle, seq<Handle>>)
    requires Coherent(g) && (nil.Some? ==> IsNil(interp, nil.value))
    requires IsFolding(interp, g, nil, a) && IsFolding(interp, g, nil, b)
    ensures a == b
  {
    forall h | h in a ensures h in b && b[h] == a[h] { FoldingIncluded(interp, g, nil, a, b, h); }
    forall h | h in b ensures h in a && a[h] == b[h] { FoldingIncluded(interp, g, nil, b, a, h); }
  }

  lemma FoldingIncluded(interp: Interpretation, g: SerGraph, nil: Option<Handle>, a: map<Handle, seq<Handle>>,
      b: map<Handle, seq<Handle>>, h: Handle)
    requires Coherent(g)
    requires IsFolding(interp, g, nil, a) && IsFolding(interp, g, nil, b) && h in a
    ensures h in b && b[h] == a[h]
  {
    var cells := a[h];
    assert IsMaximalChain(interp, g, nil.value, h, cells);
    var last := cells[|cells| - 1];
    assert LinkAt(interp, g, nil.value, cells, |cells| - 1);
    assert Holds(g, RestFact(last, nil.value));
    assert EndsSomewhere(b, last);
    var h' :| h' in b && |b[h']| > 0 && b[h'][|b[h']| - 1] == last;
    assert IsMaximalChain(interp, g, nil.value, h', b[h']);
    ChainUnique(interp, g, nil.value, cells, b[h']);
  }

  lemma ChainFits(interp: Interpretation, g: SerGraph, nil: Handle, cells: seq<Handle>)
    requires IsChain(interp, g, nil, cells) && IsNil(interp, nil)
    ensures |cells| <= |g.Keys|
  {
    forall i, j | 0 <= i < j < |cells| ensures cells[i] != cells[j] {
      ChainDistinct(interp, g, nil, cells, i, j);
    }
    forall i | 0 <= i < |cells| ensures cells[i] in g.Keys { assert LinkAt(interp, g, nil, cells, i); }
    DistinctFits(cells, g.Keys);
  }

  lemma ChainPrepend(interp: Interpretation, g: SerGraph, nil: Handle, cells: seq<Handle>, p: Handle)
    requires Coherent(g) && IsChain(interp, g, nil, cells) && IsCell(interp, g, p)
    requires cells[0] in g && p in g[cells[0]].reverseRest
    ensures IsChain(interp, g, nil, [p] + cells)
  {
    var longer := [p] + cells;
    assert Holds(g, RestFact(p, cells[0]));
    assert g[p].rest == {cells[0]} by {
      SingletonIs(g[p].rest, cells[0]);
    }
    forall k | 0 <= k < |longer| ensures LinkAt(interp, g, nil, longer, k) {
      if k > 0 { assert LinkAt(interp, g, nil, cells, k - 1); }
    }
  }

  function Reversed<T>(s: seq<T>): (r: seq<T>)
    ensures |r| == |s|
    ensures forall k :: 0 <= k < |s| ==> r[k] == s[|s| - 1 - k]
  {
    if s == [] then [] else Reversed(s[1..]) + [s[0]]
  }

  /** `head` starts the maximal chain that ends at `last`, and `values` are its `rdf:first` values in order. */
  ghost predicate IsListEndingAt(interp: Interpretation, g: SerGraph, nil: Handle, last: Handle, head: Handle,
      values: seq<Handle>)
  {
    exists cells :: IsMaximalChain(interp, g, nil, head, cells) && cells[|cells| - 1] == last
        && ValuesOf(g, cells, values)
  }

  /** `found` holds the head and values of every folded list. */
  ghost predicate IsTableOfLists(interp: Interpretation, g: SerGraph, nil: Option<Handle>,
      found: seq<(Handle, seq<Handle>)>)
  {
    exists lists :: IsFolding(interp, g, nil, lists) && IsTable(g, lists, found)
  }

  /** Walks backwards from the last cell of a list to its head, collecting `rdf:first` values. */
  method WalkBack(interp: Interpretation, g: SerGraph, last: Handle, ghost nil: Handle)
    returns (headId: Handle, values: seq<Handle>, ghost cells: seq<Handle>)
    requires Coherent(g) && IsNil(interp, nil) && nil in g && last in g[nil].reverseRest && IsCell(interp, g, last)
    ensures IsMaximalChain(interp, g, nil, headId, cells) && cells[|cells| - 1] == last
    ensures ValuesOf(g, cells, values)
    ensures IsListEndingAt(interp, g, nil, last, headId, values)
  {
    headId, cells := last, [last];
    ChainStart(interp, g, nil, last);
    var backward := [];
    while true
      invariant IsChain(interp, g, nil, cells) && cells[0] == headId && cells[|cells| - 1] == last
      invariant IsCell(interp, g, headId)
      invariant CollectedBackward(g, cells[1..], backward)
      decreases |g.Keys| - |cells|
    {
      ChainFits(interp, g, nil, cells);
      var head := g[headId];
      var first :| first in head.first;
      SingletonIs(head.first, first);
      assert CollectedBackward(g, cells, backward + [first]);
      backward := backward + [first];
      if head.reverseRest == {} {
        break;
      }
      var parentId :| parentId in head.reverseRest;
      if IsCell(interp, g, parentId) {
        ChainPrepend(interp, g, nil, cells, parentId);
        ChainFits(interp, g, nil, [parentId] + cells);
        assert ([parentId] + cells)[1..] == cells;
        headId, cells := parentId, [parentId] + cells;
        continue;
      }
      StopsAt(interp, g, headId, parentId);
      break;
    }
    values := Reversed(backward);
  }

  lemma SingletonIs<T>(s: set<T>, x: T)
    requires |s| == 1 && x in s
    ensures s == {x}
  {
    forall y | y in s ensures y == x { SingletonElement(s, y, x); }
  }

  lemma ChainStart(interp: Interpretation, g: SerGraph, nil: Handle, last: Handle)
    requires Coherent(g) && nil in g && last in g[nil].reverseRest && IsCell(interp, g, last)
    ensures IsChain(interp, g, nil, [last])
  {
    assert Holds(g, RestFact(last, nil));
    SingletonIs(g[last].rest, nil);
    assert LinkAt(interp, g, nil, [last], 0);
  }

  lemma StopsAt(interp: Interpretation, g: SerGraph, head: Handle, parent: Handle)
    requires Coherent(g) && head in g && g[head].references == 1 && parent in g[head].reverseRest
        && !IsCell(interp, g, parent)
    ensures IsMaximal(interp, g, head)
  {
    forall p | p in g[head].reverseRest ensures !IsCell(interp, g, p) {
      SolePredecessor(interp, g, head, p, parent);
    }
  }

  /** `backward` lists the `rdf:first` values of `cells`, last cell first. */
  ghost predicate CollectedBackward(g: SerGraph, cells: seq<Handle>, backward: seq<Handle>)
  {
    && |backward| == |cells|
    && forall k :: 0 <= k < |cells| ==> cells[k] in g && g[cells[k]].first == {backward[|cells| - 1 - k]}
  }

  /** `found` is a table of `lists`, which hold the chains ending at the cells in `done`. */
  ghost predicate Collected(interp: Interpretation, g: SerGraph, nil: Handle, done: set<Handle>,
                            lists: map<Handle, seq<Handle>>, found: seq<(Handle, seq<Handle>)>)
  {
    && (forall h :: h in lists ==> IsMaximalChain(interp, g, nil, h, lists[h]))
    && (forall c :: c in done && IsCell(interp, g, c) ==> EndsSomewhere(lists, c))
    && IsTable(g, lists, found)
  }

  ghost predicate IsTable(g: SerGraph, lists: map<Handle, seq<Handle>>, found: seq<(Handle, seq<Handle>)>)
  {
    && (forall i :: 0 <= i < |found| ==> found[i].0 in lists && ValuesOf(g, lists[found[i].0], found[i].1))
    && (forall h :: h in lists ==> exists i :: 0 <= i < |found| && found[i].0 == h)
  }

  lemma CollectedStep(interp: Interpretation, g: SerGraph, nil: Handle, done: set<Handle>,
                      lists: map<Handle, seq<Handle>>, found: seq<(Handle, seq<Handle>)>,
                      head: Handle, cells: seq<Handle>, values: seq<Handle>)
    requires Collected(interp, g, nil, done, lists, found) && IsNil(interp, nil)
    requires IsMaximalChain(interp, g, nil, head, cells) && ValuesOf(g, cells, values)
    ensures Collected(interp, g, nil, done + {cells[|cells| - 1]}, lists[head := cells], found + [(head, values)])
  {
    var last, lists', found' := cells[|cells| - 1], lists[head := cells], found + [(head, values)];
    if head in lists {
      assert IsMaximalChain(interp, g, nil, head, lists[head]);
      SameHead(interp, g, nil, lists[head], cells);
    }
    forall c | c in done + {last} && IsCell(interp, g, c) ensures EndsSomewhere(lists', c) {
      if c == last {
        assert head in lists' && lists'[head] == cells;
      } else {
        var h :| h in lists && |lists[h]| > 0 && lists[h][|lists[h]| - 1] == c;
        assert h in lists' && lists'[h] == lists[h];
      }
    }
    assert found'[|found|].0 == head;
    forall h | h in lists' ensures exists i :: 0 <= i < |found'| && found'[i].0 == h {
      if h != head {
        var i :| 0 <= i < |found| && found[i].0 == h;
        assert found'[i].0 == h;
      }
    }
  }

  /** Every list of the default graph, as a table from its head to its values. */
  method CollectLists(interp: Interpretation, g: SerGraph, nil: Option<Handle>)
    returns (found: seq<(Handle, seq<Handle>)>, ghost lists: map<Handle, seq<Handle>>)
    requires Coherent(g) && (nil.Some? ==> IsNil(interp, nil.value))
    ensures IsFolding(interp, g, nil, lists) && IsTable(g, lists, found)
    ensures IsTableOfLists(interp, g, nil, found)
  {
    found, lists := [], map[];
    if nil.None? || nil.value !in g {
      assert IsFolding(interp, g, nil, lists) && IsTable(g, lists, found);
      return;
    }
    var nilId := nil.value;
    var todo := g[nilId].reverseRest;
    while todo != {}
      invariant todo <= g[nilId].reverseRest
      invariant Collected(interp, g, nilId, g[nilId].reverseRest - todo, lists, found)
      decreases todo
    {
      var nodeId :| nodeId in todo;
      ghost var done := g[nilId].reverseRest - todo;
      todo := todo - {nodeId};
      assert g[nilId].reverseRest - todo == done + {nodeId};
      if IsCell(interp, g, nodeId) {
        ghost var cells; var head, values;
        head, values, cells := WalkBack(interp, g, nodeId, nilId);
        CollectedStep(interp, g, nilId, done, lists, found, head, cells, values);
        lists, found := lists[head := cells], found + [(head, values)];
      }
    }
    assert g[nilId].reverseRest - todo == g[nilId].reverseRest;
    assert IsFolding(interp, g, nil, lists) && IsTable(g, lists, found);
  }

  lemma {:induction false} AlignedAt(interp: Interpretation, g: SerGraph, nil: Handle, c: seq<Handle>, d: seq<Handle>,
      k: nat)
    requires IsChain(interp, g, nil, c) && IsChain(interp, g, nil, d) && c[0] == d[0] && k < |c| && k < |d|
    ensures c[k] == d[k]
  {
    if k > 0 {
      AlignedAt(interp, g, nil, c, d, k - 1);
      assert LinkAt(interp, g, nil, c, k - 1) && LinkAt(interp, g, nil, d, k - 1);
      assert NextOf(c, nil, k - 1) in g[d[k - 1]].rest;
    }
  }

  lemma SameHead(interp: Interpretation, g: SerGraph, nil: Handle, c: seq<Handle>, d: seq<Handle>)
    requires IsChain(interp, g, nil, c) && IsChain(interp, g, nil, d) && IsNil(interp, nil) && c[0] == d[0]
    ensures c == d
  {
    AlignedForward(interp, g, nil, c, d, 0, 0);
    forall k | 0 <= k < |c| ensures c[k] == d[k] { AlignedAt(interp, g, nil, c, d, k); }
  }

  /** Records each list on its head. */
  method StoreLists(g: SerGraph, found: seq<(Handle, seq<Handle>)>) returns (folded: SerGraph)
    requires forall i :: 0 <= i < |found| ==> found[i].0 in g
    requires forall i, j ::
               0 <= i < |found| && 0 <= j < |found| && found[i].0 == found[j].0 ==> found[i].1 == found[j].1
    requires forall x :: x in g ==> g[x].values.None?
    ensures folded.Keys == g.Keys
    ensures forall x :: x in g ==> folded[x] == g[x].(values := folded[x].values)
    ensures forall i :: 0 <= i < |found| ==> folded[found[i].0].values == Some(found[i].1)
    ensures forall x :: x in g && folded[x].values.Some? ==> exists i :: 0 <= i < |found| && found[i].0 == x
  {
    folded := g;
    for n := 0 to |found|
      invariant folded.Keys == g.Keys
      invariant forall x :: x in g ==> folded[x] == g[x].(values := folded[x].values)
      invariant forall i :: 0 <= i < n ==> folded[found[i].0].values == Some(found[i].1)
      invariant forall x :: x in g && folded[x].values.Some? ==> exists i :: 0 <= i < n && found[i].0 == x
    {
      var (id, values) := found[n];
      folded := folded[id := folded[id].(values := Some(values))];
      assert found[n].0 == id;
    }
  }
}
