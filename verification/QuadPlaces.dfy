/**
 Which quads a document has, and in what order (jsonld-core/src/quad.rs), said by places alone.

 A place is a path of positions into the document. Each quad is at one place, in the graph named by the
 innermost node whose own graph the path goes into, or in the default graph; and the traversal gives the
 quads of all places once each, in the order of their places.
 */
module QuadPlaces {
  import opened Wrappers
  import opened Quads

  /** Positions, the outermost first. */
  type Place = seq<nat>

  // the parts of a node, in the order they are read
  const TYPES: nat := 0
  const PROPERTIES: nat := 1
  const REVERSE: nat := 2
  const INCLUDED: nat := 3
  const GRAPH: nat := 4

  // at a value of a property: the quad that states it, and what is nested in it
  const ITSELF: nat := 0
  const INSIDE: nat := 1

  /** `q` is the quad at `place` in `obj`, which is in graph `graph`. */
  ghost predicate IsAt(graph: Option<Id>, obj: Object, place: Place, q: Quad)
    decreases |place|, 1
  {
    match obj
    case ValueObject(_) => false
    case ListObject(items) => IsAmong(graph, items, place, q)
    case NodeObject(node) => node.id.Some? && IsAtNode(graph, node, node.id.value, place, q)
  }

  /** The first position says which of the objects. */
  ghost predicate IsAmong(graph: Option<Id>, objects: seq<Object>, place: Place, q: Quad)
    decreases |place|, 0
  {
    |place| > 0 && place[0] < |objects| && IsAt(graph, objects[place[0]], place[1..], q)
  }

  ghost predicate IsAmongNodes(graph: Option<Id>, nodes: seq<Node>, place: Place, q: Quad)
    decreases |place|, 0
  {
    |place| > 0 && place[0] < |nodes| && IsAt(graph, NodeObject(nodes[place[0]]), place[1..], q)
  }

  /** The graphs of a node map are read from the last to the first. */
  function GraphAt(graphs: seq<NodeMapEntry>, k: nat): NodeMapEntry
    requires k < |graphs|
  {
    graphs[|graphs| - 1 - k]
  }

  /** At a node with an identifier: its types, its values, its reverse values, what it includes, its graph. */
  ghost predicate IsAtNode(graph: Option<Id>, node: Node, id: Id, place: Place, q: Quad)
    decreases |place|, 0
  {
    || IsType(graph, node, id, place, q)
    || IsValue(graph, node, id, place, q)
    || IsReverseValue(graph, node, place, q)
    || (|place| > 1 && place[0] == PROPERTIES && IsInValue(graph, node.properties, place[1..], q))
    || (|place| > 1 && place[0] == REVERSE && node.reverse.Reverse?
        && IsInSubject(graph, node.reverse.properties, place[1..], q))
    || (|place| > 1 && place[0] == INCLUDED && node.included.Included?
        && IsAmongNodes(graph, node.included.nodes, place[1..], q))
    || (|place| > 1 && place[0] == GRAPH && node.graph.Graph?
        && IsAmong(Some(id), node.graph.objects, place[1..], q))
  }

  ghost predicate IsType(graph: Option<Id>, node: Node, id: Id, place: Place, q: Quad) {
    && |place| == 2 && place[0] == TYPES
    && node.types.Some? && place[1] < |node.types.value|
    && q == Quad(graph, id, TypeProperty, IdRef(node.types.value[place[1]]))
  }

  ghost predicate IsValue(graph: Option<Id>, node: Node, id: Id, place: Place, q: Quad) {
    && |place| == 4 && place[0] == PROPERTIES && place[3] == ITSELF
    && place[1] < |node.properties| && place[2] < |node.properties[place[1]].objects|
    && q == Quad(graph, id, PropertyRef(node.properties[place[1]].property),
                 ObjectRef(node.properties[place[1]].objects[place[2]]))
  }

  /** The subject of a reverse value is the node listed, when it has an identifier, and the object this node. */
  ghost predicate IsReverseValue(graph: Option<Id>, node: Node, place: Place, q: Quad) {
    && |place| == 4 && place[0] == REVERSE && place[3] == ITSELF && node.reverse.Reverse?
    && var reverse := node.reverse.properties;
       && place[1] < |reverse| && place[2] < |reverse[place[1]].subjects|
       && var subject := reverse[place[1]].subjects[place[2]];
          subject.id.Some? && q == Quad(graph, subject.id.value, PropertyRef(reverse[place[1]].property), NodeRef(node))
  }

  ghost predicate IsInValue(graph: Option<Id>, properties: seq<Property>, place: Place, q: Quad)
    decreases |place|, 2
  {
    && |place| > 2 && place[2] == INSIDE
    && place[0] < |properties| && place[1] < |properties[place[0]].objects|
    && IsAt(graph, properties[place[0]].objects[place[1]], place[3..], q)
  }

  ghost predicate IsInSubject(graph: Option<Id>, properties: seq<ReverseProperty>, place: Place, q: Quad)
    decreases |place|, 2
  {
    && |place| > 2 && place[2] == INSIDE
    && place[0] < |properties| && place[1] < |properties[place[0]].subjects|
    && IsAt(graph, NodeObject(properties[place[0]].subjects[place[1]]), place[3..], q)
  }

  /** At the first position where two places differ, one comes before the other. */
  predicate Before(a: Place, b: Place)
    decreases |a|
  {
    && b != []
    && (a == [] || a[0] < b[0] || (a[0] == b[0] && Before(a[1..], b[1..])))
  }

  // ----- what the traversal reads in one go, the first element of a collection at position `n`

  datatype Region =
    | Nowhere
    | Itself(stated: Option<Quad>)
    | AtObject(graph: Option<Id>, obj: Object)
    | Nested(graph: Option<Id>, obj: Object)
    | AtValue(stated: Option<Quad>, graph: Option<Id>, obj: Object)
    | AtObjects(graph: Option<Id>, objects: seq<Object>, n: nat)
    | AtNodes(graph: Option<Id>, nodes: seq<Node>, n: nat)
    | AtTypes(graph: Option<Id>, subject: Id, types: seq<Id>, n: nat)
    | AtValues(graph: Option<Id>, subject: Id, property: Id, objects: seq<Object>, n: nat)
    | AtProperties(graph: Option<Id>, subject: Id, properties: seq<Property>, n: nat)
    | AtSubjects(graph: Option<Id>, target: Node, property: Id, subjects: seq<Node>, n: nat)
    | AtReverse(graph: Option<Id>, target: Node, reverse: seq<ReverseProperty>, n: nat)
    | FromPart(graph: Option<Id>, node: Node, subject: Id, n: nat)
    | AtGraphs(graphs: seq<NodeMapEntry>, n: nat)

  function ValueQuad(graph: Option<Id>, subject: Id, property: Id, obj: Object): Quad {
    Quad(graph, subject, PropertyRef(property), ObjectRef(obj))
  }

  function SubjectQuad(graph: Option<Id>, target: Node, property: Id, subject: Node): Option<Quad> {
    if subject.id.Some? then Some(Quad(graph, subject.id.value, PropertyRef(property), NodeRef(target))) else None
  }

  /** The part of a node called `part`. */
  ghost function AtPart(graph: Option<Id>, node: Node, id: Id, part: nat): Region {
    if part == TYPES && node.types.Some? then AtTypes(graph, id, node.types.value, 0)
    else if part == PROPERTIES then AtProperties(graph, id, node.properties, 0)
    else if part == REVERSE && node.reverse.Reverse? then AtReverse(graph, node, node.reverse.properties, 0)
    else if part == INCLUDED && node.included.Included? then AtNodes(graph, node.included.nodes, 0)
    else if part == GRAPH && node.graph.Graph? then AtObjects(Some(id), node.graph.objects, 0)
    else Nowhere
  }

  /** `q` is the quad at place `p` of the region. */
  ghost predicate Holds(region: Region, p: Place, q: Quad)
    decreases |p|
  {
    match region
    case Nowhere => false
    case Itself(stated) => p == [] && stated == Some(q)
    case AtObject(graph, obj) => IsAt(graph, obj, p, q)
    case Nested(graph, obj) => |p| > 0 && p[0] == INSIDE && IsAt(graph, obj, p[1..], q)
    case AtValue(stated, graph, obj) =>
      (p == [ITSELF] && stated == Some(q)) || (|p| > 0 && p[0] == INSIDE && IsAt(graph, obj, p[1..], q))
    case AtObjects(graph, objects, n) =>
      |p| > 0 && n <= p[0] < n + |objects| && IsAt(graph, objects[p[0] - n], p[1..], q)
    case AtNodes(graph, nodes, n) =>
      |p| > 0 && n <= p[0] < n + |nodes| && IsAt(graph, NodeObject(nodes[p[0] - n]), p[1..], q)
    case AtTypes(graph, subject, types, n) =>
      |p| == 1 && n <= p[0] < n + |types| && q == Quad(graph, subject, TypeProperty, IdRef(types[p[0] - n]))
    case AtValues(graph, subject, property, objects, n) =>
      |p| > 0 && n <= p[0] < n + |objects| && Holds(OfValue(graph, subject, property, objects[p[0] - n]), p[1..], q)
    case AtProperties(graph, subject, properties, n) =>
      |p| > 0 && n <= p[0] < n + |properties| && Holds(OfEntry(graph, subject, properties[p[0] - n]), p[1..], q)
    case AtSubjects(graph, target, property, subjects, n) =>
      |p| > 0 && n <= p[0] < n + |subjects| && Holds(OfSubject(graph, target, property, subjects[p[0] - n]), p[1..], q)
    case AtReverse(graph, target, reverse, n) =>
      |p| > 0 && n <= p[0] < n + |reverse| && Holds(OfReverseEntry(graph, target, reverse[p[0] - n]), p[1..], q)
    case FromPart(graph, node, id, n) =>
      |p| > 0 && n <= p[0] <= GRAPH && Holds(AtPart(graph, node, id, p[0]), p[1..], q)
    case AtGraphs(graphs, n) =>
      |p| > 0 && n <= p[0] < n + |graphs| && IsAmongNodes(GraphAt(graphs, p[0] - n).id, GraphAt(graphs, p[0] - n).nodes,
                                                          p[1..], q)
  }

  function OfValue(graph: Option<Id>, subject: Id, property: Id, obj: Object): Region {
    AtValue(Some(ValueQuad(graph, subject, property, obj)), graph, obj)
  }

  function OfEntry(graph: Option<Id>, subject: Id, entry: Property): Region {
    AtValues(graph, subject, entry.property, entry.objects, 0)
  }

  function OfSubject(graph: Option<Id>, target: Node, property: Id, subject: Node): Region {
    AtValue(SubjectQuad(graph, target, property, subject), graph, NodeObject(subject))
  }

  function OfReverseEntry(graph: Option<Id>, target: Node, entry: ReverseProperty): Region {
    AtSubjects(graph, target, entry.property, entry.subjects, 0)
  }

  // ----- a sequence of quads that is in the order of places

  ghost predicate InOrder(places: seq<Place>) {
    forall i, j :: 0 <= i < j < |places| ==> Before(places[i], places[j])
  }

  /** `quads` are the quads at `places`, which are in order, and all there are. */
  ghost predicate Lists(region: Region, places: seq<Place>, quads: seq<Quad>) {
    && |places| == |quads| && InOrder(places)
    && (forall i :: 0 <= i < |places| ==> Holds(region, places[i], quads[i]))
    && (forall p, q :: Holds(region, p, q) ==> exists i :: 0 <= i < |places| && places[i] == p && quads[i] == q)
  }

  function Under(n: nat, places: seq<Place>): (r: seq<Place>)
    ensures |r| == |places|
  {
    seq(|places|, i requires 0 <= i < |places| => [n] + places[i])
  }

  lemma NothingListed(region: Region)
    requires forall p, q :: !Holds(region, p, q)
    ensures Lists(region, [], [])
  {
  }

  lemma OneListed(region: Region, quad: Quad)
    requires forall p, q :: Holds(region, p, q) <==> p == [] && q == quad
    ensures Lists(region, [[]], [quad])
  {
    var places: seq<Place>, quads := [[]], [quad];
    forall p, q | Holds(region, p, q) ensures exists i :: 0 <= i < |places| && places[i] == p && quads[i] == q {
      assert places[0] == p && quads[0] == q;
    }
  }

  lemma UnderInOrder(n: nat, places: seq<Place>, rest: seq<Place>)
    requires InOrder(places) && InOrder(rest)
    requires forall i :: 0 <= i < |rest| ==> |rest[i]| > 0 && rest[i][0] > n
    ensures InOrder(Under(n, places) + rest)
  {
    var all := Under(n, places) + rest;
    forall i, j | 0 <= i < j < |all| ensures Before(all[i], all[j]) {
      if j < |places| {
        assert all[i][1..] == places[i] && all[j][1..] == places[j];
      } else if i < |places| {
        assert all[j] == rest[j - |places|] && all[i][0] == n;
      } else {
        assert all[i] == rest[i - |places|] && all[j] == rest[j - |places|];
      }
    }
  }

  /** `head` is at position `n`, and `tail` at later positions. */
  ghost predicate Splits(all: Region, n: nat, head: Region, tail: Region) {
    && (forall p, q :: Holds(tail, p, q) ==> |p| > 0 && p[0] > n)
    && (forall p, q :: Holds(all, p, q) <==> (|p| > 0 && p[0] == n && Holds(head, p[1..], q)) || Holds(tail, p, q))
  }

  lemma JoinedAt(head: Region, places: seq<Place>, quads: seq<Quad>, tail: Region, rest: seq<Place>,
      more: seq<Quad>, all: Region, n: nat, i: nat)
    requires Lists(head, places, quads) && Lists(tail, rest, more) && Splits(all, n, head, tail)
    requires i < |places| + |rest|
    ensures Holds(all, (Under(n, places) + rest)[i], (quads + more)[i])
  {
    if i < |places| {
      var p, q := places[i], quads[i];
      assert Holds(head, p, q) && ([n] + p)[1..] == p;
      assert Holds(all, [n] + p, q);
    } else {
      assert Holds(tail, rest[i - |places|], more[i - |places|]);
    }
  }

  lemma FoundInHead(head: Region, places: seq<Place>, quads: seq<Quad>, n: nat, p: Place, q: Quad) returns (i: nat)
    requires Lists(head, places, quads) && |p| > 0 && p[0] == n && Holds(head, p[1..], q)
    ensures i < |places| && Under(n, places)[i] == p && quads[i] == q
  {
    i :| 0 <= i < |places| && places[i] == p[1..] && quads[i] == q;
    assert [n] + places[i] == p;
  }

  lemma JoinedFound(head: Region, places: seq<Place>, quads: seq<Quad>, tail: Region, rest: seq<Place>,
      more: seq<Quad>, all: Region, n: nat, p: Place, q: Quad) returns (i: nat)
    requires Lists(head, places, quads) && Lists(tail, rest, more) && Splits(all, n, head, tail) && Holds(all, p, q)
    ensures i < |places| + |rest| && (Under(n, places) + rest)[i] == p && (quads + more)[i] == q
  {
    if Holds(tail, p, q) {
      i :| 0 <= i < |rest| && rest[i] == p && more[i] == q;
      i := |places| + i;
    } else {
      i := FoundInHead(head, places, quads, n, p, q);
    }
  }

  /** What is at position `n`, followed by what is at later positions. */
  lemma Joined(head: Region, places: seq<Place>, quads: seq<Quad>, tail: Region, rest: seq<Place>,
      more: seq<Quad>, all: Region, n: nat)
    requires Lists(head, places, quads) && Lists(tail, rest, more) && Splits(all, n, head, tail)
    ensures Lists(all, Under(n, places) + rest, quads + more)
  {
    var ps, qs := Under(n, places) + rest, quads + more;
    forall i | 0 <= i < |rest| ensures |rest[i]| > 0 && rest[i][0] > n { assert Holds(tail, rest[i], more[i]); }
    UnderInOrder(n, places, rest);
    forall i | 0 <= i < |ps| ensures Holds(all, ps[i], qs[i]) {
      JoinedAt(head, places, quads, tail, rest, more, all, n, i);
    }
    forall p, q | Holds(all, p, q) ensures exists i :: 0 <= i < |ps| && ps[i] == p && qs[i] == q {
      var i := JoinedFound(head, places, quads, tail, rest, more, all, n, p, q);
    }
  }

  // ----- the first of a collection is at the first position, the others at later ones

  function Stated(quad: Option<Quad>): seq<Quad> {
    if quad.Some? then [quad.value] else []
  }

  lemma ItselfListed(stated: Option<Quad>) returns (places: seq<Place>)
    ensures Lists(Itself(stated), places, Stated(stated))
  {
    if stated.Some? {
      places := [[]];
      OneListed(Itself(stated), stated.value);
    } else {
      places := [];
      NothingListed(Itself(stated));
    }
  }

  lemma TypesSplit(graph: Option<Id>, id: Id, types: seq<Id>, n: nat)
    requires types != []
    ensures Splits(AtTypes(graph, id, types, n), n, Itself(Some(Quad(graph, id, TypeProperty, IdRef(types[0])))),
                   AtTypes(graph, id, types[1..], n + 1))
  {
    var head := Itself(Some(Quad(graph, id, TypeProperty, IdRef(types[0]))));
    var all, tail := AtTypes(graph, id, types, n), AtTypes(graph, id, types[1..], n + 1);
    forall p, q ensures Holds(all, p, q) <==> (|p| > 0 && p[0] == n && Holds(head, p[1..], q)) || Holds(tail, p, q) {
      if |p| > 0 && p[0] == n { assert p[1..] == [] <==> |p| == 1; }
    }
  }

  lemma ObjectsSplit(graph: Option<Id>, objects: seq<Object>, n: nat)
    requires objects != []
    ensures Splits(AtObjects(graph, objects, n), n, AtObject(graph, objects[0]),
                   AtObjects(graph, objects[1..], n + 1))
  {
  }

  lemma NodesSplit(graph: Option<Id>, nodes: seq<Node>, n: nat)
    requires nodes != []
    ensures Splits(AtNodes(graph, nodes, n), n, AtObject(graph, NodeObject(nodes[0])),
                   AtNodes(graph, nodes[1..], n + 1))
  {
  }

  lemma ValuesSplit(graph: Option<Id>, subject: Id, property: Id, objects: seq<Object>, n: nat)
    requires objects != []
    ensures Splits(AtValues(graph, subject, property, objects, n), n, OfValue(graph, subject, property, objects[0]),
                   AtValues(graph, subject, property, objects[1..], n + 1))
  {
  }

  lemma PropertiesSplit(graph: Option<Id>, subject: Id, properties: seq<Property>, n: nat)
    requires properties != []
    ensures Splits(AtProperties(graph, subject, properties, n), n, OfEntry(graph, subject, properties[0]),
                   AtProperties(graph, subject, properties[1..], n + 1))
  {
  }

  lemma SubjectsSplit(graph: Option<Id>, target: Node, property: Id, subjects: seq<Node>, n: nat)
    requires subjects != []
    ensures Splits(AtSubjects(graph, target, property, subjects, n), n,
                   OfSubject(graph, target, property, subjects[0]),
                   AtSubjects(graph, target, property, subjects[1..], n + 1))
  {
  }

  lemma ReverseSplit(graph: Option<Id>, target: Node, reverse: seq<ReverseProperty>, n: nat)
    requires reverse != []
    ensures Splits(AtReverse(graph, target, reverse, n), n, OfReverseEntry(graph, target, reverse[0]),
                   AtReverse(graph, target, reverse[1..], n + 1))
  {
  }

  // ----- the traversal lists them

  lemma {:induction false} TypesListed(graph: Option<Id>, id: Id, types: seq<Id>, n: nat) returns (places: seq<Place>)
    ensures Lists(AtTypes(graph, id, types, n), places, TypeQuads(graph, id, types))
  {
    if types == [] {
      places := [];
      NothingListed(AtTypes(graph, id, types, n));
    } else {
      var quad := Quad(graph, id, TypeProperty, IdRef(types[0]));
      var first := ItselfListed(Some(quad));
      var rest := TypesListed(graph, id, types[1..], n + 1);
      TypesSplit(graph, id, types, n);
      Joined(Itself(Some(quad)), first, [quad], AtTypes(graph, id, types[1..], n + 1), rest,
             TypeQuads(graph, id, types[1..]), AtTypes(graph, id, types, n), n);
      places := Under(n, first) + rest;
    }
  }

  lemma {:induction false} ObjectsListed(graph: Option<Id>, objects: seq<Object>, n: nat) returns (places: seq<Place>)
    ensures Lists(AtObjects(graph, objects, n), places, ObjectsQuads(graph, objects))
    decreases objects, 0
  {
    if objects == [] {
      places := [];
      NothingListed(AtObjects(graph, objects, n));
    } else {
      var first := ObjectListed(graph, objects[0]);
      var rest := ObjectsListed(graph, objects[1..], n + 1);
      ObjectsSplit(graph, objects, n);
      Joined(AtObject(graph, objects[0]), first, ObjectQuads(graph, objects[0]),
             AtObjects(graph, objects[1..], n + 1), rest, ObjectsQuads(graph, objects[1..]),
             AtObjects(graph, objects, n), n);
      places := Under(n, first) + rest;
    }
  }

  lemma {:induction false} NodesListed(graph: Option<Id>, nodes: seq<Node>, n: nat) returns (places: seq<Place>)
    ensures Lists(AtNodes(graph, nodes, n), places, NodesQuads(graph, nodes))
    decreases nodes, 0
  {
    if nodes == [] {
      places := [];
      NothingListed(AtNodes(graph, nodes, n));
    } else {
      var first := NodeListed(graph, nodes[0]);
      var rest := NodesListed(graph, nodes[1..], n + 1);
      NodesSplit(graph, nodes, n);
      Joined(AtObject(graph, NodeObject(nodes[0])), first, NodeQuads(graph, nodes[0]),
             AtNodes(graph, nodes[1..], n + 1), rest, NodesQuads(graph, nodes[1..]), AtNodes(graph, nodes, n), n);
      places := Under(n, first) + rest;
    }
  }

  /** The quad stated at a value, if any, and then what is nested in it. */
  lemma ValueListed(stated: Option<Quad>, graph: Option<Id>, obj: Object, inside: seq<Place>, quads: seq<Quad>)
      returns (places: seq<Place>)
    requires Lists(AtObject(graph, obj), inside, quads)
    ensures Lists(AtValue(stated, graph, obj), places, Stated(stated) + quads)
  {
    NothingListed(Nowhere);
    Joined(AtObject(graph, obj), inside, quads, Nowhere, [], [], Nested(graph, obj), INSIDE);
    var nested := Under(INSIDE, inside);
    assert quads + [] == quads && nested + [] == nested;
    var first := ItselfListed(stated);
    ValueSplit(stated, graph, obj);
    Joined(Itself(stated), first, Stated(stated), Nested(graph, obj), nested, quads, AtValue(stated, graph, obj),
           ITSELF);
    places := Under(ITSELF, first) + nested;
  }

  lemma ValueSplit(stated: Option<Quad>, graph: Option<Id>, obj: Object)
    ensures Splits(AtValue(stated, graph, obj), ITSELF, Itself(stated), Nested(graph, obj))
  {
    forall p, q
      ensures Holds(AtValue(stated, graph, obj), p, q) <==>
              (|p| > 0 && p[0] == ITSELF && Holds(Itself(stated), p[1..], q)) || Holds(Nested(graph, obj), p, q)
    {
      if |p| > 0 && p[0] == ITSELF { assert p[1..] == [] <==> p == [ITSELF]; }
    }
  }

  lemma ValuesUnfolded(graph: Option<Id>, subject: Id, property: Id, objects: seq<Object>)
    requires objects != []
    ensures PropertyQuads(graph, subject, property, objects)
         == Stated(Some(ValueQuad(graph, subject, property, objects[0]))) + ObjectQuads(graph, objects[0])
            + PropertyQuads(graph, subject, property, objects[1..])
  {
    Regroup([ValueQuad(graph, subject, property, objects[0])], ObjectQuads(graph, objects[0]),
            PropertyQuads(graph, subject, property, objects[1..]));
  }

  lemma {:induction false} ValuesListed(graph: Option<Id>, subject: Id, property: Id, objects: seq<Object>, n: nat)
      returns (places: seq<Place>)
    ensures Lists(AtValues(graph, subject, property, objects, n), places,
                  PropertyQuads(graph, subject, property, objects))
    decreases objects, 0
  {
    if objects == [] {
      places := [];
      NothingListed(AtValues(graph, subject, property, objects, n));
    } else {
      var stated, quads := Some(ValueQuad(graph, subject, property, objects[0])), ObjectQuads(graph, objects[0]);
      var inside := ObjectListed(graph, objects[0]);
      var first := ValueListed(stated, graph, objects[0], inside, quads);
      var rest := ValuesListed(graph, subject, property, objects[1..], n + 1);
      ValuesSplit(graph, subject, property, objects, n);
      Joined(OfValue(graph, subject, property, objects[0]), first, Stated(stated) + quads,
             AtValues(graph, subject, property, objects[1..], n + 1), rest,
             PropertyQuads(graph, subject, property, objects[1..]), AtValues(graph, subject, property, objects, n), n);
      ValuesUnfolded(graph, subject, property, objects);
      places := Under(n, first) + rest;
    }
  }

  lemma {:induction false} EntryListed(graph: Option<Id>, subject: Id, entry: Property) returns (places: seq<Place>)
    ensures Lists(OfEntry(graph, subject, entry), places, EntryQuads(graph, subject, entry))
    decreases entry, 0
  {
    places := ValuesListed(graph, subject, entry.property, entry.objects, 0);
  }

  lemma {:induction false} PropertiesListed(graph: Option<Id>, subject: Id, properties: seq<Property>, n: nat)
      returns (places: seq<Place>)
    ensures Lists(AtProperties(graph, subject, properties, n), places, PropertiesQuads(graph, subject, properties))
    decreases properties, 0
  {
    if properties == [] {
      places := [];
      NothingListed(AtProperties(graph, subject, properties, n));
    } else {
      var first := EntryListed(graph, subject, properties[0]);
      var rest := PropertiesListed(graph, subject, properties[1..], n + 1);
      PropertiesSplit(graph, subject, properties, n);
      Joined(OfEntry(graph, subject, properties[0]), first, EntryQuads(graph, subject, properties[0]),
             AtProperties(graph, subject, properties[1..], n + 1), rest,
             PropertiesQuads(graph, subject, properties[1..]), AtProperties(graph, subject, properties, n), n);
      places := Under(n, first) + rest;
    }
  }

  lemma SubjectsUnfolded(graph: Option<Id>, target: Node, property: Id, subjects: seq<Node>)
    requires subjects != []
    ensures SubjectsQuads(graph, target, property, subjects)
         == Stated(SubjectQuad(graph, target, property, subjects[0])) + NodeQuads(graph, subjects[0])
            + SubjectsQuads(graph, target, property, subjects[1..])
  {
    Regroup(Stated(SubjectQuad(graph, target, property, subjects[0])), NodeQuads(graph, subjects[0]),
            SubjectsQuads(graph, target, property, subjects[1..]));
  }

  lemma {:induction false} SubjectsListed(graph: Option<Id>, target: Node, property: Id, subjects: seq<Node>, n: nat)
      returns (places: seq<Place>)
    ensures Lists(AtSubjects(graph, target, property, subjects, n), places,
                  SubjectsQuads(graph, target, property, subjects))
    decreases subjects, 0
  {
    if subjects == [] {
      places := [];
      NothingListed(AtSubjects(graph, target, property, subjects, n));
    } else {
      var stated, quads := SubjectQuad(graph, target, property, subjects[0]), NodeQuads(graph, subjects[0]);
      var inside := NodeListed(graph, subjects[0]);
      var first := ValueListed(stated, graph, NodeObject(subjects[0]), inside, quads);
      var rest := SubjectsListed(graph, target, property, subjects[1..], n + 1);
      SubjectsSplit(graph, target, property, subjects, n);
      Joined(OfSubject(graph, target, property, subjects[0]), first, Stated(stated) + quads,
             AtSubjects(graph, target, property, subjects[1..], n + 1), rest,
             SubjectsQuads(graph, target, property, subjects[1..]), AtSubjects(graph, target, property, subjects, n),
             n);
      SubjectsUnfolded(graph, target, property, subjects);
      places := Under(n, first) + rest;
    }
  }

  lemma {:induction false} ReverseEntryListed(graph: Option<Id>, target: Node, entry: ReverseProperty)
      returns (places: seq<Place>)
    ensures Lists(OfReverseEntry(graph, target, entry), places, ReverseEntryQuads(graph, target, entry))
    decreases entry, 0
  {
    places := SubjectsListed(graph, target, entry.property, entry.subjects, 0);
  }

  lemma {:induction false} ReverseListed(graph: Option<Id>, target: Node, reverse: seq<ReverseProperty>, n: nat)
      returns (places: seq<Place>)
    ensures Lists(AtReverse(graph, target, reverse, n), places, ReverseQuads(graph, target, reverse))
    decreases reverse, 0
  {
    if reverse == [] {
      places := [];
      NothingListed(AtReverse(graph, target, reverse, n));
    } else {
      var first := ReverseEntryListed(graph, target, reverse[0]);
      var rest := ReverseListed(graph, target, reverse[1..], n + 1);
      ReverseSplit(graph, target, reverse, n);
      Joined(OfReverseEntry(graph, target, reverse[0]), first, ReverseEntryQuads(graph, target, reverse[0]),
             AtReverse(graph, target, reverse[1..], n + 1), rest,
             ReverseQuads(graph, target, reverse[1..]), AtReverse(graph, target, reverse, n), n);
      places := Under(n, first) + rest;
    }
  }

  lemma {:induction false} ObjectListed(graph: Option<Id>, obj: Object) returns (places: seq<Place>)
    ensures Lists(AtObject(graph, obj), places, ObjectQuads(graph, obj))
    decreases obj, 1
  {
    match obj
    case ValueObject(_) =>
      places := [];
      NothingListed(AtObject(graph, obj));
    case ListObject(items) =>
      places := ObjectsListed(graph, items, 0);
      forall p, q ensures Holds(AtObjects(graph, items, 0), p, q) <==> Holds(AtObject(graph, obj), p, q) {
        assert IsAt(graph, obj, p, q) <==> IsAmong(graph, items, p, q);
      }
      SameListed(AtObjects(graph, items, 0), AtObject(graph, obj), places, ObjectsQuads(graph, items));
    case NodeObject(node) => places := NodeListed(graph, node);
  }

  lemma SameListed(a: Region, b: Region, places: seq<Place>, quads: seq<Quad>)
    requires Lists(a, places, quads) && forall p, q :: Holds(a, p, q) <==> Holds(b, p, q)
    ensures Lists(b, places, quads)
  {
  }

  // ----- nodes, part by part

  /** The last position at a value, and what comes after it. */
  lemma ValuePlace(stated: Option<Quad>, graph: Option<Id>, obj: Object, p: Place, q: Quad)
    requires |p| > 3
    ensures Holds(AtValue(stated, graph, obj), p[1..][1..][1..], q) <==>
            || (|p| == 4 && p[3] == ITSELF && stated == Some(q))
            || (p[1..][2] == INSIDE && IsAt(graph, obj, p[1..][3..], q))
  {
    var last := p[1..][1..][1..];
    assert last == p[3..] && last[0] == p[3] == p[1..][2] && last[1..] == p[1..][3..];
    assert |p| == 4 && p[3] == ITSELF <==> last == [ITSELF];
  }

  lemma ValuePlaces(graph: Option<Id>, node: Node, id: Id, p: Place, q: Quad)
    requires |p| > 0 && p[0] == PROPERTIES
    ensures Holds(AtPart(graph, node, id, PROPERTIES), p[1..], q) <==>
            IsValue(graph, node, id, p, q) || (|p| > 1 && IsInValue(graph, node.properties, p[1..], q))
  {
    var r, properties := p[1..], node.properties;
    if |r| > 0 && r[0] < |properties| {
      var entry := properties[r[0]];
      assert Holds(AtProperties(graph, id, properties, 0), r, q) <==> Holds(OfEntry(graph, id, entry), r[1..], q);
      if |r| > 1 && r[1] < |entry.objects| {
        var obj := entry.objects[r[1]];
        assert Holds(OfEntry(graph, id, entry), r[1..], q)
          <==> Holds(OfValue(graph, id, entry.property, obj), r[1..][1..], q);
        if |p| > 3 { ValuePlace(Some(ValueQuad(graph, id, entry.property, obj)), graph, obj, p, q); }
      }
    }
  }

  lemma SubjectPlaces(graph: Option<Id>, node: Node, id: Id, p: Place, q: Quad)
    requires |p| > 0 && p[0] == REVERSE
    ensures Holds(AtPart(graph, node, id, REVERSE), p[1..], q) <==>
            || IsReverseValue(graph, node, p, q)
            || (|p| > 1 && node.reverse.Reverse? && IsInSubject(graph, node.reverse.properties, p[1..], q))
  {
    if node.reverse.NoReverse? { return; }
    var r, reverse := p[1..], node.reverse.properties;
    if |r| > 0 && r[0] < |reverse| {
      var entry := reverse[r[0]];
      assert Holds(AtReverse(graph, node, reverse, 0), r, q) <==> Holds(OfReverseEntry(graph, node, entry), r[1..], q);
      if |r| > 1 && r[1] < |entry.subjects| {
        var subject := entry.subjects[r[1]];
        assert Holds(OfReverseEntry(graph, node, entry), r[1..], q)
          <==> Holds(OfSubject(graph, node, entry.property, subject), r[1..][1..], q);
        if |p| > 3 {
          ValuePlace(SubjectQuad(graph, node, entry.property, subject), graph, NodeObject(subject), p, q);
        }
      }
    }
  }

  lemma IncludedPlaces(graph: Option<Id>, node: Node, id: Id, p: Place, q: Quad)
    requires |p| > 0 && p[0] == INCLUDED
    ensures Holds(AtPart(graph, node, id, INCLUDED), p[1..], q) <==> IsAtNode(graph, node, id, p, q)
  {
    assert IsAtNode(graph, node, id, p, q) <==>
           |p| > 1 && node.included.Included? && IsAmongNodes(graph, node.included.nodes, p[1..], q);
  }

  lemma GraphPlaces(graph: Option<Id>, node: Node, id: Id, p: Place, q: Quad)
    requires |p| > 0 && p[0] == GRAPH
    ensures Holds(AtPart(graph, node, id, GRAPH), p[1..], q) <==> IsAtNode(graph, node, id, p, q)
  {
    assert IsAtNode(graph, node, id, p, q) <==>
           |p| > 1 && node.graph.Graph? && IsAmong(Some(id), node.graph.objects, p[1..], q);
  }

  lemma NodePlaces(graph: Option<Id>, node: Node, id: Id, p: Place, q: Quad)
    requires node.id == Some(id)
    ensures Holds(FromPart(graph, node, id, TYPES), p, q) <==> Holds(AtObject(graph, NodeObject(node)), p, q)
  {
    assert IsAt(graph, NodeObject(node), p, q) <==> IsAtNode(graph, node, id, p, q);
    if |p| > 0 {
      if p[0] == TYPES {
        assert Holds(AtPart(graph, node, id, TYPES), p[1..], q) <==> IsType(graph, node, id, p, q);
      } else if p[0] == PROPERTIES {
        ValuePlaces(graph, node, id, p, q);
      } else if p[0] == REVERSE {
        SubjectPlaces(graph, node, id, p, q);
      } else if p[0] == INCLUDED {
        IncludedPlaces(graph, node, id, p, q);
      } else if p[0] == GRAPH {
        GraphPlaces(graph, node, id, p, q);
      } else {
        assert !IsAtNode(graph, node, id, p, q);
      }
    }
  }

  function PartQuads(graph: Option<Id>, node: Node, id: Id, part: nat): seq<Quad> {
    if part == TYPES then NodeTypeQuads(graph, id, node.types)
    else if part == PROPERTIES then PropertiesQuads(graph, id, node.properties)
    else if part == REVERSE then NodeReverseQuads(graph, node, node.reverse)
    else if part == INCLUDED then IncludedQuads(graph, node.included)
    else NamedGraphQuads(id, node.graph)
  }

  function FromQuads(graph: Option<Id>, node: Node, id: Id, part: nat): seq<Quad>
    decreases GRAPH + 1 - part
  {
    if part > GRAPH then [] else PartQuads(graph, node, id, part) + FromQuads(graph, node, id, part + 1)
  }

  lemma PartJoined(graph: Option<Id>, node: Node, id: Id, part: nat, first: seq<Place>, rest: seq<Place>)
    requires part <= GRAPH
    requires Lists(AtPart(graph, node, id, part), first, PartQuads(graph, node, id, part))
    requires Lists(FromPart(graph, node, id, part + 1), rest, FromQuads(graph, node, id, part + 1))
    ensures Lists(FromPart(graph, node, id, part), Under(part, first) + rest, FromQuads(graph, node, id, part))
  {
    Joined(AtPart(graph, node, id, part), first, PartQuads(graph, node, id, part),
           FromPart(graph, node, id, part + 1), rest, FromQuads(graph, node, id, part + 1),
           FromPart(graph, node, id, part), part);
  }

  lemma {:induction false} TypesPart(graph: Option<Id>, node: Node, id: Id) returns (places: seq<Place>)
    ensures Lists(AtPart(graph, node, id, TYPES), places, NodeTypeQuads(graph, id, node.types))
  {
    if node.types.Some? {
      places := TypesListed(graph, id, node.types.value, 0);
    } else {
      places := [];
      NothingListed(AtPart(graph, node, id, TYPES));
    }
  }

  lemma {:induction false} ReversePart(graph: Option<Id>, node: Node, id: Id, reverse: Reverse)
      returns (places: seq<Place>)
    requires node.reverse == reverse
    ensures Lists(AtPart(graph, node, id, REVERSE), places, NodeReverseQuads(graph, node, reverse))
    decreases reverse, 0
  {
    if reverse.Reverse? {
      places := ReverseListed(graph, node, reverse.properties, 0);
    } else {
      places := [];
      NothingListed(AtPart(graph, node, id, REVERSE));
    }
  }

  lemma {:induction false} IncludedPart(graph: Option<Id>, node: Node, id: Id, included: Included)
      returns (places: seq<Place>)
    requires node.included == included
    ensures Lists(AtPart(graph, node, id, INCLUDED), places, IncludedQuads(graph, included))
    decreases included, 0
  {
    if included.Included? {
      places := NodesListed(graph, included.nodes, 0);
    } else {
      places := [];
      NothingListed(AtPart(graph, node, id, INCLUDED));
    }
  }

  lemma {:induction false} GraphPart(graph: Option<Id>, node: Node, id: Id, named: Graph) returns (places: seq<Place>)
    requires node.graph == named
    ensures Lists(AtPart(graph, node, id, GRAPH), places, NamedGraphQuads(id, named))
    decreases named, 0
  {
    if named.Graph? {
      places := ObjectsListed(Some(id), named.objects, 0);
    } else {
      places := [];
      NothingListed(AtPart(graph, node, id, GRAPH));
    }
  }

  lemma FromTypes(graph: Option<Id>, node: Node, id: Id)
    requires node.id == Some(id)
    ensures FromQuads(graph, node, id, TYPES) == NodeQuads(graph, node)
  {
    assert FromQuads(graph, node, id, GRAPH) == NamedGraphQuads(id, node.graph);
    assert FromQuads(graph, node, id, INCLUDED) == IncludedQuads(graph, node.included)
                                                   + FromQuads(graph, node, id, GRAPH);
    assert FromQuads(graph, node, id, REVERSE) == NodeReverseQuads(graph, node, node.reverse)
                                                  + FromQuads(graph, node, id, INCLUDED);
    assert FromQuads(graph, node, id, PROPERTIES) == PropertiesQuads(graph, id, node.properties)
                                                     + FromQuads(graph, node, id, REVERSE);
  }

  lemma {:induction false} ValuesPart(graph: Option<Id>, node: Node, id: Id, properties: seq<Property>)
      returns (places: seq<Place>)
    requires node.properties == properties
    ensures Lists(AtPart(graph, node, id, PROPERTIES), places, PropertiesQuads(graph, id, properties))
    decreases properties, 1
  {
    places := PropertiesListed(graph, id, properties, 0);
  }

  lemma {:induction false} PartListed(graph: Option<Id>, node: Node, id: Id, part: nat) returns (places: seq<Place>)
    requires part <= GRAPH
    ensures Lists(AtPart(graph, node, id, part), places, PartQuads(graph, node, id, part))
    decreases node, 0
  {
    if part == TYPES {
      places := TypesPart(graph, node, id);
    } else if part == PROPERTIES {
      places := ValuesPart(graph, node, id, node.properties);
    } else if part == REVERSE {
      places := ReversePart(graph, node, id, node.reverse);
    } else if part == INCLUDED {
      places := IncludedPart(graph, node, id, node.included);
    } else {
      places := GraphPart(graph, node, id, node.graph);
    }
  }

  lemma {:induction false} FromListed(graph: Option<Id>, node: Node, id: Id, part: nat) returns (places: seq<Place>)
    requires part <= GRAPH + 1
    ensures Lists(FromPart(graph, node, id, part), places, FromQuads(graph, node, id, part))
    decreases node, 1, GRAPH + 1 - part
  {
    if part == GRAPH + 1 {
      places := [];
      NothingListed(FromPart(graph, node, id, part));
    } else {
      var first := PartListed(graph, node, id, part);
      var rest := FromListed(graph, node, id, part + 1);
      PartJoined(graph, node, id, part, first, rest);
      places := Under(part, first) + rest;
    }
  }

  lemma {:induction false} NodeListed(graph: Option<Id>, node: Node) returns (places: seq<Place>)
    ensures Lists(AtObject(graph, NodeObject(node)), places, NodeQuads(graph, node))
    decreases node, 2
  {
    if node.id.None? {
      places := [];
      NothingListed(AtObject(graph, NodeObject(node)));
    } else {
      var id := node.id.value;
      places := FromListed(graph, node, id, TYPES);
      FromTypes(graph, node, id);
      forall p, q
        ensures Holds(FromPart(graph, node, id, TYPES), p, q) <==> Holds(AtObject(graph, NodeObject(node)), p, q)
      {
        NodePlaces(graph, node, id, p, q);
      }
      SameListed(FromPart(graph, node, id, TYPES), AtObject(graph, NodeObject(node)), places, NodeQuads(graph, node));
    }
  }

  lemma GraphsSplit(graphs: seq<NodeMapEntry>, n: nat)
    requires graphs != []
    ensures var last := graphs[|graphs| - 1];
            Splits(AtGraphs(graphs, n), n, AtNodes(last.id, last.nodes, 0), AtGraphs(graphs[..|graphs| - 1], n + 1))
  {
    var last, others := graphs[|graphs| - 1], graphs[..|graphs| - 1];
    forall p: Place, q: Quad
      ensures Holds(AtGraphs(graphs, n), p, q) <==>
              (|p| > 0 && p[0] == n && Holds(AtNodes(last.id, last.nodes, 0), p[1..], q))
              || Holds(AtGraphs(others, n + 1), p, q)
    {
      if |p| > 0 && n < p[0] < n + |graphs| { assert GraphAt(graphs, p[0] - n) == GraphAt(others, p[0] - n - 1); }
    }
  }

  lemma {:induction false} GraphsListed(graphs: seq<NodeMapEntry>, n: nat) returns (places: seq<Place>)
    ensures Lists(AtGraphs(graphs, n), places, NodeMapQuads(graphs))
    decreases |graphs|
  {
    if graphs == [] {
      places := [];
      NothingListed(AtGraphs(graphs, n));
    } else {
      var last, others := graphs[|graphs| - 1], graphs[..|graphs| - 1];
      var first := NodesListed(last.id, last.nodes, 0);
      var rest := GraphsListed(others, n + 1);
      GraphsSplit(graphs, n);
      Joined(AtNodes(last.id, last.nodes, 0), first, NodesQuads(last.id, last.nodes), AtGraphs(others, n + 1), rest,
             NodeMapQuads(others), AtGraphs(graphs, n), n);
      places := Under(n, first) + rest;
    }
  }

  // ----- the order of places

  lemma {:induction false} BeforeIsOrder(a: Place, b: Place, c: Place)
    ensures !Before(a, a)
    ensures Before(a, b) && Before(b, c) ==> Before(a, c)
    decreases |a|
  {
    if a != [] {
      BeforeIsOrder(a[1..], if b == [] then [] else b[1..], if c == [] then [] else c[1..]);
    }
  }

  /** What a node says and nests comes before the content of its own graph. */
  lemma {:induction false} OwnGraphComesLast(path: Place, part: nat, own: Place, inGraph: Place)
    requires part < GRAPH
    ensures Before(path + [part] + own, path + [GRAPH] + inGraph)
  {
    if path != [] {
      OwnGraphComesLast(path[1..], part, own, inGraph);
      assert (path + [part] + own)[1..] == path[1..] + [part] + own;
      assert (path + [GRAPH] + inGraph)[1..] == path[1..] + [GRAPH] + inGraph;
    }
  }

  /** The places alone determine the quads and their order. */
  lemma {:induction false} ListingUnique(region: Region, places: seq<Place>, quads: seq<Quad>, others: seq<Place>,
      more: seq<Quad>)
    requires Lists(region, places, quads) && Lists(region, others, more)
    ensures places == others && quads == more
  {
    SameUpTo(region, places, quads, others, more, |places|);
    SameUpTo(region, others, more, places, quads, |others|);
    assert places[..|places|] == places && others[..|others|] == others;
    assert quads[..|places|] == quads && more[..|others|] == more;
  }

  /** What comes next in one listing has not been met in another that was the same so far. */
  lemma FoundFrom(region: Region, places: seq<Place>, quads: seq<Quad>, others: seq<Place>, more: seq<Quad>, n: nat)
      returns (j: nat)
    requires Lists(region, places, quads) && Lists(region, others, more)
    requires n < |places| && n <= |others| && places[..n] == others[..n]
    ensures n <= j < |others| && others[j] == places[n] && more[j] == quads[n]
  {
    assert Holds(region, places[n], quads[n]);
    j :| 0 <= j < |others| && others[j] == places[n] && more[j] == quads[n];
    if j < n {
      assert places[j] == places[..n][j] == others[..n][j] == others[j];
      assert Before(places[j], places[n]);
      BeforeIsOrder(places[n], [], []);
    }
  }

  lemma NextIsSame(region: Region, places: seq<Place>, quads: seq<Quad>, others: seq<Place>, more: seq<Quad>, n: nat)
    requires Lists(region, places, quads) && Lists(region, others, more)
    requires n < |places| && n <= |others| && places[..n] == others[..n]
    ensures n < |others| && others[n] == places[n] && more[n] == quads[n]
  {
    var j := FoundFrom(region, places, quads, others, more, n);
    if j > n {
      var i := FoundFrom(region, others, more, places, quads, n);
      assert Before(others[n], others[j]);
      assert i > n ==> Before(places[n], places[i]);
      BeforeIsOrder(places[n], others[n], places[n]);
      assert false;
    }
  }

  lemma {:induction false} SameUpTo(region: Region, places: seq<Place>, quads: seq<Quad>, others: seq<Place>,
      more: seq<Quad>, k: nat)
    requires Lists(region, places, quads) && Lists(region, others, more) && k <= |places|
    ensures k <= |others| && places[..k] == others[..k] && quads[..k] == more[..k]
  {
    if k > 0 {
      SameUpTo(region, places, quads, others, more, k - 1);
      NextIsSame(region, places, quads, others, more, k - 1);
      assert places[..k] == places[..k - 1] + [places[k - 1]] && others[..k] == others[..k - 1] + [others[k - 1]];
      assert quads[..k] == quads[..k - 1] + [quads[k - 1]] && more[..k] == more[..k - 1] + [more[k - 1]];
    }
  }

  // ----- which quads these are

  /** An object of the document, in the graph it is in. */
  datatype Spot = Spot(graph: Option<Id>, obj: Object)

  /** `b` is directly inside `a`: as an item of a list, or of a node with an identifier as a value, as the subject of a
      reverse property, among the nodes it includes, or in the graph it names. */
  ghost predicate Inside(a: Spot, b: Spot) {
    match a.obj
    case ValueObject(_) => false
    case ListObject(items) => b.graph == a.graph && b.obj in items
    case NodeObject(node) =>
      node.id.Some?
      && (|| (b.graph == a.graph && exists entry :: entry in node.properties && b.obj in entry.objects)
          || (b.graph == a.graph && b.obj.NodeObject?
              && (IsSubjectOf(node, b.obj.node) || IsIncluded(node, b.obj.node)))
          || (b.graph == node.id && node.graph.Graph? && b.obj in node.graph.objects))
  }

  ghost predicate IsSubjectOf(target: Node, subject: Node) {
    target.reverse.Reverse? && exists entry :: entry in target.reverse.properties && subject in entry.subjects
  }

  ghost predicate IsIncluded(node: Node, other: Node) {
    node.included.Included? && other in node.included.nodes
  }

  ghost predicate IsPath(path: seq<Spot>) {
    |path| > 0 && forall i :: 0 < i < |path| ==> Inside(path[i - 1], path[i])
  }

  ghost predicate SaysType(graph: Option<Id>, node: Node, q: Quad) {
    node.id.Some? && node.types.Some?
    && exists t :: t in node.types.value && q == Quad(graph, node.id.value, TypeProperty, IdRef(t))
  }

  ghost predicate SaysValue(graph: Option<Id>, node: Node, q: Quad) {
    node.id.Some?
    && exists entry, obj :: entry in node.properties && obj in entry.objects
                            && q == ValueQuad(graph, node.id.value, entry.property, obj)
  }

  ghost predicate SaysReverse(graph: Option<Id>, node: Node, q: Quad) {
    node.id.Some? && node.reverse.Reverse?
    && exists entry, subject :: entry in node.reverse.properties && subject in entry.subjects
                                && SubjectQuad(graph, node, entry.property, subject) == Some(q)
  }

  /** A node with an identifier says what its types are, what its values are, and whose value it is. */
  ghost predicate Says(spot: Spot, q: Quad) {
    && spot.obj.NodeObject?
    && (|| SaysType(spot.graph, spot.obj.node, q)
        || SaysValue(spot.graph, spot.obj.node, q)
        || SaysReverse(spot.graph, spot.obj.node, q))
  }

  /** Something at the end of a path from `spot` says `q`. */
  ghost predicate SaidFrom(spot: Spot, q: Quad) {
    exists path :: IsPath(path) && path[0] == spot && Says(path[|path| - 1], q)
  }

  lemma SaidHere(spot: Spot, q: Quad)
    requires Says(spot, q)
    ensures SaidFrom(spot, q)
  {
    assert IsPath([spot]);
  }

  lemma SaidBelow(a: Spot, b: Spot, q: Quad)
    requires Inside(a, b) && SaidFrom(b, q)
    ensures SaidFrom(a, q)
  {
    var path :| IsPath(path) && path[0] == b && Says(path[|path| - 1], q);
    var longer := [a] + path;
    forall i | 0 < i < |longer| ensures Inside(longer[i - 1], longer[i]) {
      if i > 1 { assert Inside(path[i - 2], path[i - 1]); }
    }
    assert IsPath(longer) && longer[|longer| - 1] == path[|path| - 1];
  }

  lemma {:induction false} PlaceIsSaid(graph: Option<Id>, obj: Object, p: Place, q: Quad)
    requires IsAt(graph, obj, p, q)
    ensures SaidFrom(Spot(graph, obj), q)
    decreases |p|
  {
    match obj
    case ListObject(items) =>
      PlaceIsSaid(graph, items[p[0]], p[1..], q);
      SaidBelow(Spot(graph, obj), Spot(graph, items[p[0]]), q);
    case NodeObject(node) =>
      var id, here := node.id.value, Spot(graph, obj);
      if IsType(graph, node, id, p, q) || IsValue(graph, node, id, p, q) || IsReverseValue(graph, node, p, q) {
        NodeSays(graph, node, id, p, q);
        SaidHere(here, q);
      } else if p[0] == PROPERTIES {
        assert IsInValue(graph, node.properties, p[1..], q);
        var entry := node.properties[p[1]];
        PlaceIsSaid(graph, entry.objects[p[2]], p[1..][3..], q);
        SaidBelow(here, Spot(graph, entry.objects[p[2]]), q);
      } else if p[0] == REVERSE {
        assert IsInSubject(graph, node.reverse.properties, p[1..], q);
        var entry := node.reverse.properties[p[1]];
        PlaceIsSaid(graph, NodeObject(entry.subjects[p[2]]), p[1..][3..], q);
        SaidBelow(here, Spot(graph, NodeObject(entry.subjects[p[2]])), q);
      } else if p[0] == INCLUDED {
        assert IsAmongNodes(graph, node.included.nodes, p[1..], q);
        PlaceIsSaid(graph, NodeObject(node.included.nodes[p[1]]), p[1..][1..], q);
        SaidBelow(here, Spot(graph, NodeObject(node.included.nodes[p[1]])), q);
      } else {
        assert IsAmong(node.id, node.graph.objects, p[1..], q);
        PlaceIsSaid(node.id, node.graph.objects[p[1]], p[1..][1..], q);
        SaidBelow(here, Spot(node.id, node.graph.objects[p[1]]), q);
      }
  }

  lemma NodeSays(graph: Option<Id>, node: Node, id: Id, p: Place, q: Quad)
    requires node.id == Some(id)
    requires IsType(graph, node, id, p, q) || IsValue(graph, node, id, p, q) || IsReverseValue(graph, node, p, q)
    ensures Says(Spot(graph, NodeObject(node)), q)
  {
    if IsType(graph, node, id, p, q) {
      assert node.types.value[p[1]] in node.types.value;
      assert SaysType(graph, node, q);
    } else if IsValue(graph, node, id, p, q) {
      var entry := node.properties[p[1]];
      assert entry in node.properties && entry.objects[p[2]] in entry.objects;
      assert SaysValue(graph, node, q);
    } else {
      var entry := node.reverse.properties[p[1]];
      assert entry in node.reverse.properties && entry.subjects[p[2]] in entry.subjects;
      assert SaysReverse(graph, node, q);
    }
  }

  lemma NodePlaced(graph: Option<Id>, node: Node, q: Quad) returns (r: Place)
    requires Says(Spot(graph, NodeObject(node)), q)
    ensures IsAt(graph, NodeObject(node), r, q)
  {
    var id := node.id.value;
    if SaysType(graph, node, q) {
      var t :| t in node.types.value && q == Quad(graph, id, TypeProperty, IdRef(t));
      var i :| 0 <= i < |node.types.value| && node.types.value[i] == t;
      r := [TYPES, i];
      assert IsType(graph, node, id, r, q);
    } else if SaysValue(graph, node, q) {
      var entry, obj :| entry in node.properties && obj in entry.objects
                        && q == ValueQuad(graph, id, entry.property, obj);
      var i :| 0 <= i < |node.properties| && node.properties[i] == entry;
      var j :| 0 <= j < |entry.objects| && entry.objects[j] == obj;
      r := [PROPERTIES, i, j, ITSELF];
      assert IsValue(graph, node, id, r, q);
    } else {
      var entry, subject :| entry in node.reverse.properties && subject in entry.subjects
                            && SubjectQuad(graph, node, entry.property, subject) == Some(q);
      var i :| 0 <= i < |node.reverse.properties| && node.reverse.properties[i] == entry;
      var j :| 0 <= j < |entry.subjects| && entry.subjects[j] == subject;
      r := [REVERSE, i, j, ITSELF];
      assert IsReverseValue(graph, node, r, q);
    }
  }

  lemma InsidePlaced(a: Spot, b: Spot, p: Place, q: Quad) returns (r: Place)
    requires Inside(a, b) && IsAt(b.graph, b.obj, p, q)
    ensures IsAt(a.graph, a.obj, r, q)
  {
    match a.obj
    case ListObject(items) =>
      var i :| 0 <= i < |items| && items[i] == b.obj;
      r := [i] + p;
      assert r[1..] == p;
    case NodeObject(node) => r := InsideNodePlaced(a.graph, node, b, p, q);
  }

  lemma InsideNodePlaced(graph: Option<Id>, node: Node, b: Spot, p: Place, q: Quad) returns (r: Place)
    requires Inside(Spot(graph, NodeObject(node)), b) && IsAt(b.graph, b.obj, p, q)
    ensures IsAt(graph, NodeObject(node), r, q)
  {
    if b.graph == graph && exists entry :: entry in node.properties && b.obj in entry.objects {
      var entry :| entry in node.properties && b.obj in entry.objects;
      var i :| 0 <= i < |node.properties| && node.properties[i] == entry;
      var j :| 0 <= j < |entry.objects| && entry.objects[j] == b.obj;
      r := [PROPERTIES] + ([i, j, INSIDE] + p);
      assert r[1..] == [i, j, INSIDE] + p && r[1..][3..] == p;
      assert IsInValue(graph, node.properties, r[1..], q);
    } else if b.graph == graph && b.obj.NodeObject? && IsSubjectOf(node, b.obj.node) {
      var entry :| entry in node.reverse.properties && b.obj.node in entry.subjects;
      var i :| 0 <= i < |node.reverse.properties| && node.reverse.properties[i] == entry;
      var j :| 0 <= j < |entry.subjects| && entry.subjects[j] == b.obj.node;
      r := [REVERSE] + ([i, j, INSIDE] + p);
      assert r[1..] == [i, j, INSIDE] + p && r[1..][3..] == p;
      assert IsInSubject(graph, node.reverse.properties, r[1..], q);
    } else if b.graph == graph && b.obj.NodeObject? && IsIncluded(node, b.obj.node) {
      var i :| 0 <= i < |node.included.nodes| && node.included.nodes[i] == b.obj.node;
      r := [INCLUDED] + ([i] + p);
      assert r[1..] == [i] + p && r[1..][1..] == p;
      assert IsAmongNodes(graph, node.included.nodes, r[1..], q);
    } else {
      var i :| 0 <= i < |node.graph.objects| && node.graph.objects[i] == b.obj;
      r := [GRAPH] + ([i] + p);
      assert r[1..] == [i] + p && r[1..][1..] == p;
      assert IsAmong(node.id, node.graph.objects, r[1..], q);
    }
    assert IsAtNode(graph, node, node.id.value, r, q);
  }

  lemma {:induction false} SaidIsPlaced(path: seq<Spot>, q: Quad) returns (r: Place)
    requires IsPath(path) && Says(path[|path| - 1], q)
    ensures IsAt(path[0].graph, path[0].obj, r, q)
    decreases |path|
  {
    if |path| == 1 {
      r := NodePlaced(path[0].graph, path[0].obj.node, q);
    } else {
      forall i | 0 < i < |path| - 1 ensures Inside(path[1..][i - 1], path[1..][i]) {
        assert Inside(path[i], path[i + 1]);
      }
      var p := SaidIsPlaced(path[1..], q);
      assert Inside(path[0], path[1]);
      r := InsidePlaced(path[0], path[1], p, q);
    }
  }

  lemma ListedIsHeld(region: Region, places: seq<Place>, quads: seq<Quad>, q: Quad) returns (p: Place)
    requires Lists(region, places, quads) && q in quads
    ensures Holds(region, p, q)
  {
    var i :| 0 <= i < |quads| && quads[i] == q;
    p := places[i];
  }

  lemma HeldIsListed(region: Region, places: seq<Place>, quads: seq<Quad>, p: Place, q: Quad)
    requires Lists(region, places, quads) && Holds(region, p, q)
    ensures q in quads
  {
    var i :| 0 <= i < |places| && places[i] == p && quads[i] == q;
  }

  /** What is said from `spot` is at a place of it. */
  lemma {:induction false} SaidHasPlace(spot: Spot, q: Quad) returns (r: Place)
    requires SaidFrom(spot, q)
    ensures IsAt(spot.graph, spot.obj, r, q)
  {
    var path :| IsPath(path) && path[0] == spot && Says(path[|path| - 1], q);
    r := SaidIsPlaced(path, q);
  }

  // ----- documents

  /** What a document holds directly, in the graph it is in. */
  ghost predicate IsTop(document: seq<Object>, spot: Spot) {
    spot.graph == None && spot.obj in document
  }

  ghost predicate IsTopNode(document: seq<Node>, spot: Spot) {
    spot.graph == None && exists node :: node in document && spot.obj == NodeObject(node)
  }

  ghost predicate IsNodeMapNode(graphs: seq<NodeMapEntry>, spot: Spot) {
    exists entry, node :: entry in graphs && node in entry.nodes && spot == Spot(entry.id, NodeObject(node))
  }

  lemma {:induction false} ExpandedQuadIsSaid(document: seq<Object>, q: Quad) returns (spot: Spot)
    requires q in ObjectsQuads(None, document)
    ensures IsTop(document, spot) && SaidFrom(spot, q)
  {
    var places := ObjectsListed(None, document, 0);
    var p := ListedIsHeld(AtObjects(None, document, 0), places, ObjectsQuads(None, document), q);
    spot := Spot(None, document[p[0]]);
    PlaceIsSaid(None, spot.obj, p[1..], q);
  }

  lemma {:induction false} SaidIsExpandedQuad(document: seq<Object>, spot: Spot, q: Quad)
    requires IsTop(document, spot) && SaidFrom(spot, q)
    ensures q in ObjectsQuads(None, document)
  {
    var places := ObjectsListed(None, document, 0);
    var i :| 0 <= i < |document| && document[i] == spot.obj;
    var r := SaidHasPlace(spot, q);
    assert ([i] + r)[1..] == r;
    HeldIsListed(AtObjects(None, document, 0), places, ObjectsQuads(None, document), [i] + r, q);
  }

  /** The quads of an expanded document are what is said from it. */
  lemma {:induction false} ExpandedQuadsExactlyWhen(document: seq<Object>, q: Quad)
    ensures q in ObjectsQuads(None, document) <==> exists spot :: IsTop(document, spot) && SaidFrom(spot, q)
  {
    if q in ObjectsQuads(None, document) { var spot := ExpandedQuadIsSaid(document, q); }
    if spot :| IsTop(document, spot) && SaidFrom(spot, q) { SaidIsExpandedQuad(document, spot, q); }
  }

  lemma {:induction false} FlattenedQuadIsSaid(document: seq<Node>, q: Quad) returns (spot: Spot)
    requires q in NodesQuads(None, document)
    ensures IsTopNode(document, spot) && SaidFrom(spot, q)
  {
    var places := NodesListed(None, document, 0);
    var p := ListedIsHeld(AtNodes(None, document, 0), places, NodesQuads(None, document), q);
    spot := Spot(None, NodeObject(document[p[0]]));
    PlaceIsSaid(None, spot.obj, p[1..], q);
  }

  lemma {:induction false} SaidIsFlattenedQuad(document: seq<Node>, spot: Spot, q: Quad)
    requires IsTopNode(document, spot) && SaidFrom(spot, q)
    ensures q in NodesQuads(None, document)
  {
    var places := NodesListed(None, document, 0);
    var i :| 0 <= i < |document| && NodeObject(document[i]) == spot.obj;
    var r := SaidHasPlace(spot, q);
    assert ([i] + r)[1..] == r;
    HeldIsListed(AtNodes(None, document, 0), places, NodesQuads(None, document), [i] + r, q);
  }

  /** The same for a flattened document. */
  lemma {:induction false} FlattenedQuadsExactlyWhen(document: seq<Node>, q: Quad)
    ensures q in NodesQuads(None, document) <==> exists spot :: IsTopNode(document, spot) && SaidFrom(spot, q)
  {
    if q in NodesQuads(None, document) { var spot := FlattenedQuadIsSaid(document, q); }
    if spot :| IsTopNode(document, spot) && SaidFrom(spot, q) { SaidIsFlattenedQuad(document, spot, q); }
  }

  lemma {:induction false} NodeMapQuadIsSaid(graphs: seq<NodeMapEntry>, q: Quad) returns (spot: Spot)
    requires q in NodeMapQuads(graphs)
    ensures IsNodeMapNode(graphs, spot) && SaidFrom(spot, q)
  {
    var places := GraphsListed(graphs, 0);
    var p := ListedIsHeld(AtGraphs(graphs, 0), places, NodeMapQuads(graphs), q);
    var entry := GraphAt(graphs, p[0]);
    assert IsAmongNodes(entry.id, entry.nodes, p[1..], q);
    spot := Spot(entry.id, NodeObject(entry.nodes[p[1..][0]]));
    PlaceIsSaid(entry.id, spot.obj, p[1..][1..], q);
    assert entry in graphs && spot.obj.node in entry.nodes;
  }

  lemma NodeMapPlace(graphs: seq<NodeMapEntry>, entry: NodeMapEntry, node: Node, r: Place, q: Quad) returns (p: Place)
    requires entry in graphs && node in entry.nodes && IsAt(entry.id, NodeObject(node), r, q)
    ensures Holds(AtGraphs(graphs, 0), p, q)
  {
    var i :| 0 <= i < |graphs| && graphs[i] == entry;
    var j :| 0 <= j < |entry.nodes| && entry.nodes[j] == node;
    var k := |graphs| - 1 - i;
    p := [k] + ([j] + r);
    assert ([j] + r)[1..] == r && p[1..] == [j] + r;
    assert GraphAt(graphs, k) == entry && IsAmongNodes(entry.id, entry.nodes, p[1..], q);
  }

  lemma {:induction false} SaidIsNodeMapQuad(graphs: seq<NodeMapEntry>, spot: Spot, q: Quad)
    requires IsNodeMapNode(graphs, spot) && SaidFrom(spot, q)
    ensures q in NodeMapQuads(graphs)
  {
    var entry, node :| entry in graphs && node in entry.nodes && spot == Spot(entry.id, NodeObject(node));
    var r := SaidHasPlace(spot, q);
    var p := NodeMapPlace(graphs, entry, node, r, q);
    var places := GraphsListed(graphs, 0);
    HeldIsListed(AtGraphs(graphs, 0), places, NodeMapQuads(graphs), p, q);
  }

  /** And for a node map. */
  lemma {:induction false} NodeMapQuadsExactlyWhen(graphs: seq<NodeMapEntry>, q: Quad)
    ensures q in NodeMapQuads(graphs) <==> exists spot :: IsNodeMapNode(graphs, spot) && SaidFrom(spot, q)
  {
    if q in NodeMapQuads(graphs) { var spot := NodeMapQuadIsSaid(graphs, q); }
    if spot :| IsNodeMapNode(graphs, spot) && SaidFrom(spot, q) { SaidIsNodeMapQuad(graphs, spot, q); }
  }

  method ExpandedQuads(document: seq<Object>) returns (r: seq<Quad>)
    ensures exists places :: Lists(AtObjects(None, document, 0), places, r)
    ensures forall q :: q in r <==> exists spot :: IsTop(document, spot) && SaidFrom(spot, q)
  {
    var quads := new Quads.FromExpanded(document);
    r := Drain(quads);
    var places := ObjectsListed(None, document, 0);
    forall q ensures q in r <==> exists spot :: IsTop(document, spot) && SaidFrom(spot, q) {
      ExpandedQuadsExactlyWhen(document, q);
    }
  }

  method FlattenedQuads(document: seq<Node>) returns (r: seq<Quad>)
    ensures exists places :: Lists(AtNodes(None, document, 0), places, r)
    ensures forall q :: q in r <==> exists spot :: IsTopNode(document, spot) && SaidFrom(spot, q)
  {
    var quads := new Quads.FromFlattened(document);
    r := Drain(quads);
    var places := NodesListed(None, document, 0);
    forall q ensures q in r <==> exists spot :: IsTopNode(document, spot) && SaidFrom(spot, q) {
      FlattenedQuadsExactlyWhen(document, q);
    }
  }

  method NodeMapDocumentQuads(graphs: seq<NodeMapEntry>) returns (r: seq<Quad>)
    ensures exists places :: Lists(AtGraphs(graphs, 0), places, r)
    ensures forall q :: q in r <==> exists spot :: IsNodeMapNode(graphs, spot) && SaidFrom(spot, q)
  {
    var quads := new Quads.FromNodeMap(graphs);
    r := Drain(quads);
    var places := GraphsListed(graphs, 0);
    forall q ensures q in r <==> exists spot :: IsNodeMapNode(graphs, spot) && SaidFrom(spot, q) {
      NodeMapQuadsExactlyWhen(graphs, q);
    }
  }
}
