/**
 Reading a document as quads (jsonld-core/src/quad.rs).

 The iterator keeps an explicit stack of frames, each holding what is left of one
 collection. Its specification is a plain recursive traversal: what the stack still
 has to give is the concatenation of its frames' traversals, top first.
 */
module Quads {
  import opened Wrappers

  type Id = string

  // ----- documents

  datatype Object = NodeObject(node: Node) | ListObject(items: seq<Object>) | ValueObject(value: string)

  datatype Node = Node(id: Option<Id>, types: Option<seq<Id>>, properties: seq<Property>,
                       reverse: Reverse, included: Included, graph: Graph)

  datatype Property = Property(property: Id, objects: seq<Object>)
  datatype ReverseProperty = ReverseProperty(property: Id, subjects: seq<Node>)
  datatype Reverse = NoReverse | Reverse(properties: seq<ReverseProperty>)
  datatype Included = NoIncluded | Included(nodes: seq<Node>)
  datatype Graph = NoGraph | Graph(objects: seq<Object>)

  datatype NodeMapEntry = NodeMapEntry(id: Option<Id>, nodes: seq<Node>)

  // ----- quads

  datatype PropertyRef = TypeProperty | PropertyRef(id: Id)
  datatype ObjectRef = ObjectRef(obj: Object) | NodeRef(node: Node) | IdRef(id: Id)
  datatype Quad = Quad(graph: Option<Id>, subject: Id, property: PropertyRef, obj: ObjectRef)

  // ----- the recursive traversal

  function TypeQuads(graph: Option<Id>, subject: Id, types: seq<Id>): seq<Quad> {
    if types == [] then []
    else [Quad(graph, subject, TypeProperty, IdRef(types[0]))] + TypeQuads(graph, subject, types[1..])
  }

  /** What a node says and what is nested in it. Nothing can be said of a node without an identifier. */
  function NodeQuads(graph: Option<Id>, node: Node): seq<Quad>
    decreases node, 0
  {
    match node.id
    case None => []
    case Some(id) =>
      NodeTypeQuads(graph, id, node.types)
      + (PropertiesQuads(graph, id, node.properties)
         + (NodeReverseQuads(graph, node, node.reverse)
            + (IncludedQuads(graph, node.included) + NamedGraphQuads(id, node.graph))))
  }

  function NodeTypeQuads(graph: Option<Id>, subject: Id, types: Option<seq<Id>>): seq<Quad> {
    if types.Some? then TypeQuads(graph, subject, types.value) else []
  }

  function NodeReverseQuads(graph: Option<Id>, target: Node, reverse: Reverse): seq<Quad>
    decreases reverse, 0
  {
    if reverse.Reverse? then ReverseQuads(graph, target, reverse.properties) else []
  }

  function IncludedQuads(graph: Option<Id>, included: Included): seq<Quad>
    decreases included, 0
  {
    if included.Included? then NodesQuads(graph, included.nodes) else []
  }

  /** The content of a node's own graph is said in the graph named by the node. */
  function NamedGraphQuads(id: Id, graph: Graph): seq<Quad>
    decreases graph, 0
  {
    if graph.Graph? then ObjectsQuads(Some(id), graph.objects) else []
  }

  function ObjectQuads(graph: Option<Id>, obj: Object): seq<Quad>
    decreases obj, 1
  {
    match obj
    case NodeObject(node) => NodeQuads(graph, node)
    case ListObject(items) => ObjectsQuads(graph, items)
    case ValueObject(_) => []
  }

  function ObjectsQuads(graph: Option<Id>, objects: seq<Object>): seq<Quad>
    decreases objects, 0
  {
    if objects == [] then [] else ObjectQuads(graph, objects[0]) + ObjectsQuads(graph, objects[1..])
  }

  function NodesQuads(graph: Option<Id>, nodes: seq<Node>): seq<Quad>
    decreases nodes, 0
  {
    if nodes == [] then [] else NodeQuads(graph, nodes[0]) + NodesQuads(graph, nodes[1..])
  }

  /** Each object is named in a quad, then its own subtree follows. */
  function PropertyQuads(graph: Option<Id>, subject: Id, property: Id, objects: seq<Object>): seq<Quad>
    decreases objects, 0
  {
    if objects == [] then []
    else [Quad(graph, subject, PropertyRef(property), ObjectRef(objects[0]))]
         + (ObjectQuads(graph, objects[0]) + PropertyQuads(graph, subject, property, objects[1..]))
  }

  function EntryQuads(graph: Option<Id>, subject: Id, entry: Property): seq<Quad>
    decreases entry, 0
  {
    PropertyQuads(graph, subject, entry.property, entry.objects)
  }

  function PropertiesQuads(graph: Option<Id>, subject: Id, properties: seq<Property>): seq<Quad>
    decreases properties, 0
  {
    if properties == [] then []
    else EntryQuads(graph, subject, properties[0]) + PropertiesQuads(graph, subject, properties[1..])
  }

  /** A subject without an identifier is not named, and has no quads of its own. */
  function SubjectsQuads(graph: Option<Id>, target: Node, property: Id, subjects: seq<Node>): seq<Quad>
    decreases subjects, 0
  {
    if subjects == [] then []
    else (if subjects[0].id.Some? then [Quad(graph, subjects[0].id.value, PropertyRef(property), NodeRef(target))]
        else [])
         + (NodeQuads(graph, subjects[0]) + SubjectsQuads(graph, target, property, subjects[1..]))
  }

  function ReverseEntryQuads(graph: Option<Id>, target: Node, entry: ReverseProperty): seq<Quad>
    decreases entry, 0
  {
    SubjectsQuads(graph, target, entry.property, entry.subjects)
  }

  function ReverseQuads(graph: Option<Id>, target: Node, properties: seq<ReverseProperty>): seq<Quad>
    decreases properties, 0
  {
    if properties == [] then []
    else ReverseEntryQuads(graph, target, properties[0]) + ReverseQuads(graph, target, properties[1..])
  }

  /** The graphs of a node map are pushed in order, so the last one is read first. */
  function NodeMapQuads(graphs: seq<NodeMapEntry>): seq<Quad> {
    if graphs == [] then []
    else NodesQuads(graphs[|graphs| - 1].id, graphs[|graphs| - 1].nodes) + NodeMapQuads(graphs[..|graphs| - 1])
  }

  // ----- the stack

  datatype Frame =
    | NodeMapGraph(graph: Option<Id>, nodes: seq<Node>)
    | IndexedObjectSet(graph: Option<Id>, objects: seq<Object>)
    | IndexedObjectSlice(graph: Option<Id>, objects: seq<Object>)
    | IndexedNodeSlice(graph: Option<Id>, nodes: seq<Node>)
    | NodeTypes(graph: Option<Id>, subject: Id, types: seq<Id>)
    | NodeProperties(graph: Option<Id>, subject: Id, properties: seq<Property>)
    | NodeReverseProperties(graph: Option<Id>, target: Node, reverse: seq<ReverseProperty>)
    | NodePropertyObjects(graph: Option<Id>, subject: Id, property: Id, objects: seq<Object>)
    | NodeReversePropertySubjects(graph: Option<Id>, target: Node, property: Id, subjects: seq<Node>)
  {
    /** What the frame has left to give. */
    function Pending(): seq<Quad> {
      match this
      case NodeMapGraph(graph, nodes) => NodesQuads(graph, nodes)
      case IndexedObjectSet(graph, objects) => ObjectsQuads(graph, objects)
      case IndexedObjectSlice(graph, objects) => ObjectsQuads(graph, objects)
      case IndexedNodeSlice(graph, nodes) => NodesQuads(graph, nodes)
      case NodeTypes(graph, subject, types) => TypeQuads(graph, subject, types)
      case NodeProperties(graph, subject, properties) => PropertiesQuads(graph, subject, properties)
      case NodeReverseProperties(graph, target, reverse) => ReverseQuads(graph, target, reverse)
      case NodePropertyObjects(graph, subject, property, objects) => PropertyQuads(graph, subject, property, objects)
      case NodeReversePropertySubjects(graph, target, property, subjects) => SubjectsQuads(graph, target, property,
          subjects)
    }

    /** One more than what is left in the frame, everything nested included. */
    function Size(): nat {
      1 + match this
          case NodeMapGraph(_, nodes) => NodesSize(nodes)
          case IndexedObjectSet(_, objects) => ObjectsSize(objects)
          case IndexedObjectSlice(_, objects) => ObjectsSize(objects)
          case IndexedNodeSlice(_, nodes) => NodesSize(nodes)
          case NodeTypes(_, _, types) => |types|
          case NodeProperties(_, _, properties) => PropertiesSize(properties)
          case NodeReverseProperties(_, _, reverse) => ReverseSize(reverse)
          case NodePropertyObjects(_, _, _, objects) => ObjectsSize(objects)
          case NodeReversePropertySubjects(_, _, _, subjects) => NodesSize(subjects)
    }
  }

  /** The frame over nodes that is left when the first is taken. */
  function AfterNode(frame: Frame, graph: Option<Id>, nodes: seq<Node>): (rest: Frame)
    requires (frame == NodeMapGraph(graph, nodes) || frame == IndexedNodeSlice(graph, nodes)) && nodes != []
    ensures frame.Pending() == [] + (NodeQuads(graph, nodes[0]) + rest.Pending())
    ensures frame.Size() == NodeSize(nodes[0]) + rest.Size()
  {
    if frame.NodeMapGraph? then NodeMapGraph(graph, nodes[1..]) else IndexedNodeSlice(graph, nodes[1..])
  }

  function AfterObject(frame: Frame, graph: Option<Id>, objects: seq<Object>): (rest: Frame)
    requires (frame == IndexedObjectSet(graph, objects) || frame == IndexedObjectSlice(graph, objects)) && objects != []
    ensures frame.Pending() == [] + (ObjectQuads(graph, objects[0]) + rest.Pending())
    ensures frame.Size() == ObjectSize(objects[0]) + rest.Size()
  {
    if frame.IndexedObjectSet? then IndexedObjectSet(graph, objects[1..]) else IndexedObjectSlice(graph, objects[1..])
  }

  function Pending(stack: seq<Frame>): seq<Quad> {
    if stack == [] then [] else stack[|stack| - 1].Pending() + Pending(stack[..|stack| - 1])
  }

  function StackSize(stack: seq<Frame>): nat {
    if stack == [] then 0 else stack[|stack| - 1].Size() + StackSize(stack[..|stack| - 1])
  }

  function NodeSize(node: Node): nat
    decreases node, 0
  {
    6 + (if node.types.Some? then |node.types.value| else 0)
    + PropertiesSize(node.properties)
    + (if node.reverse.Reverse? then ReverseSize(node.reverse.properties) else 0)
    + (if node.included.Included? then NodesSize(node.included.nodes) else 0)
    + (if node.graph.Graph? then ObjectsSize(node.graph.objects) else 0)
  }

  function ObjectSize(obj: Object): nat
    decreases obj, 1
  {
    match obj
    case NodeObject(node) => NodeSize(node)
    case ListObject(items) => 2 + ObjectsSize(items)
    case ValueObject(_) => 1
  }

  function ObjectsSize(objects: seq<Object>): nat
    decreases objects, 0
  {
    if objects == [] then 0 else ObjectSize(objects[0]) + ObjectsSize(objects[1..])
  }

  function NodesSize(nodes: seq<Node>): nat
    decreases nodes, 0
  {
    if nodes == [] then 0 else NodeSize(nodes[0]) + NodesSize(nodes[1..])
  }

  function EntrySize(entry: Property): nat
    decreases entry, 0
  {
    2 + ObjectsSize(entry.objects)
  }

  function PropertiesSize(properties: seq<Property>): nat
    decreases properties, 0
  {
    if properties == [] then 0 else EntrySize(properties[0]) + PropertiesSize(properties[1..])
  }

  function ReverseEntrySize(entry: ReverseProperty): nat
    decreases entry, 0
  {
    2 + NodesSize(entry.subjects)
  }

  function ReverseSize(properties: seq<ReverseProperty>): nat
    decreases properties, 0
  {
    if properties == [] then 0 else ReverseEntrySize(properties[0]) + ReverseSize(properties[1..])
  }

  lemma {:induction false} PushedFrame(stack: seq<Frame>, frame: Frame)
    ensures Pending(stack + [frame]) == frame.Pending() + Pending(stack)
    ensures StackSize(stack + [frame]) == frame.Size() + StackSize(stack)
  {
    assert (stack + [frame])[..|stack|] == stack;
  }

  lemma FirstProperty(graph: Option<Id>, subject: Id, properties: seq<Property>)
    requires properties != []
    ensures var first := NodePropertyObjects(graph, subject, properties[0].property, properties[0].objects);
            var rest := NodeProperties(graph, subject, properties[1..]);
            && NodeProperties(graph, subject, properties).Pending() == first.Pending() + rest.Pending()
            && first.Size() + rest.Size() < NodeProperties(graph, subject, properties).Size()
  {
    assert EntrySize(properties[0]) == 2 + ObjectsSize(properties[0].objects);
    assert EntryQuads(graph, subject, properties[0])
        == PropertyQuads(graph, subject, properties[0].property, properties[0].objects);
  }

  lemma FirstReverseProperty(graph: Option<Id>, target: Node, reverse: seq<ReverseProperty>)
    requires reverse != []
    ensures var first := NodeReversePropertySubjects(graph, target, reverse[0].property, reverse[0].subjects);
            var rest := NodeReverseProperties(graph, target, reverse[1..]);
            && NodeReverseProperties(graph, target, reverse).Pending() == first.Pending() + rest.Pending()
            && first.Size() + rest.Size() < NodeReverseProperties(graph, target, reverse).Size()
  {
    assert ReverseEntrySize(reverse[0]) == 2 + NodesSize(reverse[0].subjects);
    assert ReverseEntryQuads(graph, target, reverse[0])
        == SubjectsQuads(graph, target, reverse[0].property, reverse[0].subjects);
  }

  lemma Regroup(a: seq<Quad>, b: seq<Quad>, c: seq<Quad>)
    ensures (a + b) + c == a + (b + c)
  {
  }

  lemma RegroupNode(types: seq<Quad>, properties: seq<Quad>, reverse: seq<Quad>, included: seq<Quad>, named: seq<Quad>,
      rest: seq<Quad>)
    ensures (types + (properties + (reverse + (included + named)))) + rest
         == types + (properties + (reverse + (included + (named + rest))))
  {
    Regroup(included, named, rest);
    Regroup(reverse, included + named, rest);
    Regroup(properties, reverse + (included + named), rest);
    Regroup(types, properties + (reverse + (included + named)), rest);
  }

  class Quads {
    var stack: seq<Frame>

    constructor FromExpanded(document: seq<Object>)
      ensures Pending(stack) == ObjectsQuads(None, document)
    {
      stack := [IndexedObjectSet(None, document)];
      new;
      PushedFrame([], stack[0]);
    }

    constructor FromFlattened(document: seq<Node>)
      ensures Pending(stack) == NodesQuads(None, document)
    {
      stack := [IndexedNodeSlice(None, document)];
      new;
      PushedFrame([], stack[0]);
    }

    constructor FromNodeMap(graphs: seq<NodeMapEntry>)
      ensures Pending(stack) == NodeMapQuads(graphs)
    {
      stack := [];
      new;
      for i := 0 to |graphs|
        invariant Pending(stack) == NodeMapQuads(graphs[..i])
      {
        PushedFrame(stack, NodeMapGraph(graphs[i].id, graphs[i].nodes));
        assert graphs[..i + 1][..i] == graphs[..i];
        stack := stack + [NodeMapGraph(graphs[i].id, graphs[i].nodes)];
      }
      assert graphs[..|graphs|] == graphs;
    }

    method Push(frame: Frame)
      modifies this
      ensures stack == old(stack) + [frame]
      ensures Pending(stack) == frame.Pending() + Pending(old(stack))
      ensures StackSize(stack) == frame.Size() + StackSize(old(stack))
    {
      PushedFrame(stack, frame);
      stack := stack + [frame];
    }

    method PushObject(graph: Option<Id>, obj: Object)
      modifies this
      ensures Pending(stack) == ObjectQuads(graph, obj) + Pending(old(stack))
      ensures StackSize(stack) < ObjectSize(obj) + StackSize(old(stack))
    {
      match obj
      case NodeObject(node) => PushNode(graph, node);
      case ListObject(items) => Push(IndexedObjectSlice(graph, items));
      case ValueObject(_) =>
    }

    method PushNode(graph: Option<Id>, node: Node)
      modifies this
      ensures Pending(stack) == NodeQuads(graph, node) + Pending(old(stack))
      ensures StackSize(stack) < NodeSize(node) + StackSize(old(stack))
    {
      if node.id.Some? {
        var id := node.id.value;
        RegroupNode(NodeTypeQuads(graph, id, node.types), PropertiesQuads(graph, id, node.properties),
                    NodeReverseQuads(graph, node, node.reverse), IncludedQuads(graph, node.included),
                    NamedGraphQuads(id, node.graph), Pending(stack));
        PushNamedGraph(id, node.graph);
        PushIncluded(graph, node.included);
        PushReverse(graph, node);
        Push(NodeProperties(graph, id, node.properties));
        PushTypes(graph, id, node.types);
      }
    }

    method PushNamedGraph(id: Id, named: Graph)
      modifies this
      ensures Pending(stack) == NamedGraphQuads(id, named) + Pending(old(stack))
      ensures StackSize(stack) <= 1 + (if named.Graph? then ObjectsSize(named.objects) else 0) + StackSize(old(stack))
    {
      if named.Graph? {
        Push(IndexedObjectSlice(Some(id), named.objects));
      }
    }

    method PushIncluded(graph: Option<Id>, included: Included)
      modifies this
      ensures Pending(stack) == IncludedQuads(graph, included) + Pending(old(stack))
      ensures StackSize(stack) <= 1 + (if included.Included? then NodesSize(included.nodes) else 0)
          + StackSize(old(stack))
    {
      if included.Included? {
        Push(IndexedNodeSlice(graph, included.nodes));
      }
    }

    method PushReverse(graph: Option<Id>, node: Node)
      modifies this
      ensures Pending(stack) == NodeReverseQuads(graph, node, node.reverse) + Pending(old(stack))
      ensures StackSize(stack) <= 1 + (if node.reverse.Reverse? then ReverseSize(node.reverse.properties) else 0)
          + StackSize(old(stack))
    {
      if node.reverse.Reverse? {
        Push(NodeReverseProperties(graph, node, node.reverse.properties));
      }
    }

    method PushTypes(graph: Option<Id>, id: Id, types: Option<seq<Id>>)
      modifies this
      ensures Pending(stack) == NodeTypeQuads(graph, id, types) + Pending(old(stack))
      ensures StackSize(stack) <= 1 + (if types.Some? then |types.value| else 0) + StackSize(old(stack))
    {
      if types.Some? {
        Push(NodeTypes(graph, id, types.value));
      }
    }

    /** The next quad of the traversal, or nothing exactly when nothing is left. */
    method Next() returns (r: Option<Quad>)
      modifies this
      ensures r.None? ==> Pending(old(stack)) == [] && stack == []
      ensures r.Some? ==> Pending(old(stack)) == [r.value] + Pending(stack)
      ensures r.Some? ==> StackSize(stack) < StackSize(old(stack))
    {
      while stack != []
        invariant Pending(stack) == Pending(old(stack))
        invariant StackSize(stack) <= StackSize(old(stack))
        decreases StackSize(stack)
      {
        r := Step();
        if r.Some? { return; }
      }
      r := None;
    }

    /** One turn of the loop: the top frame gives its next element or is popped. */
    method Step() returns (r: Option<Quad>)
      requires stack != []
      modifies this
      ensures Pending(old(stack)) == (if r.Some? then [r.value] else []) + Pending(stack)
      ensures StackSize(stack) < StackSize(old(stack))
    {
      var last := stack[|stack| - 1];
      match last
      case NodeMapGraph(graph, nodes) =>
        StepNodes(last, graph, nodes);
        r := None;
      case IndexedNodeSlice(graph, nodes) =>
        StepNodes(last, graph, nodes);
        r := None;
      case IndexedObjectSet(graph, objects) =>
        StepObjects(last, graph, objects);
        r := None;
      case IndexedObjectSlice(graph, objects) =>
        StepObjects(last, graph, objects);
        r := None;
      case NodeTypes(_, _, _) => r := StepTypes(last);
      case NodeProperties(_, _, _) => StepProperties(last); r := None;
      case NodeReverseProperties(_, _, _) => StepReverse(last); r := None;
      case NodePropertyObjects(_, _, _, _) => r := StepPropertyObjects(last);
      case NodeReversePropertySubjects(_, _, _, _) => r := StepReverseSubjects(last);
    }

    /** A frame with nothing left comes off. */
    method Pop()
      requires stack != [] && stack[|stack| - 1].Pending() == []
      modifies this
      ensures Pending(stack) == Pending(old(stack))
      ensures StackSize(stack) < StackSize(old(stack))
    {
      stack := stack[..|stack| - 1];
    }

    method StepNodes(last: Frame, graph: Option<Id>, nodes: seq<Node>)
      requires stack != [] && last == stack[|stack| - 1]
      requires last == NodeMapGraph(graph, nodes) || last == IndexedNodeSlice(graph, nodes)
      modifies this
      ensures Pending(stack) == Pending(old(stack))
      ensures StackSize(stack) < StackSize(old(stack))
    {
      if nodes != [] {
        AdvanceToNode(AfterNode(last, graph, nodes), graph, nodes[0], []);
      } else {
        Pop();
      }
    }

    method StepObjects(last: Frame, graph: Option<Id>, objects: seq<Object>)
      requires stack != [] && last == stack[|stack| - 1]
      requires last == IndexedObjectSet(graph, objects) || last == IndexedObjectSlice(graph, objects)
      modifies this
      ensures Pending(stack) == Pending(old(stack))
      ensures StackSize(stack) < StackSize(old(stack))
    {
      if objects != [] {
        AdvanceToObject(AfterObject(last, graph, objects), graph, objects[0], []);
      } else {
        Pop();
      }
    }

    method StepTypes(last: Frame) returns (r: Option<Quad>)
      requires stack != [] && last == stack[|stack| - 1] && last.NodeTypes?
      modifies this
      ensures Pending(old(stack)) == (if r.Some? then [r.value] else []) + Pending(stack)
      ensures StackSize(stack) < StackSize(old(stack))
    {
      r := None;
      if last.types != [] {
        r := Some(Quad(last.graph, last.subject, TypeProperty, IdRef(last.types[0])));
        Advance(last.(types := last.types[1..]), [r.value]);
      } else {
        stack := stack[..|stack| - 1];
      }
    }

    method StepProperties(last: Frame)
      requires stack != [] && last == stack[|stack| - 1] && last.NodeProperties?
      modifies this
      ensures Pending(stack) == Pending(old(stack))
      ensures StackSize(stack) < StackSize(old(stack))
    {
      if last.properties != [] {
        var first := last.properties[0];
        FirstProperty(last.graph, last.subject, last.properties);
        AdvanceToFrame(last.(properties := last.properties[1..]),
            NodePropertyObjects(last.graph, last.subject, first.property, first.objects));
      } else {
        stack := stack[..|stack| - 1];
      }
    }

    method StepReverse(last: Frame)
      requires stack != [] && last == stack[|stack| - 1] && last.NodeReverseProperties?
      modifies this
      ensures Pending(stack) == Pending(old(stack))
      ensures StackSize(stack) < StackSize(old(stack))
    {
      if last.reverse != [] {
        var first := last.reverse[0];
        FirstReverseProperty(last.graph, last.target, last.reverse);
        AdvanceToFrame(last.(reverse := last.reverse[1..]),
            NodeReversePropertySubjects(last.graph, last.target, first.property, first.subjects));
      } else {
        stack := stack[..|stack| - 1];
      }
    }

    method StepPropertyObjects(last: Frame) returns (r: Option<Quad>)
      requires stack != [] && last == stack[|stack| - 1] && last.NodePropertyObjects?
      modifies this
      ensures Pending(old(stack)) == (if r.Some? then [r.value] else []) + Pending(stack)
      ensures StackSize(stack) < StackSize(old(stack))
    {
      r := None;
      if last.objects != [] {
        r := Some(Quad(last.graph, last.subject, PropertyRef(last.property), ObjectRef(last.objects[0])));
        AdvanceToObject(last.(objects := last.objects[1..]), last.graph, last.objects[0], [r.value]);
      } else {
        stack := stack[..|stack| - 1];
      }
    }

    method StepReverseSubjects(last: Frame) returns (r: Option<Quad>)
      requires stack != [] && last == stack[|stack| - 1] && last.NodeReversePropertySubjects?
      modifies this
      ensures Pending(old(stack)) == (if r.Some? then [r.value] else []) + Pending(stack)
      ensures StackSize(stack) < StackSize(old(stack))
    {
      r := None;
      if last.subjects != [] {
        var subject := last.subjects[0];
        if subject.id.Some? {
          r := Some(Quad(last.graph, subject.id.value, PropertyRef(last.property), NodeRef(last.target)));
        }
        AdvanceToNode(last.(subjects := last.subjects[1..]), last.graph, subject, if r.Some? then [r.value] else []);
      } else {
        stack := stack[..|stack| - 1];
      }
    }

    /** The top frame's iterator moves on; `given` is what the caller is handed. */
    method Advance(frame: Frame, ghost given: seq<Quad>)
      requires stack != [] && stack[|stack| - 1].Pending() == given + frame.Pending()
      modifies this
      ensures |stack| == |old(stack)| && stack[..|stack| - 1] == old(stack)[..|stack| - 1]
          && stack[|stack| - 1] == frame
      ensures Pending(old(stack)) == given + Pending(stack)
      ensures StackSize(stack) + old(stack[|stack| - 1].Size()) == frame.Size() + StackSize(old(stack))
    {
      ghost var below := stack[..|stack| - 1];
      Regroup(given, frame.Pending(), Pending(below));
      PushedFrame(below, frame);
      stack := stack[|stack| - 1 := frame];
      assert stack == below + [frame];
    }

    method AdvanceToNode(frame: Frame, graph: Option<Id>, node: Node, ghost given: seq<Quad>)
      requires stack != [] && stack[|stack| - 1].Pending() == given + (NodeQuads(graph, node) + frame.Pending())
      requires NodeSize(node) + frame.Size() <= stack[|stack| - 1].Size()
      modifies this
      ensures Pending(old(stack)) == given + Pending(stack)
      ensures StackSize(stack) < StackSize(old(stack))
    {
      ghost var quads := NodeQuads(graph, node);
      Regroup(given, quads, frame.Pending());
      Advance(frame, given + quads);
      Regroup(given, quads, Pending(stack));
      PushNode(graph, node);
    }

    method AdvanceToObject(frame: Frame, graph: Option<Id>, obj: Object, ghost given: seq<Quad>)
      requires stack != [] && stack[|stack| - 1].Pending() == given + (ObjectQuads(graph, obj) + frame.Pending())
      requires ObjectSize(obj) + frame.Size() <= stack[|stack| - 1].Size()
      modifies this
      ensures Pending(old(stack)) == given + Pending(stack)
      ensures StackSize(stack) < StackSize(old(stack))
    {
      ghost var quads := ObjectQuads(graph, obj);
      Regroup(given, quads, frame.Pending());
      Advance(frame, given + quads);
      Regroup(given, quads, Pending(stack));
      PushObject(graph, obj);
    }

    method AdvanceToFrame(frame: Frame, pushed: Frame)
      requires stack != [] && stack[|stack| - 1].Pending() == pushed.Pending() + frame.Pending()
      requires pushed.Size() + frame.Size() < stack[|stack| - 1].Size()
      modifies this
      ensures Pending(stack) == Pending(old(stack))
      ensures StackSize(stack) < StackSize(old(stack))
    {
      Advance(frame, pushed.Pending());
      Push(pushed);
    }
  }

  /** Asking for quads until there are none gives what was pending, in order. */
  method Drain(quads: Quads) returns (r: seq<Quad>)
    modifies quads
    ensures r == Pending(old(quads.stack))
    ensures quads.stack == []
  {
    r := [];
    var next := quads.Next();
    while next.Some?
      invariant Pending(old(quads.stack)) == r + Left(next, quads.stack)
      invariant next.None? ==> quads.stack == []
      decreases next.Some?, StackSize(quads.stack)
    {
      Regroup(r, [next.value], Pending(quads.stack));
      r := r + [next.value];
      next := quads.Next();
    }
  }

  /** A quad already taken, and what the stack has left. */
  ghost function Left(next: Option<Quad>, stack: seq<Frame>): seq<Quad> {
    (if next.Some? then [next.value] else []) + Pending(stack)
  }
}
