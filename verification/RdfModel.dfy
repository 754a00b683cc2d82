/**
 RDF terms and quads as the serializer sees them, and the intermediate graph it
 builds (jsonld-core/src/serialization.rs:41-218).

 A quad is read as a `Fact`: what it says about its subject once its predicate has
 been classified. Facts are the currency in which conservation is stated.
 */
module RdfModel {
  import opened Wrappers

  /** A resource of the interpretation. */
  type Handle = nat

  type Iri = string

  const RDF_TYPE: Iri := "http://www.w3.org/1999/02/22-rdf-syntax-ns#type"
  const RDF_FIRST: Iri := "http://www.w3.org/1999/02/22-rdf-syntax-ns#first"
  const RDF_REST: Iri := "http://www.w3.org/1999/02/22-rdf-syntax-ns#rest"
  const RDF_NIL: Iri := "http://www.w3.org/1999/02/22-rdf-syntax-ns#nil"
  const RDF_LIST: Iri := "http://www.w3.org/1999/02/22-rdf-syntax-ns#List"

  const USIZE_MAX: nat := 0xFFFF_FFFF_FFFF_FFFF

  datatype Quad = Quad(subject: Handle, property: Handle, value: Handle, graph: Option<Handle>)

  datatype Id = IriId(iri: Iri) | BlankId(name: string)

  /** A literal already turned into a JSON-LD value object. */
  datatype Value = Value(text: string)

  datatype SerializationError = InvalidJson | InvalidBoolean | InvalidNumber | UnresolvedLiteral

  datatype SerTerm = IdTerm(id: Id) | LiteralTerm(value: Value)

  /** What each resource is called: its IRIs, its blank node identifiers and its literals. */
  datatype Interpretation = Interpretation(
    iris: Handle -> seq<Iri>,
    blanks: Handle -> seq<string>,
    literals: Handle -> seq<Result<Value, SerializationError>>)

  datatype RdfProperty = TypeProperty | FirstProperty | RestProperty | OtherProperty

  datatype RdfType = ListType | OtherType(resource: Handle)

  function RdfPropertyOfIris(iris: seq<Iri>): RdfProperty
  {
    if iris == [] then OtherProperty
    else if iris[0] == RDF_TYPE then TypeProperty
    else if iris[0] == RDF_FIRST then FirstProperty
    else if iris[0] == RDF_REST then RestProperty
    else RdfPropertyOfIris(iris[1..])
  }

  function RdfPropertyOf(interp: Interpretation, id: Handle): RdfProperty
  {
    RdfPropertyOfIris(interp.iris(id))
  }

  function RdfTypeOf(interp: Interpretation, id: Handle): RdfType
  {
    if RDF_LIST in interp.iris(id) then ListType else OtherType(id)
  }

  predicate IsNil(interp: Interpretation, id: Handle)
  {
    RDF_NIL in interp.iris(id)
  }

  predicate IsAnonymous(interp: Interpretation, id: Handle)
  {
    interp.iris(id) == [] && interp.literals(id) == []
  }

  function IdOf(interp: Interpretation, id: Handle): Option<Id>
  {
    if interp.iris(id) != [] then Some(IriId(interp.iris(id)[0]))
    else if interp.blanks(id) != [] then Some(BlankId(interp.blanks(id)[0]))
    else None
  }

  function TermOf(interp: Interpretation, id: Handle): Result<Option<SerTerm>, SerializationError>
  {
    match IdOf(interp, id)
    case Some(i) => Ok(Some(IdTerm(i)))
    case None =>
      if interp.literals(id) == [] then Ok(None)
      else
        match interp.literals(id)[0]
        case Ok(value) => Ok(Some(LiteralTerm(value)))
        case Err(error) => Err(error)
  }

  /** What one quad says about its subject; `GraphFact` says the subject names a graph. */
  datatype Fact =
    | TypeFact(subject: Handle, ty: RdfType)
    | PropertyFact(subject: Handle, property: Handle, value: Handle)
    | FirstFact(subject: Handle, value: Handle)
    | RestFact(subject: Handle, value: Handle)
    | GraphFact(subject: Handle)
  {
    /** The resource this fact may nest as a value; a type is never nested. */
    function Target(): Option<Handle>
    {
      if TypeFact? || GraphFact? then None else Some(value)
    }
  }

  function FactOf(interp: Interpretation, quad: Quad): Fact
  {
    match RdfPropertyOf(interp, quad.property)
    case TypeProperty => TypeFact(quad.subject, RdfTypeOf(interp, quad.value))
    case FirstProperty => FirstFact(quad.subject, quad.value)
    case RestProperty => RestFact(quad.subject, quad.value)
    case OtherProperty => PropertyFact(quad.subject, quad.property, quad.value)
  }

  datatype SerResource = SerResource(
    types: set<RdfType>,
    properties: map<Handle, set<Handle>>,
    graph: Option<map<Handle, SerResource>>,
    first: set<Handle>,
    rest: set<Handle>,
    reverseRest: set<Handle>,
    values: Option<seq<Handle>>,
    references: nat)
  {
    predicate IsEmpty()
    {
      types == {} && properties == map[] && graph.None? && first == {} && rest == {}
    }

    predicate IsListNode()
    {
      && (forall t :: t in types ==> t.ListType?)
      && properties == map[]
      && graph.None?
      && |first| == 1 && |rest| == 1
    }
  }

  const EMPTY_RESOURCE: SerResource := SerResource({}, map[], None, {}, {}, {}, None, 0)

  type SerGraph = map<Handle, SerResource>

  /** The record `r` of a resource says `f` about it. */
  predicate Says(r: SerResource, f: Fact)
  {
    match f
    case TypeFact(_, t) => t in r.types
    case PropertyFact(_, p, o) => p in r.properties && o in r.properties[p]
    case FirstFact(_, o) => o in r.first
    case RestFact(_, o) => o in r.rest
    case GraphFact(_) => r.graph.Some?
  }

  /** Graph `g` stores fact `f`. */
  predicate Holds(g: SerGraph, f: Fact)
  {
    f.subject in g && Says(g[f.subject], f)
  }

  /** All the facts `g` stores. */
  ghost function AllFacts(g: SerGraph): (all: set<Fact>)
    ensures forall f :: f in all <==> Holds(g, f)
  {
    (set s, t | s in g && t in g[s].types :: TypeFact(s, t))
    + (set s, p, o | s in g && p in g[s].properties && o in g[s].properties[p] :: PropertyFact(s, p, o))
    + (set s, o | s in g && o in g[s].first :: FirstFact(s, o))
    + (set s, o | s in g && o in g[s].rest :: RestFact(s, o))
    + (set s | s in g && g[s].graph.Some? :: GraphFact(s))
  }
}
