/** Value objects and the mappings of the term they are written under, as compaction and expansion see them. */
module Values {
  import opened Wrappers
  import opened LangTag
  import J = Json

  type Iri = string

  datatype Nullable<T> = NullValue | NonNull(value: T)
  {
    function Opt(): Option<T> { if NullValue? then None else Some(value) }
  }

  datatype Literal = LNull | LBoolean(b: bool) | LNumber(lexical: string) | LString(s: string)

  datatype Value =
    | LiteralValue(literal: Literal, ty: Option<Iri>)
    | LangString(s: string, language: Option<string>, direction: Option<Direction>)
    | JsonValue(json: J.Value)

  /** A language string has a language, a direction, or both. */
  predicate Valid(value: Value) {
    value.LangString? ==> value.language.Some? || value.direction.Some?
  }

  /** `LangString::new`, which gives the string back when there is nothing to tag it with. */
  function Tagged(s: string, language: Option<string>, direction: Option<Direction>): (v: Value)
    ensures Valid(v)
  {
    if language.None? && direction.None? then LiteralValue(LString(s), None) else LangString(s, language, direction)
  }

  /** Equality, with language tags compared without regard to case. */
  predicate SameValue(a: Value, b: Value) {
    match (a, b)
    case (LangString(s, l, d), LangString(t, m, e)) => s == t && SameOptionalTag(l, m) && d == e
    case _ => a == b
  }

  datatype TypeMapping = IdType | VocabType | NoneType | JsonType | IriType(iri: Iri)
  datatype ContainerKind = Graph | ById | Index | Language | List | Set | ByType

  datatype Definition = Definition(typ: Option<TypeMapping>, language: Option<Nullable<string>>,
      direction: Option<Nullable<Direction>>,
                                   container: set<ContainerKind>)

  /** The term, if it is one, and the defaults of the active context. */
  datatype Scope = Scope(definition: Option<Definition>, defaultLanguage: Option<string>,
      defaultDirection: Option<Direction>)
  {
    function Type(): Option<TypeMapping> {
      if definition.Some? then definition.value.typ else None
    }

    function EffectiveLanguage(): Option<string> {
      if definition.Some? && definition.value.language.Some? then definition.value.language.value.Opt()
          else defaultLanguage
    }

    function EffectiveDirection(): Option<Direction> {
      if definition.Some? && definition.value.direction.Some? then definition.value.direction.value.Opt()
          else defaultDirection
    }

    function Has(kind: ContainerKind): bool {
      definition.Some? && kind in definition.value.container
    }
  }

  function LiteralJson(literal: Literal): J.Value {
    match literal
    case LNull => J.Null
    case LBoolean(b) => J.Boolean(b)
    case LNumber(n) => J.Number(n)
    case LString(s) => J.Str(s)
  }

  function DirectionText(d: Direction): string {
    if d.Ltr? then "ltr" else "rtl"
  }

  function ParseDirection(s: string): Option<Direction> {
    if s == "ltr" then Some(Ltr) else if s == "rtl" then Some(Rtl) else None
  }

  lemma DirectionReadsBack(d: Direction)
    ensures ParseDirection(DirectionText(d)) == Some(d)
  {
    assert "ltr"[0] != "rtl"[0];
  }

  /** A scalar under a term (jsonld-expansion/src/literal.rs:124-230): a value, or a reference to a node. */
  datatype ExpandedScalar = Plain(value: Value) | NodeReference(text: string, vocab: bool) | InvalidType

  function ExpandScalar(scope: Scope, literal: Literal): ExpandedScalar {
    match scope.Type()
    case Some(IdType) => if literal.LString? then NodeReference(literal.s, false)
        else Plain(LiteralValue(literal, None))
    case Some(VocabType) => if literal.LString? then NodeReference(literal.s, true)
        else Plain(LiteralValue(literal, None))
    case Some(IriType(iri)) => Plain(LiteralValue(literal, Some(iri)))
    case Some(JsonType) => InvalidType
    case _ =>
      if literal.LString? then Plain(Tagged(literal.s, scope.EffectiveLanguage(), scope.EffectiveDirection()))
      else Plain(LiteralValue(literal, None))
  }
}
