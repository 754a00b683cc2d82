/**
 Value compaction (jsonld-compaction/src/value.rs:131-263) as a printer, value expansion
 (jsonld-expansion/src/value.rs:86-260, jsonld-expansion/src/node.rs:584-586) as its parser,
 and exactly which values come back.
 */
module ValueRoundTrip {
  import opened Wrappers
  import opened LangTag
  import opened Values
  import J = Json

  datatype Keyword = ValueKeyword | TypeKeyword | LanguageKeyword | DirectionKeyword | IndexKeyword | JsonKeyword

  /** How compaction spells keywords and datatypes. */
  datatype Printer<!E> = Printer(alias: Keyword -> string, compactIri: Iri -> Result<Option<string>, E>)

  datatype ExpandedKey = KeyKeyword(k: Keyword) | OtherKey
  datatype ExpandedType = TypeIsJson | TypeIsIri(iri: Iri) | TypeIsOther

  /** How expansion reads keys and types; a key that means nothing is skipped. */
  datatype Parser = Parser(expandKey: string -> Option<ExpandedKey>, expandType: string -> ExpandedType,
      inputIsJson: seq<J.Entry> -> bool,
                           mode11: bool)

  // ----- printing

  predicate RemoveIndex(scope: Scope, index: Option<string>) {
    index.None? || scope.Has(Index)
  }

  /** The term's language and direction already say what the string carries. */
  predicate WritesBareString(scope: Scope, value: Value, index: Option<string>)
    requires value.LangString?
  {
    && RemoveIndex(scope, index)
    && (value.language.None? || SameOptionalTag(scope.EffectiveLanguage(), value.language))
    && (value.direction.None? || scope.EffectiveDirection() == value.direction)
  }

  function TypeEntry<E>(printer: Printer<E>, ty: Iri): Result<seq<J.Entry>, E> {
    match printer.compactIri(ty)
    case Err(e) => Err(e)
    case Ok(None) => Ok([J.Entry(printer.alias(TypeKeyword), J.Null)])
    case Ok(Some(s)) => Ok([J.Entry(printer.alias(TypeKeyword), J.Str(s))])
  }

  function TextEntry<E>(printer: Printer<E>, k: Keyword, text: Option<string>): seq<J.Entry> {
    if text.Some? then [J.Entry(printer.alias(k), J.Str(text.value))] else []
  }

  function DirectionEntry<E>(printer: Printer<E>, direction: Option<Direction>): seq<J.Entry> {
    TextEntry(printer, DirectionKeyword, if direction.Some? then Some(DirectionText(direction.value)) else None)
  }

  function KeptIndex(scope: Scope, index: Option<string>): Option<string> {
    if RemoveIndex(scope, index) then None else index
  }

  predicate WritesBareLiteral(scope: Scope, value: Value, index: Option<string>)
    requires value.LiteralValue?
  {
    && (if value.ty.Some? then scope.Type() == Some(IriType(value.ty.value)) else scope.Type() == None)
    && RemoveIndex(scope, index)
    && (value.literal.LString? ==>
          value.ty.Some? || (scope.EffectiveLanguage().None? && scope.EffectiveDirection().None?))
  }

  function Compacted<E>(printer: Printer<E>, scope: Scope, value: Value, index: Option<string>): Result<J.Value, E> {
    match value
    case LiteralValue(literal, ty) =>
      var valueEntry := J.Entry(printer.alias(ValueKeyword), LiteralJson(literal));
      if WritesBareLiteral(scope, value, index) then Ok(LiteralJson(literal))
      else
        (match (if ty.Some? then TypeEntry(printer, ty.value) else Ok([]))
         case Err(e) => Err(e)
         case Ok(typeEntry) => Ok(J.Object([valueEntry] + typeEntry
             + TextEntry(printer, IndexKeyword, KeptIndex(scope, index)))))
    case LangString(s, language, direction) =>
      if WritesBareString(scope, value, index) then Ok(J.Str(s))
      else Ok(J.Object([J.Entry(printer.alias(ValueKeyword), J.Str(s))] + TextEntry(printer, LanguageKeyword, language)
                       + DirectionEntry(printer, direction)
                           + TextEntry(printer, IndexKeyword, KeptIndex(scope, index))))
    case JsonValue(json) =>
      if scope.Type() == Some(JsonType) && RemoveIndex(scope, index) then Ok(json)
      else Ok(J.Object([J.Entry(printer.alias(ValueKeyword), json)]
                       + [J.Entry(printer.alias(TypeKeyword), J.Str(printer.alias(JsonKeyword)))]
                       + TextEntry(printer, IndexKeyword, KeptIndex(scope, index))))
  }

  /** The algorithm as it runs, with its result object and its early returns. */
  method CompactValue<E>(printer: Printer<E>, scope: Scope, value: Value, index: Option<string>)
      returns (r: Result<J.Value, E>)
    requires Valid(value)
    ensures r == Compacted(printer, scope, value, index)
  {
    var result: seq<J.Entry> := [];
    var language := scope.EffectiveLanguage();
    var direction := scope.EffectiveDirection();
    var typeMapping := scope.Type();
    var removeIndex := (index.Some? && scope.Has(Index)) || index.None?;
    match value {
      case LiteralValue(literal, ty) =>
        if (if ty.Some? then Some(IriType(ty.value)) else None) == typeMapping && removeIndex {
          if !literal.LString? { return Ok(LiteralJson(literal)); }
          if ty.Some? || (language.None? && direction.None?) { return Ok(J.Str(literal.s)); }
          result := result + [J.Entry(printer.alias(ValueKeyword), J.Str(literal.s))];
        } else {
          result := result + [J.Entry(printer.alias(ValueKeyword), LiteralJson(literal))];
          if ty.Some? {
            var compactTy := printer.compactIri(ty.value);
            if compactTy.Err? { return Err(compactTy.error); }
            result := result + [J.Entry(printer.alias(TypeKeyword), if compactTy.value.Some?
                then J.Str(compactTy.value.value) else J.Null)];
          }
        }
        assert result == [J.Entry(printer.alias(ValueKeyword), LiteralJson(literal))]
                         + (if ty.Some? then TypeEntry(printer, ty.value).value else []);
      case LangString(s, l, d) =>
        if removeIndex && (l.None? || SameOptionalTag(language, l)) && (d.None? || direction == d) {
          return Ok(J.Str(s));
        }
        result := result + [J.Entry(printer.alias(ValueKeyword), J.Str(s))];
        if l.Some? {
          result := result + [J.Entry(printer.alias(LanguageKeyword), J.Str(l.value))];
        }
        if d.Some? {
          result := result + [J.Entry(printer.alias(DirectionKeyword), J.Str(DirectionText(d.value)))];
        }
        assert result == [J.Entry(printer.alias(ValueKeyword), J.Str(s))] + TextEntry(printer, LanguageKeyword, l)
            + DirectionEntry(printer, d);
      case JsonValue(json) =>
        if typeMapping == Some(JsonType) && removeIndex { return Ok(json); }
        result := result + [J.Entry(printer.alias(ValueKeyword), json)];
        result := result + [J.Entry(printer.alias(TypeKeyword), J.Str(printer.alias(JsonKeyword)))];
        assert result == [J.Entry(printer.alias(ValueKeyword), json)]
            + [J.Entry(printer.alias(TypeKeyword), J.Str(printer.alias(JsonKeyword)))];
    }
    if !removeIndex && index.Some? {
      result := result + [J.Entry(printer.alias(IndexKeyword), J.Str(index.value))];
    } else {
      assert result == result + TextEntry(printer, IndexKeyword, KeptIndex(scope, index));
    }
    r := Ok(J.Object(result));
  }

  // ----- parsing

  datatype InvalidValue =
    | LanguageTaggedString | BaseDirection | IndexValue | TypedValue | ValueObject | ValueObjectValue
    | LanguageTaggedValue

  /** What the loop over the entries of a value object has gathered. */
  datatype Gathered = Gathered(isJson: bool, ty: Option<Iri>, index: Option<string>, language: Option<string>,
      direction: Option<Direction>)

  function Gather(parser: Parser, g: Gathered, key: ExpandedKey, value: J.Value): Result<Gathered, InvalidValue> {
    match key
    case KeyKeyword(LanguageKeyword) =>
      if !value.Str? then Err(LanguageTaggedString)
      else Ok(if value.s != "@none" then g.(language := Some(value.s)) else g)
    case KeyKeyword(DirectionKeyword) =>
      if !parser.mode11 then Ok(g)
      else if !value.Str? || ParseDirection(value.s).None? then Err(BaseDirection)
      else Ok(g.(direction := ParseDirection(value.s)))
    case KeyKeyword(IndexKeyword) => if value.Str? then Ok(g.(index := Some(value.s))) else Err(IndexValue)
    case KeyKeyword(TypeKeyword) =>
      if !value.Str? then Err(TypedValue)
      else
        (match parser.expandType(value.s)
         case TypeIsJson => Ok(g.(isJson := true))
         case TypeIsIri(iri) => Ok(g.(isJson := false, ty := Some(iri)))
         case TypeIsOther => Err(TypedValue))
    case KeyKeyword(ValueKeyword) => Ok(g)
    case _ => Err(ValueObject)
  }

  function GatherAll(parser: Parser, g: Result<Gathered, InvalidValue>, entries: seq<J.Entry>):
      Result<Gathered, InvalidValue>
    decreases |entries|
  {
    if g.Err? || entries == [] then g
    else
      var key := parser.expandKey(entries[0].key);
      GatherAll(parser, if key.None? then g else Gather(parser, g.value, key.value, entries[0].value), entries[1..])
  }

  /** What becomes of the `@value` entry; nothing when it is null. */
  function Finish(g: Gathered, value: J.Value): Result<Option<(Value, Option<string>)>, InvalidValue> {
    if g.isJson then
      if g.language.Some? || g.direction.Some? then Err(ValueObject) else Ok(Some((JsonValue(value), g.index)))
    else if value.Array? || value.Object? then Err(ValueObjectValue)
    else if value.Null? then Ok(None)
    else if g.language.Some? || g.direction.Some? then
      if g.ty.Some? then Err(ValueObject)
      else if value.Str? then Ok(Some((Tagged(value.s, g.language, g.direction), g.index)))
      else Err(LanguageTaggedValue)
    else
      var literal := match value
                     case Boolean(b) => LBoolean(b)
                     case Number(n) => LNumber(n)
                     case Str(s) => LString(s)
                     case _ => LNull;
      Ok(Some((LiteralValue(literal, g.ty), g.index)))
  }

  function ExpandedValue(parser: Parser, entries: seq<J.Entry>, value: J.Value):
      Result<Option<(Value, Option<string>)>, InvalidValue> {
    match GatherAll(parser, Ok(Gathered(parser.inputIsJson(entries), None, None, None, None)), entries)
    case Err(e) => Err(e)
    case Ok(g) => Finish(g, value)
  }

  method ExpandValue(parser: Parser, entries: seq<J.Entry>, value: J.Value)
      returns (r: Result<Option<(Value, Option<string>)>, InvalidValue>)
    ensures r == ExpandedValue(parser, entries, value)
  {
    var isJson := parser.inputIsJson(entries);
    var ty: Option<Iri>, index: Option<string>, language: Option<string>, direction: Option<Direction> := None, None,
        None, None;
    ghost var start := Gathered(isJson, None, None, None, None);
    for i := 0 to |entries|
      invariant GatherAll(parser, Ok(start), entries)
          == GatherAll(parser, Ok(Gathered(isJson, ty, index, language, direction)), entries[i..])
    {
      assert entries[i..][0] == entries[i] && entries[i..][1..] == entries[i + 1..];
      var key := parser.expandKey(entries[i].key);
      if key.None? { continue; }
      var entry := entries[i].value;
      match key.value {
        case KeyKeyword(LanguageKeyword) =>
          if !entry.Str? { return Err(LanguageTaggedString); }
          if entry.s != "@none" { language := Some(entry.s); }
        case KeyKeyword(DirectionKeyword) =>
          if !parser.mode11 { continue; }
          if !entry.Str? || ParseDirection(entry.s).None? { return Err(BaseDirection); }
          direction := ParseDirection(entry.s);
        case KeyKeyword(IndexKeyword) =>
          if !entry.Str? { return Err(IndexValue); }
          index := Some(entry.s);
        case KeyKeyword(TypeKeyword) =>
          if !entry.Str? { return Err(TypedValue); }
          match parser.expandType(entry.s) {
            case TypeIsJson => isJson := true;
            case TypeIsIri(iri) => isJson, ty := false, Some(iri);
            case TypeIsOther => return Err(TypedValue);
          }
        case KeyKeyword(ValueKeyword) =>
        case _ => return Err(ValueObject);
      }
    }
    r := Finish(Gathered(isJson, ty, index, language, direction), value);
  }

  /** The last entry whose key means `@value`. */
  function ValueEntry(parser: Parser, entries: seq<J.Entry>): Option<J.Value> {
    if entries == [] then None
    else if ValueEntry(parser, entries[1..]).Some? then ValueEntry(parser, entries[1..])
    else if parser.expandKey(entries[0].key) == Some(KeyKeyword(ValueKeyword)) then Some(entries[0].value)
    else None
  }

  datatype ReadBack =
    | Dropped
    | Read(value: Value, index: Option<string>)
    | ReadNode(text: string, vocab: bool)
    | Failed
    | NotAValue

  function ReadScalar(scope: Scope, literal: Literal): ReadBack {
    match ExpandScalar(scope, literal)
    case Plain(v) => Read(v, None)
    case NodeReference(text, vocab) => ReadNode(text, vocab)
    case InvalidType => Failed
  }

  /** One value of a property: a `@json` term takes anything as it is; otherwise scalars and value objects are read. */
  function Outcome(expanded: Result<Option<(Value, Option<string>)>, InvalidValue>): ReadBack {
    match expanded
    case Err(_) => Failed
    case Ok(None) => Dropped
    case Ok(Some((v, index))) => Read(v, index)
  }

  function ReadValue(parser: Parser, scope: Scope, json: J.Value): ReadBack {
    if scope.Type() == Some(JsonType) then Read(JsonValue(json), None)
    else
      match json
      case Null => Dropped
      case Boolean(b) => ReadScalar(scope, LBoolean(b))
      case Number(n) => ReadScalar(scope, LNumber(n))
      case Str(s) => ReadScalar(scope, LString(s))
      case Array(_) => NotAValue
      case Object(entries) =>
        if ValueEntry(parser, entries).None? then NotAValue
        else
          Outcome(ExpandedValue(parser, entries, ValueEntry(parser, entries).value))
  }

  // ----- the round trip

  /** Aliases read back as the keywords they stand for, and only a type says that a value is JSON. */
  ghost predicate AliasesReadBack<E>(printer: Printer<E>, parser: Parser) {
    && (forall k :: k != JsonKeyword ==> parser.expandKey(printer.alias(k)) == Some(KeyKeyword(k)))
    && parser.expandType(printer.alias(JsonKeyword)) == TypeIsJson
    && (forall entries: seq<J.Entry> ::
          parser.inputIsJson(entries) ==>
            exists i :: 0 <= i < |entries| && parser.expandKey(entries[i].key) == Some(KeyKeyword(TypeKeyword)))
  }

  ghost predicate DatatypeReadsBack<E>(printer: Printer<E>, parser: Parser, value: Value) {
    value.LiteralValue? && value.ty.Some? ==>
      exists s :: printer.compactIri(value.ty.value) == Ok(Some(s)) && parser.expandType(s) == TypeIsIri(value.ty.value)
  }

  /** The term has an `@index` container, whose map gives the index back. */
  predicate AbsorbsIndex(scope: Scope) {
    scope.definition.Some? && Index in scope.definition.value.container
  }

  /** What is written gives the value back, tags up to case, with the index unless a container absorbs it. */
  ghost predicate ComesBack<E>(printer: Printer<E>, parser: Parser, scope: Scope, value: Value, index: Option<string>) {
    var written := Compacted(printer, scope, value, index);
    && written.Ok?
    && var read := ReadValue(parser, scope, written.value);
       && read.Read? && SameValue(read.value, value)
       && read.index == if AbsorbsIndex(scope) then None else index
  }

  /** The language in force for a bare string under the term: its own, or that of the context when it has none. */
  predicate LanguageIs(scope: Scope, language: Option<string>) {
    match scope.definition
    case Some(Definition(_, Some(NullValue), _, _)) => language.None?
    case Some(Definition(_, Some(NonNull(own)), _, _)) => language == Some(own)
    case _ => language == scope.defaultLanguage
  }

  /** A language is in force, and it is this one, up to case. */
  predicate LanguageFits(scope: Scope, tag: string) {
    match scope.definition
    case Some(Definition(_, Some(NullValue), _, _)) => false
    case Some(Definition(_, Some(NonNull(own)), _, _)) => SameTag(own, tag)
    case _ => scope.defaultLanguage.Some? && SameTag(scope.defaultLanguage.value, tag)
  }

  predicate DirectionIs(scope: Scope, direction: Option<Direction>) {
    match scope.definition
    case Some(Definition(_, _, Some(NullValue), _)) => direction.None?
    case Some(Definition(_, _, Some(NonNull(own)), _)) => direction == Some(own)
    case _ => direction == scope.defaultDirection
  }

  predicate TypeIs(scope: Scope, typ: Option<TypeMapping>) {
    match scope.definition
    case Some(Definition(own, _, _, _)) => typ == own
    case None => typ.None?
  }

  /** The value as a plain JSON value, without an object around it. */
  function Bare(value: Value): J.Value {
    match value
    case LiteralValue(literal, _) => LiteralJson(literal)
    case LangString(s, _, _) => J.Str(s)
    case JsonValue(json) => json
  }

  /** Nothing would be lost of the index, and the term says the type, language and direction of the value. */
  predicate MayBeBare(scope: Scope, value: Value, index: Option<string>) {
    && (index.None? || AbsorbsIndex(scope))
    && match value
       case LiteralValue(_, Some(ty)) => TypeIs(scope, Some(IriType(ty)))
       case LiteralValue(LString(_), None) => TypeIs(scope, None) && LanguageIs(scope, None) && DirectionIs(scope, None)
       case LiteralValue(_, None) => TypeIs(scope, None)
       case LangString(_, language, direction) =>
         && (language.Some? ==> LanguageFits(scope, language.value))
         && (direction.Some? ==> DirectionIs(scope, direction))
       case JsonValue(_) => TypeIs(scope, Some(JsonType))
  }

  lemma InForce(scope: Scope)
    ensures forall l: Option<string> :: LanguageIs(scope, l) <==> l == scope.EffectiveLanguage()
    ensures forall tag: string :: LanguageFits(scope, tag) <==> SameOptionalTag(scope.EffectiveLanguage(), Some(tag))
    ensures forall d: Option<Direction> :: DirectionIs(scope, d) <==> d == scope.EffectiveDirection()
    ensures forall t: Option<TypeMapping> :: TypeIs(scope, t) <==> t == scope.Type()
  {
  }

  /** A value is written bare exactly when its term allows it. */
  lemma BareExactlyWhen<E>(printer: Printer<E>, scope: Scope, value: Value, index: Option<string>)
    requires Compacted(printer, scope, value, index).Ok?
    ensures Compacted(printer, scope, value, index).value == Bare(value) <==> MayBeBare(scope, value, index)
  {
    InForce(scope);
    var written := Compacted(printer, scope, value, index).value;
    if value.JsonValue? && !(scope.Type() == Some(JsonType) && RemoveIndex(scope, index)) {
      JsonSmaller(value.json, written.entries, 0);
    }
  }

  /** What is under the index key. */
  function Indices<E>(printer: Printer<E>, entries: seq<J.Entry>): set<J.Value> {
    set i | 0 <= i < |entries| && entries[i].key == printer.alias(IndexKeyword) :: entries[i].value
  }

  lemma AliasesApart<E>(printer: Printer<E>, parser: Parser, k: Keyword)
    requires AliasesReadBack(printer, parser) && k != IndexKeyword && k != JsonKeyword
    ensures printer.alias(k) != printer.alias(IndexKeyword)
  {
    assert parser.expandKey(printer.alias(k)) == Some(KeyKeyword(k));
    assert parser.expandKey(printer.alias(IndexKeyword)) == Some(KeyKeyword(IndexKeyword));
  }

  predicate NoIndexAmong<E>(printer: Printer<E>, entries: seq<J.Entry>) {
    forall i :: 0 <= i < |entries| ==> entries[i].key != printer.alias(IndexKeyword)
  }

  lemma IndexAtTheEnd<E>(printer: Printer<E>, entries: seq<J.Entry>, index: Option<string>)
    requires NoIndexAmong(printer, entries)
    ensures Indices(printer, entries + TextEntry(printer, IndexKeyword, index))
         == if index.Some? then {J.Str(index.value)} else {}
  {
    var all := entries + TextEntry(printer, IndexKeyword, index);
    forall i | 0 <= i < |entries| ensures all[i].key != printer.alias(IndexKeyword) { assert all[i] == entries[i]; }
    if index.Some? { assert all[|entries|] == J.Entry(printer.alias(IndexKeyword), J.Str(index.value)); }
  }

  /** The entries written before the index. */
  function BeforeIndex<E>(printer: Printer<E>, value: Value): seq<J.Entry>
    requires value.LiteralValue? && value.ty.Some? ==> TypeEntry(printer, value.ty.value).Ok?
  {
    match value
    case LiteralValue(literal, ty) =>
      [J.Entry(printer.alias(ValueKeyword), LiteralJson(literal))]
      + (if ty.Some? then TypeEntry(printer, ty.value).value else [])
    case LangString(s, language, direction) =>
      [J.Entry(printer.alias(ValueKeyword), J.Str(s))] + TextEntry(printer, LanguageKeyword, language)
      + DirectionEntry(printer, direction)
    case JsonValue(json) =>
      [J.Entry(printer.alias(ValueKeyword), json)]
      + [J.Entry(printer.alias(TypeKeyword), J.Str(printer.alias(JsonKeyword)))]
  }

  lemma NoIndexBefore<E>(printer: Printer<E>, parser: Parser, value: Value)
    requires AliasesReadBack(printer, parser)
    requires value.LiteralValue? && value.ty.Some? ==> TypeEntry(printer, value.ty.value).Ok?
    ensures NoIndexAmong(printer, BeforeIndex(printer, value))
  {
    AliasesApart(printer, parser, ValueKeyword);
    AliasesApart(printer, parser, TypeKeyword);
    AliasesApart(printer, parser, LanguageKeyword);
    AliasesApart(printer, parser, DirectionKeyword);
  }

  /** Otherwise it is an object, which has the index as an entry exactly when no container absorbs it. */
  lemma IndexIsWrittenExactlyWhen<E>(printer: Printer<E>, parser: Parser, scope: Scope, value: Value,
      index: Option<string>)
    requires AliasesReadBack(printer, parser) && Compacted(printer, scope, value, index).Ok?
    requires !MayBeBare(scope, value, index)
    ensures Compacted(printer, scope, value, index).value.Object?
    ensures Indices(printer, Compacted(printer, scope, value, index).value.entries)
         == if index.Some? && !AbsorbsIndex(scope) then {J.Str(index.value)} else {}
  {
    InForce(scope);
    NoIndexBefore(printer, parser, value);
    IndexAtTheEnd(printer, BeforeIndex(printer, value), KeptIndex(scope, index));
  }

  /** The condition for it, which a caller can check on the term and the value. */
  predicate Survives(scope: Scope, value: Value, index: Option<string>) {
    if scope.Type() == Some(JsonType) then value.JsonValue? && (index.None? || AbsorbsIndex(scope))
    else
      match value
      case LiteralValue(literal, _) => !literal.LNull?
      case JsonValue(_) => true
      case LangString(_, language, direction) =>
        if MayBeBare(scope, value, index) then
          // nothing else is in force that the value lacks
          && (scope.Type() == None || scope.Type() == Some(NoneType))
          && (language.None? ==> scope.EffectiveLanguage().None?)
          && (direction.None? ==> scope.EffectiveDirection().None?)
        else language != Some("@none")
  }

  lemma {:induction false} GatherApart(parser: Parser, g: Result<Gathered, InvalidValue>, a: seq<J.Entry>,
      b: seq<J.Entry>)
    ensures GatherAll(parser, g, a + b) == GatherAll(parser, GatherAll(parser, g, a), b)
    decreases |a|
  {
    if g.Ok? && a != [] {
      var key := parser.expandKey(a[0].key);
      assert (a + b)[0] == a[0] && (a + b)[1..] == a[1..] + b;
      GatherApart(parser, if key.None? then g else Gather(parser, g.value, key.value, a[0].value), a[1..], b);
    } else {
      assert a == [] ==> a + b == b;
    }
  }

  lemma {:induction false} GatherOne(parser: Parser, g: Gathered, entry: J.Entry, key: ExpandedKey)
    requires parser.expandKey(entry.key) == Some(key)
    ensures GatherAll(parser, Ok(g), [entry]) == Gather(parser, g, key, entry.value)
  {
    assert [entry][1..] == [];
  }

  /** The index entry, when there is one. */
  lemma {:induction false} GatherIndex<E>(printer: Printer<E>, parser: Parser, g: Gathered, index: Option<string>)
    requires AliasesReadBack(printer, parser) && g.index.None?
    ensures GatherAll(parser, Ok(g), TextEntry(printer, IndexKeyword, index)) == Ok(g.(index := index))
  {
    if index.Some? {
      GatherOne(parser, g, J.Entry(printer.alias(IndexKeyword), J.Str(index.value)), KeyKeyword(IndexKeyword));
    } else {
      assert g.(index := None) == g;
    }
  }

  lemma {:induction false} NoOtherValueEntry(parser: Parser, first: J.Entry, rest: seq<J.Entry>)
    requires parser.expandKey(first.key) == Some(KeyKeyword(ValueKeyword))
    requires ValueEntry(parser, rest) == None
    ensures ValueEntry(parser, [first] + rest) == Some(first.value)
  {
    assert ([first] + rest)[1..] == rest;
  }

  /** Entries of which none is a `@value` entry. */
  lemma {:induction false} NoValueEntry(parser: Parser, rest: seq<J.Entry>)
    requires forall i :: 0 <= i < |rest| ==> parser.expandKey(rest[i].key) != Some(KeyKeyword(ValueKeyword))
    ensures ValueEntry(parser, rest) == None
  {
    if rest != [] { NoValueEntry(parser, rest[1..]); }
  }

  /** An object written for a value is read from its `@value` entry and from what the other entries gather. */
  lemma {:induction false} ReadsObject<E>(printer: Printer<E>, parser: Parser, scope: Scope, json: J.Value,
      rest: seq<J.Entry>, start: Gathered, g: Gathered)
    requires AliasesReadBack(printer, parser) && scope.Type() != Some(JsonType)
    requires forall i :: 0 <= i < |rest| ==> parser.expandKey(rest[i].key) != Some(KeyKeyword(ValueKeyword))
    requires var entries := [J.Entry(printer.alias(ValueKeyword), json)] + rest;
             start == Gathered(parser.inputIsJson(entries), None, None, None, None)
    requires GatherAll(parser, Ok(start), rest) == Ok(g)
    ensures ReadValue(parser, scope, J.Object([J.Entry(printer.alias(ValueKeyword), json)] + rest))
         == Outcome(Finish(g, json))
  {
    var first := J.Entry(printer.alias(ValueKeyword), json);
    NoValueEntry(parser, rest);
    NoOtherValueEntry(parser, first, rest);
    GatherOne(parser, start, first, KeyKeyword(ValueKeyword));
    GatherApart(parser, Ok(start), [first], rest);
  }

  /** Without a type entry, nothing says that a value is JSON. */
  lemma NotJsonWithoutType<E>(printer: Printer<E>, parser: Parser, entries: seq<J.Entry>)
    requires AliasesReadBack(printer, parser)
    requires forall i :: 0 <= i < |entries| ==> parser.expandKey(entries[i].key) != Some(KeyKeyword(TypeKeyword))
    ensures !parser.inputIsJson(entries)
  {
  }

  lemma LiteralComesBack<E>(printer: Printer<E>, parser: Parser, scope: Scope, value: Value, index: Option<string>)
    requires AliasesReadBack(printer, parser) && DatatypeReadsBack(printer, parser, value)
    requires value.LiteralValue? && scope.Type() != Some(JsonType)
    ensures ComesBack(printer, parser, scope, value, index) <==> Survives(scope, value, index)
  {
    if !WritesBareLiteral(scope, value, index) {
      LiteralObject(printer, parser, scope, value, index);
    }
  }

  lemma LiteralObject<E>(printer: Printer<E>, parser: Parser, scope: Scope, value: Value, index: Option<string>)
    requires AliasesReadBack(printer, parser) && DatatypeReadsBack(printer, parser, value)
    requires value.LiteralValue? && scope.Type() != Some(JsonType) && !WritesBareLiteral(scope, value, index)
    ensures Compacted(printer, scope, value, index).Ok?
    ensures ReadValue(parser, scope, Compacted(printer, scope, value, index).value)
         == if value.literal.LNull? then Dropped else Read(value, KeptIndex(scope, index))
  {
    if value.ty.Some? {
      var text :| printer.compactIri(value.ty.value) == Ok(Some(text))
          && parser.expandType(text) == TypeIsIri(value.ty.value);
      TypedObject(printer, parser, scope, value.literal, value.ty.value, text, KeptIndex(scope, index));
    } else {
      UntypedObject(printer, parser, scope, value.literal, KeptIndex(scope, index));
    }
  }

  lemma TypedObject<E>(printer: Printer<E>, parser: Parser, scope: Scope, literal: Literal, ty: Iri, text: string,
      kept: Option<string>)
    requires AliasesReadBack(printer, parser) && parser.expandType(text) == TypeIsIri(ty)
        && scope.Type() != Some(JsonType)
    ensures var entries := [J.Entry(printer.alias(ValueKeyword), LiteralJson(literal))]
        + [J.Entry(printer.alias(TypeKeyword), J.Str(text))]
                           + TextEntry(printer, IndexKeyword, kept);
            ReadValue(parser, scope, J.Object(entries)) == if literal.LNull? then Dropped
                else Read(LiteralValue(literal, Some(ty)), kept)
  {
    var indexEntry := TextEntry(printer, IndexKeyword, kept);
    var first := [J.Entry(printer.alias(ValueKeyword), LiteralJson(literal))];
    var typeEntry := J.Entry(printer.alias(TypeKeyword), J.Str(text));
    var rest := [typeEntry] + indexEntry;
    assert first + [typeEntry] + indexEntry == first + rest;
    var start := Gathered(parser.inputIsJson(first + rest), None, None, None, None);
    var typed := start.(isJson := false, ty := Some(ty));
    GatherOne(parser, start, typeEntry, KeyKeyword(TypeKeyword));
    GatherApart(parser, Ok(start), [typeEntry], indexEntry);
    GatherIndex(printer, parser, typed, kept);
    ReadsObject(printer, parser, scope, LiteralJson(literal), rest, start, typed.(index := kept));
  }

  lemma UntypedObject<E>(printer: Printer<E>, parser: Parser, scope: Scope, literal: Literal, kept: Option<string>)
    requires AliasesReadBack(printer, parser) && scope.Type() != Some(JsonType)
    ensures var entries := [J.Entry(printer.alias(ValueKeyword), LiteralJson(literal))] + []
        + TextEntry(printer, IndexKeyword, kept);
            ReadValue(parser, scope, J.Object(entries)) == if literal.LNull? then Dropped
                else Read(LiteralValue(literal, None), kept)
  {
    var indexEntry := TextEntry(printer, IndexKeyword, kept);
    var first := [J.Entry(printer.alias(ValueKeyword), LiteralJson(literal))];
    assert first + [] + indexEntry == first + indexEntry;
    NotJsonWithoutType(printer, parser, first + indexEntry);
    var start := Gathered(false, None, None, None, None);
    GatherIndex(printer, parser, start, kept);
    ReadsObject(printer, parser, scope, LiteralJson(literal), indexEntry, start, start.(index := kept));
  }

  lemma JsonComesBack<E>(printer: Printer<E>, parser: Parser, scope: Scope, value: Value, index: Option<string>)
    requires AliasesReadBack(printer, parser) && value.JsonValue? && scope.Type() != Some(JsonType)
    ensures ComesBack(printer, parser, scope, value, index)
  {
    var kept := KeptIndex(scope, index);
    var indexEntry := TextEntry(printer, IndexKeyword, kept);
    var first := [J.Entry(printer.alias(ValueKeyword), value.json)];
    var typeEntry := J.Entry(printer.alias(TypeKeyword), J.Str(printer.alias(JsonKeyword)));
    var rest := [typeEntry] + indexEntry;
    assert first + [typeEntry] + indexEntry == first + rest;
    var start := Gathered(parser.inputIsJson(first + rest), None, None, None, None);
    GatherOne(parser, start, typeEntry, KeyKeyword(TypeKeyword));
    GatherApart(parser, Ok(start), [typeEntry], indexEntry);
    GatherIndex(printer, parser, start.(isJson := true), kept);
    ReadsObject(printer, parser, scope, value.json, rest, start, start.(isJson := true, index := kept));
  }

  /** What an object written for a language string reads as: a language tag spelled "@none" is lost. */
  lemma LangStringObject<E>(printer: Printer<E>, parser: Parser, scope: Scope, value: Value, index: Option<string>)
    requires AliasesReadBack(printer, parser) && parser.mode11 && Valid(value)
    requires value.LangString? && scope.Type() != Some(JsonType) && !WritesBareString(scope, value, index)
    ensures Compacted(printer, scope, value, index).Ok?
    ensures ReadValue(parser, scope, Compacted(printer, scope, value, index).value)
         == Read(Tagged(value.s, if value.language == Some("@none") then None else value.language, value.direction),
             KeptIndex(scope, index))
  {
    var kept := KeptIndex(scope, index);
    var first := [J.Entry(printer.alias(ValueKeyword), J.Str(value.s))];
    var l, d, i := TextEntry(printer, LanguageKeyword, value.language), DirectionEntry(printer, value.direction),
        TextEntry(printer, IndexKeyword, kept);
    assert first + l + d + i == first + (l + (d + i));
    TagsAreNotValues(printer, parser, value.language, value.direction, kept);
    NotJsonWithoutType(printer, parser, first + (l + (d + i)));
    GatherTags(printer, parser, value.language, value.direction, kept);
    var language := if value.language == Some("@none") then None else value.language;
    FinishTagged(kept, language, value.direction, value.s);
    ReadsObject(printer, parser, scope, J.Str(value.s), l + (d + i), Gathered(false, None, None, None, None),
                Gathered(false, None, kept, language, value.direction));
  }

  lemma FinishTagged(index: Option<string>, language: Option<string>, direction: Option<Direction>, s: string)
    ensures Finish(Gathered(false, None, index, language, direction), J.Str(s))
        == Ok(Some((Tagged(s, language, direction), index)))
  {
  }

  /** None of the entries beside the value's is a `@value` or a `@type` entry. */
  lemma TagsAreNotValues<E>(printer: Printer<E>, parser: Parser, language: Option<string>, direction: Option<Direction>,
      kept: Option<string>)
    requires AliasesReadBack(printer, parser)
    ensures var rest := TextEntry(printer, LanguageKeyword, language)
        + (DirectionEntry(printer, direction) + TextEntry(printer, IndexKeyword, kept));
            forall i :: 0 <= i < |rest| ==>
              && parser.expandKey(rest[i].key) != Some(KeyKeyword(ValueKeyword))
              && parser.expandKey(rest[i].key) != Some(KeyKeyword(TypeKeyword))
  {
  }

  lemma {:induction false} GatherTags<E>(printer: Printer<E>, parser: Parser, language: Option<string>,
      direction: Option<Direction>, kept: Option<string>)
    requires AliasesReadBack(printer, parser) && parser.mode11
    ensures GatherAll(parser, Ok(Gathered(false, None, None, None, None)), TextEntry(printer, LanguageKeyword, language)
              + (DirectionEntry(printer, direction) + TextEntry(printer, IndexKeyword, kept)))
         == Ok(Gathered(false, None, kept, if language == Some("@none") then None else language, direction))
  {
    var l, d, i := TextEntry(printer, LanguageKeyword, language), DirectionEntry(printer, direction),
        TextEntry(printer, IndexKeyword, kept);
    var start := Gathered(false, None, None, None, None);
    var tagged := start.(language := if language == Some("@none") then None else language);
    if language.Some? { GatherOne(parser, start, l[0], KeyKeyword(LanguageKeyword)); }
    GatherDirection(printer, parser, tagged, direction);
    GatherIndex(printer, parser, tagged.(direction := direction), kept);
    GatherApart(parser, Ok(tagged), d, i);
    GatherApart(parser, Ok(start), l, d + i);
  }

  lemma {:induction false} GatherDirection<E>(printer: Printer<E>, parser: Parser, g: Gathered,
      direction: Option<Direction>)
    requires AliasesReadBack(printer, parser) && parser.mode11 && g.direction.None?
    ensures GatherAll(parser, Ok(g), DirectionEntry(printer, direction)) == Ok(g.(direction := direction))
  {
    if direction.Some? {
      DirectionReadsBack(direction.value);
      GatherOne(parser, g, J.Entry(printer.alias(DirectionKeyword), J.Str(DirectionText(direction.value))),
          KeyKeyword(DirectionKeyword));
    } else {
      assert g.(direction := None) == g;
    }
  }

  lemma BareStringComesBack<E>(printer: Printer<E>, parser: Parser, scope: Scope, value: Value, index: Option<string>)
    requires value.LangString? && Valid(value) && scope.Type() != Some(JsonType)
        && WritesBareString(scope, value, index)
    ensures ComesBack(printer, parser, scope, value, index) <==> Survives(scope, value, index)
  {
  }

  lemma FullStringComesBack<E>(printer: Printer<E>, parser: Parser, scope: Scope, value: Value, index: Option<string>)
    requires AliasesReadBack(printer, parser) && parser.mode11 && Valid(value)
    requires value.LangString? && scope.Type() != Some(JsonType) && !WritesBareString(scope, value, index)
    ensures ComesBack(printer, parser, scope, value, index) <==> Survives(scope, value, index)
  {
    LangStringObject(printer, parser, scope, value, index);
    LowerNone();
  }

  lemma LangStringComesBack<E>(printer: Printer<E>, parser: Parser, scope: Scope, value: Value, index: Option<string>)
    requires AliasesReadBack(printer, parser) && parser.mode11 && Valid(value)
    requires value.LangString? && scope.Type() != Some(JsonType)
    ensures ComesBack(printer, parser, scope, value, index) <==> Survives(scope, value, index)
  {
    if WritesBareString(scope, value, index) {
      BareStringComesBack(printer, parser, scope, value, index);
    } else {
      FullStringComesBack(printer, parser, scope, value, index);
    }
  }

  lemma LowerNone()
    ensures Lower("@none") == "@none"
  {
  }

  lemma {:induction false} JsonSmaller(json: J.Value, entries: seq<J.Entry>, i: nat)
    requires i < |entries| && entries[i].value == json
    ensures J.Object(entries) != json
  {
    assert entries[i].value < J.Object(entries);
  }

  /**
   In JSON-LD 1.1, a value comes back from what was written for it exactly when: under a
   `@json` term, it is JSON and its index is absorbed; elsewhere, it is not null and, if it is a
   language string written bare, the term has no type mapping and no language or direction that
   the value lacks, and if it is one written in full, its tag is not spelled "@none".
   */
  lemma ComesBackExactlyWhen<E>(printer: Printer<E>, parser: Parser, scope: Scope, value: Value, index: Option<string>)
    requires Valid(value) && parser.mode11 && AliasesReadBack(printer, parser)
        && DatatypeReadsBack(printer, parser, value)
    ensures ComesBack(printer, parser, scope, value, index) <==> Survives(scope, value, index)
  {
    if scope.Type() == Some(JsonType) {
      if value.JsonValue? && !RemoveIndex(scope, index) {
        var written := Compacted(printer, scope, value, index).value;
        JsonSmaller(value.json, written.entries, 0);
      }
    } else {
      match value
      case LiteralValue(_, _) => LiteralComesBack(printer, parser, scope, value, index);
      case LangString(_, _, _) => LangStringComesBack(printer, parser, scope, value, index);
      case JsonValue(_) => JsonComesBack(printer, parser, scope, value, index);
    }
  }
}
