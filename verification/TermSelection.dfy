/**
 Selecting the term for a value (jsonld-compaction/src/iri.rs:74-119, 318-550,
 jsonld-compaction/src/value_hint.rs): what is read of the value, the containers and
 types or languages preferred for it, and the memo over a run of values.
 */
module TermSelection {
  import opened Wrappers
  import opened LangTag
  import opened Values

  type Id = string
  type Key = string

  datatype Container =
    | NoContainer | GraphContainer | IdContainer | IndexContainer | LanguageContainer | ListContainer | SetContainer
    | TypeContainer
    | GraphSet | GraphId | GraphIdSet | GraphIndex | GraphIndexSet | IdSet | IndexSet | LanguageSet | SetType

  /** A language and direction, either of which may be missing, or null. */
  datatype LangDir = NullLang | LangDir(language: Option<string>, direction: Option<Direction>)

  datatype TypeSelection = Reverse | AnyType | OfType(ty: TypeMapping)
  datatype LangSelection = AnyLang | OfLang(langDir: LangDir)
  datatype Selection = Any | Types(types: seq<TypeSelection>) | Langs(langs: seq<LangSelection>)

  // ----- values

  datatype Object = NodeObject(id: Option<Id>,
      isGraph: bool) | ValueObject(value: Value) | ListObject(items: seq<Indexed>)
  datatype Indexed = Indexed(obj: Object, index: Option<string>)

  /** A value described without being built. */
  datatype ValueKind =
    | NodeKind(id: Option<Id>)
    | GraphKind(id: Option<Id>)
    | LiteralKind(datatypeIri: Option<string>)
    | LangStringKind(language: Option<string>, direction: Option<Direction>)
    | JsonKind
    | ListKind(items: seq<ValueKind>)
    | EmptyArray

  // ----- what is read of them

  datatype ValueFeatures = ValueFeatures(hasIndex: bool, shape: ValueShape)

  datatype ValueShape =
    | NodeShape(id: Option<Id>)
    | GraphShape(id: Option<Id>)
    | PlainShape(features: ValueObjectFeatures)
    | ListShape(commonType: Option<TypeMapping>, commonLangDir: LangDir, isEmpty: bool)

  datatype ValueObjectFeatures =
    | OfLiteral(datatypeIri: Option<string>)
    | OfLangString(language: Option<string>, direction: Option<Direction>)
    | OfJson

  function OfValue(value: Value): ValueObjectFeatures {
    match value
    case LiteralValue(_, d) => OfLiteral(d)
    case LangString(_, l, d) => OfLangString(l, d)
    case JsonValue(_) => OfJson
  }

  function ItemFeatures(item: Indexed): Option<ValueObjectFeatures> {
    if item.obj.ValueObject? then Some(OfValue(item.obj.value)) else None
  }

  function KindFeatures(kind: ValueKind): Option<ValueObjectFeatures> {
    match kind
    case LiteralKind(d) => Some(OfLiteral(d))
    case LangStringKind(l, d) => Some(OfLangString(l, d))
    case JsonKind => Some(OfJson)
    case _ => None
  }

  // ----- the type and language the items of a list have in common

  /** The type of an item, if it counts as typed; an item that is no value is typed @id. */
  function ItemType(item: Option<ValueObjectFeatures>): Option<TypeMapping> {
    match item
    case Some(OfLangString(_, _)) => None
    case Some(OfLiteral(Some(d))) => Some(IriType(d))
    case Some(OfLiteral(None)) => None
    case Some(OfJson) => Some(JsonType)
    case None => Some(IdType)
  }

  function ItemLangDir(item: Option<ValueObjectFeatures>): Option<LangDir> {
    match item
    case Some(OfLangString(l, d)) => Some(LangDir(l, d))
    case Some(OfLiteral(None)) => Some(NullLang)
    case _ => None
  }

  predicate SameLangDir(a: LangDir, b: LangDir) {
    match (a, b)
    case (NullLang, NullLang) => true
    case (LangDir(l, d), LangDir(m, e)) => SameOptionalTag(l, m) && d == e
    case _ => false
  }

  predicate SameOptionalLangDir(a: Option<LangDir>, b: Option<LangDir>) {
    match (a, b)
    case (Some(x), Some(y)) => SameLangDir(x, y)
    case (None, None) => true
    case _ => false
  }

  const NO_LANG_DIR := LangDir(None, None)

  function NextLangDir(common: Option<LangDir>, item: Option<ValueObjectFeatures>): Option<LangDir> {
    if common.None? then ItemLangDir(item)
    else if item.Some? && !SameOptionalLangDir(common, ItemLangDir(item)) then Some(NO_LANG_DIR)
    else common
  }

  function NextType(common: Option<Option<TypeMapping>>, item: Option<ValueObjectFeatures>):
      Option<Option<TypeMapping>> {
    if common.None? then Some(ItemType(item))
    else if common.value != ItemType(item) then Some(None)
    else common
  }

  function CommonLangDir(items: seq<Option<ValueObjectFeatures>>): Option<LangDir> {
    if items == [] then None else NextLangDir(CommonLangDir(items[..|items| - 1]), items[|items| - 1])
  }

  function CommonType(items: seq<Option<ValueObjectFeatures>>): Option<Option<TypeMapping>> {
    if items == [] then None else NextType(CommonType(items[..|items| - 1]), items[|items| - 1])
  }

  function Shape(items: seq<Option<ValueObjectFeatures>>, defaults: LangDir): ValueShape {
    ListShape(if CommonType(items).Some? then CommonType(items).value else None,
              if items == [] then defaults else if CommonLangDir(items).Some? then CommonLangDir(items).value
                  else NO_LANG_DIR,
              items == [])
  }

  lemma {:induction false} Settled(items: seq<Option<ValueObjectFeatures>>, i: nat)
    requires i <= |items|
    ensures CommonType(items[..i]) == Some(None) ==> CommonType(items) == Some(None)
    ensures CommonLangDir(items[..i]) == Some(NO_LANG_DIR) && CommonType(items[..i]) == Some(None)
        ==> CommonLangDir(items) == Some(NO_LANG_DIR)
  {
    if i == |items| {
      assert items[..i] == items;
    } else {
      var init := items[..|items| - 1];
      assert init[..i] == items[..i];
      Settled(init, i);
    }
  }

  /** The loop over the items, which stops as soon as nothing can change any more. */
  method ComputeListShape(items: seq<Option<ValueObjectFeatures>>, defaults: LangDir) returns (shape: ValueShape)
    ensures shape == Shape(items, defaults)
  {
    var commonType: Option<Option<TypeMapping>>, commonLangDir: Option<LangDir> := None, None;
    if items == [] {
      commonLangDir := Some(defaults);
    } else {
      var i := 0;
      while i < |items|
        invariant 0 <= i <= |items|
        invariant commonType == CommonType(items[..i]) && commonLangDir == CommonLangDir(items[..i])
      {
        assert items[..i + 1][..i] == items[..i];
        commonLangDir := NextLangDir(commonLangDir, items[i]);
        commonType := NextType(commonType, items[i]);
        i := i + 1;
        if commonLangDir == Some(NO_LANG_DIR) && commonType == Some(None) {
          Settled(items, i);
          break;
        }
      }
      if i == |items| { assert items[..i] == items; }
    }
    shape := ListShape(if commonType.Some? then commonType.value else None,
                       if commonLangDir.Some? then commonLangDir.value else NO_LANG_DIR, items == []);
  }

  /** A list has a common type exactly when all its items have that type. */
  lemma {:induction false} CommonTypeIsCommon(items: seq<Option<ValueObjectFeatures>>, t: TypeMapping)
    ensures CommonType(items) == Some(Some(t))
        <==> items != [] && forall i :: 0 <= i < |items| ==> ItemType(items[i]) == Some(t)
    ensures items != [] ==> CommonType(items).Some?
  {
    if items != [] {
      var init := items[..|items| - 1];
      CommonTypeIsCommon(init, t);
      if init != [] {
        if forall i :: 0 <= i < |items| ==> ItemType(items[i]) == Some(t) {
          forall i | 0 <= i < |init| ensures ItemType(init[i]) == Some(t) { assert init[i] == items[i]; }
        }
        if CommonType(items) == Some(Some(t)) {
          forall i | 0 <= i < |items| ensures ItemType(items[i]) == Some(t) {
            if i < |init| { assert init[i] == items[i]; }
          }
        }
      }
    }
  }

  /** `d` is the language and direction of the first item that has any, and every value after it agrees. */
  ghost predicate AgreeOn(items: seq<Option<ValueObjectFeatures>>, d: LangDir) {
    exists k :: AgreeFrom(items, k, d)
  }

  ghost predicate AgreeFrom(items: seq<Option<ValueObjectFeatures>>, k: int, d: LangDir) {
    && 0 <= k < |items| && ItemLangDir(items[k]) == Some(d)
    && (forall i :: 0 <= i < k ==> ItemLangDir(items[i]).None?)
    && (forall i :: k < i < |items| && items[i].Some? ==> SameOptionalLangDir(Some(d), ItemLangDir(items[i])))
  }

  lemma {:induction false} CommonLangDirAgrees(items: seq<Option<ValueObjectFeatures>>, d: LangDir)
    requires d != NO_LANG_DIR
    ensures CommonLangDir(items) == Some(d) <==> AgreeOn(items, d)
    ensures CommonLangDir(items) == None <==> forall i :: 0 <= i < |items| ==> ItemLangDir(items[i]).None?
  {
    if items != [] {
      var last := |items| - 1;
      var init := items[..last];
      CommonLangDirAgrees(init, d);
      assert forall i :: 0 <= i < last ==> init[i] == items[i];
      if AgreeOn(init, d) {
        var k :| AgreeFrom(init, k, d);
        if items[last].None? || SameOptionalLangDir(Some(d), ItemLangDir(items[last])) {
          assert AgreeFrom(items, k, d);
        }
      }
      if AgreeOn(items, d) {
        var k :| AgreeFrom(items, k, d);
        if k < last {
          assert AgreeFrom(init, k, d);
        } else {
          assert forall i :: 0 <= i < last ==> ItemLangDir(init[i]).None?;
        }
      }
      if CommonLangDir(items) == Some(d) && CommonLangDir(init).None? {
        assert AgreeFrom(items, last, d);
      }
    }
  }

  /**
   The common language depends on the order of the items: a typed value counts only after a language has
   been seen.
   */
  lemma CommonLangDirNeedsOrder()
    ensures var typed, english := Some(OfLiteral(Some("xsd:integer"))), Some(OfLangString(Some("en"), None));
            && CommonLangDir([typed, english]) == Some(LangDir(Some("en"), None))
            && CommonLangDir([english, typed]) == Some(NO_LANG_DIR)
  {
    var typed, english := Some(OfLiteral(Some("xsd:integer"))), Some(OfLangString(Some("en"), None));
    assert [typed, english][..1] == [typed] && [english, typed][..1] == [english];
    assert [typed][..0] == [] && [english][..0] == [];
    assert CommonLangDir([typed]) == None;
    assert CommonLangDir([english]) == Some(LangDir(Some("en"), None));
  }

  // ----- features

  function AllFeatures(items: seq<Indexed>): (r: seq<Option<ValueObjectFeatures>>)
    ensures |r| == |items|
  {
    if items == [] then [] else [ItemFeatures(items[0])] + AllFeatures(items[1..])
  }

  function AllKindFeatures(items: seq<ValueKind>): (r: seq<Option<ValueObjectFeatures>>)
    ensures |r| == |items|
  {
    if items == [] then [] else [KindFeatures(items[0])] + AllKindFeatures(items[1..])
  }

  function Features(value: Indexed, defaults: LangDir): ValueFeatures {
    var shape :=
      match value.obj
      case ListObject(items) => Shape(AllFeatures(items), defaults)
      case NodeObject(id, isGraph) => if isGraph then GraphShape(id) else NodeShape(id)
      case ValueObject(v) => PlainShape(OfValue(v));
    ValueFeatures(value.index.Some?, shape)
  }

  function HintFeatures(kind: ValueKind, indexed: bool, defaults: LangDir): ValueFeatures {
    var shape :=
      match kind
      case NodeKind(id) => NodeShape(id)
      case EmptyArray => NodeShape(None)
      case GraphKind(id) => GraphShape(id)
      case LiteralKind(d) => PlainShape(OfLiteral(d))
      case LangStringKind(l, d) => PlainShape(OfLangString(l, d))
      case JsonKind => PlainShape(OfJson)
      case ListKind(items) => Shape(AllKindFeatures(items), defaults);
    ValueFeatures(indexed, shape)
  }

  /** A kind describes an object when it is of the same sort, item by item for lists. */
  ghost predicate Describes(kind: ValueKind, obj: Object)
    decreases obj
  {
    match obj
    case NodeObject(id, isGraph) => kind == (if isGraph then GraphKind(id) else NodeKind(id))
        || (kind == EmptyArray && id.None? && !isGraph)
    case ValueObject(LiteralValue(_, d)) => kind == LiteralKind(d)
    case ValueObject(LangString(_, l, d)) => kind == LangStringKind(l, d)
    case ValueObject(JsonValue(_)) => kind == JsonKind
    case ListObject(items) =>
      kind.ListKind? && |kind.items| == |items|
      && forall i :: 0 <= i < |items| ==> DescribesItem(kind.items[i], items[i])
  }

  ghost predicate DescribesItem(kind: ValueKind, item: Indexed)
    decreases item
  {
    Describes(kind, item.obj)
  }

  lemma {:induction false} SameKindFeatures(kind: ValueKind, item: Indexed)
    requires DescribesItem(kind, item)
    ensures KindFeatures(kind) == ItemFeatures(item)
  {
    match item.obj
    case ValueObject(LiteralValue(_, _)) =>
    case ValueObject(LangString(_, _, _)) =>
    case ValueObject(JsonValue(_)) =>
    case NodeObject(_, _) =>
    case ListObject(_) =>
  }

  lemma {:induction false} SameItemFeatures(kinds: seq<ValueKind>, items: seq<Indexed>)
    requires |kinds| == |items| && forall i :: 0 <= i < |items| ==> DescribesItem(kinds[i], items[i])
    ensures AllKindFeatures(kinds) == AllFeatures(items)
  {
    if items != [] {
      assert DescribesItem(kinds[0], items[0]);
      SameKindFeatures(kinds[0], items[0]);
      SameItemFeatures(kinds[1..], items[1..]);
    }
  }

  /** A hint is read as the object it describes would be. */
  lemma {:induction false} HintReadsAsObject(kind: ValueKind, value: Indexed, defaults: LangDir)
    requires Describes(kind, value.obj)
    ensures HintFeatures(kind, value.index.Some?, defaults) == Features(value, defaults)
  {
    match value.obj
    case ListObject(items) => SameItemFeatures(kind.items, items);
    case _ =>
  }

  // ----- what is preferred for a value

  datatype TypeLang = NeitherTypeLang | TypeValue(t: TypeSelection) | LangValue(l: LangSelection)

  function HasIndex(features: Option<ValueFeatures>): bool { features.Some? && features.value.hasIndex }

  function ValueId(features: Option<ValueFeatures>): Option<Id> {
    match features
    case Some(ValueFeatures(_, NodeShape(id))) => id
    case Some(ValueFeatures(_, GraphShape(id))) => id
    case _ => None
  }

  function HasLangDir(f: ValueObjectFeatures): bool {
    f.OfLangString? && (f.language.Some? || f.direction.Some?)
  }

  function ValueType(f: ValueObjectFeatures): Option<TypeMapping> {
    match f
    case OfLiteral(Some(d)) => Some(IriType(d))
    case OfJson => Some(JsonType)
    case _ => None
  }

  function TypeLangOf(features: Option<ValueFeatures>, reverse: bool): TypeLang {
    if reverse then TypeValue(Reverse)
    else
      match features
      case Some(ValueFeatures(_, ListShape(Some(t), _, _))) => TypeValue(OfType(t))
      case Some(ValueFeatures(_, ListShape(None, d, _))) => LangValue(OfLang(d))
      case Some(ValueFeatures(hasIndex, PlainShape(f))) =>
        if HasLangDir(f) && !hasIndex then LangValue(OfLang(LangDir(f.language, f.direction)))
        else if ValueType(f).Some? then TypeValue(OfType(ValueType(f).value))
        else NeitherTypeLang
      case _ => TypeValue(OfType(IdType))
  }

  /** A value with neither type, index, language nor direction. */
  function IsSimple(features: Option<ValueFeatures>, reverse: bool): bool {
    !reverse
    && match features
       case Some(ValueFeatures(hasIndex, PlainShape(f))) =>
         !(HasLangDir(f) && !hasIndex) && ValueType(f).None? && !HasLangDir(f) && !hasIndex
       case _ => false
  }

  function ShapeContainers(features: Option<ValueFeatures>): seq<Container> {
    match features
    case Some(ValueFeatures(hasIndex, ListShape(_, _, _))) => if hasIndex then [] else [ListContainer]
    case Some(ValueFeatures(hasIndex, GraphShape(id))) =>
      (if hasIndex then [GraphIndex, GraphIndexSet] else [])
      + (if id.Some? then [GraphId, GraphIdSet] else [])
      + [GraphContainer, GraphSet, SetContainer]
      + (if hasIndex then [] else [GraphIndex, GraphIndexSet])
      + (if id.Some? then [] else [GraphId, GraphIdSet])
      + [IndexContainer, IndexSet]
    case Some(ValueFeatures(hasIndex, PlainShape(f))) =>
      (if HasLangDir(f) && !hasIndex then [LanguageContainer, LanguageSet] else []) + [SetContainer]
    case _ => [IdContainer, IdSet, TypeContainer, SetType, SetContainer]
  }

  function Containers(features: Option<ValueFeatures>, reverse: bool, mode11: bool): seq<Container> {
    var hasIndex := !reverse && HasIndex(features);
    (if HasIndex(features) && !features.value.shape.GraphShape? then [IndexContainer, IndexSet] else [])
    + (if reverse then [SetContainer] else ShapeContainers(features))
    + [NoContainer]
    + (if mode11 && !hasIndex then [IndexContainer, IndexSet] else [])
    + (if mode11 && IsSimple(features, reverse) then [LanguageContainer, LanguageSet] else [])
  }

  /** `aliased` says whether an identifier compacts to a term that means it, which may fail. */
  function SelectionFor<E>(features: Option<ValueFeatures>, reverse: bool, aliased: Id -> Result<bool, E>):
      Result<Selection, E> {
    if features.Some? && features.value.shape.ListShape? && features.value.shape.isEmpty then Ok(Any)
    else
      match TypeLangOf(features, reverse)
      case TypeValue(t) =>
        var id := ValueId(features);
        var first := if t == Reverse then [Reverse] else [];
        if id.Some? && (t == OfType(IdType) || t == Reverse) then
          match aliased(id.value)
          case Err(e) => Err(e)
          case Ok(vocab) =>
            Ok(Types(first + (if vocab then [OfType(VocabType), OfType(IdType)]
                else [OfType(IdType), OfType(VocabType)])
                     + [OfType(NoneType), AnyType]))
        else Ok(Types(first + [t, OfType(NoneType), AnyType]))
      case LangValue(l) =>
        Ok(Langs([l, OfLang(NO_LANG_DIR), AnyLang]
                 + (if l.OfLang? && l.langDir.LangDir? && l.langDir.language.Some? && l.langDir.direction.Some?
                    then [OfLang(LangDir(None, l.langDir.direction))] else [])))
      case NeitherTypeLang => Ok(Langs([OfLang(NullLang), OfLang(NO_LANG_DIR), AnyLang]))
  }

  // ----- the inverse context

  /** The terms of one container, by type and by language. Languages are looked up without regard to case. */
  datatype InverseContainer = InverseContainer(none: Key, reverse: Option<Key>, anyType: Option<Key>,
      types: map<TypeMapping, Key>,
                                               anyLang: Option<Key>, langs: map<LangDir, Key>)

  type InverseDefinition = map<Container, InverseContainer>

  function FoldCase(d: LangDir): LangDir {
    match d
    case LangDir(Some(l), dir) => LangDir(Some(Lower(l)), dir)
    case _ => d
  }

  function SelectType(c: InverseContainer, s: TypeSelection): Option<Key> {
    match s
    case Reverse => c.reverse
    case AnyType => c.anyType
    case OfType(t) => if t in c.types then Some(c.types[t]) else None
  }

  function SelectLang(c: InverseContainer, s: LangSelection): Option<Key> {
    match s
    case AnyLang => c.anyLang
    case OfLang(d) => if FoldCase(d) in c.langs then Some(c.langs[FoldCase(d)]) else None
  }

  function FirstType(c: InverseContainer, types: seq<TypeSelection>): Option<Key> {
    if types == [] then None
    else if SelectType(c, types[0]).Some? then SelectType(c, types[0]) else FirstType(c, types[1..])
  }

  function FirstLang(c: InverseContainer, langs: seq<LangSelection>): Option<Key> {
    if langs == [] then None
    else if SelectLang(c, langs[0]).Some? then SelectLang(c, langs[0]) else FirstLang(c, langs[1..])
  }

  function SelectIn(c: InverseContainer, selection: Selection): Option<Key> {
    match selection
    case Any => Some(c.none)
    case Types(types) => FirstType(c, types)
    case Langs(langs) => FirstLang(c, langs)
  }

  function Select(entry: InverseDefinition, containers: seq<Container>, selection: Selection): Option<Key> {
    if containers == [] then None
    else if containers[0] in entry && SelectIn(entry[containers[0]], selection).Some?
        then SelectIn(entry[containers[0]], selection)
    else Select(entry, containers[1..], selection)
  }

  predicate SameLangSelection(a: LangSelection, b: LangSelection) {
    match (a, b)
    case (OfLang(d), OfLang(e)) => SameLangDir(d, e)
    case (AnyLang, AnyLang) => true
    case _ => false
  }

  /** Equality of selections, with tags compared without regard to case. */
  predicate SameSelection(a: Selection, b: Selection) {
    match (a, b)
    case (Any, Any) => true
    case (Types(s), Types(t)) => s == t
    case (Langs(s), Langs(t)) => |s| == |t| && forall i :: 0 <= i < |s| ==> SameLangSelection(s[i], t[i])
    case _ => false
  }

  lemma {:induction false} FirstLangUpToCase(c: InverseContainer, s: seq<LangSelection>, t: seq<LangSelection>)
    requires |s| == |t| && forall i :: 0 <= i < |s| ==> SameLangSelection(s[i], t[i])
    ensures FirstLang(c, s) == FirstLang(c, t)
  {
    if s != [] {
      assert SameLangSelection(s[0], t[0]);
      FirstLangUpToCase(c, s[1..], t[1..]);
    }
  }

  /** Selections equal up to case select the same term. */
  lemma {:induction false} SelectUpToCase(entry: InverseDefinition, containers: seq<Container>, a: Selection,
      b: Selection)
    requires SameSelection(a, b)
    ensures Select(entry, containers, a) == Select(entry, containers, b)
  {
    if containers != [] {
      if containers[0] in entry && a.Langs? {
        FirstLangUpToCase(entry[containers[0]], a.langs, b.langs);
      }
      SelectUpToCase(entry, containers[1..], a, b);
    }
  }

  // ----- compaction of a property for a value, and its memo

  /** What is fixed over a run: the inverse definition of the property, and everything else that is not the value. */
  datatype Fixed<!E> = Fixed(entry: InverseDefinition, defaults: LangDir, reverse: bool, mode11: bool,
                            aliased: Id -> Result<bool, E>, fallback: Result<Option<Key>, E>)

  /** After the containers and the selection are known, the value is read no more. */
  function SelectOrFallback<E>(fixed: Fixed<E>, containers: seq<Container>, selection: Selection):
      Result<Option<Key>, E> {
    match Select(fixed.entry, containers, selection)
    case Some(term) => Ok(Some(term))
    case None => fixed.fallback
  }

  function CompactFor<E>(fixed: Fixed<E>, features: ValueFeatures): Result<Option<Key>, E> {
    match SelectionFor(Some(features), fixed.reverse, fixed.aliased)
    case Err(e) => Err(e)
    case Ok(selection) => SelectOrFallback(fixed, Containers(Some(features), fixed.reverse, fixed.mode11), selection)
  }

  /** A hint selects exactly the term that the object it describes selects. */
  lemma {:induction false} HintSelectsAsObject<E>(fixed: Fixed<E>, kind: ValueKind, value: Indexed)
    requires Describes(kind, value.obj)
    ensures CompactFor(fixed, HintFeatures(kind, value.index.Some?, fixed.defaults))
        == CompactFor(fixed, Features(value, fixed.defaults))
  {
    HintReadsAsObject(kind, value, fixed.defaults);
  }

  datatype MemoKey = MemoKey(containers: seq<Container>, selection: Selection)

  class CompactIriMemo {
    var key: Option<MemoKey>
    var result: Option<Key>

    constructor ()
      ensures key == None
    {
      key, result := None, None;
    }

    /** What is remembered is what would be computed. */
    ghost predicate Right<E>(fixed: Fixed<E>)
      reads this
    {
      key.Some? ==> SelectOrFallback(fixed, key.value.containers, key.value.selection) == Ok(result)
    }

    method Get(containers: seq<Container>, selection: Selection) returns (r: Option<Option<Key>>)
      ensures r == if key.Some? && key.value.containers == containers && SameSelection(key.value.selection, selection)
          then Some(result) else None
    {
      if key.None? { return None; }
      r := if key.value.containers == containers && SameSelection(key.value.selection, selection) then Some(result)
          else None;
    }

    method Store(containers: seq<Container>, selection: Selection, result: Option<Key>)
      modifies this
      ensures key == Some(MemoKey(containers, selection)) && this.result == result
    {
      key := Some(MemoKey(containers, selection));
      this.result := result;
    }

    method CompactIriWithMemo<E>(fixed: Fixed<E>, value: Indexed) returns (r: Result<Option<Key>, E>)
      requires Right(fixed)
      modifies this
      ensures Right(fixed)
      ensures r == CompactFor(fixed, Features(value, fixed.defaults))
    {
      var features := Some(Features(value, fixed.defaults));
      var containers := Containers(features, fixed.reverse, fixed.mode11);
      var selected := SelectionFor(features, fixed.reverse, fixed.aliased);
      if selected.Err? { return Err(selected.error); }
      var selection := selected.value;
      var hit := Get(containers, selection);
      if hit.Some? {
        SelectUpToCase(fixed.entry, containers, key.value.selection, selection);
        return Ok(hit.value);
      }
      var term := Select(fixed.entry, containers, selection);
      if term.None? && fixed.fallback.Err? { return Err(fixed.fallback.error); }
      var result := if term.Some? then Some(term.value) else fixed.fallback.value;
      Store(containers, selection, result);
      r := Ok(result);
    }
  }

  /** Over any sequence of values, the memo changes neither a result nor an error. */
  method CompactRun<E(0)>(fixed: Fixed<E>, values: seq<Indexed>) returns (results: seq<Result<Option<Key>, E>>)
    ensures |results| == |values|
    ensures forall i :: 0 <= i < |values| ==> results[i] == CompactFor(fixed, Features(values[i], fixed.defaults))
  {
    var memo := new CompactIriMemo();
    results := [];
    for i := 0 to |values|
      invariant |results| == i && memo.Right(fixed)
      invariant forall j :: 0 <= j < i ==> results[j] == CompactFor(fixed, Features(values[j], fixed.defaults))
    {
      var r := memo.CompactIriWithMemo(fixed, values[i]);
      results := results + [r];
    }
  }
}
