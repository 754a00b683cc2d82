/**
 Which term is selected for a value (jsonld-compaction/src/iri.rs:340-550), read off the value and the inverse
 definition alone: how good each container is for the value, and which of a container's terms is preferred.
 */
module SelectionLaws {
  import opened Wrappers
  import opened LangTag
  import opened Values
  import opened TermSelection

  predicate IsGraph(value: Indexed) {
    value.obj.NodeObject? && value.obj.isGraph
  }

  /** A string with a language or a direction, and no index that would have to be kept apart from them. */
  predicate IsLanguageString(value: Indexed) {
    && value.obj.ValueObject? && value.obj.value.LangString? && value.index.None?
    && (value.obj.value.language.Some? || value.obj.value.direction.Some?)
  }

  /** A value without a type, an index, a language and a direction. */
  predicate IsSimpleValue(value: Indexed) {
    && value.obj.ValueObject? && value.index.None?
    && match value.obj.value
       case LiteralValue(_, ty) => ty.None?
       case LangString(_, language, direction) => language.None? && direction.None?
       case JsonValue(_) => false
  }

  // ----- containers

  /**
   How good a container is for a value: the lower the better, and none when it will not do. In each block
   plain containers come before their `@set` forms.
   */
  function Rank(value: Indexed, reverse: bool, mode11: bool, c: Container): Option<nat> {
    var indexed, graph := value.index.Some?, !reverse && IsGraph(value);
    var node := !reverse && value.obj.NodeObject? && !value.obj.isGraph;
    var hasId := value.obj.NodeObject? && value.obj.id.Some?;
    match c
    // an index goes into an index map first; a graph has better, and without an index it is the last resort
    case IndexContainer => if indexed && !IsGraph(value) then Some(0) else if graph then Some(37)
        else if mode11 then Some(50) else None
    case IndexSet => if indexed && !IsGraph(value) then Some(1) else if graph then Some(38)
        else if mode11 then Some(51) else None
    // what suits the sort of value
    case ListContainer => if !reverse && value.obj.ListObject? && !indexed then Some(20) else None
    case LanguageContainer => if !reverse && IsLanguageString(value) then Some(20)
        else if !reverse && mode11 && IsSimpleValue(value) then Some(60) else None
    case LanguageSet => if !reverse && IsLanguageString(value) then Some(21)
        else if !reverse && mode11 && IsSimpleValue(value) then Some(61) else None
    case IdContainer => if node then Some(20) else None
    case IdSet => if node then Some(21) else None
    case TypeContainer => if node then Some(22) else None
    case SetType => if node then Some(23) else None
    case GraphIndex => if graph then Some(if indexed then 20 else 33) else None
    case GraphIndexSet => if graph then Some(if indexed then 21 else 34) else None
    case GraphId => if graph then Some(if hasId then 22 else 35) else None
    case GraphIdSet => if graph then Some(if hasId then 23 else 36) else None
    case GraphContainer => if graph then Some(30) else None
    case GraphSet => if graph then Some(31) else None
    case SetContainer => if !reverse && value.obj.ListObject? then None else Some(32)
    case NoContainer => Some(40)
  }

  predicate WillDo(value: Indexed, reverse: bool, mode11: bool, c: Container) {
    Rank(value, reverse, mode11, c).Some?
  }

  function Ordinal(value: Indexed, reverse: bool, mode11: bool, c: Container): int {
    if WillDo(value, reverse, mode11, c) then Rank(value, reverse, mode11, c).value else -1
  }

  // ----- the best of a list of containers

  function First(a: Option<Key>, b: Option<Key>): Option<Key> {
    if a.Some? then a else b
  }

  /** The term that a container has for a selection. */
  function Offer(entry: InverseDefinition, selection: Selection, c: Container): Option<Key> {
    if c in entry then SelectIn(entry[c], selection) else None
  }

  lemma {:induction false} SelectJoined(entry: InverseDefinition, a: seq<Container>, b: seq<Container>,
      selection: Selection)
    ensures Select(entry, a + b, selection) == First(Select(entry, a, selection), Select(entry, b, selection))
  {
    if a == [] {
      assert a + b == b;
    } else {
      assert (a + b)[1..] == a[1..] + b;
      SelectJoined(entry, a[1..], b, selection);
    }
  }

  /** `r` is the term of the best of the containers that have one. */
  ghost predicate IsBest(entry: InverseDefinition, selection: Selection, rank: Container -> int,
      containers: seq<Container>, r: Option<Key>)
  {
    if r.None? then forall c :: c in containers ==> Offer(entry, selection, c).None?
    else exists c :: c in containers && Offer(entry, selection, c) == r
           && NoneBetter(entry, selection, rank, containers, c)
  }

  ghost predicate NoneBetter(entry: InverseDefinition, selection: Selection, rank: Container -> int,
      containers: seq<Container>, c: Container)
  {
    forall d :: d in containers && Offer(entry, selection, d).Some? ==> rank(c) <= rank(d)
  }

  /** No container of `b` is better than one of `a`, unless it is there as well. */
  ghost predicate NotBefore(rank: Container -> int, a: seq<Container>, b: seq<Container>) {
    forall c, d :: c in a && d in b ==> rank(c) <= rank(d) || d in a
  }

  lemma BestJoined(entry: InverseDefinition, selection: Selection, rank: Container -> int, a: seq<Container>,
      b: seq<Container>)
    requires IsBest(entry, selection, rank, a, Select(entry, a, selection))
    requires IsBest(entry, selection, rank, b, Select(entry, b, selection))
    requires NotBefore(rank, a, b)
    ensures IsBest(entry, selection, rank, a + b, Select(entry, a + b, selection))
  {
    SelectJoined(entry, a, b, selection);
    var r := Select(entry, a, selection);
    if r.Some? {
      var c :| c in a && Offer(entry, selection, c) == r && NoneBetter(entry, selection, rank, a, c);
      assert c in a + b;
      assert NoneBetter(entry, selection, rank, a + b, c);
    } else if Select(entry, b, selection).Some? {
      var c :| c in b && Offer(entry, selection, c) == Select(entry, b, selection)
               && NoneBetter(entry, selection, rank, b, c);
      assert c in a + b;
      assert NoneBetter(entry, selection, rank, a + b, c);
    }
  }

  lemma BestOfNone(entry: InverseDefinition, selection: Selection, rank: Container -> int)
    ensures IsBest(entry, selection, rank, [], Select(entry, [], selection))
  {
  }

  lemma BestOfOne(entry: InverseDefinition, selection: Selection, rank: Container -> int, c: Container)
    ensures IsBest(entry, selection, rank, [c], Select(entry, [c], selection))
  {
    assert [c][1..] == [];
    assert Select(entry, [c], selection) == Offer(entry, selection, c);
  }

  lemma BestOfTwo(entry: InverseDefinition, selection: Selection, rank: Container -> int, c: Container, d: Container)
    requires rank(c) <= rank(d)
    ensures IsBest(entry, selection, rank, [c, d], Select(entry, [c, d], selection))
  {
    BestOfOne(entry, selection, rank, c);
    BestOfOne(entry, selection, rank, d);
    assert [c] + [d] == [c, d];
    BestJoined(entry, selection, rank, [c], [d]);
  }

  // ----- the preferred containers, part by part

  function Rated(value: Indexed, reverse: bool, mode11: bool): Container -> int {
    (c: Container) => Ordinal(value, reverse, mode11, c)
  }

  /** `part` holds just the containers that will do and are rated between the bounds. */
  ghost predicate HoldsRange(value: Indexed, reverse: bool, mode11: bool, part: seq<Container>, low: nat, high: nat) {
    forall c: Container :: c in part <==>
      WillDo(value, reverse, mode11, c) && low <= Ordinal(value, reverse, mode11, c) <= high
  }

  function FirstPart(value: Indexed, features: Option<ValueFeatures>): seq<Container> {
    if HasIndex(features) && !features.value.shape.GraphShape? then [IndexContainer, IndexSet] else []
  }

  function LastPart(features: Option<ValueFeatures>, reverse: bool, mode11: bool): seq<Container> {
    (if mode11 && !(!reverse && HasIndex(features)) then [IndexContainer, IndexSet] else [])
    + (if mode11 && IsSimple(features, reverse) then [LanguageContainer, LanguageSet] else [])
  }

  lemma FirstPartHolds(value: Indexed, defaults: LangDir, reverse: bool, mode11: bool)
    ensures HoldsRange(value, reverse, mode11, FirstPart(value, Some(Features(value, defaults))), 0, 1)
  {
    forall c: Container
      ensures c in FirstPart(value, Some(Features(value, defaults))) <==>
              WillDo(value, reverse, mode11, c) && 0 <= Ordinal(value, reverse, mode11, c) <= 1
    {
    }
  }

  function MiddlePart(value: Indexed, defaults: LangDir, reverse: bool): seq<Container> {
    if reverse then [SetContainer] else ShapeContainers(Some(Features(value, defaults)))
  }

  lemma ReversePartHolds(value: Indexed, defaults: LangDir, mode11: bool)
    ensures HoldsRange(value, true, mode11, MiddlePart(value, defaults, true), 20, 39)
  {
  }

  lemma ListPartHolds(value: Indexed, defaults: LangDir, mode11: bool)
    requires value.obj.ListObject?
    ensures HoldsRange(value, false, mode11, MiddlePart(value, defaults, false), 20, 39)
  {
  }

  lemma NodePartHolds(value: Indexed, defaults: LangDir, mode11: bool)
    requires value.obj.NodeObject? && !value.obj.isGraph
    ensures MiddlePart(value, defaults, false) == [IdContainer, IdSet, TypeContainer, SetType, SetContainer]
    ensures HoldsRange(value, false, mode11, MiddlePart(value, defaults, false), 20, 39)
  {
  }

  lemma ValuePartHolds(value: Indexed, defaults: LangDir, mode11: bool)
    requires value.obj.ValueObject?
    ensures MiddlePart(value, defaults, false) ==
            (if IsLanguageString(value) then [LanguageContainer, LanguageSet] else []) + [SetContainer]
    ensures HoldsRange(value, false, mode11, MiddlePart(value, defaults, false), 20, 39)
  {
  }

  /** The containers for a graph. */
  function GraphPart(indexed: bool, hasId: bool): seq<Container> {
    match (indexed, hasId)
    case (true, true) =>
      [GraphIndex, GraphIndexSet, GraphId, GraphIdSet, GraphContainer, GraphSet, SetContainer, IndexContainer, IndexSet]
    case (true, false) =>
      [GraphIndex, GraphIndexSet, GraphContainer, GraphSet, SetContainer, GraphId, GraphIdSet, IndexContainer, IndexSet]
    case (false, true) =>
      [GraphId, GraphIdSet, GraphContainer, GraphSet, SetContainer, GraphIndex, GraphIndexSet, IndexContainer, IndexSet]
    case (false, false) =>
      [GraphContainer, GraphSet, SetContainer, GraphIndex, GraphIndexSet, GraphId, GraphIdSet, IndexContainer, IndexSet]
  }

  function HasId(value: Indexed): bool {
    value.obj.NodeObject? && value.obj.id.Some?
  }

  lemma GraphPartIs(value: Indexed, defaults: LangDir)
    requires IsGraph(value)
    ensures MiddlePart(value, defaults, false) == GraphPart(value.index.Some?, HasId(value))
  {
  }

  lemma GraphPartHolds(value: Indexed, mode11: bool)
    requires IsGraph(value)
    ensures HoldsRange(value, false, mode11, GraphPart(value.index.Some?, HasId(value)), 20, 39)
  {
    var part := GraphPart(value.index.Some?, HasId(value));
    forall c: Container
      ensures c in part <==> WillDo(value, false, mode11, c) && 20 <= Ordinal(value, false, mode11, c) <= 39
    {
      InGraphPart(value.index.Some?, HasId(value), c);
    }
  }

  lemma InGraphPart(indexed: bool, hasId: bool, c: Container)
    ensures c in GraphPart(indexed, hasId) <==>
            c in {GraphIndex, GraphIndexSet, GraphId, GraphIdSet, GraphContainer, GraphSet, SetContainer,
                  IndexContainer, IndexSet}
  {
  }

  // ----- the best of each part

  predicate Rising(rank: Container -> int, part: seq<Container>) {
    forall i :: 0 <= i < |part| - 1 ==> RisesAt(rank, part, i)
  }

  predicate RisesAt(rank: Container -> int, part: seq<Container>, i: nat)
    requires i < |part| - 1
  {
    rank(part[i]) <= rank(part[i + 1])
  }

  lemma {:induction false} RisingFromFirst(rank: Container -> int, part: seq<Container>, i: nat)
    requires Rising(rank, part) && i < |part|
    ensures rank(part[0]) <= rank(part[i])
  {
    if i > 0 {
      RisingFromFirst(rank, part, i - 1);
      assert RisesAt(rank, part, i - 1);
    }
  }

  lemma {:induction false} BestOfRising(entry: InverseDefinition, selection: Selection, rank: Container -> int,
      part: seq<Container>)
    requires Rising(rank, part)
    ensures IsBest(entry, selection, rank, part, Select(entry, part, selection))
  {
    if part != [] {
      var rest := part[1..];
      forall i | 0 <= i < |rest| - 1 ensures RisesAt(rank, rest, i) {
        assert RisesAt(rank, part, i + 1);
      }
      BestOfRising(entry, selection, rank, rest);
      BestOfOne(entry, selection, rank, part[0]);
      forall d | d in rest ensures rank(part[0]) <= rank(d) {
        var i :| 0 <= i < |rest| && rest[i] == d;
        RisingFromFirst(rank, part, i + 1);
      }
      assert [part[0]] + rest == part;
      BestJoined(entry, selection, rank, [part[0]], rest);
    }
  }

  lemma GraphPartRisesEarly(value: Indexed, mode11: bool, i: nat)
    requires IsGraph(value) && i < 2
    ensures RisesAt(Rated(value, false, mode11), GraphPart(value.index.Some?, HasId(value)), i)
  {
    if i == 0 {} else { assert i == 1; }
  }

  lemma GraphPartRisesMidway(value: Indexed, mode11: bool, i: nat)
    requires IsGraph(value) && 2 <= i < 5
    ensures RisesAt(Rated(value, false, mode11), GraphPart(value.index.Some?, HasId(value)), i)
  {
    if i == 2 {} else if i == 3 {} else { assert i == 4; }
  }

  lemma GraphPartRisesLate(value: Indexed, mode11: bool, i: nat)
    requires IsGraph(value) && 5 <= i < 8
    ensures RisesAt(Rated(value, false, mode11), GraphPart(value.index.Some?, HasId(value)), i)
  {
    if i == 5 {} else if i == 6 {} else { assert i == 7; }
  }

  lemma GraphPartRises(value: Indexed, mode11: bool)
    requires IsGraph(value)
    ensures Rising(Rated(value, false, mode11), GraphPart(value.index.Some?, HasId(value)))
  {
    var rank, part := Rated(value, false, mode11), GraphPart(value.index.Some?, HasId(value));
    forall i | 0 <= i < |part| - 1 ensures RisesAt(rank, part, i) {
      if i < 2 {
        GraphPartRisesEarly(value, mode11, i);
      } else if i < 5 {
        GraphPartRisesMidway(value, mode11, i);
      } else {
        GraphPartRisesLate(value, mode11, i);
      }
    }
  }

  lemma NodePartRises(value: Indexed, mode11: bool)
    requires value.obj.NodeObject? && !value.obj.isGraph
    ensures Rising(Rated(value, false, mode11), [IdContainer, IdSet, TypeContainer, SetType, SetContainer])
  {
    var rank, part := Rated(value, false, mode11), [IdContainer, IdSet, TypeContainer, SetType, SetContainer];
    forall i | 0 <= i < |part| - 1 ensures RisesAt(rank, part, i) {
      if i == 0 {} else if i == 1 {} else if i == 2 {} else { assert i == 3; }
    }
  }

  lemma ValuePartRises(value: Indexed, mode11: bool)
    requires value.obj.ValueObject?
    ensures Rising(Rated(value, false, mode11),
                   (if IsLanguageString(value) then [LanguageContainer, LanguageSet] else []) + [SetContainer])
  {
    var rank := Rated(value, false, mode11);
    var part := (if IsLanguageString(value) then [LanguageContainer, LanguageSet] else []) + [SetContainer];
    forall i | 0 <= i < |part| - 1 ensures RisesAt(rank, part, i) {
      if i == 0 {} else { assert i == 1; }
    }
  }

  lemma MiddlePartRises(value: Indexed, defaults: LangDir, reverse: bool, mode11: bool)
    ensures HoldsRange(value, reverse, mode11, MiddlePart(value, defaults, reverse), 20, 39)
    ensures Rising(Rated(value, reverse, mode11), MiddlePart(value, defaults, reverse))
  {
    if reverse {
      ReversePartHolds(value, defaults, mode11);
    } else {
      match value.obj
      case ListObject(_) => ListPartHolds(value, defaults, mode11);
      case ValueObject(_) =>
        ValuePartHolds(value, defaults, mode11);
        ValuePartRises(value, mode11);
      case NodeObject(_, isGraph) =>
        if isGraph {
          GraphPartIs(value, defaults);
          GraphPartHolds(value, mode11);
          GraphPartRises(value, mode11);
        } else {
          NodePartHolds(value, defaults, mode11);
          NodePartRises(value, mode11);
        }
    }
  }

  // ----- the best of all

  lemma {:induction false} LastPartBest(entry: InverseDefinition, selection: Selection, value: Indexed,
      defaults: LangDir, reverse: bool, mode11: bool)
    ensures var last := LastPart(Some(Features(value, defaults)), reverse, mode11);
            IsBest(entry, selection, Rated(value, reverse, mode11), last, Select(entry, last, selection))
  {
    var features, rank := Some(Features(value, defaults)), Rated(value, reverse, mode11);
    var index := if mode11 && !(!reverse && HasIndex(features)) then [IndexContainer, IndexSet] else [];
    var language := if mode11 && IsSimple(features, reverse) then [LanguageContainer, LanguageSet] else [];
    BestOfNone(entry, selection, rank);
    BestOfTwo(entry, selection, rank, IndexContainer, IndexSet);
    BestOfTwo(entry, selection, rank, LanguageContainer, LanguageSet);
    BestJoined(entry, selection, rank, index, language);
  }

  lemma LastPartHolds(value: Indexed, defaults: LangDir, reverse: bool, mode11: bool, c: Container)
    ensures c in LastPart(Some(Features(value, defaults)), reverse, mode11) ==> WillDo(value, reverse, mode11, c)
    ensures WillDo(value, reverse, mode11, c) && Ordinal(value, reverse, mode11, c) >= 50 ==>
              c in LastPart(Some(Features(value, defaults)), reverse, mode11)
  {
  }

  /** Nothing is rated between the parts. */
  lemma RankIsInAPart(value: Indexed, reverse: bool, mode11: bool, c: Container)
    requires WillDo(value, reverse, mode11, c)
    ensures var r := Ordinal(value, reverse, mode11, c); 0 <= r <= 1 || 20 <= r <= 39 || r == 40 || r >= 50
    ensures Ordinal(value, reverse, mode11, c) == 40 <==> c == NoContainer
  {
  }

  lemma PartsAre(value: Indexed, defaults: LangDir, reverse: bool, mode11: bool)
    ensures Containers(Some(Features(value, defaults)), reverse, mode11) ==
            FirstPart(value, Some(Features(value, defaults))) + MiddlePart(value, defaults, reverse)
            + [NoContainer] + LastPart(Some(Features(value, defaults)), reverse, mode11)
  {
  }

  /** The preferred containers are those that will do. */
  lemma ContainersWillDo(value: Indexed, defaults: LangDir, reverse: bool, mode11: bool, c: Container)
    ensures c in Containers(Some(Features(value, defaults)), reverse, mode11) <==> WillDo(value, reverse, mode11, c)
  {
    PartsAre(value, defaults, reverse, mode11);
    FirstPartHolds(value, defaults, reverse, mode11);
    MiddlePartRises(value, defaults, reverse, mode11);
    LastPartHolds(value, defaults, reverse, mode11, c);
    if WillDo(value, reverse, mode11, c) { RankIsInAPart(value, reverse, mode11, c); }
  }

  lemma FirstPartBest(entry: InverseDefinition, selection: Selection, value: Indexed, defaults: LangDir,
      reverse: bool, mode11: bool)
    ensures var part := FirstPart(value, Some(Features(value, defaults)));
            IsBest(entry, selection, Rated(value, reverse, mode11), part, Select(entry, part, selection))
  {
    var rank := Rated(value, reverse, mode11);
    BestOfNone(entry, selection, rank);
    BestOfTwo(entry, selection, rank, IndexContainer, IndexSet);
  }

  /** Selection takes the term of the best container that has one. */
  lemma SelectTakesBest(entry: InverseDefinition, selection: Selection, value: Indexed, defaults: LangDir,
      reverse: bool, mode11: bool)
    ensures var containers := Containers(Some(Features(value, defaults)), reverse, mode11);
            IsBest(entry, selection, Rated(value, reverse, mode11), containers, Select(entry, containers, selection))
  {
    var rank := Rated(value, reverse, mode11);
    var first, middle := FirstPart(value, Some(Features(value, defaults))), MiddlePart(value, defaults, reverse);
    var last := LastPart(Some(Features(value, defaults)), reverse, mode11);
    FirstPartHolds(value, defaults, reverse, mode11);
    MiddlePartRises(value, defaults, reverse, mode11);
    FirstPartBest(entry, selection, value, defaults, reverse, mode11);
    BestOfRising(entry, selection, rank, middle);
    BestJoined(entry, selection, rank, first, middle);
    BestOfOne(entry, selection, rank, NoContainer);
    BestJoined(entry, selection, rank, first + middle, [NoContainer]);
    LastPartBest(entry, selection, value, defaults, reverse, mode11);
    forall c, d | c in first + middle + [NoContainer] && d in last
      ensures rank(c) <= rank(d) || d in first + middle + [NoContainer]
    {
      LastPartHolds(value, defaults, reverse, mode11, d);
      RankIsInAPart(value, reverse, mode11, d);
    }
    BestJoined(entry, selection, rank, first + middle + [NoContainer], last);
    PartsAre(value, defaults, reverse, mode11);
  }

  // ----- the terms of a container

  /** What the value asks of a term. */
  datatype Wanted = WantsAny | WantsId(id: Id) | WantsType(ty: TypeMapping) | WantsLang(langDir: LangDir) | WantsPlain

  predicate IsOfType(item: Indexed, ty: TypeMapping) {
    match item.obj
    case ValueObject(LiteralValue(_, Some(d))) => ty == IriType(d)
    case ValueObject(LiteralValue(_, None)) => false
    case ValueObject(JsonValue(_)) => ty == JsonType
    case ValueObject(LangString(_, _, _)) => false
    case _ => ty == IdType
  }

  predicate AllOfType(items: seq<Indexed>, ty: TypeMapping) {
    items != [] && forall i :: 0 <= i < |items| ==> IsOfType(items[i], ty)
  }

  /** The language and direction an item says it has; an untyped literal says it has no language. */
  predicate IsIn(item: Indexed, d: LangDir) {
    match item.obj
    case ValueObject(LangString(_, language, direction)) => d == LangDir(language, direction)
    case ValueObject(LiteralValue(_, None)) => d == NullLang
    case _ => false
  }

  predicate SaysNoLanguage(item: Indexed) {
    match item.obj
    case ValueObject(LangString(_, _, _)) => false
    case ValueObject(LiteralValue(_, None)) => false
    case _ => true
  }

  predicate IsInUpToCase(item: Indexed, d: LangDir) {
    match item.obj
    case ValueObject(LangString(_, language, direction)) => SameLangDir(d, LangDir(language, direction))
    case ValueObject(LiteralValue(_, None)) => d == NullLang
    case _ => false
  }

  /** The first item that says so is in `d`, and so is every value after it. */
  ghost predicate AgreeFromItem(items: seq<Indexed>, k: int, d: LangDir) {
    && 0 <= k < |items| && IsIn(items[k], d)
    && (forall i :: 0 <= i < k ==> SaysNoLanguage(items[i]))
    && (forall i :: k < i < |items| && items[i].obj.ValueObject? ==> IsInUpToCase(items[i], d))
  }

  ghost predicate CommonLanguage(items: seq<Indexed>, d: LangDir) {
    if d == NO_LANG_DIR then forall k, e :: e != NO_LANG_DIR ==> !AgreeFromItem(items, k, e)
    else exists k :: AgreeFromItem(items, k, d)
  }

  ghost predicate Wants(value: Indexed, w: Wanted) {
    match w
    case WantsAny => value.obj == ListObject([])
    case WantsId(id) => value.obj.NodeObject? && value.obj.id == Some(id)
    case WantsType(ty) =>
      (match value.obj
       case NodeObject(id, _) => id.None? && ty == IdType
       case ValueObject(_) => IsOfType(value, ty)
       case ListObject(items) => AllOfType(items, ty))
    case WantsLang(d) =>
      (match value.obj
       case NodeObject(_, _) => false
       case ValueObject(_) => IsLanguageString(value) && IsIn(value, d)
       case ListObject(items) => items != [] && (forall ty :: !AllOfType(items, ty)) && CommonLanguage(items, d))
    case WantsPlain =>
      value.obj.ValueObject? && !IsLanguageString(value)
      && (value.obj.value.LangString? || (value.obj.value.LiteralValue? && value.obj.value.ty.None?))
  }

  function TypeTerm(c: InverseContainer, ty: TypeMapping): Option<Key> {
    if ty in c.types then Some(c.types[ty]) else None
  }

  function LangTerm(c: InverseContainer, d: LangDir): Option<Key> {
    if FoldCase(d) in c.langs then Some(c.langs[FoldCase(d)]) else None
  }

  /** A term for any type or language comes last, one for none before it, and the value's own first. */
  function AnyTypeTerm(c: InverseContainer): Option<Key> {
    First(TypeTerm(c, NoneType), c.anyType)
  }

  function AnyLangTerm(c: InverseContainer): Option<Key> {
    First(LangTerm(c, NO_LANG_DIR), c.anyLang)
  }

  /** An identifier that is a term's own meaning goes to a `@vocab` term first, any other to an `@id` term. */
  function IdTerm(c: InverseContainer, vocab: bool): Option<Key> {
    if vocab then First(TypeTerm(c, VocabType), First(TypeTerm(c, IdType), AnyTypeTerm(c)))
    else First(TypeTerm(c, IdType), First(TypeTerm(c, VocabType), AnyTypeTerm(c)))
  }

  /** After everything else, a term of the value's direction alone. */
  predicate HasBoth(d: LangDir) {
    d.LangDir? && d.language.Some? && d.direction.Some?
  }

  function Preferred(c: InverseContainer, reverse: bool, w: Wanted, vocab: bool): Option<Key> {
    if w.WantsAny? then Some(c.none)
    else if reverse then First(c.reverse, if w.WantsId? then IdTerm(c, vocab) else AnyTypeTerm(c))
    else
      match w
      case WantsId(_) => IdTerm(c, vocab)
      case WantsType(ty) => First(TypeTerm(c, ty), AnyTypeTerm(c))
      case WantsLang(d) =>
        First(First(LangTerm(c, d), AnyLangTerm(c)),
              if HasBoth(d) then LangTerm(c, LangDir(None, d.direction)) else None)
      case _ => First(LangTerm(c, NullLang), AnyLangTerm(c))
  }

  lemma OneMoreType(c: InverseContainer, a: TypeSelection, rest: seq<TypeSelection>)
    ensures FirstType(c, [a] + rest) == First(SelectType(c, a), FirstType(c, rest))
  {
    assert ([a] + rest)[1..] == rest;
  }

  lemma ThreeTypes(c: InverseContainer, a: TypeSelection, b: TypeSelection, d: TypeSelection)
    ensures FirstType(c, [a, b, d]) == First(SelectType(c, a), First(SelectType(c, b), SelectType(c, d)))
  {
    OneMoreType(c, d, []);
    OneMoreType(c, b, [d]);
    OneMoreType(c, a, [b, d]);
    assert [a] + [b, d] == [a, b, d] && [b] + [d] == [b, d] && [d] + [] == [d];
  }

  lemma OneMoreLang(c: InverseContainer, a: LangSelection, rest: seq<LangSelection>)
    ensures FirstLang(c, [a] + rest) == First(SelectLang(c, a), FirstLang(c, rest))
  {
    assert ([a] + rest)[1..] == rest;
  }

  lemma ThreeLangs(c: InverseContainer, a: LangSelection, b: LangSelection, d: LangSelection, rest: seq<LangSelection>)
    ensures FirstLang(c, [a, b, d] + rest)
         == First(First(SelectLang(c, a), First(SelectLang(c, b), SelectLang(c, d))), FirstLang(c, rest))
  {
    var one := [d] + rest;
    var two := [b] + one;
    OneMoreLang(c, d, rest);
    OneMoreLang(c, b, one);
    OneMoreLang(c, a, two);
    assert [a, b, d] + rest == [a] + two;
  }

  lemma OneLang(c: InverseContainer, a: LangSelection)
    ensures FirstLang(c, [a]) == SelectLang(c, a) && FirstLang(c, []) == None
  {
    OneMoreLang(c, a, []);
    assert [a] + [] == [a];
  }

  /** `vocab` is what the identifier of the value, when there is one to ask about, turns out to be. */
  predicate VocabIs<E>(fixed: Fixed<E>, w: Wanted, vocab: bool) {
    w.WantsId? ==> fixed.aliased(w.id) == Ok(vocab)
  }

  lemma IdPreferences(c: InverseContainer, vocab: bool)
    ensures var two := if vocab then [OfType(VocabType), OfType(IdType)] else [OfType(IdType), OfType(VocabType)];
            && FirstType(c, [] + two + [OfType(NoneType), AnyType]) == IdTerm(c, vocab)
            && FirstType(c, [Reverse] + two + [OfType(NoneType), AnyType]) == First(c.reverse, IdTerm(c, vocab))
  {
    var two := if vocab then [OfType(VocabType), OfType(IdType)] else [OfType(IdType), OfType(VocabType)];
    var tail := [two[1], OfType(NoneType), AnyType];
    assert [] + two + [OfType(NoneType), AnyType] == [two[0]] + tail;
    assert [Reverse] + two + [OfType(NoneType), AnyType] == [Reverse] + ([two[0]] + tail);
    ThreeTypes(c, two[1], OfType(NoneType), AnyType);
    OneMoreType(c, two[0], tail);
    OneMoreType(c, Reverse, [two[0]] + tail);
  }

  lemma ReversePreferences(c: InverseContainer)
    ensures FirstType(c, [Reverse] + [Reverse, OfType(NoneType), AnyType]) == First(c.reverse, AnyTypeTerm(c))
  {
    ThreeTypes(c, Reverse, OfType(NoneType), AnyType);
    OneMoreType(c, Reverse, [Reverse, OfType(NoneType), AnyType]);
  }

  lemma TypePreferences(c: InverseContainer, ty: TypeMapping)
    ensures FirstType(c, [] + [OfType(ty), OfType(NoneType), AnyType]) == First(TypeTerm(c, ty), AnyTypeTerm(c))
  {
    ThreeTypes(c, OfType(ty), OfType(NoneType), AnyType);
    assert [] + [OfType(ty), OfType(NoneType), AnyType] == [OfType(ty), OfType(NoneType), AnyType];
  }

  lemma TypesInContainer<E>(fixed: Fixed<E>, features: Option<ValueFeatures>, c: InverseContainer,
      w: Wanted, vocab: bool)
    requires VocabIs(fixed, w, vocab) && (fixed.reverse || w.WantsId? || w.WantsType?) && !w.WantsAny?
    requires features.Some? && !(features.value.shape.ListShape? && features.value.shape.isEmpty)
    requires ValueId(features) == if w.WantsId? then Some(w.id) else None
    requires TypeLangOf(features, fixed.reverse) == if fixed.reverse then TypeValue(Reverse)
             else if w.WantsId? then TypeValue(OfType(IdType)) else TypeValue(OfType(w.ty))
    ensures SelectionFor(features, fixed.reverse, fixed.aliased).Ok?
    ensures SelectIn(c, SelectionFor(features, fixed.reverse, fixed.aliased).value)
         == Preferred(c, fixed.reverse, w, vocab)
  {
    if w.WantsId? {
      IdPreferences(c, vocab);
    } else if fixed.reverse {
      ReversePreferences(c);
    } else {
      TypePreferences(c, w.ty);
    }
  }

  lemma {:induction false} LangsInContainer<E>(fixed: Fixed<E>, features: Option<ValueFeatures>, c: InverseContainer,
      w: Wanted)
    requires !fixed.reverse && (w.WantsLang? || w.WantsPlain?)
    requires features.Some? && !(features.value.shape.ListShape? && features.value.shape.isEmpty)
    requires TypeLangOf(features, false) == if w.WantsLang? then LangValue(OfLang(w.langDir)) else NeitherTypeLang
    ensures SelectionFor(features, false, fixed.aliased).Ok?
    ensures SelectIn(c, SelectionFor(features, false, fixed.aliased).value) == Preferred(c, false, w, false)
  {
    var none := OfLang(NO_LANG_DIR);
    if w.WantsLang? {
      var d := w.langDir;
      var more := if HasBoth(d) then [OfLang(LangDir(None, d.direction))] else [];
      ThreeLangs(c, OfLang(d), none, AnyLang, more);
      if more != [] { OneLang(c, more[0]); } else { OneLang(c, none); }
    } else {
      ThreeLangs(c, OfLang(NullLang), none, AnyLang, []);
      OneLang(c, none);
      assert [OfLang(NullLang), none, AnyLang] + [] == [OfLang(NullLang), none, AnyLang];
    }
  }

  // ----- what a value asks is what its features say

  lemma {:induction false} FeaturesAt(items: seq<Indexed>, i: nat)
    requires i < |items|
    ensures AllFeatures(items)[i] == ItemFeatures(items[i])
  {
    if i > 0 { FeaturesAt(items[1..], i - 1); }
  }

  lemma CommonTypeOf(items: seq<Indexed>, ty: TypeMapping)
    ensures CommonType(AllFeatures(items)) == Some(Some(ty)) <==> AllOfType(items, ty)
    ensures items != [] ==> CommonType(AllFeatures(items)).Some?
  {
    CommonTypeIsCommon(AllFeatures(items), ty);
    forall i | 0 <= i < |items| ensures ItemType(AllFeatures(items)[i]) == Some(ty) <==> IsOfType(items[i], ty) {
      FeaturesAt(items, i);
    }
  }

  lemma AgreesFromItem(items: seq<Indexed>, k: int, d: LangDir)
    ensures AgreeFrom(AllFeatures(items), k, d) <==> AgreeFromItem(items, k, d)
  {
    var features := AllFeatures(items);
    forall i | 0 <= i < |items|
      ensures ItemLangDir(features[i]) == Some(d) <==> IsIn(items[i], d)
      ensures ItemLangDir(features[i]).None? <==> SaysNoLanguage(items[i])
      ensures features[i].Some? <==> items[i].obj.ValueObject?
      ensures features[i].Some? ==>
          (SameOptionalLangDir(Some(d), ItemLangDir(features[i])) <==> IsInUpToCase(items[i], d))
    {
      FeaturesAt(items, i);
    }
  }

  lemma CommonLanguageOf(items: seq<Indexed>, d: LangDir)
    requires items != [] && CommonLanguage(items, d)
    ensures d == if CommonLangDir(AllFeatures(items)).Some? then CommonLangDir(AllFeatures(items)).value
                 else NO_LANG_DIR
  {
    var features := AllFeatures(items);
    if d != NO_LANG_DIR {
      var k :| AgreeFromItem(items, k, d);
      AgreesFromItem(items, k, d);
      CommonLangDirAgrees(features, d);
      assert AgreeOn(features, d);
    } else if CommonLangDir(features).Some? && CommonLangDir(features).value != NO_LANG_DIR {
      var e := CommonLangDir(features).value;
      CommonLangDirAgrees(features, e);
      var k :| AgreeFrom(features, k, e);
      AgreesFromItem(items, k, e);
    }
  }

  lemma {:induction false} ListAsks(value: Indexed, defaults: LangDir, w: Wanted)
    requires value.obj.ListObject? && Wants(value, w)
    ensures var shape := Features(value, defaults).shape;
            && shape.ListShape? && (shape.isEmpty <==> w.WantsAny?)
            && (w.WantsType? ==> shape.commonType == Some(w.ty))
            && (w.WantsLang? ==> shape.commonType == None && shape.commonLangDir == w.langDir)
            && (w.WantsAny? || w.WantsType? || w.WantsLang?)
  {
    var items := value.obj.items;
    assert |AllFeatures(items)| == |items|;
    if w.WantsType? {
      CommonTypeOf(items, w.ty);
    } else if w.WantsLang? {
      var common := CommonType(AllFeatures(items));
      CommonTypeOf(items, IdType);
      if common.value.Some? { CommonTypeOf(items, common.value.value); }
      CommonLanguageOf(items, w.langDir);
    }
  }

  /** In each container, the term preferred for what the value asks is the one selected. */
  lemma InContainer<E>(fixed: Fixed<E>, value: Indexed, w: Wanted, vocab: bool, c: InverseContainer)
    requires Wants(value, w) && VocabIs(fixed, w, vocab)
    ensures var selection := SelectionFor(Some(Features(value, fixed.defaults)), fixed.reverse, fixed.aliased);
            selection.Ok? && SelectIn(c, selection.value) == Preferred(c, fixed.reverse, w, vocab)
  {
    var features := Some(Features(value, fixed.defaults));
    if value.obj.ListObject? { ListAsks(value, fixed.defaults, w); }
    if w.WantsAny? {
    } else if fixed.reverse || w.WantsId? || w.WantsType? {
      TypesInContainer(fixed, features, c, w, vocab);
    } else {
      LangsInContainer(fixed, features, c, w);
    }
  }

  // ----- the term selected

  /** Container `c` will do for the value, and `term` is what it has for it. */
  ghost predicate Offers<E>(fixed: Fixed<E>, value: Indexed, w: Wanted, vocab: bool, c: Container, term: Key) {
    && c in fixed.entry && WillDo(value, fixed.reverse, fixed.mode11, c)
    && Preferred(fixed.entry[c], fixed.reverse, w, vocab) == Some(term)
  }

  /** No better container has a term. */
  ghost predicate OffersBest<E>(fixed: Fixed<E>, value: Indexed, w: Wanted, vocab: bool, c: Container, term: Key) {
    && Offers(fixed, value, w, vocab, c, term)
    && forall d, other :: Offers(fixed, value, w, vocab, d, other) ==>
         Ordinal(value, fixed.reverse, fixed.mode11, c) <= Ordinal(value, fixed.reverse, fixed.mode11, d)
  }

  /** No two containers are equally good. */
  lemma RanksApart(value: Indexed, reverse: bool, mode11: bool, c: Container, d: Container)
    requires WillDo(value, reverse, mode11, c) && WillDo(value, reverse, mode11, d)
    requires Ordinal(value, reverse, mode11, c) == Ordinal(value, reverse, mode11, d)
    ensures c == d
  {
  }

  function SelectedTerm<E>(fixed: Fixed<E>, value: Indexed): Result<Option<Key>, E> {
    CompactFor(fixed, Features(value, fixed.defaults))
  }

  /** What containers offer is what the lists of containers and preferences make of them. */
  ghost predicate ListsOffers<E>(fixed: Fixed<E>, value: Indexed, w: Wanted, vocab: bool, containers: seq<Container>,
      selection: Selection)
  {
    forall c, term :: Offers(fixed, value, w, vocab, c, term) <==>
      c in containers && Offer(fixed.entry, selection, c) == Some(term)
  }

  lemma OffersAreListed<E>(fixed: Fixed<E>, value: Indexed, w: Wanted, vocab: bool, selection: Selection)
    requires Wants(value, w) && VocabIs(fixed, w, vocab)
    requires SelectionFor(Some(Features(value, fixed.defaults)), fixed.reverse, fixed.aliased) == Ok(selection)
    ensures ListsOffers(fixed, value, w, vocab,
        Containers(Some(Features(value, fixed.defaults)), fixed.reverse, fixed.mode11), selection)
  {
    var containers := Containers(Some(Features(value, fixed.defaults)), fixed.reverse, fixed.mode11);
    forall c: Container, term: Key
      ensures Offers(fixed, value, w, vocab, c, term) <==>
              c in containers && Offer(fixed.entry, selection, c) == Some(term)
    {
      ContainersWillDo(value, fixed.defaults, fixed.reverse, fixed.mode11, c);
      if c in fixed.entry { InContainer(fixed, value, w, vocab, fixed.entry[c]); }
    }
  }

  lemma SelectionIsOk<E>(fixed: Fixed<E>, value: Indexed, w: Wanted, vocab: bool)
    requires Wants(value, w) && VocabIs(fixed, w, vocab)
    ensures SelectionFor(Some(Features(value, fixed.defaults)), fixed.reverse, fixed.aliased).Ok?
  {
    InContainer(fixed, value, w, vocab, InverseContainer("", None, None, map[], None, map[]));
  }

  lemma BestIsOffered<E>(fixed: Fixed<E>, value: Indexed, w: Wanted, vocab: bool, containers: seq<Container>,
      selection: Selection, r: Option<Key>) returns (c: Container)
    requires ListsOffers(fixed, value, w, vocab, containers, selection)
    requires IsBest(fixed.entry, selection, Rated(value, fixed.reverse, fixed.mode11), containers, r)
    ensures r.Some? ==> OffersBest(fixed, value, w, vocab, c, r.value)
    ensures r.None? ==> forall d, term :: !Offers(fixed, value, w, vocab, d, term)
  {
    c := NoContainer;
    var rank := Rated(value, fixed.reverse, fixed.mode11);
    if r.Some? {
      c :| c in containers && Offer(fixed.entry, selection, c) == r
           && NoneBetter(fixed.entry, selection, rank, containers, c);
      assert Offers(fixed, value, w, vocab, c, r.value);
      forall d, other | Offers(fixed, value, w, vocab, d, other) ensures rank(c) <= rank(d) {
        assert d in containers && Offer(fixed.entry, selection, d) == Some(other);
      }
    }
  }

  lemma BestIsSelected<E>(fixed: Fixed<E>, value: Indexed, w: Wanted, vocab: bool)
    returns (c: Container, term: Option<Key>)
    requires Wants(value, w) && VocabIs(fixed, w, vocab)
    ensures term.Some? ==> OffersBest(fixed, value, w, vocab, c, term.value)
    ensures term.None? ==> forall d, other :: !Offers(fixed, value, w, vocab, d, other)
    ensures SelectedTerm(fixed, value) == if term.Some? then Ok(Some(term.value)) else fixed.fallback
  {
    var features := Some(Features(value, fixed.defaults));
    var containers := Containers(features, fixed.reverse, fixed.mode11);
    SelectionIsOk(fixed, value, w, vocab);
    var selection := SelectionFor(features, fixed.reverse, fixed.aliased).value;
    OffersAreListed(fixed, value, w, vocab, selection);
    SelectTakesBest(fixed.entry, selection, value, fixed.defaults, fixed.reverse, fixed.mode11);
    term := Select(fixed.entry, containers, selection);
    c := BestIsOffered(fixed, value, w, vocab, containers, selection, term);
  }

  /**
   A term is selected exactly when it is the one preferred in the best container that has any; the fallback is
   taken exactly when none has.
   */
  lemma SelectedExactlyWhen<E>(fixed: Fixed<E>, value: Indexed, w: Wanted, vocab: bool)
    requires Wants(value, w) && VocabIs(fixed, w, vocab)
    ensures forall c, term ::
              OffersBest(fixed, value, w, vocab, c, term) ==> SelectedTerm(fixed, value) == Ok(Some(term))
    ensures (forall c, term :: !Offers(fixed, value, w, vocab, c, term)) ==>
              SelectedTerm(fixed, value) == fixed.fallback
    ensures (exists c, term :: OffersBest(fixed, value, w, vocab, c, term))
        || forall c, term :: !Offers(fixed, value, w, vocab, c, term)
  {
    var best, selected := BestIsSelected(fixed, value, w, vocab);
    forall c, term | OffersBest(fixed, value, w, vocab, c, term) ensures SelectedTerm(fixed, value) == Ok(Some(term)) {
      assert Offers(fixed, value, w, vocab, c, term);
      assert selected.Some?;
      assert Offers(fixed, value, w, vocab, best, selected.value);
      RanksApart(value, fixed.reverse, fixed.mode11, c, best);
    }
  }

  /** When it cannot be told whether an identifier is a term's own meaning, that is the error. */
  lemma AliasFails<E>(fixed: Fixed<E>, value: Indexed, id: Id)
    requires Wants(value, WantsId(id)) && fixed.aliased(id).Err?
    ensures SelectedTerm(fixed, value) == Err(fixed.aliased(id).error)
  {
  }

  lemma FirstAgreeing(items: seq<Indexed>) returns (d: LangDir)
    ensures CommonLanguage(items, d)
  {
    d := NO_LANG_DIR;
    if k, e :| e != NO_LANG_DIR && AgreeFromItem(items, k, e) { d := e; }
  }

  /** Every value asks for something. */
  lemma EveryValueWants(value: Indexed) returns (w: Wanted)
    ensures Wants(value, w)
  {
    match value.obj
    case NodeObject(id, _) => w := if id.Some? then WantsId(id.value) else WantsType(IdType);
    case ListObject(items) =>
      if items == [] {
        w := WantsAny;
      } else if ty :| AllOfType(items, ty) {
        w := WantsType(ty);
      } else {
        var d := FirstAgreeing(items);
        w := WantsLang(d);
      }
    case ValueObject(LiteralValue(_, ty)) => w := if ty.Some? then WantsType(IriType(ty.value)) else WantsPlain;
    case ValueObject(JsonValue(_)) => w := WantsType(JsonType);
    case ValueObject(LangString(_, language, direction)) =>
      w := if IsLanguageString(value) then WantsLang(LangDir(language, direction)) else WantsPlain;
  }

  // ----- laws

  /** Of the containers the inverse definition has that will do, `c` is the best. */
  ghost predicate IsBestThere<E>(fixed: Fixed<E>, value: Indexed, c: Container) {
    && c in fixed.entry && WillDo(value, fixed.reverse, fixed.mode11, c)
    && forall d :: d in fixed.entry && WillDo(value, fixed.reverse, fixed.mode11, d) ==>
         Ordinal(value, fixed.reverse, fixed.mode11, c) <= Ordinal(value, fixed.reverse, fixed.mode11, d)
  }

  lemma BestThereIsSelected<E>(fixed: Fixed<E>, value: Indexed, w: Wanted, vocab: bool, c: Container)
    requires Wants(value, w) && VocabIs(fixed, w, vocab) && IsBestThere(fixed, value, c)
    ensures Preferred(fixed.entry[c], fixed.reverse, w, vocab).Some? ==>
              SelectedTerm(fixed, value) == Ok(Preferred(fixed.entry[c], fixed.reverse, w, vocab))
  {
    SelectedExactlyWhen(fixed, value, w, vocab);
    var preferred := Preferred(fixed.entry[c], fixed.reverse, w, vocab);
    if preferred.Some? { assert OffersBest(fixed, value, w, vocab, c, preferred.value); }
  }

  /**
   Of a container with a `@vocab` term and an `@id` term, the first is selected for a node exactly when its
   identifier compacts to a term that means it.
   */
  lemma VocabWinsExactlyWhen<E>(fixed: Fixed<E>, value: Indexed, id: Id, vocab: bool, c: Container)
    requires value.obj.NodeObject? && value.obj.id == Some(id) && !fixed.reverse
    requires fixed.aliased(id) == Ok(vocab) && IsBestThere(fixed, value, c)
    requires VocabType in fixed.entry[c].types && IdType in fixed.entry[c].types
    requires fixed.entry[c].types[VocabType] != fixed.entry[c].types[IdType]
    ensures SelectedTerm(fixed, value) == Ok(Some(fixed.entry[c].types[VocabType])) <==> vocab
    ensures SelectedTerm(fixed, value) == Ok(Some(fixed.entry[c].types[IdType])) <==> !vocab
  {
    BestThereIsSelected(fixed, value, WantsId(id), vocab, c);
  }

  /** A term of the value's own type wins over one for none, and that over one for any. */
  lemma OwnTypeWins<E>(fixed: Fixed<E>, value: Indexed, ty: TypeMapping, c: Container)
    requires Wants(value, WantsType(ty)) && !fixed.reverse && IsBestThere(fixed, value, c)
    ensures var types := fixed.entry[c].types;
            && (ty in types ==> SelectedTerm(fixed, value) == Ok(Some(types[ty])))
            && (ty !in types && NoneType in types ==> SelectedTerm(fixed, value) == Ok(Some(types[NoneType])))
            && (ty !in types && NoneType !in types && fixed.entry[c].anyType.Some? ==>
                  SelectedTerm(fixed, value) == Ok(fixed.entry[c].anyType))
  {
    BestThereIsSelected(fixed, value, WantsType(ty), false, c);
  }

  /** A term of the value's own language and direction wins over one for none, and that over one for any. */
  lemma OwnLanguageWins<E>(fixed: Fixed<E>, value: Indexed, d: LangDir, c: Container)
    requires Wants(value, WantsLang(d)) && !fixed.reverse && IsBestThere(fixed, value, c)
    ensures var langs := fixed.entry[c].langs;
            && (FoldCase(d) in langs ==> SelectedTerm(fixed, value) == Ok(Some(langs[FoldCase(d)])))
            && (FoldCase(d) !in langs && NO_LANG_DIR in langs ==>
                  SelectedTerm(fixed, value) == Ok(Some(langs[NO_LANG_DIR])))
            && (FoldCase(d) !in langs && NO_LANG_DIR !in langs && fixed.entry[c].anyLang.Some? ==>
                  SelectedTerm(fixed, value) == Ok(fixed.entry[c].anyLang))
  {
    BestThereIsSelected(fixed, value, WantsLang(d), false, c);
  }

  /** Where each sort of value goes before anywhere else. */
  predicate IsFirstChoice(value: Indexed, reverse: bool, c: Container) {
    || (value.index.Some? && !IsGraph(value) && c == IndexContainer)
    || (!reverse && IsLanguageString(value) && c == LanguageContainer)
    || (!reverse && value.obj.ListObject? && value.index.None? && c == ListContainer)
    || (!reverse && value.obj.NodeObject? && !value.obj.isGraph && value.index.None? && c == IdContainer)
    || (!reverse && IsGraph(value) && value.index.Some? && c == GraphIndex)
    || (!reverse && IsGraph(value) && value.index.None? && value.obj.id.Some? && c == GraphId)
    || (!reverse && IsGraph(value) && value.index.None? && value.obj.id.None? && c == GraphContainer)
  }

  lemma NothingBetter(value: Indexed, reverse: bool, mode11: bool, c: Container, d: Container)
    requires IsFirstChoice(value, reverse, c) && WillDo(value, reverse, mode11, d)
    ensures WillDo(value, reverse, mode11, c)
    ensures Ordinal(value, reverse, mode11, c) <= Ordinal(value, reverse, mode11, d)
  {
  }

  lemma FirstChoiceIsBest<E>(fixed: Fixed<E>, value: Indexed, c: Container)
    requires IsFirstChoice(value, fixed.reverse, c) && c in fixed.entry
    ensures IsBestThere(fixed, value, c)
  {
    NothingBetter(value, fixed.reverse, fixed.mode11, c, NoContainer);
    forall d | d in fixed.entry && WillDo(value, fixed.reverse, fixed.mode11, d)
      ensures Ordinal(value, fixed.reverse, fixed.mode11, c) <= Ordinal(value, fixed.reverse, fixed.mode11, d)
    {
      NothingBetter(value, fixed.reverse, fixed.mode11, c, d);
    }
  }

  /**
   A language string goes to a language map before a set or no container, a list without an index to a list,
   anything with an index to an index map, a graph to one by its index or its identifier.
   */
  lemma FirstChoiceWins<E>(fixed: Fixed<E>, value: Indexed, w: Wanted, vocab: bool, c: Container)
    requires Wants(value, w) && VocabIs(fixed, w, vocab) && IsFirstChoice(value, fixed.reverse, c) && c in fixed.entry
    ensures Preferred(fixed.entry[c], fixed.reverse, w, vocab).Some? ==>
              SelectedTerm(fixed, value) == Ok(Preferred(fixed.entry[c], fixed.reverse, w, vocab))
  {
    FirstChoiceIsBest(fixed, value, c);
    BestThereIsSelected(fixed, value, w, vocab, c);
  }

  /** A value without type, index and language takes a language map only after all else, and only in 1.1. */
  lemma PlainValueGoesThereLast<E>(fixed: Fixed<E>, value: Indexed, c: Container, d: Container, term: Key, other: Key)
    requires IsSimpleValue(value) && !fixed.reverse && c in {LanguageContainer, LanguageSet}
    requires OffersBest(fixed, value, WantsPlain, false, c, term)
    ensures fixed.mode11
    ensures d in {SetContainer, NoContainer, IndexContainer, IndexSet} ==>
              !Offers(fixed, value, WantsPlain, false, d, other)
  {
  }
}
