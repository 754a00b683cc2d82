/**
 Expansion of a term under a processed context (jsonld-context-processing/src/algorithm/iri.rs:338-436),
 in the shape whose results a context memoises: a string, the vocabulary kept, not relative to the document.
 */
module TermExpansion {
  import opened Wrappers
  import opened SharedContexts

  /** What counts as an IRI, an IRI reference and a blank node identifier. */
  datatype Grammar = Grammar(isIri: string -> bool, isIriRef: string -> bool, isBlank: string -> bool)

  datatype Id = IriId(iri: string) | BlankId(blank: string) | InvalidId(text: string)

  datatype Term = NullTerm | KeywordTerm(keyword: string) | IdTerm(id: Id)

  datatype TermDefinition = TermDefinition(value: Option<Term>, prefix: bool)

  /** The part of a context that expansion looks at. */
  datatype Meaning = Meaning(definitions: map<string, TermDefinition>, vocabulary: Option<Term>, mode: Mode)

  function TermText(term: Term): string {
    match term
    case NullTerm => ""
    case KeywordTerm(keyword) => keyword
    case IdTerm(IriId(iri)) => iri
    case IdTerm(BlankId(blank)) => blank
    case IdTerm(InvalidId(text)) => text
  }

  predicate IsAlpha(c: char) {
    'A' <= c <= 'Z' || 'a' <= c <= 'z'
  }

  predicate IsKeywordLike(s: string) {
    |s| > 1 && s[0] == '@' && forall i :: 0 < i < |s| ==> IsAlpha(s[i])
  }

  /** Where the first colon is, or the length when there is none. */
  function Colon(s: string): (k: nat)
    ensures k <= |s| && (k < |s| ==> s[k] == ':') && ':' !in s[..k]
  {
    if s == [] || s[0] == ':' then 0
    else
      assert s[..1 + Colon(s[1..])] == [s[0]] + s[1..][..Colon(s[1..])];
      1 + Colon(s[1..])
  }

  lemma {:induction false} ColonAt(prefix: string, suffix: string)
    requires ':' !in prefix
    ensures Colon(prefix + ":" + suffix) == |prefix|
  {
    var s := prefix + ":" + suffix;
    if prefix == "" {
      assert s[0] == ':';
    } else {
      assert s[0] == prefix[0] && s[1..] == prefix[1..] + ":" + suffix;
      ColonAt(prefix[1..], suffix);
    }
  }

  predicate IsCompactIri(grammar: Grammar, s: string) {
    && Colon(s) < |s|
    && s[..Colon(s)] != "_"
    && !("//" <= s[Colon(s) + 1..])
    && grammar.isIriRef(s)
  }

  function IdOfText(grammar: Grammar, s: string): Id {
    if grammar.isIri(s) then IriId(s) else if grammar.isBlank(s) then BlankId(s) else InvalidId(s)
  }

  /** `s` has a colon after its start and is no blank node identifier, nor what looks like one. */
  predicate MayHavePrefix(grammar: Grammar, s: string) {
    0 < Colon(s) < |s| && !grammar.isBlank(s) && s != "_:"
  }

  /** The definition that is used as a prefix, if the mode and its flag allow it. */
  function PrefixMapping(grammar: Grammar, m: Meaning, s: string): Option<Term> {
    if IsCompactIri(grammar, s) && s[..Colon(s)] in m.definitions
       && (m.definitions[s[..Colon(s)]].prefix || m.mode == JsonLd10)
    then m.definitions[s[..Colon(s)]].value else None
  }

  function Prefixed(grammar: Grammar, mapping: Term, s: string): Term
    requires Colon(s) < |s|
  {
    IdTerm(IdOfText(grammar, TermText(mapping) + s[Colon(s) + 1..]))
  }

  /** Without term definitions: an absolute IRI, relative to the vocabulary, or as it is. */
  function Undefined(grammar: Grammar, m: Meaning, s: string): Term {
    if 0 < Colon(s) < |s| && grammar.isIri(s) then IdTerm(IriId(s))
    else match m.vocabulary
      case Some(IdTerm(id)) => IdTerm(IdOfText(grammar, TermText(IdTerm(id)) + s))
      case _ => IdTerm(InvalidId(s))
  }

  function ExpandTerm(grammar: Grammar, m: Meaning, s: string): Term {
    if IsKeywordLike(s) then NullTerm
    else if s in m.definitions then (match m.definitions[s].value case Some(term) => term case None => NullTerm)
    else if 0 < Colon(s) < |s| && grammar.isBlank(s) then IdTerm(BlankId(s))
    else if s == "_:" then IdTerm(InvalidId(s))
    else if MayHavePrefix(grammar, s) && PrefixMapping(grammar, m, s).Some?
    then Prefixed(grammar, PrefixMapping(grammar, m, s).value, s)
    else Undefined(grammar, m, s)
  }

  /**
   Processing mode 1.0 takes a definition for a prefix that 1.1 does not, for want of the flag, and
   this is not what `s` expands to anyway.
   */
  predicate ModeMatters(grammar: Grammar, m: Meaning, s: string) {
    && !IsKeywordLike(s) && s !in m.definitions
    && MayHavePrefix(grammar, s) && IsCompactIri(grammar, s)
    && s[..Colon(s)] in m.definitions
    && !m.definitions[s[..Colon(s)]].prefix
    && m.definitions[s[..Colon(s)]].value.Some?
    && Prefixed(grammar, m.definitions[s[..Colon(s)]].value.value, s) != Undefined(grammar, m, s)
  }

  lemma ModeMattersExactlyWhen(grammar: Grammar, m: Meaning, mode: Mode, s: string)
    ensures ExpandTerm(grammar, m.(mode := mode), s) != ExpandTerm(grammar, m, s)
      <==> mode != m.mode && ModeMatters(grammar, m, s)
  {
    assert Undefined(grammar, m.(mode := mode), s) == Undefined(grammar, m, s);
  }

  lemma {:induction false} NoColon(s: string)
    ensures Colon(s) == |s| <==> ':' !in s
  {
    if s != [] { NoColon(s[1..]); }
  }

  /** A term without a colon that is not defined is relative to the vocabulary, if there is one. */
  lemma UndefinedTerm(grammar: Grammar, m: Meaning, s: string)
    requires ':' !in s && !IsKeywordLike(s) && s !in m.definitions
    ensures match m.vocabulary
            case Some(IdTerm(id)) =>
              ExpandTerm(grammar, m, s) == IdTerm(IdOfText(grammar, TermText(IdTerm(id)) + s))
            case _ => ExpandTerm(grammar, m, s) == IdTerm(InvalidId(s))
  {
    NoColon(s);
  }

  /** A compact IRI stands for what its prefix is defined as, followed by its suffix. */
  lemma CompactIri(grammar: Grammar, m: Meaning, prefix: string, suffix: string)
    requires ':' !in prefix && prefix != "" && prefix != "_" && !("//" <= suffix)
    requires var s := prefix + ":" + suffix;
             !IsKeywordLike(s) && s !in m.definitions && !grammar.isBlank(s) && grammar.isIriRef(s)
    requires prefix in m.definitions && m.definitions[prefix].value.Some?
    requires m.definitions[prefix].prefix || m.mode == JsonLd10
    ensures ExpandTerm(grammar, m, prefix + ":" + suffix)
         == IdTerm(IdOfText(grammar, TermText(m.definitions[prefix].value.value) + suffix))
  {
    var s := prefix + ":" + suffix;
    ColonAt(prefix, suffix);
    assert s[..|prefix|] == prefix && s[|prefix| + 1..] == suffix;
    assert s[|prefix|] == ':' && s != "_:";
  }

  /** An absolute IRI whose scheme is no usable prefix is itself, and so is a blank node identifier. */
  lemma AbsoluteIri(grammar: Grammar, m: Meaning, prefix: string, suffix: string)
    requires ':' !in prefix && prefix != ""
    requires var s := prefix + ":" + suffix; !IsKeywordLike(s) && s !in m.definitions
    ensures var s := prefix + ":" + suffix;
      && (grammar.isBlank(s) ==> ExpandTerm(grammar, m, s) == IdTerm(BlankId(s)))
      && (!grammar.isBlank(s) && s != "_:" && grammar.isIri(s)
          && (prefix !in m.definitions || "//" <= suffix || m.definitions[prefix].value.None?
              || !(m.definitions[prefix].prefix || m.mode == JsonLd10))
          ==> ExpandTerm(grammar, m, s) == IdTerm(IriId(s)))
  {
    var s := prefix + ":" + suffix;
    ColonAt(prefix, suffix);
    assert s[..|prefix|] == prefix && s[|prefix| + 1..] == suffix;
  }
}
