/**
 Writing an IRI that no term was selected for (jsonld-compaction/src/iri.rs:43-72, 553-701):
 as a suffix of the vocabulary, as a compact IRI, relative to the base IRI, or in full.

 Text is the bytes of its UTF-8 form, because candidates are compared by bytes.
 */
module CompactIriFallback {
  import opened Wrappers

  type Byte = b: nat | b < 256
  type Text = seq<Byte>

  const COLON: Byte := 58
  const SLASH: Byte := 47

  // ----- the order of candidates

  predicate Precedes(a: Text, b: Text) {
    if a == [] then b != []
    else b != [] && (a[0] < b[0] || (a[0] == b[0] && Precedes(a[1..], b[1..])))
  }

  /** Shorter first, then least by bytes. */
  predicate Beats(a: Text, b: Text) {
    |a| < |b| || (|a| == |b| && Precedes(a, b))
  }

  lemma {:induction false} PrecedesIsOrder(a: Text, b: Text, c: Text)
    ensures !Precedes(a, a)
    ensures a != b ==> Precedes(a, b) || Precedes(b, a)
    ensures !(Precedes(a, b) && Precedes(b, a))
    ensures Precedes(a, b) && Precedes(b, c) ==> Precedes(a, c)
  {
    if a != [] {
      PrecedesIsOrder(a[1..], if b != [] then b[1..] else [], if c != [] then c[1..] else []);
      if b != [] && a[0] == b[0] && a != b {
        assert a == [a[0]] + a[1..] && b == [b[0]] + b[1..];
        assert a[1..] != b[1..];
      }
    }
  }

  /** Beating is a strict total order, so a least candidate is the only one. */
  lemma BeatsIsOrder(a: Text, b: Text, c: Text)
    ensures !Beats(a, a)
    ensures a != b ==> Beats(a, b) || Beats(b, a)
    ensures !(Beats(a, b) && Beats(b, a))
    ensures Beats(a, b) && Beats(b, c) ==> Beats(a, c)
  {
    PrecedesIsOrder(a, b, c);
  }

  lemma {:induction false} DifferenceDecides(a: Text, b: Text, i: nat)
    requires i < |a| && i < |b| && a[..i] == b[..i] && a[i] < b[i]
    ensures Precedes(a, b)
  {
    if i > 0 {
      assert a[0] == a[..i][0] == b[..i][0] == b[0];
      assert a[1..][..i - 1] == a[..i][1..] && b[1..][..i - 1] == b[..i][1..];
      DifferenceDecides(a[1..], b[1..], i - 1);
    }
  }

  lemma {:induction false} FirstDifference(a: Text, b: Text) returns (i: nat)
    requires |a| == |b| && Precedes(a, b)
    ensures i < |a| && a[..i] == b[..i] && a[i] < b[i]
  {
    if a[0] < b[0] {
      i := 0;
    } else {
      var k := FirstDifference(a[1..], b[1..]);
      i := k + 1;
      assert a[..i] == [a[0]] + a[1..][..k] && b[..i] == [b[0]] + b[1..][..k];
    }
  }

  /** The shorter text wins, and of two as long the one with the smaller byte where they first differ. */
  lemma {:induction false} BeatsExactlyWhen(a: Text, b: Text)
    ensures Beats(a, b) <==>
            || |a| < |b|
            || (|a| == |b| && exists i :: 0 <= i < |a| && a[..i] == b[..i] && a[i] < b[i])
  {
    if |a| == |b| && Precedes(a, b) {
      var i := FirstDifference(a, b);
    }
    if i :| |a| == |b| && 0 <= i < |a| && a[..i] == b[..i] && a[i] < b[i] {
      DifferenceDecides(a, b, i);
    }
  }

  function Candidate(key: Text, suffix: Text): Text {
    key + [COLON] + suffix
  }

  /** The comparison walks the candidate without building it. */
  method CandidateBeats(key: Text, suffix: Text, candidateLen: nat, current: Text) returns (r: bool)
    requires candidateLen == |key| + 1 + |suffix|
    ensures r == Beats(Candidate(key, suffix), current)
  {
    if candidateLen < |current| { return true; }
    if candidateLen > |current| { return false; }
    ghost var candidate := Candidate(key, suffix);
    var i := 0;
    while i < candidateLen
      invariant 0 <= i <= candidateLen
      invariant Precedes(candidate, current) == Precedes(candidate[i..], current[i..])
    {
      var byte := if i < |key| then key[i] else if i == |key| then COLON else suffix[i - |key| - 1];
      assert byte == candidate[i];
      if byte < current[i] { return true; }
      if byte > current[i] { return false; }
      assert candidate[i..][1..] == candidate[i + 1..] && current[i..][1..] == current[i + 1..];
      i := i + 1;
    }
    r := false;
  }

  // ----- contexts

  datatype Term = NullTerm | IriTerm(iri: Text) | BlankTerm(label_: Text) | KeywordTerm(keyword: Text)
  {
    function AsText(): Text {
      match this
      case NullTerm => []
      case IriTerm(iri) => iri
      case BlankTerm(label_) => label_
      case KeywordTerm(keyword) => keyword
    }
  }

  datatype PrefixTerm = PrefixTerm(key: Text, mapping: Term)

  /** What compaction reads of a context: a term is defined when it has an entry, maybe without an IRI mapping. */
  datatype Context = Context(vocabulary: Option<Term>, prefixTerms: seq<PrefixTerm>,
                             definitions: map<Text, Option<Term>>, baseIri: Option<Text>)

  /** The rest of `text` when it begins with `start`. */
  function StripPrefix(text: Text, start: Text): (r: Option<Text>)
    ensures r.Some? <==> start <= text
    ensures r.Some? ==> start + r.value == text
  {
    if start <= text then Some(text[|start|..]) else None
  }

  /** A candidate that is a term already is fine only when that term means `var` and no value was passed. */
  predicate DefinitionOk(context: Context, candidate: Text, variable: Term, noValue: bool) {
    candidate in context.definitions ==> context.definitions[candidate] == Some(variable) && noValue
  }

  /** The compact IRI a prefix term offers for `variable`, if it may be used. */
  function Offer(context: Context, prefix: PrefixTerm, variable: Term, noValue: bool): (r: Option<Text>) {
    var suffix := StripPrefix(variable.AsText(), prefix.mapping.AsText());
    if suffix.None? || suffix.value == [] then None
    else if DefinitionOk(context, Candidate(prefix.key, suffix.value), variable, noValue)
        then Some(Candidate(prefix.key, suffix.value))
    else None
  }

  ghost predicate Offered(context: Context, prefixes: seq<PrefixTerm>, variable: Term, noValue: bool, text: Text) {
    exists i :: 0 <= i < |prefixes| && Offer(context, prefixes[i], variable, noValue) == Some(text)
  }

  /** The least of all compact IRIs on offer. */
  ghost predicate IsBest(context: Context, prefixes: seq<PrefixTerm>, variable: Term, noValue: bool,
      best: Option<Text>) {
    match best
    case None => forall text :: !Offered(context, prefixes, variable, noValue, text)
    case Some(b) =>
      && Offered(context, prefixes, variable, noValue, b)
      && forall text :: Offered(context, prefixes, variable, noValue, text) ==> text == b || Beats(b, text)
  }

  /** Whatever order the prefix terms come in, or how often, the best compact IRI is the same. */
  lemma BestInAnyOrder(context: Context, p: seq<PrefixTerm>, q: seq<PrefixTerm>, variable: Term, noValue: bool,
      b: Option<Text>, c: Option<Text>)
    requires forall t :: t in p <==> t in q
    requires IsBest(context, p, variable, noValue, b) && IsBest(context, q, variable, noValue, c)
    ensures b == c
  {
    OfferedMoves(context, p, q, variable, noValue);
    OfferedMoves(context, q, p, variable, noValue);
    if b.Some? && c.Some? {
      BeatsIsOrder(b.value, c.value, b.value);
    }
  }

  lemma OfferedMoves(context: Context, p: seq<PrefixTerm>, q: seq<PrefixTerm>, variable: Term, noValue: bool)
    requires forall t :: t in p ==> t in q
    ensures forall text :: Offered(context, p, variable, noValue, text) ==> Offered(context, q, variable, noValue, text)
  {
    forall text | Offered(context, p, variable, noValue, text) ensures Offered(context, q, variable, noValue, text) {
      var i :| 0 <= i < |p| && Offer(context, p[i], variable, noValue) == Some(text);
      assert p[i] in q;
      var j :| 0 <= j < |q| && q[j] == p[i];
    }
  }

  lemma BestSkipped(context: Context, prefixes: seq<PrefixTerm>, variable: Term, noValue: bool, best: Option<Text>,
      next: PrefixTerm)
    requires IsBest(context, prefixes, variable, noValue, best)
    requires var offer := Offer(context, next, variable, noValue);
             offer.None? || (best.Some? && !Beats(offer.value, best.value))
    ensures IsBest(context, prefixes + [next], variable, noValue, best)
  {
    OfferedMore(context, prefixes, variable, noValue, next);
    var offer := Offer(context, next, variable, noValue);
    if offer.Some? { BeatsIsOrder(offer.value, best.value, best.value); }
  }

  lemma BestReplaced(context: Context, prefixes: seq<PrefixTerm>, variable: Term, noValue: bool, best: Option<Text>,
      next: PrefixTerm)
    requires IsBest(context, prefixes, variable, noValue, best)
    requires var offer := Offer(context, next, variable, noValue);
             offer.Some? && (best.Some? ==> Beats(offer.value, best.value))
    ensures IsBest(context, prefixes + [next], variable, noValue, Offer(context, next, variable, noValue))
  {
    OfferedMore(context, prefixes, variable, noValue, next);
    var b := Offer(context, next, variable, noValue).value;
    forall text | Offered(context, prefixes, variable, noValue, text) ensures Beats(b, text) {
      BeatsIsOrder(b, best.value, text);
    }
  }

  lemma OfferedMore(context: Context, prefixes: seq<PrefixTerm>, variable: Term, noValue: bool, next: PrefixTerm)
    ensures forall text :: Offered(context, prefixes + [next], variable, noValue, text)
                      <==> (Offered(context, prefixes, variable, noValue, text)
                            || Offer(context, next, variable, noValue) == Some(text))
  {
    var more := prefixes + [next];
    forall text ensures Offered(context, more, variable, noValue, text)
                   <==> (Offered(context, prefixes, variable, noValue, text)
                         || Offer(context, next, variable, noValue) == Some(text))
    {
      if Offered(context, prefixes, variable, noValue, text) {
        var i :| 0 <= i < |prefixes| && Offer(context, prefixes[i], variable, noValue) == Some(text);
        assert more[i] == prefixes[i];
      }
      if Offer(context, next, variable, noValue) == Some(text) {
        assert more[|prefixes|] == next;
      }
    }
  }

  /** What a prefix term's offer leaves of the best so far. */
  function Better(best: Option<Text>, offer: Option<Text>): Option<Text> {
    if offer.Some? && (best.None? || Beats(offer.value, best.value)) then offer else best
  }

  /** One turn of the loop: the candidate is compared before it is built and looked up. */
  method Consider(context: Context, prefix: PrefixTerm, variable: Term, noValue: bool, best: Option<Text>)
      returns (r: Option<Text>)
    ensures r == Better(best, Offer(context, prefix, variable, noValue))
  {
    var suffix := StripPrefix(variable.AsText(), prefix.mapping.AsText());
    if suffix.None? || suffix.value == [] { return best; }
    if best.Some? {
      var beats := CandidateBeats(prefix.key, suffix.value, |prefix.key| + 1 + |suffix.value|, best.value);
      if !beats { return best; }
    }
    var candidate := Candidate(prefix.key, suffix.value);
    r := if DefinitionOk(context, candidate, variable, noValue) then Some(candidate) else best;
  }

  /** The loop over prefix terms finds the least of all compact IRIs on offer. */
  method CompactWithPrefix(context: Context, variable: Term, noValue: bool) returns (best: Option<Text>)
    ensures IsBest(context, context.prefixTerms, variable, noValue, best)
  {
    best := None;
    for i := 0 to |context.prefixTerms|
      invariant IsBest(context, context.prefixTerms[..i], variable, noValue, best)
    {
      BestMore(context, i, variable, noValue, best);
      best := Consider(context, context.prefixTerms[i], variable, noValue, best);
    }
    assert context.prefixTerms[..|context.prefixTerms|] == context.prefixTerms;
  }

  lemma BestMore(context: Context, i: nat, variable: Term, noValue: bool, best: Option<Text>)
    requires i < |context.prefixTerms| && IsBest(context, context.prefixTerms[..i], variable, noValue, best)
    ensures IsBest(context, context.prefixTerms[..i + 1], variable, noValue,
        Better(best, Offer(context, context.prefixTerms[i], variable, noValue)))
  {
    var next := context.prefixTerms[i];
    assert context.prefixTerms[..i + 1] == context.prefixTerms[..i] + [next];
    var offer := Offer(context, next, variable, noValue);
    if offer.Some? && (best.None? || Beats(offer.value, best.value)) {
      BestReplaced(context, context.prefixTerms[..i], variable, noValue, best, next);
    } else {
      BestSkipped(context, context.prefixTerms[..i], variable, noValue, best, next);
    }
  }

  lemma {:induction false} BestExists(context: Context, i: nat, variable: Term, noValue: bool)
      returns (best: Option<Text>)
    requires i <= |context.prefixTerms|
    ensures IsBest(context, context.prefixTerms[..i], variable, noValue, best)
  {
    if i == 0 {
      best := None;
      assert context.prefixTerms[..0] == [];
    } else {
      var k := i - 1;
      var before := BestExists(context, k, variable, noValue);
      BestMore(context, k, variable, noValue, before);
      best := Better(before, Offer(context, context.prefixTerms[k], variable, noValue));
      assert k + 1 == i;
    }
  }

  // ----- the whole fallback

  datatype IriConfusedWithPrefix = IriConfusedWithPrefix

  /** Up to the first colon. */
  function Scheme(iri: Text): Text {
    if iri == [] || iri[0] == COLON then [] else [iri[0]] + Scheme(iri[1..])
  }

  /** After the last slash. */
  function LastSegment(iri: Text): Text
    decreases |iri|
  {
    if iri == [] || iri[|iri| - 1] == SLASH then [] else LastSegment(iri[..|iri| - 1]) + [iri[|iri| - 1]]
  }

  /** What is written, given the best compact IRI there is. */
  function Written(context: Context, variable: Term, vocab: bool, best: Option<Text>,
                   relativeTo: (Text, Text) -> Text, disambiguate: Text -> Text): Result<Text, IriConfusedWithPrefix>
  {
    if vocab && VocabSuffix(context, variable).Some? then Ok(VocabSuffix(context, variable).value)
    else if best.Some? then Ok(best.value)
    else if variable.IriTerm? && Scheme(variable.iri) in context.definitions then Err(IriConfusedWithPrefix)
    else if !vocab && context.baseIri.Some? && variable.IriTerm? then
      Ok(disambiguate(RelativeOrSegment(relativeTo(variable.iri, context.baseIri.value), context.baseIri.value)))
    else Ok(variable.AsText())
  }

  method CompactFallback(context: Context, variable: Term, noValue: bool, vocab: bool,
                         relativeTo: (Text, Text) -> Text, disambiguate: Text -> Text)
      returns (r: Result<Text, IriConfusedWithPrefix>)
    ensures exists best ::
      && IsBest(context, context.prefixTerms, variable, noValue, best)
      && r == Written(context, variable, vocab, best, relativeTo, disambiguate)
  {
    if vocab {
      var suffix := VocabSuffix(context, variable);
      if suffix.Some? {
        ghost var unused := BestExists(context, |context.prefixTerms|, variable, noValue);
        assert context.prefixTerms[..|context.prefixTerms|] == context.prefixTerms;
        return Ok(suffix.value);
      }
    }
    var best := CompactWithPrefix(context, variable, noValue);
    if best.Some? { return Ok(best.value); }
    if variable.IriTerm? && Scheme(variable.iri) in context.definitions {
      return Err(IriConfusedWithPrefix);
    }
    if !vocab && context.baseIri.Some? && variable.IriTerm? {
      return Ok(disambiguate(RelativeOrSegment(relativeTo(variable.iri, context.baseIri.value),
          context.baseIri.value)));
    }
    r := Ok(variable.AsText());
  }

  /** Where the vocabulary applies, what is written stands for `variable` and is no term that means something else. */
  lemma WrittenReadsBack(context: Context, variable: Term, noValue: bool, best: Option<Text>,
                         relativeTo: (Text, Text) -> Text, disambiguate: Text -> Text)
    requires IsBest(context, context.prefixTerms, variable, noValue, best)
    requires Written(context, variable, true, best, relativeTo, disambiguate).Ok?
    ensures var text := Written(context, variable, true, best, relativeTo, disambiguate).value;
      || (context.vocabulary.Some? && context.vocabulary.value.AsText() + text == variable.AsText()
          && text !in context.definitions)
      || (exists p, suffix ::
            p in context.prefixTerms && text == Candidate(p.key, suffix)
            && p.mapping.AsText() + suffix == variable.AsText()
            && (text in context.definitions ==> context.definitions[text] == Some(variable)))
      || (text == variable.AsText() && (variable.IriTerm? ==> Scheme(variable.iri) !in context.definitions))
  {
    if best.Some? {
      var p, suffix := BestReadsBack(context, variable, noValue, best.value);
    }
  }

  /** A non-empty suffix of the vocabulary that is no term. */
  function VocabSuffix(context: Context, variable: Term): (r: Option<Text>)
    ensures r.Some? ==> context.vocabulary.Some? && context.vocabulary.value.AsText() + r.value == variable.AsText()
    ensures r.Some? ==> r.value != [] && r.value !in context.definitions
  {
    if context.vocabulary.None? then None
    else
      var suffix := StripPrefix(variable.AsText(), context.vocabulary.value.AsText());
      if suffix.Some? && suffix.value != [] && suffix.value !in context.definitions then suffix else None
  }

  /** The base itself is written as its last segment, or as "./" when that is empty. */
  function RelativeOrSegment(relative: Text, base: Text): (r: Text)
    ensures r != []
  {
    if relative != [] then relative
    else if LastSegment(base) != [] then LastSegment(base)
    else [46, SLASH]
  }

  /** The best compact IRI gives back what it stands for: its prefix's mapping followed by its suffix. */
  lemma BestReadsBack(context: Context, variable: Term, noValue: bool, best: Text)
      returns (prefix: PrefixTerm, suffix: Text)
    requires IsBest(context, context.prefixTerms, variable, noValue, Some(best))
    ensures prefix in context.prefixTerms && best == Candidate(prefix.key, suffix)
    ensures prefix.mapping.AsText() + suffix == variable.AsText() && suffix != []
    ensures best in context.definitions ==> context.definitions[best] == Some(variable)
  {
    var i :| 0 <= i < |context.prefixTerms| && Offer(context, context.prefixTerms[i], variable, noValue) == Some(best);
    prefix := context.prefixTerms[i];
    suffix := StripPrefix(variable.AsText(), prefix.mapping.AsText()).value;
  }

  // ----- what is preferred

  /** `text` completes the vocabulary to what `variable` stands for, and is no term. */
  predicate CompletesVocabulary(context: Context, variable: Term, text: Text) {
    && context.vocabulary.Some? && context.vocabulary.value.AsText() + text == variable.AsText()
    && text != [] && text !in context.definitions
  }

  /** `variable` is an IRI that starts like a compact IRI of a term, or is the key of one. */
  ghost predicate LooksCompact(context: Context, variable: Term) {
    variable.IriTerm?
    && exists key :: key in context.definitions && COLON !in key
                     && (variable.iri == key || key + [COLON] <= variable.iri)
  }

  lemma {:induction false} SchemeIs(iri: Text, key: Text)
    ensures Scheme(iri) == key <==> COLON !in key && (iri == key || key + [COLON] <= iri)
  {
    if iri != [] && iri[0] != COLON {
      SchemeIs(iri[1..], if key == [] then [] else key[1..]);
      if key != [] { assert key == [key[0]] + key[1..] && iri == [iri[0]] + iri[1..]; }
    }
  }

  lemma {:induction false} LastSegmentIs(directory: Text, segment: Text)
    requires SLASH !in segment && (directory == [] || directory[|directory| - 1] == SLASH)
    ensures LastSegment(directory + segment) == segment
  {
    if segment != [] {
      var init := segment[..|segment| - 1];
      LastSegmentIs(directory, init);
      assert (directory + segment)[..|directory + segment| - 1] == directory + init;
    } else {
      assert directory + segment == directory;
    }
  }

  /** The base itself is written as what comes after its last slash, or as "./" when that is nothing. */
  lemma {:induction false} BaseIsWritten(context: Context, variable: Term, relativeTo: (Text, Text) -> Text,
      disambiguate: Text -> Text, directory: Text, segment: Text)
    requires SLASH !in segment && (directory == [] || directory[|directory| - 1] == SLASH)
    requires context.baseIri == Some(directory + segment) && variable.IriTerm?
    requires relativeTo(variable.iri, directory + segment) == [] && !LooksCompact(context, variable)
    ensures Written(context, variable, false, None, relativeTo, disambiguate)
         == Ok(disambiguate(if segment == [] then [46, SLASH] else segment))
  {
    LastSegmentIs(directory, segment);
    SchemeIs(variable.iri, Scheme(variable.iri));
  }

  /** A suffix of the vocabulary is preferred to a compact IRI, and either to the IRI, which must not look like one. */
  lemma {:induction false} WrittenByPreference(context: Context, variable: Term, vocab: bool, best: Option<Text>,
      relativeTo: (Text, Text) -> Text, disambiguate: Text -> Text, text: Text)
    ensures var r := Written(context, variable, vocab, best, relativeTo, disambiguate);
      && (vocab && CompletesVocabulary(context, variable, text) ==> r == Ok(text))
      && ((!vocab || forall t :: !CompletesVocabulary(context, variable, t)) ==>
            if best.Some? then r == Ok(best.value)
            else if LooksCompact(context, variable) then r == Err(IriConfusedWithPrefix)
            else if vocab || context.baseIri.None? || !variable.IriTerm? then r == Ok(variable.AsText())
            else r.Ok? && (relativeTo(variable.iri, context.baseIri.value) != [] ==>
                   r == Ok(disambiguate(relativeTo(variable.iri, context.baseIri.value)))))
  {
    if variable.IriTerm? {
      SchemeIs(variable.iri, Scheme(variable.iri));
      forall key | key in context.definitions && COLON !in key
                   && (variable.iri == key || key + [COLON] <= variable.iri)
        ensures Scheme(variable.iri) == key
      {
        SchemeIs(variable.iri, key);
      }
    }
    if t :| CompletesVocabulary(context, variable, t) {
      assert VocabSuffix(context, variable) == Some(t);
    } else if VocabSuffix(context, variable).Some? {
      assert CompletesVocabulary(context, variable, VocabSuffix(context, variable).value);
    }
  }
}
