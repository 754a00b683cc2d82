/**
 Resolving the terms of a vocabulary, depth first with a memo and cycle detection
 (jsonld-vocab/src/resolve.rs:262-373).
 */
module Resolve {
  import opened Wrappers

  type Span = nat

  datatype TermTarget =
    | Absolute(iri: string)
    | Prefixed(prefix: string, suffix: string)
    | LocalReference(target: string)

  datatype TermDefinition = TermDefinition(target: TermTarget, span: Span)

  type Terms = map<string, TermDefinition>
  type Prefixes = map<string, string>

  datatype Error =
    | Cycle(span: Span, path: seq<string>)
    | Unresolved(span: Span, compact: string)
    | UnknownPrefix(span: Span, prefix: string, compact: string)
    | Within(span: Span, target: string, compact: string, inner: Error)

  // ----- the definition without memo, stack or visited set

  predicate Refers(terms: Terms, compact: string, target: string) {
    compact in terms && terms[compact].target == LocalReference(target)
  }

  /** What a term's own definition gives, when it is no local reference. */
  function Landing(terms: Terms, prefixes: Prefixes, compact: string): Option<string> {
    if compact !in terms then None
    else
      match terms[compact].target
      case Absolute(iri) => Some(iri)
      case Prefixed(prefix, suffix) => if prefix in prefixes then Some(prefixes[prefix] + suffix) else None
      case LocalReference(_) => None
  }

  /** An absolute IRI is itself; a prefixed one is what the prefix stands for, followed by the suffix. */
  lemma LandsExactlyWhen(terms: Terms, prefixes: Prefixes, compact: string, value: string)
    ensures Landing(terms, prefixes, compact) == Some(value) <==>
            && compact in terms
            && (|| terms[compact].target == Absolute(value)
                || exists prefix, suffix :: terms[compact].target == Prefixed(prefix, suffix) && prefix in prefixes
                     && prefixes[prefix] <= value && value[|prefixes[prefix]|..] == suffix)
  {
    if compact in terms && terms[compact].target.Prefixed? {
      var prefix, suffix := terms[compact].target.prefix, terms[compact].target.suffix;
      if prefix in prefixes && prefixes[prefix] <= value {
        assert value == prefixes[prefix] + value[|prefixes[prefix]|..];
      }
    }
  }

  /** After `n` local references, the chain from `compact` is at a term that gives `value`. */
  predicate LandsIn(terms: Terms, prefixes: Prefixes, compact: string, n: nat, value: string)
    decreases n
  {
    if n == 0 then Landing(terms, prefixes, compact) == Some(value)
    else
      compact in terms && terms[compact].target.LocalReference?
      && LandsIn(terms, prefixes, terms[compact].target.target, n - 1, value)
  }

  ghost predicate Lands(terms: Terms, prefixes: Prefixes, compact: string, value: string) {
    exists n: nat :: LandsIn(terms, prefixes, compact, n, value)
  }

  lemma {:induction false} LandsOnce(terms: Terms, prefixes: Prefixes, compact: string, n: nat, v: string, m: nat,
      w: string)
    requires LandsIn(terms, prefixes, compact, n, v) && LandsIn(terms, prefixes, compact, m, w)
    ensures n == m && v == w
    decreases n
  {
    if n > 0 && m > 0 {
      LandsOnce(terms, prefixes, terms[compact].target.target, n - 1, v, m - 1, w);
    }
  }

  /** A chain has at most one value. */
  lemma LandsUnique(terms: Terms, prefixes: Prefixes, compact: string, v: string, w: string)
    requires Lands(terms, prefixes, compact, v) && Lands(terms, prefixes, compact, w)
    ensures v == w
  {
    var n: nat :| LandsIn(terms, prefixes, compact, n, v);
    var m: nat :| LandsIn(terms, prefixes, compact, m, w);
    LandsOnce(terms, prefixes, compact, n, v, m, w);
  }

  lemma LandsThrough(terms: Terms, prefixes: Prefixes, compact: string, target: string, value: string)
    requires Refers(terms, compact, target)
    ensures Lands(terms, prefixes, compact, value) <==> Lands(terms, prefixes, target, value)
  {
    if Lands(terms, prefixes, compact, value) {
      var n: nat :| LandsIn(terms, prefixes, compact, n, value);
      assert LandsIn(terms, prefixes, target, n - 1, value);
    }
    if Lands(terms, prefixes, target, value) {
      var n: nat :| LandsIn(terms, prefixes, target, n, value);
      assert LandsIn(terms, prefixes, compact, n + 1, value);
    }
  }

  lemma LandsHere(terms: Terms, prefixes: Prefixes, compact: string, value: string)
    requires compact !in terms || !terms[compact].target.LocalReference?
    ensures Lands(terms, prefixes, compact, value) <==> Landing(terms, prefixes, compact) == Some(value)
  {
    if Landing(terms, prefixes, compact) == Some(value) {
      assert LandsIn(terms, prefixes, compact, 0, value);
    }
  }

  // ----- chains

  ghost predicate IsChain(terms: Terms, path: seq<string>) {
    forall i :: 0 <= i < |path| - 1 ==> Refers(terms, path[i], path[i + 1])
  }

  lemma {:induction false} LandsAlong(terms: Terms, prefixes: Prefixes, path: seq<string>, i: nat, j: nat, n: nat,
      value: string)
    requires IsChain(terms, path) && i <= j < |path| && LandsIn(terms, prefixes, path[i], n, value)
    ensures n >= j - i && LandsIn(terms, prefixes, path[j], n - (j - i), value)
    decreases j - i
  {
    if i < j {
      assert Refers(terms, path[i], path[i + 1]);
      LandsAlong(terms, prefixes, path, i + 1, j, n - 1, value);
    }
  }

  /** A chain that comes back to a term never lands. */
  lemma CycleNeverLands(terms: Terms, prefixes: Prefixes, path: seq<string>, i: nat, j: nat, value: string)
    requires IsChain(terms, path) && i < j < |path| && path[i] == path[j]
    ensures !Lands(terms, prefixes, path[i], value)
  {
    if Lands(terms, prefixes, path[i], value) {
      var n: nat :| LandsIn(terms, prefixes, path[i], n, value);
      LandsAlong(terms, prefixes, path, i, j, n, value);
      LandsOnce(terms, prefixes, path[i], n, value, n - (j - i), value);
    }
  }

  /** What an error says is so. */
  ghost predicate Explains(terms: Terms, prefixes: Prefixes, error: Error, compact: string)
    decreases error
  {
    match error
    case Unresolved(_, c) => c == compact && compact !in terms
    case UnknownPrefix(_, prefix, c) =>
      c == compact && compact in terms && terms[compact].target.Prefixed? && terms[compact].target.prefix == prefix
          && prefix !in prefixes
    case Cycle(_, path) =>
      path != [] && IsChain(terms, path) && path[|path| - 1] == compact && compact in path[..|path| - 1]
    case Within(_, target, c, inner) =>
      c == compact && Refers(terms, compact, target) && Explains(terms, prefixes, inner, target)
  }

  /** An error is always a reason not to land. */
  lemma {:induction false} ExplainedNeverLands(terms: Terms, prefixes: Prefixes, error: Error, compact: string,
      value: string)
    requires Explains(terms, prefixes, error, compact)
    ensures !Lands(terms, prefixes, compact, value)
    decreases error
  {
    match error
    case Unresolved(_, _) => LandsHere(terms, prefixes, compact, value);
    case UnknownPrefix(_, _, _) => LandsHere(terms, prefixes, compact, value);
    case Cycle(_, path) =>
      var i :| 0 <= i < |path| - 1 && path[i] == compact;
      CycleNeverLands(terms, prefixes, path, i, |path| - 1, value);
    case Within(_, target, _, inner) =>
      LandsThrough(terms, prefixes, compact, target, value);
      ExplainedNeverLands(terms, prefixes, inner, target, value);
  }

  function Elements(s: seq<string>): set<string> {
    set x | x in s
  }

  ghost predicate CacheRight(cache: map<string, string>, terms: Terms, prefixes: Prefixes) {
    forall k :: k in cache ==> Lands(terms, prefixes, k, cache[k])
  }

  class Resolver {
    const terms: Terms
    const prefixes: Prefixes
    var cache: map<string, string>
    var stack: seq<string>
    var visiting: set<string>

    constructor (terms: Terms, prefixes: Prefixes)
      ensures this.terms == terms && this.prefixes == prefixes
      ensures cache == map[] && stack == [] && visiting == {}
    {
      this.terms, this.prefixes := terms, prefixes;
      cache, stack, visiting := map[], [], {};
    }

    /** The terms on the way to `compact` are a chain of references, and the ones being visited. */
    ghost predicate OnTheWayTo(compact: string)
      reads this
    {
      IsChain(terms, stack + [compact]) && visiting == Elements(stack)
    }

    /** The value at the end of the chain, or an error that explains why there is none. */
    method ResolveTerm(compact: string, referrerSpan: Span) returns (r: Result<string, Error>)
      requires OnTheWayTo(compact) && CacheRight(cache, terms, prefixes)
      modifies this
      ensures CacheRight(cache, terms, prefixes)
      ensures r.Ok? ==> Lands(terms, prefixes, compact, r.value)
      ensures r.Ok? ==> stack == old(stack) && visiting == old(visiting)
      ensures r.Err? ==> Explains(terms, prefixes, r.error, compact)
      decreases |terms.Keys - visiting|
    {
      if compact in cache {
        return Ok(cache[compact]);
      }
      var span := if compact in terms then terms[compact].span else referrerSpan;
      if compact in visiting {
        CycleExplained(terms, prefixes, span, stack, compact);
        stack := stack + [compact];
        return Err(Cycle(span, stack));
      }
      visiting := visiting + {compact};
      stack := stack + [compact];

      if compact !in terms {
        return Err(Unresolved(referrerSpan, compact));
      }
      var expanded;
      match terms[compact].target {
        case Absolute(iri) =>
          expanded := iri;
          LandsHere(terms, prefixes, compact, expanded);
        case Prefixed(prefix, suffix) =>
          if prefix !in prefixes {
            return Err(UnknownPrefix(span, prefix, compact));
          }
          expanded := prefixes[prefix] + suffix;
          LandsHere(terms, prefixes, compact, expanded);
        case LocalReference(target) =>
          VisitOne(terms.Keys, old(visiting), compact);
          ChainExtended(terms, old(stack), compact, target);
          var inner := ResolveTerm(target, span);
          if inner.Err? {
            return Err(Within(span, target, compact, inner.error));
          }
          expanded := inner.value;
          LandsThrough(terms, prefixes, compact, target, expanded);
      }

      stack := stack[..|stack| - 1];
      visiting := visiting - {compact};
      CacheKept(cache, terms, prefixes, compact, expanded);
      cache := cache[compact := expanded];
      r := Ok(expanded);
    }

    /** From a fresh stack, resolution succeeds exactly when the chain lands. */
    method Resolve(compact: string, span: Span) returns (r: Result<string, Error>)
      requires CacheRight(cache, terms, prefixes)
      modifies this
      ensures CacheRight(cache, terms, prefixes)
      ensures r.Ok? <==> exists v :: Lands(terms, prefixes, compact, v)
      ensures r.Ok? ==> Lands(terms, prefixes, compact, r.value)
      ensures r.Err? ==> Explains(terms, prefixes, r.error, compact)
    {
      stack, visiting := [], {};
      r := ResolveTerm(compact, span);
      if r.Err? {
        forall v ensures !Lands(terms, prefixes, compact, v) {
          ExplainedNeverLands(terms, prefixes, r.error, compact, v);
        }
      }
    }
  }

  // ----- partitioning

  datatype ResolvedTerm = ResolvedTerm(compact: string, expanded: string, constName: string)

  datatype PartitionError =
    | Resolution(error: Error)
    | BadName(compact: string)
    | Collision(previous: string, compact: string, constName: string)

  /**
   Nothing stands in the way of `compact`: it resolves, it has a name, and no other term of its kind has
   that name.
   */
  ghost predicate Fits(terms: Terms, prefixes: Prefixes, name: string -> Option<string>, isClass: string -> bool,
      compact: string) {
    && (exists v :: Lands(terms, prefixes, compact, v))
    && name(compact).Some?
    && forall other :: other in terms && other != compact && isClass(other) == isClass(compact)
        ==> name(other) != name(compact)
  }

  ghost predicate AllTermsFit(terms: Terms, prefixes: Prefixes, name: string -> Option<string>,
      isClass: string -> bool) {
    forall compact :: compact in terms ==> Fits(terms, prefixes, name, isClass, compact)
  }

  lemma Unresolvable(terms: Terms, prefixes: Prefixes, name: string -> Option<string>, isClass: string -> bool,
      compact: string)
    requires compact in terms && (name(compact).None? || forall v :: !Lands(terms, prefixes, compact, v))
    ensures !AllTermsFit(terms, prefixes, name, isClass)
  {
    assert !Fits(terms, prefixes, name, isClass, compact);
  }

  /** The terms of one kind, resolved and named, in the order they come in. */
  ghost predicate Partition(terms: Terms, prefixes: Prefixes, name: string -> Option<string>, isClass: string -> bool,
      kind: bool,
                            order: seq<string>, result: seq<ResolvedTerm>)
  {
    if order == [] then result == []
    else
      var last := order[|order| - 1];
      if isClass(last) != kind then Partition(terms, prefixes, name, isClass, kind, order[..|order| - 1], result)
      else
        && result != []
        && var r := result[|result| - 1];
           && r.compact == last && Lands(terms, prefixes, last, r.expanded) && name(last) == Some(r.constName)
           && Partition(terms, prefixes, name, isClass, kind, order[..|order| - 1], result[..|result| - 1])
  }

  /** The result is fixed by the terms and the order alone: what the memo holds makes no difference. */
  lemma {:induction false} PartitionUnique(terms: Terms, prefixes: Prefixes, name: string -> Option<string>,
      isClass: string -> bool, kind: bool,
                                           order: seq<string>, r: seq<ResolvedTerm>, s: seq<ResolvedTerm>)
    requires Partition(terms, prefixes, name, isClass, kind, order, r)
        && Partition(terms, prefixes, name, isClass, kind, order, s)
    ensures r == s
  {
    if order != [] {
      var last, rest := order[|order| - 1], order[..|order| - 1];
      if isClass(last) != kind {
        PartitionUnique(terms, prefixes, name, isClass, kind, rest, r, s);
      } else {
        PartitionUnique(terms, prefixes, name, isClass, kind, rest, r[..|r| - 1], s[..|s| - 1]);
        LandsUnique(terms, prefixes, last, r[|r| - 1].expanded, s[|s| - 1].expanded);
        assert r == r[..|r| - 1] + [r[|r| - 1]] && s == s[..|s| - 1] + [s[|s| - 1]];
      }
    }
  }

  /** The names taken by the terms of one kind so far. */
  ghost predicate Taken(names: map<string, string>, name: string -> Option<string>, isClass: string -> bool, kind: bool,
      done: set<string>) {
    && (forall n :: n in names ==> names[n] in done && isClass(names[n]) == kind && name(names[n]) == Some(n))
    && (forall c ::
          c in done && isClass(c) == kind && name(c).Some? ==> name(c).value in names && names[name(c).value] == c)
  }

  lemma TakenMore(names: map<string, string>, name: string -> Option<string>, isClass: string -> bool, kind: bool,
      done: set<string>, compact: string)
    requires Taken(names, name, isClass, kind, done) && name(compact).Some? && name(compact).value !in names
    ensures isClass(compact) == kind ==> Taken(names[name(compact).value := compact], name, isClass, kind,
        done + {compact})
    ensures isClass(compact) != kind ==> Taken(names, name, isClass, kind, done + {compact})
  {
  }

  lemma TakenOther(names: map<string, string>, name: string -> Option<string>, isClass: string -> bool, kind: bool,
      done: set<string>, compact: string)
    requires Taken(names, name, isClass, kind, done) && isClass(compact) != kind
    ensures Taken(names, name, isClass, kind, done + {compact})
  {
  }

  /** A name already taken by a term of the same kind is a collision. */
  lemma CollisionBlocks(terms: Terms, prefixes: Prefixes, names: map<string, string>, name: string -> Option<string>,
      isClass: string -> bool,
                        done: set<string>, compact: string)
    requires Taken(names, name, isClass, isClass(compact), done) && name(compact).Some? && name(compact).value in names
    requires done <= terms.Keys && compact !in done && compact in terms
    ensures !AllTermsFit(terms, prefixes, name, isClass)
  {
    assert !Fits(terms, prefixes, name, isClass, compact);
  }

  ghost predicate AllDistinct(done: set<string>, name: string -> Option<string>, isClass: string -> bool) {
    forall c, d :: c in done && d in done && c != d && isClass(c) == isClass(d) ==> name(c) != name(d)
  }

  lemma DistinctMore(names: map<string, string>, name: string -> Option<string>, isClass: string -> bool,
      done: set<string>, compact: string)
    requires AllDistinct(done, name, isClass) && (forall c :: c in done ==> name(c).Some?)
    requires Taken(names, name, isClass, isClass(compact), done) && name(compact).Some? && name(compact).value !in names
    ensures AllDistinct(done + {compact}, name, isClass)
  {
  }

  /**
   Every term of the table, in some order. Success depends on the table alone; so does each
   resolved term.
   */
  method PartitionTerms(terms: Terms, prefixes: Prefixes, order: seq<string>, name: string -> Option<string>,
      isClass: string -> bool)
      returns (r: Result<(seq<ResolvedTerm>, seq<ResolvedTerm>), PartitionError>)
    requires Elements(order) == terms.Keys && forall i, j :: 0 <= i < j < |order| ==> order[i] != order[j]
    ensures r.Ok? <==> AllTermsFit(terms, prefixes, name, isClass)
    ensures r.Ok? ==>
      && Partition(terms, prefixes, name, isClass, true, order, r.value.0)
      && Partition(terms, prefixes, name, isClass, false, order, r.value.1)
    ensures r.Err? && r.error.Resolution?
        ==> exists compact :: compact in terms && Explains(terms, prefixes, r.error.error, compact)
  {
    var resolver := new Resolver(terms, prefixes);
    var progress := Progress([], [], map[], map[]);
    for i := 0 to |order|
      invariant resolver.terms == terms && resolver.prefixes == prefixes && CacheRight(resolver.cache, terms, prefixes)
      invariant SoFar(terms, prefixes, name, isClass, order[..i], progress)
    {
      var compact := order[i];
      TermIsNew(terms, order, i);
      var expanded := resolver.Resolve(compact, terms[compact].span);
      if expanded.Err? {
        Unresolvable(terms, prefixes, name, isClass, compact);
        return Err(Resolution(expanded.error));
      }
      if name(compact).None? {
        Unresolvable(terms, prefixes, name, isClass, compact);
        return Err(BadName(compact));
      }
      var constName := name(compact).value;
      var term := ResolvedTerm(compact, expanded.value, constName);
      var names := if isClass(compact) then progress.classNames else progress.propertyNames;
      if constName in names {
        CollisionBlocks(terms, prefixes, names, name, isClass, Elements(order[..i]), compact);
        return Err(Collision(names[constName], compact, constName));
      }
      TermJoins(terms, prefixes, name, isClass, order, i, progress, term);
      progress := Joined(progress, term, isClass(compact));
    }
    assert order[..|order|] == order;
    AllFit(terms, prefixes, name, isClass, order, progress);
    r := Ok((progress.classes, progress.properties));
  }

  /** Classes and properties, and the names each has taken. */
  datatype Progress = Progress(classes: seq<ResolvedTerm>, properties: seq<ResolvedTerm>,
                               classNames: map<string, string>, propertyNames: map<string, string>)

  function Joined(p: Progress, term: ResolvedTerm, isClass: bool): Progress {
    if isClass then p.(classes := p.classes + [term], classNames := p.classNames[term.constName := term.compact])
    else p.(properties := p.properties + [term], propertyNames := p.propertyNames[term.constName := term.compact])
  }

  ghost predicate SoFar(terms: Terms, prefixes: Prefixes, name: string -> Option<string>, isClass: string -> bool,
      order: seq<string>, p: Progress) {
    && Partition(terms, prefixes, name, isClass, true, order, p.classes)
    && Partition(terms, prefixes, name, isClass, false, order, p.properties)
    && Taken(p.classNames, name, isClass, true, Elements(order))
    && Taken(p.propertyNames, name, isClass, false, Elements(order))
    && AllNamed(terms, prefixes, name, Elements(order))
    && AllDistinct(Elements(order), name, isClass)
  }

  ghost predicate AllNamed(terms: Terms, prefixes: Prefixes, name: string -> Option<string>, done: set<string>) {
    forall c :: c in done ==> name(c).Some? && exists v :: Lands(terms, prefixes, c, v)
  }

  lemma PartitionMore(terms: Terms, prefixes: Prefixes, name: string -> Option<string>, isClass: string -> bool,
      kind: bool,
                      order: seq<string>, result: seq<ResolvedTerm>, term: ResolvedTerm)
    requires Partition(terms, prefixes, name, isClass, kind, order, result)
    requires Lands(terms, prefixes, term.compact, term.expanded) && name(term.compact) == Some(term.constName)
    ensures Partition(terms, prefixes, name, isClass, kind, order + [term.compact], if isClass(term.compact) == kind
        then result + [term] else result)
  {
    assert (order + [term.compact])[..|order|] == order;
    assert (result + [term])[..|result|] == result;
  }

  lemma TermJoins(terms: Terms, prefixes: Prefixes, name: string -> Option<string>, isClass: string -> bool,
                  order: seq<string>, i: nat, p: Progress, term: ResolvedTerm)
    requires i < |order| && term.compact == order[i] && SoFar(terms, prefixes, name, isClass, order[..i], p)
    requires Lands(terms, prefixes, term.compact, term.expanded) && name(term.compact) == Some(term.constName)
    requires term.constName !in (if isClass(term.compact) then p.classNames else p.propertyNames)
    ensures SoFar(terms, prefixes, name, isClass, order[..i + 1], Joined(p, term, isClass(term.compact)))
  {
    var compact, done := term.compact, Elements(order[..i]);
    DoneMore(order, i);
    assert order[..i + 1] == order[..i] + [compact];
    PartitionMore(terms, prefixes, name, isClass, true, order[..i], p.classes, term);
    PartitionMore(terms, prefixes, name, isClass, false, order[..i], p.properties, term);
    if isClass(compact) {
      TakenMore(p.classNames, name, isClass, true, done, compact);
      TakenOther(p.propertyNames, name, isClass, false, done, compact);
      DistinctMore(p.classNames, name, isClass, done, compact);
    } else {
      TakenMore(p.propertyNames, name, isClass, false, done, compact);
      TakenOther(p.classNames, name, isClass, true, done, compact);
      DistinctMore(p.propertyNames, name, isClass, done, compact);
    }
    NamedMore(terms, prefixes, name, done, term);
  }

  lemma NamedMore(terms: Terms, prefixes: Prefixes, name: string -> Option<string>, done: set<string>,
      term: ResolvedTerm)
    requires AllNamed(terms, prefixes, name, done)
    requires Lands(terms, prefixes, term.compact, term.expanded) && name(term.compact) == Some(term.constName)
    ensures AllNamed(terms, prefixes, name, done + {term.compact})
  {
  }

  lemma TermIsNew(terms: Terms, order: seq<string>, i: nat)
    requires i < |order| && Elements(order) == terms.Keys
    requires forall i, j :: 0 <= i < j < |order| ==> order[i] != order[j]
    ensures order[i] in terms && order[i] !in Elements(order[..i]) && Elements(order[..i]) <= terms.Keys
  {
    assert order[i] in Elements(order);
    DoneMore(order, i);
  }

  lemma AllFit(terms: Terms, prefixes: Prefixes, name: string -> Option<string>, isClass: string -> bool,
      order: seq<string>, p: Progress)
    requires Elements(order) == terms.Keys && SoFar(terms, prefixes, name, isClass, order, p)
    ensures AllTermsFit(terms, prefixes, name, isClass)
  {
    forall compact | compact in terms ensures Fits(terms, prefixes, name, isClass, compact) {
      assert compact in Elements(order);
    }
  }

  lemma DoneMore(order: seq<string>, i: nat)
    requires i < |order|
    ensures Elements(order[..i + 1]) == Elements(order[..i]) + {order[i]}
    ensures Elements(order[..i]) <= Elements(order)
  {
    assert order[..i + 1] == order[..i] + [order[i]];
  }

  /** There is one term less to visit. */
  lemma VisitOne(terms: set<string>, visiting: set<string>, compact: string)
    requires compact in terms && compact !in visiting
    ensures |terms - (visiting + {compact})| < |terms - visiting|
  {
    assert terms - visiting == (terms - (visiting + {compact})) + {compact};
  }

  lemma {:induction false} CycleExplained(terms: Terms, prefixes: Prefixes, span: Span, stack: seq<string>,
      compact: string)
    requires IsChain(terms, stack + [compact]) && compact in stack
    ensures Explains(terms, prefixes, Cycle(span, stack + [compact]), compact)
  {
    assert (stack + [compact])[..|stack|] == stack;
  }

  lemma CacheKept(cache: map<string, string>, terms: Terms, prefixes: Prefixes, compact: string, value: string)
    requires CacheRight(cache, terms, prefixes) && Lands(terms, prefixes, compact, value)
    ensures CacheRight(cache[compact := value], terms, prefixes)
  {
  }

  lemma ChainExtended(terms: Terms, stack: seq<string>, compact: string, target: string)
    requires IsChain(terms, stack + [compact]) && Refers(terms, compact, target)
    ensures IsChain(terms, stack + [compact] + [target])
  {
    var path := stack + [compact] + [target];
    forall i | 0 <= i < |path| - 1 ensures Refers(terms, path[i], path[i + 1]) {
      if i < |stack| { assert path[i] == (stack + [compact])[i] && path[i + 1] == (stack + [compact])[i + 1]; }
    }
  }
}
