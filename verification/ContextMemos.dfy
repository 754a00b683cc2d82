/**
 The memo of expanded terms that contexts carry (jsonld-core/src/context/mod.rs:509-625, 735-757;
 jsonld-context-processing/src/algorithm/iri.rs:303-336).

 A clone shares the cell of the memo. A change to a context puts a new cell in its place, but only when
 something has filled the old one; and a change of mode puts none. So contexts that differ can share a
 memo, and one is then answered what the other expands to. This module says exactly when.
 */
module ContextMemos {
  import opened Wrappers
  import opened SharedContexts
  import opened TermExpansion

  /** A variable that holds a context: what it means, and the cell of its memo. */
  datatype Variable = Dropped | Live(meaning: Meaning, cell: nat)

  /** `OnceCell`: filled on first use, and from then on a memo. */
  datatype OnceCell = Unset | Memo(answers: map<string, Term>)

  datatype State = State(variables: seq<Variable>, cells: seq<OnceCell>) {
    predicate Valid() {
      forall i :: 0 <= i < |variables| && variables[i].Live? ==> variables[i].cell < |cells|
    }

    predicate Has(i: nat) {
      i < |variables| && variables[i].Live? && variables[i].cell < |cells|
    }

    predicate Shares(i: nat, j: nat) {
      Has(i) && Has(j) && variables[i].cell == variables[j].cell
    }

    function CellOf(i: nat): OnceCell
      requires Has(i)
    {
      cells[variables[i].cell]
    }

    predicate Memoised(i: nat, s: string)
      requires Has(i)
    {
      CellOf(i).Memo? && s in CellOf(i).answers
    }
  }

  // ----- the operations

  datatype Step =
    | New
    | Clone(i: nat)
    | PrivateCopy(i: nat)
    | Drop(i: nat)
    | Change(i: nat, meaning: Meaning)
    | SetMode(i: nat, mode: Mode)
    | Ask(i: nat, s: string, forgotten: set<string>)

  const NEW_MEANING: Meaning := Meaning(map[], None, JsonLd11)

  /** A setter changes everything but the mode; the mode has a setter of its own. */
  predicate Possible(st: State, step: Step) {
    match step
    case New => true
    case Change(i, meaning) => st.Has(i) && meaning.mode == st.variables[i].meaning.mode
    case _ => st.Has(step.i)
  }

  function Answer(grammar: Grammar, st: State, i: nat, s: string): Term
    requires st.Has(i)
  {
    if st.Memoised(i, s) then st.CellOf(i).answers[s] else ExpandTerm(grammar, st.variables[i].meaning, s)
  }

  /** The memo after a question; a full shard is cleared before it takes the answer. */
  function Remembering(cell: OnceCell, s: string, answer: Term, forgotten: set<string>): OnceCell {
    match cell
    case Unset => Memo(map[s := answer])
    case Memo(answers) => if s in answers then cell else Memo((answers - forgotten)[s := answer])
  }

  /** A variable with a cell of its own. */
  function WithNewCell(st: State, variables: seq<Variable>): State {
    State(variables, st.cells + [Unset])
  }

  function After(grammar: Grammar, st: State, step: Step): State
    requires Possible(st, step)
  {
    match step
    case New => WithNewCell(st, st.variables + [Live(NEW_MEANING, |st.cells|)])
    case Clone(i) => st.(variables := st.variables + [st.variables[i]])
    case PrivateCopy(i) => WithNewCell(st, st.variables + [Live(st.variables[i].meaning, |st.cells|)])
    case Drop(i) => st.(variables := st.variables[i := Dropped])
    case Change(i, meaning) =>
      if st.CellOf(i).Memo? then WithNewCell(st, st.variables[i := Live(meaning, |st.cells|)])
      else st.(variables := st.variables[i := Live(meaning, st.variables[i].cell)])
    case SetMode(i, mode) => st.(variables := st.variables[i :=
        Live(st.variables[i].meaning.(mode := mode), st.variables[i].cell)])
    case Ask(i, s, forgotten) =>
      st.(cells := st.cells[st.variables[i].cell :=
        Remembering(st.CellOf(i), s, Answer(grammar, st, i, s), forgotten)])
  }

  /** Contexts as the program has them, one operation at a time. */
  class Contexts {
    var variables: seq<Variable>
    var cells: seq<OnceCell>
    const grammar: Grammar

    function Now(): State
      reads this
    {
      State(variables, cells)
    }

    ghost predicate Valid()
      reads this
    {
      Now().Valid()
    }

    constructor (grammar: Grammar)
      ensures Valid() && Now() == State([], []) && this.grammar == grammar
    {
      this.grammar := grammar;
      variables, cells := [], [];
    }

    /** `Context::new`. */
    method NewContext() returns (i: nat)
      requires Valid()
      modifies this
      ensures Valid() && Now() == After(grammar, old(Now()), New) && i == |old(variables)|
    {
      i := |variables|;
      variables := variables + [Live(NEW_MEANING, |cells|)];
      cells := cells + [Unset];
    }

    method CloneContext(i: nat) returns (j: nat)
      requires Valid() && Now().Has(i)
      modifies this`variables
      ensures Valid() && Now() == After(grammar, old(Now()), Clone(i)) && j == |old(variables)|
    {
      j := |variables|;
      variables := variables + [variables[i]];
    }

    /** `with_private_caches`. */
    method CopyPrivately(i: nat) returns (j: nat)
      requires Valid() && Now().Has(i)
      modifies this
      ensures Valid() && Now() == After(grammar, old(Now()), PrivateCopy(i)) && j == |old(variables)|
    {
      j := |variables|;
      variables := variables + [Live(variables[i].meaning, |cells|)];
      cells := cells + [Unset];
    }

    method DropContext(i: nat)
      requires Valid() && Now().Has(i)
      modifies this`variables
      ensures Valid() && Now() == After(grammar, old(Now()), Drop(i))
    {
      variables := variables[i := Dropped];
    }

    /** `invalidate_iri_caches`: a filled cell is replaced, an unset one is kept. */
    method Invalidate(i: nat)
      requires Valid() && Now().Has(i)
      modifies this
      ensures Valid() && Now() == After(grammar, old(Now()), Change(i, old(variables[i].meaning)))
      ensures Now().Has(i) && variables[i].meaning == old(variables[i].meaning) && |variables| == |old(variables)|
    {
      if cells[variables[i].cell].Memo? {
        variables := variables[i := variables[i].(cell := |cells|)];
        cells := cells + [Unset];
      }
    }

    /** `set_normal`. */
    method SetTerm(i: nat, term: string, definition: Option<TermDefinition>)
      requires Valid() && Now().Has(i)
      modifies this
      ensures var m := old(variables[i].meaning);
              var definitions := if definition.Some? then m.definitions[term := definition.value]
                  else m.definitions - {term};
              Valid() && Now() == After(grammar, old(Now()), Change(i, m.(definitions := definitions)))
    {
      Invalidate(i);
      var m := variables[i].meaning;
      var definitions := if definition.Some? then m.definitions[term := definition.value]
          else m.definitions - {term};
      variables := variables[i := variables[i].(meaning := m.(definitions := definitions))];
    }

    method SetVocabulary(i: nat, vocabulary: Option<Term>)
      requires Valid() && Now().Has(i)
      modifies this
      ensures Valid()
      ensures Now() == After(grammar, old(Now()), Change(i, old(variables[i].meaning).(vocabulary := vocabulary)))
    {
      Invalidate(i);
      variables := variables[i := variables[i].(meaning := variables[i].meaning.(vocabulary := vocabulary))];
    }

    method SetProcessingMode(i: nat, mode: Mode)
      requires Valid() && Now().Has(i)
      modifies this`variables
      ensures Valid() && Now() == After(grammar, old(Now()), SetMode(i, mode))
    {
      variables := variables[i := variables[i].(meaning := variables[i].meaning.(mode := mode))];
    }

    /** `expand_iri_simple` with its memo. */
    method Expand(i: nat, s: string, forgotten: set<string>) returns (answer: Term)
      requires Valid() && Now().Has(i)
      modifies this`cells
      ensures Valid() && Now() == After(grammar, old(Now()), Ask(i, s, forgotten))
      ensures answer == Answer(grammar, old(Now()), i, s)
    {
      var cell := variables[i].cell;
      if cells[cell].Unset? {
        cells := cells[cell := Memo(map[])];
        assert cells[cell].answers - forgotten == map[];
      }
      if s in cells[cell].answers { return cells[cell].answers[s]; }
      answer := ExpandTerm(grammar, variables[i].meaning, s);
      cells := cells[cell := Memo((cells[cell].answers - forgotten)[s := answer])];
    }
  }

  // ----- when answers are right

  /** What is memoised for a context is what it expands to. */
  ghost predicate MemosRight(grammar: Grammar, st: State) {
    forall i: nat, s: string :: st.Has(i) && st.Memoised(i, s)
      ==> st.CellOf(i).answers[s] == ExpandTerm(grammar, st.variables[i].meaning, s)
  }

  ghost predicate AnswerAlike(grammar: Grammar, m: Meaning, n: Meaning) {
    forall s: string :: ExpandTerm(grammar, m, s) == ExpandTerm(grammar, n, s)
  }

  /** Contexts that share a memo expand every term alike. */
  ghost predicate SharersAlike(grammar: Grammar, st: State) {
    forall i: nat, j: nat :: st.Shares(i, j)
      ==> AnswerAlike(grammar, st.variables[i].meaning, st.variables[j].meaning)
  }

  ghost predicate Agreeing(grammar: Grammar, st: State) {
    MemosRight(grammar, st) && SharersAlike(grammar, st)
  }

  predicate AllPossible(grammar: Grammar, st: State, steps: seq<Step>)
    decreases steps
  {
    steps == [] || (Possible(st, steps[0]) && AllPossible(grammar, After(grammar, st, steps[0]), steps[1..]))
  }

  function Run(grammar: Grammar, st: State, steps: seq<Step>): State
    requires AllPossible(grammar, st, steps)
    decreases steps
  {
    if steps == [] then st else Run(grammar, After(grammar, st, steps[0]), steps[1..])
  }

  predicate AnswerRight(grammar: Grammar, st: State, i: nat, s: string)
    requires st.Has(i)
  {
    Answer(grammar, st, i, s) == ExpandTerm(grammar, st.variables[i].meaning, s)
  }

  /** Every question of the run is answered as without the memo. */
  predicate AllAnswersRight(grammar: Grammar, st: State, steps: seq<Step>)
    requires AllPossible(grammar, st, steps)
    decreases steps
  {
    steps == [] || (&& (steps[0].Ask? ==> AnswerRight(grammar, st, steps[0].i, steps[0].s))
                    && AllAnswersRight(grammar, After(grammar, st, steps[0]), steps[1..]))
  }

  predicate Questions(steps: seq<Step>) {
    forall k :: 0 <= k < |steps| ==> steps[k].Ask?
  }

  /** A question fills the memo with what the context asked expands to, or leaves an answer there. */
  lemma {:induction false} AskKeepsAgreeing(grammar: Grammar, st: State, i: nat, s: string, forgotten: set<string>)
    requires Agreeing(grammar, st) && st.Has(i)
    ensures Agreeing(grammar, After(grammar, st, Ask(i, s, forgotten)))
  {
    var after := After(grammar, st, Ask(i, s, forgotten));
    forall j: nat, t: string | after.Has(j) && after.Memoised(j, t)
      ensures after.CellOf(j).answers[t] == ExpandTerm(grammar, after.variables[j].meaning, t)
    {
      if st.Memoised(j, t) {
      } else {
        assert st.Shares(i, j) && t == s;
        assert AnswerAlike(grammar, st.variables[i].meaning, st.variables[j].meaning);
      }
    }
    forall j: nat, k: nat | after.Shares(j, k)
      ensures AnswerAlike(grammar, after.variables[j].meaning, after.variables[k].meaning)
    {
      assert st.Shares(j, k);
    }
  }

  lemma {:induction false} AgreeingAnswersRight(grammar: Grammar, st: State, steps: seq<Step>)
    requires Agreeing(grammar, st) && Questions(steps) && AllPossible(grammar, st, steps)
    ensures AllAnswersRight(grammar, st, steps)
    decreases steps
  {
    if steps != [] {
      var Ask(i, s, forgotten) := steps[0];
      AskKeepsAgreeing(grammar, st, i, s, forgotten);
      AgreeingAnswersRight(grammar, After(grammar, st, steps[0]), steps[1..]);
    }
  }

  /** Two contexts that share a memo and do not expand `s` alike: asking both gets a wrong answer. */
  lemma {:induction false} SharersDiffer(grammar: Grammar, st: State, i: nat, j: nat, s: string)
    requires st.Shares(i, j)
    requires ExpandTerm(grammar, st.variables[i].meaning, s) != ExpandTerm(grammar, st.variables[j].meaning, s)
    ensures AllPossible(grammar, st, [Ask(i, s, {}), Ask(j, s, {})])
    ensures !AllAnswersRight(grammar, st, [Ask(i, s, {}), Ask(j, s, {})])
  {
    var steps := [Ask(i, s, {}), Ask(j, s, {})];
    var after := After(grammar, st, steps[0]);
    assert steps[1..] == [Ask(j, s, {})] && steps[1..][1..] == [];
    assert after.Has(j) && after.Memoised(j, s);
    assert AllPossible(grammar, after, steps[1..]);
    assert Answer(grammar, after, j, s) == Answer(grammar, st, i, s);
    if AnswerRight(grammar, st, i, s) {
      assert !AnswerRight(grammar, after, j, s);
    }
  }

  /** Whatever is asked from now on is answered right exactly when memos are right and sharers alike. */
  lemma {:induction false} AnswersRightExactlyWhen(grammar: Grammar, st: State)
    ensures (forall steps: seq<Step> :: Questions(steps) && AllPossible(grammar, st, steps)
              ==> AllAnswersRight(grammar, st, steps))
      <==> Agreeing(grammar, st)
  {
    if Agreeing(grammar, st) {
      forall steps: seq<Step> | Questions(steps) && AllPossible(grammar, st, steps)
        ensures AllAnswersRight(grammar, st, steps)
      {
        AgreeingAnswersRight(grammar, st, steps);
      }
    } else if !MemosRight(grammar, st) {
      var i: nat, s: string :| st.Has(i) && st.Memoised(i, s)
        && st.CellOf(i).answers[s] != ExpandTerm(grammar, st.variables[i].meaning, s);
      var steps := [Ask(i, s, {})];
      assert Possible(st, steps[0]) && AllPossible(grammar, After(grammar, st, steps[0]), steps[1..]);
      assert !AnswerRight(grammar, st, i, s);
      assert Questions(steps) && AllPossible(grammar, st, steps) && !AllAnswersRight(grammar, st, steps);
    } else {
      var i: nat, j: nat :| st.Shares(i, j)
        && !AnswerAlike(grammar, st.variables[i].meaning, st.variables[j].meaning);
      var s: string :| ExpandTerm(grammar, st.variables[i].meaning, s)
        != ExpandTerm(grammar, st.variables[j].meaning, s);
      SharersDiffer(grammar, st, i, j, s);
      assert Questions([Ask(i, s, {}), Ask(j, s, {})]);
    }
  }

  // ----- which operations keep answers right

  predicate IsShared(st: State, i: nat) {
    exists j: nat :: j < |st.variables| && j != i && st.Shares(i, j)
  }

  /**
   What an operation must observe: a context is changed when its memo is filled, or when nobody shares the
   cell, or to no effect; and the mode is set where it matters to no term that is memoised, and when the
   cell is shared to none at all.
   */
  ghost predicate Safe(grammar: Grammar, st: State, step: Step)
    requires Possible(st, step)
  {
    match step
    case Change(i, meaning) =>
      st.CellOf(i).Memo? || !IsShared(st, i) || AnswerAlike(grammar, st.variables[i].meaning, meaning)
    case SetMode(i, mode) =>
      || mode == st.variables[i].meaning.mode
      || forall s: string ::
           (st.Memoised(i, s) || IsShared(st, i)) ==> !ModeMatters(grammar, st.variables[i].meaning, s)
    case _ => true
  }

  predicate Kept(st: State, variables: seq<Variable>, i: nat) {
    i < |st.variables| && i < |variables| && variables[i] == st.variables[i]
  }

  predicate IsNew(st: State, variables: seq<Variable>, i: nat) {
    i < |variables| && variables[i].Live? && variables[i].cell == |st.cells|
  }

  /** A context with a new cell, new itself or changed, shares it with none. */
  lemma {:induction false} NewCellKeepsAgreeing(grammar: Grammar, st: State, variables: seq<Variable>)
    requires st.Valid() && Agreeing(grammar, st) && |variables| >= |st.variables|
    requires forall i :: 0 <= i < |variables| ==> Kept(st, variables, i) || IsNew(st, variables, i)
    requires forall i, j :: 0 <= i < j < |variables| ==> !(IsNew(st, variables, i) && IsNew(st, variables, j))
    ensures Agreeing(grammar, WithNewCell(st, variables))
  {
    var after := WithNewCell(st, variables);
    forall i: nat, s: string | after.Has(i) && after.Memoised(i, s)
      ensures after.CellOf(i).answers[s] == ExpandTerm(grammar, after.variables[i].meaning, s)
    {
      assert Kept(st, variables, i) || IsNew(st, variables, i);
      assert st.Has(i) && st.Memoised(i, s);
    }
    forall i: nat, j: nat | after.Shares(i, j)
      ensures AnswerAlike(grammar, after.variables[i].meaning, after.variables[j].meaning)
    {
      if i != j {
        assert Kept(st, variables, i) || IsNew(st, variables, i);
        assert Kept(st, variables, j) || IsNew(st, variables, j);
        assert st.Shares(i, j);
      }
    }
  }

  /** A change under a cell that is unset. */
  lemma {:induction false} ChangeUnset(grammar: Grammar, st: State, i: nat, meaning: Meaning)
    requires st.Valid() && Agreeing(grammar, st) && Possible(st, Change(i, meaning)) && st.CellOf(i).Unset?
    ensures Agreeing(grammar, After(grammar, st, Change(i, meaning))) <==> Safe(grammar, st, Change(i, meaning))
  {
    var after := After(grammar, st, Change(i, meaning));
    assert MemosRight(grammar, after) by {
      forall j: nat, s: string | after.Has(j) && after.Memoised(j, s)
        ensures after.CellOf(j).answers[s] == ExpandTerm(grammar, after.variables[j].meaning, s)
      {
        assert st.Has(j) && st.Memoised(j, s);
      }
    }
    if Safe(grammar, st, Change(i, meaning)) {
      forall j: nat, k: nat | after.Shares(j, k)
        ensures AnswerAlike(grammar, after.variables[j].meaning, after.variables[k].meaning)
      {
        assert st.Shares(j, k) && AnswerAlike(grammar, st.variables[j].meaning, st.variables[k].meaning);
        if (j == i) != (k == i) {
          assert st.Shares(i, if j == i then k else j);
          assert AnswerAlike(grammar, st.variables[i].meaning, meaning);
        }
      }
    } else {
      var j: nat :| j < |st.variables| && j != i && st.Shares(i, j);
      assert after.Shares(i, j) && AnswerAlike(grammar, st.variables[i].meaning, st.variables[j].meaning);
      if AnswerAlike(grammar, meaning, st.variables[j].meaning) {
        assert AnswerAlike(grammar, st.variables[i].meaning, meaning);
      }
    }
  }

  lemma {:induction false} ModeKeepsMemos(grammar: Grammar, st: State, i: nat, mode: Mode)
    requires Agreeing(grammar, st) && Possible(st, SetMode(i, mode)) && mode != st.variables[i].meaning.mode
    ensures MemosRight(grammar, After(grammar, st, SetMode(i, mode)))
      <==> forall s: string :: st.Memoised(i, s) ==> !ModeMatters(grammar, st.variables[i].meaning, s)
  {
    var m := st.variables[i].meaning;
    var after := After(grammar, st, SetMode(i, mode));
    forall s: string ensures st.Memoised(i, s) && ModeMatters(grammar, m, s) ==> !MemosRight(grammar, after) {
      ModeMattersExactlyWhen(grammar, m, mode, s);
      assert after.Has(i) && (after.Memoised(i, s) <==> st.Memoised(i, s));
    }
    forall j: nat, s: string | after.Has(j) && after.Memoised(j, s)
        && (st.Memoised(i, s) ==> !ModeMatters(grammar, m, s))
      ensures after.CellOf(j).answers[s] == ExpandTerm(grammar, after.variables[j].meaning, s)
    {
      ModeMattersExactlyWhen(grammar, m, mode, s);
      assert st.Has(j) && st.Memoised(j, s);
    }
  }

  lemma {:induction false} ModeKeepsSharers(grammar: Grammar, st: State, i: nat, mode: Mode)
    requires Agreeing(grammar, st) && Possible(st, SetMode(i, mode)) && mode != st.variables[i].meaning.mode
    ensures SharersAlike(grammar, After(grammar, st, SetMode(i, mode)))
      <==> (IsShared(st, i) ==> forall s: string :: !ModeMatters(grammar, st.variables[i].meaning, s))
  {
    var m := st.variables[i].meaning;
    var after := After(grammar, st, SetMode(i, mode));
    forall s: string
      ensures ExpandTerm(grammar, m.(mode := mode), s) != ExpandTerm(grammar, m, s) <==> ModeMatters(grammar, m, s)
    {
      ModeMattersExactlyWhen(grammar, m, mode, s);
    }
    if IsShared(st, i) {
      var j: nat :| j < |st.variables| && j != i && st.Shares(i, j);
      assert after.Shares(i, j) && AnswerAlike(grammar, m, st.variables[j].meaning);
    }
    if IsShared(st, i) ==> forall s: string :: !ModeMatters(grammar, m, s) {
      forall j: nat, k: nat | after.Shares(j, k)
        ensures AnswerAlike(grammar, after.variables[j].meaning, after.variables[k].meaning)
      {
        assert st.Shares(j, k);
        assert j == i && k != i ==> IsShared(st, i);
        assert k == i && j != i ==> st.Shares(i, j);
      }
    }
  }

  lemma {:induction false} SameModeKeepsAll(grammar: Grammar, st: State, i: nat)
    requires st.Has(i)
    ensures After(grammar, st, SetMode(i, st.variables[i].meaning.mode)) == st
  {
    assert st.variables[i := st.variables[i]] == st.variables;
  }

  lemma {:induction false} DropKeepsAgreeing(grammar: Grammar, st: State, i: nat)
    requires Agreeing(grammar, st) && st.Has(i)
    ensures Agreeing(grammar, After(grammar, st, Drop(i)))
  {
    var after := After(grammar, st, Drop(i));
    forall j: nat, s: string | after.Has(j) && after.Memoised(j, s)
      ensures after.CellOf(j).answers[s] == ExpandTerm(grammar, after.variables[j].meaning, s)
    {
      assert st.Has(j) && st.Memoised(j, s);
    }
    forall j: nat, k: nat | after.Shares(j, k)
      ensures AnswerAlike(grammar, after.variables[j].meaning, after.variables[k].meaning)
    {
      assert st.Shares(j, k);
    }
  }

  lemma {:induction false} CloneKeepsAgreeing(grammar: Grammar, st: State, i: nat)
    requires Agreeing(grammar, st) && st.Has(i)
    ensures Agreeing(grammar, After(grammar, st, Clone(i)))
  {
    var after := After(grammar, st, Clone(i));
    var was := (j: nat) => if j == |st.variables| then i else j;
    forall j: nat, s: string | after.Has(j) && after.Memoised(j, s)
      ensures after.CellOf(j).answers[s] == ExpandTerm(grammar, after.variables[j].meaning, s)
    {
      assert st.Has(was(j)) && st.Memoised(was(j), s);
    }
    forall j: nat, k: nat | after.Shares(j, k)
      ensures AnswerAlike(grammar, after.variables[j].meaning, after.variables[k].meaning)
    {
      assert st.Shares(was(j), was(k));
    }
  }

  /** An operation leaves answers right exactly when it is safe. */
  lemma {:induction false} SafeExactlyWhen(grammar: Grammar, st: State, step: Step)
    requires st.Valid() && Agreeing(grammar, st) && Possible(st, step)
    ensures After(grammar, st, step).Valid()
    ensures Agreeing(grammar, After(grammar, st, step)) <==> Safe(grammar, st, step)
  {
    match step
    case New => NewCellKeepsAgreeing(grammar, st, st.variables + [Live(NEW_MEANING, |st.cells|)]);
    case Clone(i) => CloneKeepsAgreeing(grammar, st, i);
    case PrivateCopy(i) =>
      NewCellKeepsAgreeing(grammar, st, st.variables + [Live(st.variables[i].meaning, |st.cells|)]);
    case Drop(i) => DropKeepsAgreeing(grammar, st, i);
    case Change(i, meaning) =>
      if st.CellOf(i).Memo? {
        NewCellKeepsAgreeing(grammar, st, st.variables[i := Live(meaning, |st.cells|)]);
      } else {
        ChangeUnset(grammar, st, i, meaning);
      }
    case SetMode(i, mode) =>
      if mode == st.variables[i].meaning.mode {
        SameModeKeepsAll(grammar, st, i);
      } else {
        ModeKeepsMemos(grammar, st, i, mode);
        ModeKeepsSharers(grammar, st, i, mode);
      }
    case Ask(i, s, forgotten) => AskKeepsAgreeing(grammar, st, i, s, forgotten);
  }

  // ----- whole runs

  /** Every operation of the run is safe where it happens. */
  ghost predicate AllSafe(grammar: Grammar, st: State, steps: seq<Step>)
    requires AllPossible(grammar, st, steps)
    decreases steps
  {
    steps == [] || (Safe(grammar, st, steps[0]) && AllSafe(grammar, After(grammar, st, steps[0]), steps[1..]))
  }

  /** At every point of the run, whatever could be asked would be answered as without the memo. */
  ghost predicate AlwaysRight(grammar: Grammar, st: State, steps: seq<Step>)
    requires AllPossible(grammar, st, steps)
    decreases steps
  {
    && (forall questions: seq<Step> :: Questions(questions) && AllPossible(grammar, st, questions)
          ==> AllAnswersRight(grammar, st, questions))
    && (steps != [] ==> AlwaysRight(grammar, After(grammar, st, steps[0]), steps[1..]))
  }

  lemma {:induction false} AlwaysRightWhileSafe(grammar: Grammar, st: State, steps: seq<Step>)
    requires st.Valid() && Agreeing(grammar, st) && AllPossible(grammar, st, steps)
    ensures AlwaysRight(grammar, st, steps) <==> AllSafe(grammar, st, steps)
    ensures AllSafe(grammar, st, steps) ==> AllAnswersRight(grammar, st, steps)
    decreases steps
  {
    AnswersRightExactlyWhen(grammar, st);
    if steps != [] {
      var after := After(grammar, st, steps[0]);
      SafeExactlyWhen(grammar, st, steps[0]);
      AnswersRightExactlyWhen(grammar, after);
      if Safe(grammar, st, steps[0]) {
        AlwaysRightWhileSafe(grammar, after, steps[1..]);
      }
    }
  }

  /** Answers are right all along a run, from no contexts at all, exactly when each of its operations is safe. */
  lemma {:induction false} RunIsRightExactlyWhen(grammar: Grammar, steps: seq<Step>)
    requires AllPossible(grammar, State([], []), steps)
    ensures AlwaysRight(grammar, State([], []), steps) <==> AllSafe(grammar, State([], []), steps)
    ensures AllSafe(grammar, State([], []), steps) ==> AllAnswersRight(grammar, State([], []), steps)
  {
    AlwaysRightWhileSafe(grammar, State([], []), steps);
  }

  // ----- runs that are not safe

  /**
   A clone is given a term before anything has been memoised, and is asked for it; the context it was
   cloned from, where the term means nothing, then gives the clone's answer.
   */
  method MisledByClone(grammar: Grammar) returns (c: Contexts, i: nat, answer: Term)
    ensures fresh(c) && c.Valid() && c.grammar == grammar && c.Now().Has(i)
    ensures answer == IdTerm(IriId("http://a/name"))
    ensures ExpandTerm(grammar, c.variables[i].meaning, "name") == IdTerm(InvalidId("name"))
  {
    c := new Contexts(grammar);
    i := c.NewContext();
    var clone := c.CloneContext(i);
    c.SetTerm(clone, "name", Some(TermDefinition(Some(IdTerm(IriId("http://a/name"))), false)));
    answer := c.Expand(clone, "name", {});
    assert c.Now().Memoised(i, "name");
    answer := c.Expand(i, "name", {});
  }

  /** A clone is set to mode 1.0, where a term without the flag is a prefix, and gives the answer of 1.1. */
  method MisledByMode(grammar: Grammar) returns (c: Contexts, i: nat, answer: Term)
    requires grammar.isIri("http://a/x") && grammar.isIriRef("p:x") && !grammar.isBlank("p:x")
    ensures fresh(c) && c.Valid() && c.grammar == grammar && c.Now().Has(i)
    ensures answer != IdTerm(IriId("http://a/x"))
    ensures ExpandTerm(grammar, c.variables[i].meaning, "p:x") == IdTerm(IriId("http://a/x"))
  {
    c := new Contexts(grammar);
    var first := c.NewContext();
    c.SetTerm(first, "p", Some(TermDefinition(Some(IdTerm(IriId("http://a/"))), false)));
    i := c.CloneContext(first);
    answer := c.Expand(first, "p:x", {});
    c.SetProcessingMode(i, JsonLd10);
    PrefixIn10(grammar, c.variables[first].meaning);
    assert c.Now().Memoised(i, "p:x");
    answer := c.Expand(i, "p:x", {});
  }

  lemma PrefixIn10(grammar: Grammar, m: Meaning)
    requires m == Meaning(map["p" := TermDefinition(Some(IdTerm(IriId("http://a/"))), false)], None, JsonLd11)
    requires grammar.isIri("http://a/x") && grammar.isIriRef("p:x") && !grammar.isBlank("p:x")
    ensures ExpandTerm(grammar, m, "p:x") != IdTerm(IriId("http://a/x"))
    ensures ExpandTerm(grammar, m.(mode := JsonLd10), "p:x") == IdTerm(IriId("http://a/x"))
  {
    ColonAt("p", "x");
    assert "p" + ":" + "x" == "p:x" && "p:x"[..1] == "p" && "p:x"[2..] == "x";
    assert "http://a/" + "x" == "http://a/x";
  }
}
