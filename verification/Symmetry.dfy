/**
 When comparing JSON values the other way round gives the same answer
 (jsonld-syntax/src/compare.rs:15-58).

 Keys are looked up on the right alone, so a comparison may succeed one way only. Going
 round a circle of values, each equal to the next, every operand is on the right once:
 no value of the circle has a duplicate key at any depth.
 */
module Symmetry {
  import opened Json
  import opened Compare
  import opened Tallies

  /** From `t`, one step round leads to an equal value, and `period` steps to the same one. */
  ghost predicate Turns(c: nat -> Value, period: nat, t: nat)
  {
    Equal(c(t), c(t + 1)) && c(t + period) == c(t)
  }

  ghost predicate IsCircle(c: nat -> Value, period: nat)
  {
    period > 0 && forall t: nat :: Turns(c, period, t)
  }

  // ----- objects

  function EntriesOf(v: Value): seq<Entry>
  {
    if v.Object? then v.entries else []
  }

  function ItemsOf(v: Value): seq<Value>
  {
    if v.Array? then v.items else []
  }

  lemma {:induction false} SameKind(c: nat -> Value, period: nat, t: nat)
    requires IsCircle(c, period)
    ensures c(t).Object? <==> c(0).Object?
    ensures c(t).Array? <==> c(0).Array?
    ensures |ItemsOf(c(t))| == |ItemsOf(c(0))|
  {
    if t > 0 {
      SameKind(c, period, t - 1);
      assert Turns(c, period, t - 1);
    }
  }

  lemma {:induction false} KeyMatched(x: seq<Entry>, y: seq<Entry>, i: nat)
    requires MatchEntries(x, y) && i < |x|
    ensures GetUnique(y, x[i].key).Ok? && GetUnique(y, x[i].key).value.Some?
    ensures Equal(x[i].value, GetUnique(y, x[i].key).value.value)
    ensures x[i].key in KeySet(y)
  {
    MatchEntriesAt(x, y);
    assert MatchEntry(x[i], y);
    GetUniqueFinds(y, x[i].key);
  }

  lemma {:induction false} KeysGrow(x: seq<Entry>, y: seq<Entry>)
    requires MatchEntries(x, y)
    ensures KeySet(x) <= KeySet(y)
  {
    forall i | 0 <= i < |x| ensures x[i].key in KeySet(y) { KeyMatched(x, y, i); }
  }

  lemma ObjectTurns(c: nat -> Value, period: nat, t: nat)
    requires IsCircle(c, period) && c(0).Object?
    ensures MatchEntries(EntriesOf(c(t)), EntriesOf(c(t + 1)))
    ensures c(t).Object? && c(t + period) == c(t)
  {
    SameKind(c, period, t);
    assert Turns(c, period, t);
  }

  lemma {:induction false} KeysGrowOn(c: nat -> Value, period: nat, t: nat, n: nat)
    requires IsCircle(c, period) && c(0).Object?
    ensures KeySet(EntriesOf(c(t))) <= KeySet(EntriesOf(c(t + n)))
  {
    if n > 0 {
      KeysGrowOn(c, period, t, n - 1);
      ObjectTurns(c, period, t + n - 1);
      KeysGrow(EntriesOf(c(t + n - 1)), EntriesOf(c(t + n)));
    }
  }

  lemma {:induction false} TwiceIsError(entries: seq<Entry>, i: nat, j: nat)
    requires i < j < |entries| && entries[i].key == entries[j].key
    ensures GetUnique(entries, entries[i].key).Err?
  {
    var rest := entries[1..];
    if i > 0 {
      assert rest[i - 1] == entries[i] && rest[j - 1] == entries[j];
      TwiceIsError(rest, i - 1, j - 1);
    } else {
      GetUniqueFinds(rest, entries[j].key);
      assert rest[j - 1] == entries[j];
      assert entries[j].key in KeySet(rest);
    }
  }

  /** Round a circle every key of an object is looked up in it, so none occurs twice. */
  lemma CircleKeysDistinct(c: nat -> Value, period: nat, t: nat)
    requires IsCircle(c, period) && c(0).Object?
    ensures DistinctKeys(EntriesOf(c(t)))
  {
    var y := EntriesOf(c(t));
    var x := EntriesOf(c(t + (period - 1)));
    ObjectTurns(c, period, t);
    ObjectTurns(c, period, t + (period - 1));
    assert t + (period - 1) + 1 == t + period;
    KeysGrowOn(c, period, t, period - 1);
    forall i, j | 0 <= i < j < |y| ensures y[i].key != y[j].key {
      assert y[i].key in KeySet(x);
      var k :| 0 <= k < |x| && x[k].key == y[i].key;
      KeyMatched(x, y, k);
      if y[i].key == y[j].key { TwiceIsError(y, i, j); }
    }
  }

  /** The value of `key`, if `v` is an object that has it once. */
  function ValueAt(v: Value, key: string): Value
  {
    var found := GetUnique(EntriesOf(v), key);
    if found.Ok? && found.value.Some? then found.value.value else Null
  }

  lemma ValuesTurn(c: nat -> Value, period: nat, key: string, t: nat)
    requires IsCircle(c, period) && c(0).Object? && key in KeySet(EntriesOf(c(0)))
    ensures Turns((n: nat) => ValueAt(c(n), key), period, t)
  {
    ObjectTurns(c, period, t);
    CircleKeysDistinct(c, period, t);
    KeysGrowOn(c, period, 0, t);
    var x := EntriesOf(c(t));
    var i :| 0 <= i < |x| && x[i].key == key;
    GetUniqueAt(x, i);
    KeyMatched(x, EntriesOf(c(t + 1)), i);
  }

  // ----- arrays

  /** The partners comparison finds for the items of `x` among those of `y`. */
  ghost function Partners(x: seq<Value>, y: seq<Value>): seq<nat>
    requires CanPair(x, y, NoneTaken(|y|))
  {
    var p :| Pairing(x, y, NoneTaken(|y|), p); p
  }

  ghost function Partner(x: seq<Value>, y: seq<Value>, j: nat): nat
  {
    if CanPair(x, y, NoneTaken(|y|)) && j < |x| then Partners(x, y)[j] else 0
  }

  lemma PartnerIs(x: seq<Value>, y: seq<Value>, j: nat)
    requires Equal(Array(x), Array(y)) && j < |x|
    ensures Partner(x, y, j) < |y| && Equal(x[j], y[Partner(x, y, j)])
    ensures forall i: nat :: i < |x| && Partner(x, y, i) == Partner(x, y, j) ==> i == j
  {
    var p := GreedyPairs(x, y, NoneTaken(|y|));
    assert Pairing(x, y, NoneTaken(|y|), Partners(x, y));
  }

  // ----- walks

  /** Where a walk from `j` is after `t` steps, the `t`-th of them leading from `i` to `step(t, i)`. */
  ghost function Walk(step: (nat, nat) -> nat, j: nat, t: nat): nat
  {
    if t == 0 then j else step(t - 1, Walk(step, j, t - 1))
  }

  /** The `t`-th step stays below `m`, shares no place, and is taken again after `span` more. */
  ghost predicate GoodStep(step: (nat, nat) -> nat, m: nat, span: nat, t: nat)
  {
    && (forall i: nat :: i < m ==> step(t, i) < m)
    && (forall i: nat, k: nat :: i < m && k < m && step(t, i) == step(t, k) ==> i == k)
    && (forall i: nat :: step(t + span, i) == step(t, i))
  }

  ghost predicate GoodWalk(step: (nat, nat) -> nat, m: nat, span: nat)
  {
    span > 0 && forall t: nat :: GoodStep(step, m, span, t)
  }

  lemma {:induction false} WalkStays(step: (nat, nat) -> nat, m: nat, span: nat, j: nat, t: nat)
    requires GoodWalk(step, m, span) && j < m
    ensures Walk(step, j, t) < m
  {
    if t > 0 {
      WalkStays(step, m, span, j, t - 1);
      assert GoodStep(step, m, span, t - 1);
    }
  }

  /** No place is shared: walks that meet were at one place a step before. */
  lemma MetBefore(step: (nat, nat) -> nat, m: nat, span: nat, j: nat, s: nat)
    requires GoodWalk(step, m, span) && j < m
    requires Walk(step, j, s + 1) == Walk(step, j, s + 1 + span)
    ensures Walk(step, j, s) == Walk(step, j, s + span)
  {
    WalkStays(step, m, span, j, s);
    WalkStays(step, m, span, j, s + span);
    assert GoodStep(step, m, span, s);
    var here, there := Walk(step, j, s), Walk(step, j, s + span);
    assert s + 1 + span - 1 == s + span;
    assert Walk(step, j, s + 1) == step(s, here);
    assert Walk(step, j, s + 1 + span) == step(s + span, there) == step(s, there);
  }

  lemma {:induction false} MeetAgain(step: (nat, nat) -> nat, m: nat, span: nat, j: nat, s: nat)
    requires GoodWalk(step, m, span) && j < m
    requires Walk(step, j, s) == Walk(step, j, s + span)
    ensures Walk(step, j, span) == j
  {
    if s > 0 {
      assert s - 1 + 1 + span == s + span;
      MetBefore(step, m, span, j, s - 1);
      MeetAgain(step, m, span, j, s - 1);
    }
  }

  lemma {:induction false} WalkRepeats(step: (nat, nat) -> nat, m: nat, span: nat, j: nat, t: nat)
    requires GoodWalk(step, m, span) && Walk(step, j, span) == j
    ensures Walk(step, j, t + span) == Walk(step, j, t)
  {
    if t > 0 {
      WalkRepeats(step, m, span, j, t - 1);
      assert GoodStep(step, m, span, t - 1);
      assert t + span - 1 == t - 1 + span;
    }
  }

  function Times(n: nat, period: nat): nat
  {
    if n == 0 then 0 else Times(n - 1, period) + period
  }

  lemma {:induction false} TimesGrow(a: nat, b: nat, period: nat)
    requires a < b && period > 0
    ensures Times(a, period) < Times(b, period) && Times(b, period) == Times(a, period) + Times(b - a, period)
  {
    if a < b - 1 { TimesGrow(a, b - 1, period); }
  }

  function FirstNats(n: nat): set<nat>
  {
    if n == 0 then {} else FirstNats(n - 1) + {n - 1}
  }

  lemma {:induction false} FirstNatsAre(n: nat)
    ensures |FirstNats(n)| == n && forall k: nat :: k in FirstNats(n) <==> k < n
  {
    if n > 0 { FirstNatsAre(n - 1); }
  }

  /** As many stops as there are places and one more: two of them are at one place. */
  lemma TwoStops(step: (nat, nat) -> nat, m: nat, span: nat, j: nat) returns (a: nat, b: nat)
    requires GoodWalk(step, m, span) && j < m
    ensures a < b && Walk(step, j, Times(a, span)) == Walk(step, j, Times(b, span))
  {
    var stops := seq(m + 1, k requires 0 <= k <= m => Walk(step, j, Times(k, span)));
    FirstNatsAre(m);
    forall k | 0 <= k <= m ensures stops[k] in FirstNats(m) { WalkStays(step, m, span, j, Times(k, span)); }
    if forall p, q :: 0 <= p < q < |stops| ==> stops[p] != stops[q] {
      DistinctFits(stops, FirstNats(m));
    }
    var p, q :| 0 <= p < q < |stops| && stops[p] == stops[q];
    a, b := p, q;
  }

  // ----- following items

  /** From an item of the `t`-th array of the circle to its partner in the next. */
  ghost function ToPartner(c: nat -> Value): (nat, nat) -> nat
  {
    (t: nat, i: nat) => Partner(ItemsOf(c(t)), ItemsOf(c(t + 1)), i)
  }

  /** The first `m` items have partners among the first `m`, each its own. */
  ghost predicate PairsOff(x: seq<Value>, y: seq<Value>, m: nat)
  {
    && (forall i: nat :: i < m ==> Partner(x, y, i) < m)
    && (forall i: nat, k: nat :: i < m && k < m && Partner(x, y, i) == Partner(x, y, k) ==> i == k)
  }

  lemma PartnersApart(x: seq<Value>, y: seq<Value>)
    requires Equal(Array(x), Array(y)) && |x| == |y|
    ensures PairsOff(x, y, |x|)
  {
    forall i: nat | i < |x|
      ensures Partner(x, y, i) < |y| && forall k: nat :: k < |x| && Partner(x, y, k) == Partner(x, y, i) ==> k == i
    {
      PartnerIs(x, y, i);
    }
  }

  /** Step by step, the arrays of a circle. */
  lemma ArraysTurn(c: nat -> Value, span: nat, t: nat)
    requires IsCircle(c, span) && c(0).Array?
    ensures Equal(Array(ItemsOf(c(t))), Array(ItemsOf(c(t + 1))))
    ensures |ItemsOf(c(t))| == |ItemsOf(c(t + 1))| == |c(0).items|
    ensures ItemsOf(c(t + span)) == ItemsOf(c(t)) && ItemsOf(c(t + span + 1)) == ItemsOf(c(t + 1))
  {
    SameKind(c, span, t);
    SameKind(c, span, t + 1);
    assert Turns(c, span, t) && Turns(c, span, t + 1);
    assert t + 1 + span == t + span + 1;
    assert c(t) == Array(ItemsOf(c(t))) && c(t + 1) == Array(ItemsOf(c(t + 1)));
  }

  lemma PartnerStep(c: nat -> Value, t: nat, i: nat)
    ensures ToPartner(c)(t, i) == Partner(ItemsOf(c(t)), ItemsOf(c(t + 1)), i)
  {
  }

  lemma StepRepeats(c: nat -> Value, t: nat, u: nat, i: nat)
    requires ItemsOf(c(u)) == ItemsOf(c(t)) && ItemsOf(c(u + 1)) == ItemsOf(c(t + 1))
    ensures ToPartner(c)(u, i) == ToPartner(c)(t, i)
  {
    PartnerStep(c, t, i);
    PartnerStep(c, u, i);
  }

  lemma ArraysStep(c: nat -> Value, span: nat, t: nat)
    requires IsCircle(c, span) && c(0).Array?
    ensures GoodStep(ToPartner(c), |c(0).items|, span, t)
  {
    ArraysTurn(c, span, t);
    PartnersApart(ItemsOf(c(t)), ItemsOf(c(t + 1)));
    StepIsGood(c, |c(0).items|, span, t);
  }

  lemma StepIsGood(c: nat -> Value, m: nat, span: nat, t: nat)
    requires ItemsOf(c(t + span)) == ItemsOf(c(t)) && ItemsOf(c(t + span + 1)) == ItemsOf(c(t + 1))
    requires PairsOff(ItemsOf(c(t)), ItemsOf(c(t + 1)), m)
    ensures GoodStep(ToPartner(c), m, span, t)
  {
    forall i: nat
      ensures ToPartner(c)(t, i) == Partner(ItemsOf(c(t)), ItemsOf(c(t + 1)), i)
      ensures ToPartner(c)(t + span, i) == ToPartner(c)(t, i)
    {
      PartnerStep(c, t, i);
      StepRepeats(c, t, t + span, i);
    }
  }

  lemma ArraysWalk(c: nat -> Value, span: nat)
    requires IsCircle(c, span) && c(0).Array?
    ensures GoodWalk(ToPartner(c), |c(0).items|, span)
  {
    forall t: nat ensures GoodStep(ToPartner(c), |c(0).items|, span, t) { ArraysStep(c, span, t); }
  }

  lemma {:induction false} TurnsOften(c: nat -> Value, period: nat, n: nat, t: nat)
    requires IsCircle(c, period)
    ensures Turns(c, Times(n, period), t)
  {
    assert Turns(c, period, t);
    if n > 0 {
      TurnsOften(c, period, n - 1, t);
      assert Turns(c, period, t + Times(n - 1, period));
    }
  }

  /** Going round several times is going round. */
  lemma {:induction false} StillCircle(c: nat -> Value, period: nat, n: nat)
    requires IsCircle(c, period) && n > 0
    ensures IsCircle(c, Times(n, period))
  {
    TimesGrow(0, n, period);
    forall t: nat ensures Turns(c, Times(n, period), t) { TurnsOften(c, period, n, t); }
  }

  /** After enough turns, an item comes back to itself. */
  lemma ComesBack(c: nat -> Value, period: nat, j: nat) returns (span: nat)
    requires IsCircle(c, period) && c(0).Array? && j < |c(0).items|
    ensures IsCircle(c, span) && Walk(ToPartner(c), j, span) == j
  {
    ArraysWalk(c, period);
    var a, b := TwoStops(ToPartner(c), |c(0).items|, period, j);
    span := Times(b - a, period);
    TimesGrow(a, b, period);
    StillCircle(c, period, b - a);
    ArraysWalk(c, span);
    var s := Times(a, period);
    assert Times(b, period) == s + span;
    MeetAgain(ToPartner(c), |c(0).items|, span, j, s);
  }

  /** The item that has been followed for `t` steps. */
  ghost function Followed(c: nat -> Value, j: nat, t: nat): Value
  {
    var k := Walk(ToPartner(c), j, t);
    if k < |ItemsOf(c(t))| then ItemsOf(c(t))[k] else Null
  }

  lemma {:induction false} FollowedAt(c: nat -> Value, span: nat, j: nat, t: nat)
    requires IsCircle(c, span) && c(0).Array? && j < |c(0).items|
    ensures Walk(ToPartner(c), j, t) < |ItemsOf(c(t))|
    ensures Followed(c, j, t) == ItemsOf(c(t))[Walk(ToPartner(c), j, t)]
  {
    ArraysWalk(c, span);
    WalkStays(ToPartner(c), |c(0).items|, span, j, t);
    SameKind(c, span, t);
  }

  lemma FollowedEqual(c: nat -> Value, span: nat, j: nat, t: nat)
    requires IsCircle(c, span) && c(0).Array? && j < |c(0).items|
    ensures Equal(Followed(c, j, t), Followed(c, j, t + 1))
  {
    ArraysTurn(c, span, t);
    FollowedAt(c, span, j, t);
    FollowedAt(c, span, j, t + 1);
    var x, y, k := ItemsOf(c(t)), ItemsOf(c(t + 1)), Walk(ToPartner(c), j, t);
    WalkNext(c, j, t);
    PartnerIs(x, y, k);
  }

  lemma WalkNext(c: nat -> Value, j: nat, t: nat)
    ensures Walk(ToPartner(c), j, t + 1) == Partner(ItemsOf(c(t)), ItemsOf(c(t + 1)), Walk(ToPartner(c), j, t))
  {
    PartnerStep(c, t, Walk(ToPartner(c), j, t));
  }

  lemma {:induction false} FollowedRepeats(c: nat -> Value, span: nat, j: nat, t: nat)
    requires IsCircle(c, span) && c(0).Array? && j < |c(0).items| && Walk(ToPartner(c), j, span) == j
    ensures Followed(c, j, t + span) == Followed(c, j, t)
  {
    ArraysWalk(c, span);
    WalkRepeats(ToPartner(c), |c(0).items|, span, j, t);
    assert Turns(c, span, t);
  }

  ghost function Following(c: nat -> Value, j: nat): nat -> Value
  {
    (t: nat) => Followed(c, j, t)
  }

  lemma ItemsTurn(c: nat -> Value, span: nat, j: nat, t: nat)
    requires Equal(Followed(c, j, t), Followed(c, j, t + 1)) && Followed(c, j, t + span) == Followed(c, j, t)
    ensures Turns(Following(c, j), span, t)
  {
  }

  lemma {:induction false} ItemsCircle(c: nat -> Value, span: nat, j: nat)
    requires IsCircle(c, span) && c(0).Array? && j < |c(0).items| && Walk(ToPartner(c), j, span) == j
    ensures IsCircle(Following(c, j), span)
  {
    forall t: nat ensures Turns(Following(c, j), span, t) {
      FollowedEqual(c, span, j, t);
      FollowedRepeats(c, span, j, t);
      ItemsTurn(c, span, j, t);
    }
  }

  // ----- main results

  lemma {:induction false} AllFreeAt(items: seq<Value>)
    requires forall i :: 0 <= i < |items| ==> DuplicateFree(items[i])
    ensures AllDuplicateFree(items)
  {
    if items != [] { AllFreeAt(items[1..]); }
  }

  /** No value on a circle has a duplicate key, at any depth. */
  lemma {:induction false} CircleIsFree(c: nat -> Value, period: nat)
    requires IsCircle(c, period)
    ensures DuplicateFree(c(0))
    decreases c(0)
  {
    if c(0).Object? {
      var entries := c(0).entries;
      CircleKeysDistinct(c, period, 0);
      forall i | 0 <= i < |entries| ensures DuplicateFree(entries[i].value) {
        GetUniqueAt(entries, i);
        var d := (n: nat) => ValueAt(c(n), entries[i].key);
        forall t: nat ensures Turns(d, period, t) { ValuesTurn(c, period, entries[i].key, t); }
        assert d(0) == entries[i].value && entries[i] < c(0);
        CircleIsFree(d, period);
      }
      EntriesFreeAt(entries);
    } else if c(0).Array? {
      forall j | 0 <= j < |c(0).items| ensures DuplicateFree(c(0).items[j]) {
        var span := ComesBack(c, period, j);
        ItemsCircle(c, span, j);
        assert Following(c, j)(0) == c(0).items[j];
        CircleIsFree(Following(c, j), span);
      }
      AllFreeAt(c(0).items);
    }
  }

  /** Values that compare equal do so the other way round exactly when the left one has no duplicate keys. */
  lemma {:induction false} EqualIsSymmetricExactlyWhen(a: Value, b: Value)
    requires Equal(a, b)
    ensures Equal(b, a) <==> DuplicateFree(a)
  {
    if Equal(b, a) {
      var c := (t: nat) => if t % 2 == 0 then a else b;
      forall t: nat ensures Turns(c, 2, t) {}
      CircleIsFree(c, 2);
    } else {
      if DuplicateFree(a) {
        EqualIsSameNormalForm(a, b);
        EqualIsSameNormalForm(b, a);
      }
    }
  }
}
