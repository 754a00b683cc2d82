/** Sums of multisets, and sequences that list a set in some order. */
module Tallies {
  function Total<T>(parts: seq<multiset<T>>): multiset<T>
  {
    if parts == [] then multiset{} else Total(parts[..|parts| - 1]) + parts[|parts| - 1]
  }

  function Without<T>(s: seq<T>, k: nat): (r: seq<T>)
    requires k < |s|
    ensures |r| == |s| - 1
  {
    s[..k] + s[k + 1..]
  }

  lemma WithoutCounts<T>(s: seq<T>, k: nat)
    requires k < |s|
    ensures multiset(s) == multiset(Without(s, k)) + multiset{s[k]}
  {
    assert s == s[..k] + [s[k]] + s[k + 1..];
  }

  /** Taking out an element leaves the last one last, or takes it. */
  lemma WithoutLast<T>(s: seq<T>, k: nat)
    requires k < |s|
    ensures k == |s| - 1 ==> Without(s, k) == s[..|s| - 1]
    ensures k < |s| - 1 ==> Without(s, k)[..|s| - 2] == Without(s[..|s| - 1], k) && Without(s, k)[|s| - 2] == s[|s| - 1]
  {
  }

  lemma {:induction false} TotalWithout<T>(parts: seq<multiset<T>>, k: nat)
    requires k < |parts|
    ensures Total(parts) == Total(Without(parts, k)) + parts[k]
  {
    WithoutLast(parts, k);
    if k < |parts| - 1 {
      TotalWithout(parts[..|parts| - 1], k);
    }
  }

  lemma CancelOne<T>(a: multiset<T>, b: multiset<T>, x: T)
    requires a + multiset{x} == b + multiset{x}
    ensures a == b
  {
    assert a == (a + multiset{x}) - multiset{x};
    assert b == (b + multiset{x}) - multiset{x};
  }

  /** Where the last element of `a` is in a sequence of the same elements. */
  lemma LastIn<T>(a: seq<T>, b: seq<T>) returns (k: nat)
    requires multiset(a) == multiset(b) && a != []
    ensures k < |b| && b[k] == a[|a| - 1] && multiset(a[..|a| - 1]) == multiset(Without(b, k))
  {
    var last := |a| - 1;
    assert a[last] in multiset(b);
    k :| 0 <= k < |b| && b[k] == a[last];
    WithoutLast(a, last);
    WithoutCounts(a, last);
    WithoutCounts(b, k);
    CancelOne(multiset(a[..last]), multiset(Without(b, k)), a[last]);
  }

  /** A sum does not depend on the order of its parts. */
  lemma {:induction false} TotalPermuted<T>(a: seq<multiset<T>>, b: seq<multiset<T>>)
    requires multiset(a) == multiset(b)
    ensures Total(a) == Total(b)
    decreases |a|
  {
    if a == [] {
      assert |multiset(b)| == |b|;
    } else {
      var k := LastIn(a, b);
      TotalPermuted(a[..|a| - 1], Without(b, k));
      TotalWithout(b, k);
    }
  }

  /** Values that go with the same keys are the same values. */
  lemma {:induction false} AlikeByKey<K, V>(keys: seq<K>, values: seq<V>, keys': seq<K>, values': seq<V>)
    requires |keys| == |values| && |keys'| == |values'| && multiset(keys) == multiset(keys')
    requires forall i, j :: 0 <= i < |keys| && 0 <= j < |keys'| && keys[i] == keys'[j] ==> values[i] == values'[j]
    ensures multiset(values) == multiset(values')
    decreases |keys|
  {
    if keys == [] {
      assert |multiset(keys')| == |keys'|;
    } else {
      var last := |keys| - 1;
      var k := LastIn(keys, keys');
      AlikeByKey(keys[..last], values[..last], Without(keys', k), Without(values', k));
      LastOne(values);
      WithoutCounts(values', k);
    }
  }

  /** `s` lists the elements of `all`, each of them once. */
  predicate Enumerates<T(==)>(s: seq<T>, all: set<T>)
  {
    && (forall i, j :: 0 <= i < j < |s| ==> s[i] != s[j])
    && (forall i :: 0 <= i < |s| ==> s[i] in all)
    && (forall x :: x in all ==> x in s)
  }

  lemma EnumeratesOneMore<T>(s: seq<T>, all: set<T>, x: T)
    requires Enumerates(s, all) && x !in all
    ensures Enumerates(s + [x], all + {x})
  {
    forall y | y in all + {x} ensures y in s + [x] {
      if y in s { var k :| 0 <= k < |s| && s[k] == y; assert (s + [x])[k] == y; }
      else { assert (s + [x])[|s|] == y; }
    }
  }

  lemma EnumeratesBoth<T>(s: seq<T>, t: seq<T>, a: set<T>, b: set<T>)
    requires Enumerates(s, a) && Enumerates(t, b) && a !! b
    ensures Enumerates(s + t, a + b)
  {
    forall y | y in a + b ensures y in s + t {
      if y in a { var k :| 0 <= k < |s| && s[k] == y; assert (s + t)[k] == y; }
      else { var k :| 0 <= k < |t| && t[k] == y; assert (s + t)[|s| + k] == y; }
    }
  }

  lemma {:induction false} EnumerationCounts<T>(s: seq<T>, all: set<T>)
    requires Enumerates(s, all)
    ensures multiset(s) == multiset(all)
  {
    if s == [] {
      assert all == {};
    } else {
      var n := |s| - 1;
      assert s == s[..n] + [s[n]];
      EnumerationCounts(s[..n], all - {s[n]});
    }
  }

  /** Distinct elements of a set are no more than it has. */
  lemma {:induction false} DistinctFits<T>(s: seq<T>, within: set<T>)
    requires forall i, j :: 0 <= i < j < |s| ==> s[i] != s[j]
    requires forall i :: 0 <= i < |s| ==> s[i] in within
    ensures |s| <= |within|
  {
    if s != [] {
      DistinctFits(s[1..], within - {s[0]});
    }
  }

  ghost function UnionAll<T>(base: set<T>, parts: seq<set<T>>): set<T>
  {
    if parts == [] then base else UnionAll(base, parts[..|parts| - 1]) + parts[|parts| - 1]
  }

  lemma {:induction false} UnionHas<T>(base: set<T>, parts: seq<set<T>>, x: T)
    ensures x in UnionAll(base, parts) <==> x in base || exists k :: 0 <= k < |parts| && x in parts[k]
  {
    if parts != [] {
      UnionHas(base, parts[..|parts| - 1], x);
      if k :| 0 <= k < |parts| && x in parts[k] {
        if k < |parts| - 1 { assert x in parts[..|parts| - 1][k]; }
      }
    }
  }

  function Counted<T>(parts: seq<set<T>>): seq<multiset<T>>
  {
    seq(|parts|, k requires 0 <= k < |parts| => multiset(parts[k]))
  }

  lemma DisjointUnion<T>(a: set<T>, b: set<T>)
    requires a !! b
    ensures multiset(a + b) == multiset(a) + multiset(b)
  {
  }

  /** The union of disjoint sets holds each of their elements once. */
  lemma {:induction false} UnionCounts<T>(base: set<T>, parts: seq<set<T>>)
    requires forall k :: 0 <= k < |parts| ==> parts[k] !! base
    requires forall i, k :: 0 <= i < k < |parts| ==> parts[i] !! parts[k]
    ensures multiset(UnionAll(base, parts)) == multiset(base) + Total(Counted(parts))
  {
    if parts != [] {
      var n := |parts| - 1;
      var before := parts[..n];
      UnionCounts(base, before);
      forall x | x in UnionAll(base, before) ensures x !in parts[n] {
        UnionHas(base, before, x);
        if k :| 0 <= k < n && x in before[k] { assert parts[k] !! parts[n]; }
      }
      DisjointUnion(UnionAll(base, before), parts[n]);
      assert Counted(parts)[..n] == Counted(before);
    }
  }

  // ----- images

  ghost function Image<A, B>(f: A -> B, all: multiset<A>): multiset<B>
    decreases |all|
  {
    if all == multiset{} then multiset{}
    else var x :| x in all; Image(f, all - multiset{x}) + multiset{f(x)}
  }

  lemma TakeBoth<T>(all: multiset<T>, x: T, y: T)
    ensures all - multiset{x} - multiset{y} == all - multiset{y} - multiset{x}
  {
  }

  lemma AddBoth<T>(all: multiset<T>, p: multiset<T>, q: multiset<T>)
    ensures all + p + q == all + q + p && all + p + q == all + (p + q)
  {
  }

  lemma TakeFromSum<T>(a: multiset<T>, b: multiset<T>, x: T)
    requires x in b
    ensures (a + b) - multiset{x} == a + (b - multiset{x})
  {
  }

  lemma {:induction false} ImageOfOne<A, B>(f: A -> B, all: multiset<A>, x: A)
    requires x in all
    ensures Image(f, all) == Image(f, all - multiset{x}) + multiset{f(x)}
    decreases |all|
  {
    var y :| y in all && Image(f, all) == Image(f, all - multiset{y}) + multiset{f(y)};
    if y != x {
      ImageOfOne(f, all - multiset{y}, x);
      ImageOfOne(f, all - multiset{x}, y);
      TakeBoth(all, x, y);
      AddBoth(Image(f, all - multiset{x} - multiset{y}), multiset{f(x)}, multiset{f(y)});
    }
  }

  lemma {:induction false} ImageSum<A, B>(f: A -> B, a: multiset<A>, b: multiset<A>)
    ensures Image(f, a + b) == Image(f, a) + Image(f, b)
    decreases |b|
  {
    if b == multiset{} {
      assert a + b == a;
    } else {
      var x :| x in b;
      ImageSum(f, a, b - multiset{x});
      ImageOfOne(f, b, x);
      ImageOfOne(f, a + b, x);
      TakeFromSum(a, b, x);
      AddBoth(Image(f, a), Image(f, b - multiset{x}), multiset{f(x)});
    }
  }

  lemma {:induction false} ImageMore<A, B>(f: A -> B, all: multiset<A>, x: A)
    ensures Image(f, all + multiset{x}) == Image(f, all) + multiset{f(x)}
  {
    ImageOfOne(f, all + multiset{x}, x);
    assert all + multiset{x} - multiset{x} == all;
  }

  function Mapped<A, B>(f: A -> B, s: seq<A>): seq<B>
  {
    seq(|s|, i requires 0 <= i < |s| => f(s[i]))
  }

  lemma MappedSum<A, B>(f: A -> B, s: seq<A>, t: seq<A>)
    ensures Mapped(f, s + t) == Mapped(f, s) + Mapped(f, t)
  {
  }

  lemma MappedJoin<A, B>(f: A -> B, s: seq<A>, t: seq<A>, u: seq<A>)
    ensures Mapped(f, s + t + u) == Mapped(f, s) + Mapped(f, t) + Mapped(f, u)
  {
    MappedSum(f, s + t, u);
    MappedSum(f, s, t);
  }

  lemma LastOne<T>(s: seq<T>)
    requires s != []
    ensures multiset(s) == multiset(s[..|s| - 1]) + multiset{s[|s| - 1]}
  {
    assert s == s[..|s| - 1] + [s[|s| - 1]];
  }

  lemma {:induction false} ImageOfSeq<A, B>(f: A -> B, s: seq<A>)
    ensures Image(f, multiset(s)) == multiset(Mapped(f, s))
  {
    if s != [] {
      var n := |s| - 1;
      LastOne(s);
      ImageOfSeq(f, s[..n]);
      ImageMore(f, multiset(s[..n]), s[n]);
      MappedLast(f, s);
    }
  }

  lemma MappedLast<A, B>(f: A -> B, s: seq<A>)
    requires s != []
    ensures multiset(Mapped(f, s)) == multiset(Mapped(f, s[..|s| - 1])) + multiset{f(s[|s| - 1])}
  {
    LastOne(Mapped(f, s));
    assert Mapped(f, s)[..|s| - 1] == Mapped(f, s[..|s| - 1]);
  }

  lemma {:induction false} ImageOfTotal<A, B>(f: A -> B, parts: seq<multiset<A>>, images: seq<multiset<B>>)
    requires |parts| == |images| && forall k :: 0 <= k < |parts| ==> images[k] == Image(f, parts[k])
    ensures Image(f, Total(parts)) == Total(images)
  {
    if parts != [] {
      var n := |parts| - 1;
      ImageOfTotal(f, parts[..n], images[..n]);
      ImageSum(f, Total(parts[..n]), parts[n]);
    }
  }

  lemma {:induction false} ImageSize<A, B>(f: A -> B, all: multiset<A>)
    ensures |Image(f, all)| == |all|
    decreases |all|
  {
    if all != multiset{} {
      var x :| x in all && Image(f, all) == Image(f, all - multiset{x}) + multiset{f(x)};
      ImageSize(f, all - multiset{x});
    }
  }
}
