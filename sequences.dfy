/**
 * The list idioms the scanner uses: order-preserving de-duplication through a
 * `seen` set, and sorting (`sorted(...)`, `list.sort()`).
 */
module Sequences {

  predicate NoDup<T(==)>(s: seq<T>)
  {
    forall i, j | 0 <= i < j < |s| :: s[i] != s[j]
  }

  /** The first-occurrence subsequence of `s`: each element kept where it is first seen. */
  function Dedup<T(==)>(s: seq<T>): (r: seq<T>)
    ensures NoDup(r)
    ensures forall i | 0 <= i < |r| :: r[i] in s
    ensures forall i | 0 <= i < |s| :: s[i] in r
  {
    if s == [] then []
    else
      var d := Dedup(s[..|s| - 1]);
      assert s == s[..|s| - 1] + [s[|s| - 1]];
      if s[|s| - 1] in d then d else d + [s[|s| - 1]]
  }

  /** The last element of a list without duplicates is not among the others, which have no duplicates either. */
  lemma NoDupSplitLast<T>(s: seq<T>)
    requires s != [] && NoDup(s)
    ensures NoDup(s[..|s| - 1]) && s[|s| - 1] !in s[..|s| - 1]
  {
    var init := s[..|s| - 1];
    forall k | 0 <= k < |init|
      ensures init[k] == s[k]
    {
    }
  }

  /** An element other than the last one is in the list without its last element. */
  lemma InInit<T>(s: seq<T>, x: T)
    requires x in s && x != s[|s| - 1]
    ensures x in s[..|s| - 1]
  {
    var k :| 0 <= k < |s| && s[k] == x;
    assert s[..|s| - 1][k] == x;
  }

  lemma PrefixStep<T>(s: seq<T>, j: nat)
    requires j < |s|
    ensures s[..j + 1] == s[..j] + [s[j]]
  {
  }

  /** One step of the `seen`-set loop: the next element is kept exactly when it is new. */
  lemma DedupStep<T>(s: seq<T>, i: nat)
    requires i < |s|
    ensures Dedup(s[..i + 1]) == if s[i] in Dedup(s[..i]) then Dedup(s[..i]) else Dedup(s[..i]) + [s[i]]
  {
    assert s[..i + 1][..i] == s[..i];
  }

  /** `f` applied to every element, in order. */
  function Map<A, B>(f: A -> B, xs: seq<A>): (ys: seq<B>)
    ensures |ys| == |xs|
    ensures forall k | 0 <= k < |xs| :: ys[k] == f(xs[k])
  {
    seq(|xs|, k requires 0 <= k < |xs| => f(xs[k]))
  }

  lemma MapAppend<A, B>(f: A -> B, a: seq<A>, b: seq<A>)
    ensures Map(f, a + b) == Map(f, a) + Map(f, b)
  {
    var whole, parts := Map(f, a + b), Map(f, a) + Map(f, b);
    forall k | 0 <= k < |whole|
      ensures whole[k] == parts[k]
    {
      if k < |a| {
        assert (a + b)[k] == a[k];
      } else {
        assert (a + b)[k] == b[k - |a|];
      }
    }
  }

  /** The lists of `xss` joined end to end. */
  function Concat<T>(xss: seq<seq<T>>): seq<T>
  {
    if xss == [] then [] else Concat(xss[..|xss| - 1]) + xss[|xss| - 1]
  }

  lemma {:induction false} ConcatAppend<T>(a: seq<seq<T>>, b: seq<seq<T>>)
    ensures Concat(a + b) == Concat(a) + Concat(b)
    decreases |b|
  {
    if b != [] {
      var init := b[..|b| - 1];
      assert (a + b)[..|a + b| - 1] == a + init;
      assert (a + b)[|a + b| - 1] == b[|b| - 1];
      ConcatAppend(a, init);
      assert Concat(b) == Concat(init) + b[|b| - 1];
    } else {
      assert a + b == a;
    }
  }

  /** Joining `n` lists of at most `b` elements each gives at most `n * b` elements. */
  lemma {:induction false} ConcatLengthBound<T>(xss: seq<seq<T>>, b: nat)
    requires forall i | 0 <= i < |xss| :: |xss[i]| <= b
    ensures |Concat(xss)| <= |xss| * b
  {
    if xss != [] {
      ConcatLengthBound(xss[..|xss| - 1], b);
      assert |Concat(xss)| == |Concat(xss[..|xss| - 1])| + |xss[|xss| - 1]|;
      assert (|xss| - 1) * b + b == |xss| * b;
    }
  }

  /** Joining one-element lists gives back the list of their elements. */
  lemma {:induction false} ConcatSingletons<T>(xss: seq<seq<T>>, s: seq<T>)
    requires |xss| == |s| && forall i | 0 <= i < |s| :: xss[i] == [s[i]]
    ensures Concat(xss) == s
  {
    if s != [] {
      ConcatSingletons(xss[..|xss| - 1], s[..|s| - 1]);
      assert s == s[..|s| - 1] + [s[|s| - 1]];
    }
  }

  /** Empty lists contribute nothing to the concatenation. */
  lemma ConcatDropEmpty<T>(a: seq<seq<T>>, b: seq<seq<T>>)
    ensures Concat(a + [[]] + b) == Concat(a + b)
  {
    ConcatAppend(a + [[]], b);
    ConcatAppend(a, b);
    assert (a + [[]])[..|a|] == a;
  }

  lemma ConcatStep<T>(xss: seq<seq<T>>, k: nat)
    requires k < |xss|
    ensures Concat(xss[..k + 1]) == Concat(xss[..k]) + xss[k]
  {
    assert xss[..k + 1][..k] == xss[..k];
  }

  lemma {:induction false} ConcatMembers<T>(xss: seq<seq<T>>, x: T)
    ensures x in Concat(xss) <==> exists k | 0 <= k < |xss| :: x in xss[k]
  {
    if xss != [] {
      var init, last := xss[..|xss| - 1], xss[|xss| - 1];
      assert Concat(xss) == Concat(init) + last;
      ConcatMembers(init, x);
      if x in Concat(init) {
        var k :| 0 <= k < |init| && x in init[k];
        assert xss[k] == init[k];
      }
      if exists k | 0 <= k < |xss| :: x in xss[k] {
        var k :| 0 <= k < |xss| && x in xss[k];
        if k < |init| {
          assert init[k] == xss[k];
          assert x in Concat(init);
        } else {
          assert x in last;
        }
      }
    }
  }

  /** The position at which `x` first occurs in `s`. */
  function FirstIndex<T(==)>(s: seq<T>, x: T): (k: nat)
    requires x in s
    ensures k < |s| && s[k] == x && x !in s[..k]
  {
    if s[0] == x then 0
    else
      var k := FirstIndex(s[1..], x);
      assert s[..k + 1] == [s[0]] + s[1..][..k];
      k + 1
  }

  lemma FirstIndexUnique<T>(s: seq<T>, x: T, k: nat)
    requires k < |s| && s[k] == x && x !in s[..k]
    ensures FirstIndex(s, x) == k
  {
  }

  /** Appending an element does not move the first occurrence of anything already present. */
  lemma FirstIndexAppend<T>(s: seq<T>, y: T, x: T)
    requires x in s
    ensures FirstIndex(s + [y], x) == FirstIndex(s, x)
  {
    var k := FirstIndex(s, x);
    assert (s + [y])[..k] == s[..k];
    FirstIndexUnique(s + [y], x, k);
  }

  /**
   * De-duplication keeps relative order: of two kept elements, the one that
   * comes first in the result was first seen earlier in the input.
   */
  lemma {:induction false} DedupKeepsOrder<T>(s: seq<T>, i: nat, j: nat)
    requires i < j < |Dedup(s)|
    ensures FirstIndex(s, Dedup(s)[i]) < FirstIndex(s, Dedup(s)[j])
  {
    var s' := s[..|s| - 1];
    var y := s[|s| - 1];
    var d := Dedup(s');
    assert s == s' + [y];
    if y in d {
      DedupKeepsOrder(s', i, j);
      FirstIndexAppend(s', y, d[i]);
      FirstIndexAppend(s', y, d[j]);
    } else if j < |d| {
      DedupKeepsOrder(s', i, j);
      FirstIndexAppend(s', y, d[i]);
      FirstIndexAppend(s', y, d[j]);
    } else {
      assert Dedup(s)[j] == y && y !in s';
      FirstIndexUnique(s, y, |s'|);
      FirstIndexAppend(s', y, d[i]);
    }
  }

  /** On a list that has no duplicates, de-duplication changes nothing. */
  lemma {:induction false} DedupOfDistinct<T>(s: seq<T>)
    requires NoDup(s)
    ensures Dedup(s) == s
  {
    if s != [] {
      var s' := s[..|s| - 1];
      assert NoDup(s');
      DedupOfDistinct(s');
      assert s[|s| - 1] !in s';
      assert s == s' + [s[|s| - 1]];
    }
  }

  /** A list with no duplicates holds each value at most once. */
  lemma {:induction false} DistinctCounts<T>(s: seq<T>, x: T)
    requires NoDup(s)
    ensures multiset(s)[x] <= 1
  {
    if s != [] {
      var s' := s[..|s| - 1];
      assert s == s' + [s[|s| - 1]];
      assert NoDup(s');
      DistinctCounts(s', x);
      assert s[|s| - 1] !in s';
    }
  }

  /** Rearranging a list with no duplicates gives a list with no duplicates. */
  lemma DistinctPermutation<T>(a: seq<T>, b: seq<T>)
    requires NoDup(a) && multiset(a) == multiset(b)
    ensures NoDup(b)
  {
    forall i, j | 0 <= i < j < |b| ensures b[i] != b[j] {
      if b[i] == b[j] {
        var x := b[i];
        assert b == b[..j] + [b[j]] + b[j + 1..];
        assert x in b[..j];
        assert multiset(b[..j])[x] >= 1;
        assert multiset(b)[x] >= 2;
        DistinctCounts(a, x);
      }
    }
  }

  predicate Sorted(s: seq<int>)
  {
    forall i, j | 0 <= i < j < |s| :: s[i] <= s[j]
  }

  predicate StrictlyIncreasing(s: seq<int>)
  {
    forall i, j | 0 <= i < j < |s| :: s[i] < s[j]
  }

  lemma SortedTail(s: seq<int>)
    requires Sorted(s) && s != []
    ensures Sorted(s[1..]) && (forall i | 0 <= i < |s| - 1 :: s[0] <= s[1..][i])
  {
  }

  lemma SortedCons(a: int, t: seq<int>)
    requires Sorted(t) && (t == [] || a <= t[0])
    ensures Sorted([a] + t)
  {
  }

  lemma MultisetCons(a: int, s: seq<int>)
    ensures multiset([a] + s) == multiset{a} + multiset(s)
  {
  }

  /** Places `x` into a sorted list. */
  function Insert(x: int, s: seq<int>): (r: seq<int>)
    requires Sorted(s)
    ensures Sorted(r)
    ensures multiset(r) == multiset(s) + multiset{x}
    ensures r != [] && r[0] == if s == [] || x <= s[0] then x else s[0]
  {
    if s == [] || x <= s[0] then
      SortedCons(x, s);
      [x] + s
    else
      SortedTail(s);
      var t := Insert(x, s[1..]);
      InsertAfterHead(x, s, t);
      [s[0]] + t
  }

  lemma InsertAfterHead(x: int, s: seq<int>, t: seq<int>)
    requires Sorted(s) && s != [] && s[0] < x
    requires Sorted(t) && multiset(t) == multiset(s[1..]) + multiset{x}
    requires t != [] && t[0] == if s[1..] == [] || x <= s[1] then x else s[1]
    ensures Sorted([s[0]] + t)
    ensures multiset([s[0]] + t) == multiset(s) + multiset{x}
  {
    SortedCons(s[0], t);
    MultisetCons(s[0], s[1..]);
    MultisetCons(s[0], t);
    assert [s[0]] + s[1..] == s;
  }

  /** Python's `sorted(xs)` on integers (equally the result of `xs.sort()`). */
  function SortInts(s: seq<int>): (r: seq<int>)
    ensures Sorted(r)
    ensures multiset(r) == multiset(s)
  {
    if s == [] then []
    else
      assert s == s[..|s| - 1] + [s[|s| - 1]];
      Insert(s[|s| - 1], SortInts(s[..|s| - 1]))
  }

  lemma SortedHeadIsLeast(a: seq<int>, x: int)
    requires Sorted(a) && x in a
    ensures a[0] <= x
  {
    var k :| 0 <= k < |a| && a[k] == x;
  }

  lemma SortedSameHead(a: seq<int>, b: seq<int>)
    requires Sorted(a) && Sorted(b) && multiset(a) == multiset(b) && a != []
    ensures b != [] && a[0] == b[0]
  {
    assert a[0] in multiset(b);
    assert b[0] in multiset(a);
    SortedHeadIsLeast(b, a[0]);
    SortedHeadIsLeast(a, b[0]);
  }

  lemma MultisetTail(a: seq<int>)
    requires a != []
    ensures multiset(a[1..]) == multiset(a) - multiset{a[0]}
  {
    assert a == [a[0]] + a[1..];
  }

  /** A sorted arrangement of a multiset is unique. */
  lemma {:induction false} SortedUnique(a: seq<int>, b: seq<int>)
    requires Sorted(a) && Sorted(b) && multiset(a) == multiset(b)
    ensures a == b
    decreases |a|
  {
    if a == [] {
      assert |b| == |multiset(b)| == 0;
    } else {
      SortedSameHead(a, b);
      MultisetTail(a);
      MultisetTail(b);
      SortedUnique(a[1..], b[1..]);
      assert a == [a[0]] + a[1..] && b == [b[0]] + b[1..];
    }
  }

  /** The sorted result does not depend on the order in which elements were collected. */
  lemma SortOrderIndependent(a: seq<int>, b: seq<int>)
    requires multiset(a) == multiset(b)
    ensures SortInts(a) == SortInts(b)
  {
    SortedUnique(SortInts(a), SortInts(b));
  }

  /** `sorted(set(xs))`: sorting a duplicate-free list gives a strictly increasing list. */
  lemma SortDistinct(s: seq<int>)
    requires NoDup(s)
    ensures StrictlyIncreasing(SortInts(s))
  {
    DistinctPermutation(s, SortInts(s));
  }

  /** Sorting keeps exactly the elements it was given. */
  lemma SortMembers(s: seq<int>, x: int)
    ensures x in SortInts(s) <==> x in s
  {
    assert x in SortInts(s) <==> x in multiset(SortInts(s));
  }

  /** A non-empty list holds its first element. */
  lemma HeadIn<T>(s: seq<T>)
    ensures s != [] ==> s[0] in s
  {
  }

  lemma IncreasingHead(a: seq<int>, x: int)
    requires StrictlyIncreasing(a) && x in a
    ensures a[0] <= x
    ensures x != a[0] ==> x in a[1..]
  {
    var k :| 0 <= k < |a| && a[k] == x;
    if k > 0 {
      assert a[1..][k - 1] == x;
    }
  }

  /** A strictly increasing list is determined by its members: `sorted(set(xs))` depends only on the set. */
  lemma {:induction false} IncreasingUnique(a: seq<int>, b: seq<int>)
    requires StrictlyIncreasing(a) && StrictlyIncreasing(b)
    requires forall x :: x in a <==> x in b
    ensures a == b
    decreases |a|
  {
    if a == [] {
      HeadIn(b);
    } else {
      assert a[0] in a && b[0] in a;
      IncreasingHead(b, a[0]);
      IncreasingHead(a, b[0]);
      forall x
        ensures x in a[1..] <==> x in b[1..]
      {
        if x in a[1..] {
          var k :| 0 <= k < |a| - 1 && a[1..][k] == x;
          assert a[k + 1] == x;
          IncreasingHead(b, x);
        }
        if x in b[1..] {
          var k :| 0 <= k < |b| - 1 && b[1..][k] == x;
          assert b[k + 1] == x;
          IncreasingHead(a, x);
        }
      }
      IncreasingUnique(a[1..], b[1..]);
      assert a == [a[0]] + a[1..] && b == [b[0]] + b[1..];
    }
  }

  /** De-duplication keeps exactly the members of its input. */
  lemma DedupMembers<T>(s: seq<T>, x: T)
    ensures x in Dedup(s) <==> x in s
  {
    if x in s {
      var i :| 0 <= i < |s| && s[i] == x;
    }
    if x in Dedup(s) {
      var i :| 0 <= i < |Dedup(s)| && Dedup(s)[i] == x;
    }
  }
}
