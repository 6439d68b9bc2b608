/** Facts about sequences shared by every component: iteration orders of a map,
    permutations, sums, and the uniqueness of a strictly ascending listing. */
module Sequences {

  ghost predicate NoDup<T>(s: seq<T>) {
    forall i, j | 0 <= i < j < |s| :: s[i] != s[j]
  }

  ghost predicate SameElements<T(!new)>(a: seq<T>, b: seq<T>) {
    forall x :: x in a <==> x in b
  }

  /** `order` lists every key exactly once, in an arbitrary order: what ranging over a Go map may visit. */
  ghost predicate IterationOf<T(!new)>(order: seq<T>, keys: set<T>) {
    NoDup(order) && forall x :: x in order <==> x in keys
  }

  ghost predicate Ascending<T>(less: (T, T) -> bool, s: seq<T>) {
    forall i, j | 0 <= i < j < |s| :: less(s[i], s[j])
  }

  ghost predicate Asymmetric<T>(less: (T, T) -> bool, s: seq<T>) {
    forall i, j | 0 <= i < |s| && 0 <= j < |s| :: !(less(s[i], s[j]) && less(s[j], s[i]))
  }

  /** A strictly ascending listing is determined by its set of elements. */
  lemma {:induction false} AscendingUnique<T(!new)>(less: (T, T) -> bool, a: seq<T>, b: seq<T>)
    requires Ascending(less, a) && Ascending(less, b) && Asymmetric(less, a)
    requires SameElements(a, b)
    ensures a == b
    decreases |a|
  {
    if b != [] {
      assert b[0] in b && b[0] in a;
    }
    if a != [] {
      assert a[0] in a && a[0] in b;
      var j :| 0 <= j < |b| && b[j] == a[0];
      assert b[0] in b && b[0] in a;
      var i :| 0 <= i < |a| && a[i] == b[0];
      assert i == 0 && j == 0;
      var a', b' := a[1..], b[1..];
      forall x ensures x in a' <==> x in b' {
        if x in a' {
          var p :| 0 <= p < |a'| && a'[p] == x;
          assert a[p + 1] == x && less(a[0], a[p + 1]);
          assert x in b;
          assert x != b[0];
        }
        if x in b' {
          var p :| 0 <= p < |b'| && b'[p] == x;
          assert b[p + 1] == x && less(b[0], b[p + 1]);
          assert x in a;
          assert x != a[0];
        }
      }
      AscendingUnique(less, a', b');
      assert a == [a[0]] + a' && b == [b[0]] + b';
    }
  }

  lemma {:induction false} NoDupMultiplicity<T>(s: seq<T>, x: T)
    requires NoDup(s)
    ensures multiset(s)[x] == if x in s then 1 else 0
  {
    if s != [] {
      var s' := s[..|s| - 1];
      NoDupMultiplicity(s', x);
      assert s == s' + [s[|s| - 1]];
    }
  }

  lemma PermutationNoDup<T>(a: seq<T>, b: seq<T>)
    requires NoDup(a) && multiset(a) == multiset(b)
    ensures NoDup(b)
  {
    forall i, j | 0 <= i < j < |b| ensures b[i] != b[j] {
      if b[i] == b[j] {
        var l, r := b[..j], b[j..];
        assert b == l + r && l[i] == b[i] && r[0] == b[i];
        assert b[i] in l && b[i] in r;
        assert multiset(b)[b[i]] == multiset(l)[b[i]] + multiset(r)[b[i]];
        NoDupMultiplicity(a, b[i]);
      }
    }
  }

  lemma NoDupConcat<T>(a: seq<T>, b: seq<T>)
    requires NoDup(a) && NoDup(b) && forall x | x in a :: x !in b
    ensures NoDup(a + b)
  {
    forall i, j | 0 <= i < j < |a + b| ensures (a + b)[i] != (a + b)[j] {
      if i < |a| <= j {
        assert a[i] in a && b[j - |a|] in b;
      }
    }
  }

  lemma SameElementsOfPermutation<T(!new)>(a: seq<T>, b: seq<T>)
    requires multiset(a) == multiset(b)
    ensures SameElements(a, b) && |a| == |b|
  {
    assert forall x :: x in a <==> x in multiset(a);
    assert forall x :: x in b <==> x in multiset(b);
    assert |multiset(a)| == |a| && |multiset(b)| == |b|;
  }

  lemma NoDupPermutation<T(!new)>(a: seq<T>, b: seq<T>)
    requires NoDup(a) && NoDup(b) && SameElements(a, b)
    ensures multiset(a) == multiset(b)
  {
    forall x ensures multiset(a)[x] == multiset(b)[x] {
      NoDupMultiplicity(a, x);
      NoDupMultiplicity(b, x);
    }
  }

  function Sum<T>(f: T -> nat, s: seq<T>): nat {
    if s == [] then 0 else f(s[0]) + Sum(f, s[1..])
  }

  lemma {:induction false} SumAgree<T>(f: T -> nat, g: T -> nat, s: seq<T>)
    requires forall x | x in s :: f(x) == g(x)
    ensures Sum(f, s) == Sum(g, s)
  {
    if s != [] {
      assert forall x | x in s[1..] :: x in s;
      SumAgree(f, g, s[1..]);
    }
  }

  /** Changing a summand at one point of a repetition-free list changes the sum by the difference. */
  lemma {:induction false} SumPoint<T>(f: T -> nat, g: T -> nat, s: seq<T>, x: T)
    requires NoDup(s) && x in s && forall y | y != x :: f(y) == g(y)
    ensures Sum(f, s) + g(x) == Sum(g, s) + f(x)
  {
    if s[0] == x {
      assert forall y | y in s[1..] :: y != x;
      SumAgree(f, g, s[1..]);
    } else {
      SumPoint(f, g, s[1..], x);
    }
  }

  lemma {:induction false} SumConcat<T>(f: T -> nat, a: seq<T>, b: seq<T>)
    ensures Sum(f, a + b) == Sum(f, a) + Sum(f, b)
  {
    if a == [] {
      assert a + b == b;
    } else {
      assert (a + b)[1..] == a[1..] + b;
      SumConcat(f, a[1..], b);
    }
  }

  lemma SumWithout<T>(f: T -> nat, l: seq<T>, x: T, r: seq<T>)
    ensures Sum(f, l + [x] + r) == f(x) + Sum(f, l + r)
  {
    SumConcat(f, l + [x], r);
    SumConcat(f, l, [x]);
    SumConcat(f, l, r);
  }

  /** A sum does not depend on the order in which it is taken. */
  lemma {:induction false} SumPermutation<T>(f: T -> nat, a: seq<T>, b: seq<T>)
    requires multiset(a) == multiset(b)
    ensures Sum(f, a) == Sum(f, b)
    decreases |a|
  {
    if a == [] {
      assert |multiset(b)| == 0;
    } else {
      var x, a' := a[0], a[1..];
      assert a == [x] + a';
      assert x in multiset(b);
      var j :| 0 <= j < |b| && b[j] == x;
      var l, r := b[..j], b[j + 1..];
      assert b == l + [x] + r;
      assert multiset(l + r) == multiset(b) - multiset{x};
      assert multiset(a') == multiset(a) - multiset{x};
      SumPermutation(f, a', l + r);
      SumWithout(f, l, x, r);
    }
  }

  /** Every finite set has an iteration order beginning with any chosen element. */
  lemma {:induction false} OrderFrom<T(!new)>(first: T, keys: set<T>) returns (order: seq<T>)
    requires first in keys
    ensures IterationOf(order, keys) && order[0] == first
    decreases keys
  {
    var rest := keys - {first};
    if rest == {} {
      order := [first];
    } else {
      var next :| next in rest;
      var tail := OrderFrom(next, rest);
      order := [first] + tail;
    }
  }
}
