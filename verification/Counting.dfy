/** Counting elements of a sequence, and what counts say about permutations. */
module Counting {
  import opened Common

  function CountIf<T>(s: seq<T>, p: T -> bool): nat {
    if s == [] then 0 else CountIf(s[..|s| - 1], p) + (if p(s[|s| - 1]) then 1 else 0)
  }

  lemma {:induction false} CountAppend<T>(a: seq<T>, b: seq<T>, p: T -> bool)
    ensures CountIf(a + b, p) == CountIf(a, p) + CountIf(b, p)
  {
    if b == [] {
      assert a + b == a;
    } else {
      assert (a + b)[..|a + b| - 1] == a + b[..|b| - 1];
      CountAppend(a, b[..|b| - 1], p);
    }
  }

  lemma CountSplit<T>(before: seq<T>, x: T, after: seq<T>, p: T -> bool)
    ensures CountIf(before + [x] + after, p) == CountIf(before + after, p) + CountIf([x], p)
  {
    CountAppend(before, after, p);
    CountAppend(before, [x], p);
    CountAppend(before + [x], after, p);
  }

  lemma TakeOut<T>(a: seq<T>, x: T, b: seq<T>) returns (before: seq<T>, after: seq<T>)
    requires multiset(a + [x]) == multiset(b)
    ensures b == before + [x] + after && multiset(a) == multiset(before + after) && |a| == |before + after|
  {
    assert x in multiset(a + [x]);
    var j :| 0 <= j < |b| && b[j] == x;
    before, after := b[..j], b[j + 1..];
    assert b == before + [x] + after;
    assert multiset(a) == multiset(a + [x]) - multiset{x} == multiset(before + after);
    assert |multiset(a)| == |a| && |multiset(before + after)| == |before + after|;
  }

  /** Permuting a sequence keeps every count. */
  lemma {:induction false} CountPermuted<T>(a: seq<T>, b: seq<T>, p: T -> bool)
    requires multiset(a) == multiset(b)
    ensures CountIf(a, p) == CountIf(b, p)
    decreases |a|
  {
    if a == [] {
      assert |multiset(b)| == |b| == 0;
    } else {
      var init, x := a[..|a| - 1], a[|a| - 1];
      assert a == init + [x];
      var before, after := TakeOut(init, x, b);
      CountPermuted(init, before + after, p);
      CountAppend(init, [x], p);
      CountSplit(before, x, after, p);
    }
  }

  /** Some element satisfies `p` iff it is counted, and two positions do iff the count reaches two. */
  lemma {:induction false} CountMeaning<T>(s: seq<T>, p: T -> bool)
    ensures CountIf(s, p) >= 1 <==> exists i :: 0 <= i < |s| && p(s[i])
    ensures CountIf(s, p) >= 2 <==> exists i, j :: 0 <= i < j < |s| && p(s[i]) && p(s[j])
  {
    if s != [] {
      var init := s[..|s| - 1];
      CountMeaning(init, p);
      if CountIf(init, p) >= 2 {
        var i, j :| 0 <= i < j < |init| && p(init[i]) && p(init[j]);
        assert p(s[i]) && p(s[j]);
      } else if CountIf(init, p) == 1 {
        var i :| 0 <= i < |init| && p(init[i]);
        assert p(s[i]);
      }
      if i, j :| 0 <= i < j < |s| && p(s[i]) && p(s[j]) {
        assert p(init[i]);
        if j < |init| { assert p(init[j]); }
      }
    }
  }

  /** Without repetitions, having the same elements is being a permutation. */
  lemma SameElementsPermute<T>(a: seq<T>, b: seq<T>)
    requires NoDuplicates(a) && NoDuplicates(b) && forall x :: x in a <==> x in b
    ensures multiset(a) == multiset(b)
  {
    forall x ensures multiset(a)[x] == multiset(b)[x] {
      OnceEach(a, x);
      OnceEach(b, x);
    }
  }

  lemma {:induction false} OnceEach<T>(s: seq<T>, x: T)
    requires NoDuplicates(s)
    ensures multiset(s)[x] == if x in s then 1 else 0
  {
    if s != [] {
      OnceEach(s[..|s| - 1], x);
      assert s == s[..|s| - 1] + [s[|s| - 1]];
    }
  }

  lemma PermutationsShareElements<T>(a: seq<T>, b: seq<T>, x: T)
    requires multiset(a) == multiset(b)
    ensures x in a <==> x in b
  {
    assert x in a <==> x in multiset(a);
    assert x in b <==> x in multiset(b);
  }

  /** Members of `s` with distinct names in `t` cannot outnumber `t`. */
  lemma {:induction false} InjectionBound<K>(s: set<nat>, name: nat -> K, t: set<K>)
    requires forall i <- s :: name(i) in t
    requires forall i, j :: i in s && j in s && name(i) == name(j) ==> i == j
    ensures |s| <= |t|
  {
    if s != {} {
      var i :| i in s;
      InjectionBound(s - {i}, name, t - {name(i)});
    }
  }

  /** A permutation of a sequence without repetitions has none. */
  lemma DistinctPermuted<T>(a: seq<T>, b: seq<T>)
    requires multiset(a) == multiset(b) && NoDuplicates(a)
    ensures NoDuplicates(b)
  {
    forall i, j | 0 <= i < j < |b| ensures b[i] != b[j] {
      OnceEach(a, b[i]);
      TwiceIn(b, i, j);
    }
  }

  lemma TwiceIn<T>(s: seq<T>, i: nat, j: nat)
    requires i < j < |s|
    ensures s[i] == s[j] ==> multiset(s)[s[i]] >= 2
  {
    var rest := s[..j] + s[j + 1..];
    assert s == s[..j] + [s[j]] + s[j + 1..];
    assert multiset(s) == multiset(rest) + multiset{s[j]};
    assert rest[i] == s[i] && s[i] in rest;
  }
}
