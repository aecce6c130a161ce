/** A stable sort by an abstract comparison, and when its result does not depend on the order of its input. */
module Sorting {

  ghost predicate TotalPreorder<T(!new)>(le: (T, T) -> bool) {
    && (forall a, b :: le(a, b) || le(b, a))
    && (forall a, b, c :: le(a, b) && le(b, c) ==> le(a, c))
  }

  ghost predicate Antisymmetric<T(!new)>(le: (T, T) -> bool) {
    forall a, b :: le(a, b) && le(b, a) ==> a == b
  }

  ghost predicate Sorted<T>(s: seq<T>, le: (T, T) -> bool) {
    forall i, j :: 0 <= i < j < |s| ==> le(s[i], s[j])
  }

  /** Places `x` behind every element that is not greater. */
  function Insert<T>(s: seq<T>, x: T, le: (T, T) -> bool): seq<T> {
    if s == [] then [x]
    else if le(s[|s| - 1], x) then s + [x]
    else Insert(s[..|s| - 1], x, le) + [s[|s| - 1]]
  }

  function SortBy<T>(s: seq<T>, le: (T, T) -> bool): seq<T> {
    if s == [] then [] else Insert(SortBy(s[..|s| - 1], le), s[|s| - 1], le)
  }

  lemma {:induction false} InsertPermutes<T>(s: seq<T>, x: T, le: (T, T) -> bool)
    ensures multiset(Insert(s, x, le)) == multiset(s) + multiset{x}
  {
    if s != [] {
      var init, last := s[..|s| - 1], s[|s| - 1];
      assert s == init + [last];
      if !le(last, x) { InsertPermutes(init, x, le); }
    }
  }

  lemma {:induction false} InsertSorts<T(!new)>(s: seq<T>, x: T, le: (T, T) -> bool)
    requires TotalPreorder(le) && Sorted(s, le)
    ensures Sorted(Insert(s, x, le), le)
  {
    if s != [] {
      var init, last := s[..|s| - 1], s[|s| - 1];
      if le(last, x) {
        forall i | 0 <= i < |s| ensures le(s[i], x) {
          assert i < |s| - 1 ==> le(s[i], last);
        }
      } else {
        InsertSorts(init, x, le);
        InsertPermutes(init, x, le);
        var r := Insert(init, x, le);
        forall i | 0 <= i < |r| ensures le(r[i], last) {
          assert r[i] in multiset(r);
          assert r[i] == x || r[i] in init;
        }
      }
    }
  }

  /** Whatever the comparison, the result is a permutation of the input. */
  lemma {:induction false} SortPermutes<T>(s: seq<T>, le: (T, T) -> bool)
    ensures multiset(SortBy(s, le)) == multiset(s) && |SortBy(s, le)| == |s|
    ensures forall x :: x in SortBy(s, le) <==> x in s
  {
    if s != [] {
      var init, last := s[..|s| - 1], s[|s| - 1];
      assert s == init + [last];
      SortPermutes(init, le);
      InsertPermutes(SortBy(init, le), last, le);
    }
    var r := SortBy(s, le);
    assert |multiset(r)| == |multiset(s)|;
    forall x ensures x in r <==> x in s {
      assert x in r <==> x in multiset(r);
      assert x in s <==> x in multiset(s);
    }
  }

  lemma SortedIn<T>(s: seq<T>, le: (T, T) -> bool, i: nat)
    requires i < |SortBy(s, le)|
    ensures SortBy(s, le)[i] in s
  {
    SortPermutes(s, le);
    assert SortBy(s, le)[i] in multiset(SortBy(s, le));
  }

  /** Under a total preorder the result is sorted. */
  lemma {:induction false} SortSorts<T(!new)>(s: seq<T>, le: (T, T) -> bool)
    requires TotalPreorder(le)
    ensures Sorted(SortBy(s, le), le) && multiset(SortBy(s, le)) == multiset(s) && |SortBy(s, le)| == |s|
    ensures forall x :: x in SortBy(s, le) <==> x in s
  {
    SortPermutes(s, le);
    if s != [] {
      SortSorts(s[..|s| - 1], le);
      InsertSorts(SortBy(s[..|s| - 1], le), s[|s| - 1], le);
    }
  }

  lemma {:induction false} InsertAlike<T>(s: seq<T>, x: T, le: (T, T) -> bool, le': (T, T) -> bool)
    requires forall i :: 0 <= i < |s| ==> le(s[i], x) == le'(s[i], x)
    ensures Insert(s, x, le) == Insert(s, x, le')
  {
    if s != [] { InsertAlike(s[..|s| - 1], x, le, le'); }
  }

  /** Comparisons that agree on the elements sort alike. */
  lemma {:induction false} SortAlike<T>(s: seq<T>, le: (T, T) -> bool, le': (T, T) -> bool)
    requires forall a, b :: a in s && b in s ==> le(a, b) == le'(a, b)
    ensures SortBy(s, le) == SortBy(s, le')
  {
    if s != [] {
      var init, last := s[..|s| - 1], s[|s| - 1];
      SortAlike(init, le, le');
      var sorted := SortBy(init, le);
      forall i | 0 <= i < |sorted| ensures le(sorted[i], last) == le'(sorted[i], last) {
        SortedIn(init, le, i);
        assert last in s;
      }
      InsertAlike(sorted, last, le, le');
    }
  }

  /** Sorted permutations start alike. */
  lemma SameFirst<T(!new)>(a: seq<T>, b: seq<T>, le: (T, T) -> bool)
    requires TotalPreorder(le) && Antisymmetric(le) && Sorted(a, le) && Sorted(b, le) && multiset(a) == multiset(b) && a != []
    ensures b != [] && a[0] == b[0]
  {
    assert a[0] in multiset(a);
    assert a[0] in b;
    assert b[0] in multiset(b);
    assert b[0] in a;
    assert le(a[0], b[0]) && le(b[0], a[0]);
  }

  lemma DropFirst<T>(a: seq<T>)
    requires a != []
    ensures multiset(a[1..]) == multiset(a) - multiset{a[0]}
  {
    assert a == [a[0]] + a[1..];
  }

  lemma {:induction false} SortedUnique<T(!new)>(a: seq<T>, b: seq<T>, le: (T, T) -> bool)
    requires TotalPreorder(le) && Antisymmetric(le) && Sorted(a, le) && Sorted(b, le) && multiset(a) == multiset(b)
    ensures a == b
    decreases |a|
  {
    if a == [] {
      assert |multiset(b)| == |b| == 0;
    } else {
      SameFirst(a, b, le);
      DropFirst(a);
      DropFirst(b);
      SortedUnique(a[1..], b[1..], le);
      assert a == [a[0]] + a[1..] && b == [b[0]] + b[1..];
    }
  }

  /** Under a total order the sorted sequence depends on the elements alone. */
  lemma SortIgnoresOrder<T(!new)>(a: seq<T>, b: seq<T>, le: (T, T) -> bool)
    requires TotalPreorder(le) && Antisymmetric(le) && multiset(a) == multiset(b)
    ensures SortBy(a, le) == SortBy(b, le)
  {
    SortSorts(a, le);
    SortSorts(b, le);
    SortedUnique(SortBy(a, le), SortBy(b, le), le);
  }
}
