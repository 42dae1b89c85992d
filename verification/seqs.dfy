/** Sequence helpers shared by the extraction, loading and splitting modules. */
module Seqs {

  /** Python's `min` on two counts. */
  function Min(a: nat, b: nat): (m: nat)
    ensures m <= a && m <= b && (m == a || m == b)
  {
    if a <= b then a else b
  }

  /** The elements of `s` that satisfy `p`, in their original order
      (a Python list comprehension with an `if`). */
  function Filter<T>(s: seq<T>, p: T -> bool): (r: seq<T>)
    ensures |r| <= |s|
    ensures forall i :: 0 <= i < |r| ==> r[i] in s && p(r[i])
    ensures forall i :: 0 <= i < |s| && p(s[i]) ==> s[i] in r
  {
    if s == [] then [] else (if p(s[0]) then [s[0]] else []) + Filter(s[1..], p)
  }

  /** Filtering distributes over concatenation. */
  lemma {:induction false} FilterConcat<T>(a: seq<T>, b: seq<T>, p: T -> bool)
    ensures Filter(a + b, p) == Filter(a, p) + Filter(b, p)
  {
    if a == [] {
      assert a + b == b;
    } else {
      assert (a + b)[0] == a[0];
      assert (a + b)[1..] == a[1..] + b;
      FilterConcat(a[1..], b, p);
    }
  }

  /** No element occurs twice (the keys of a Python dict, in insertion order). */
  predicate Distinct<T(==)>(s: seq<T>)
  {
    forall i, j :: 0 <= i < j < |s| ==> s[i] != s[j]
  }

  /** Removing an element the predicate rejects does not change the filter. */
  lemma FilterDropsRejected<T>(s: seq<T>, i: nat, p: T -> bool)
    requires i < |s| && !p(s[i])
    ensures Filter(s, p) == Filter(s[..i] + s[i + 1..], p)
  {
    var before, rest, after := s[..i], s[i..], s[i + 1..];
    assert s == before + rest;
    assert rest[1..] == after;
    FilterConcat(before, rest, p);
    assert Filter(rest, p) == Filter(after, p);
    FilterConcat(before, after, p);
  }

  /** In a sequence without repeats every element occurs at most once. */
  lemma {:induction false} DistinctOnce<T>(s: seq<T>, x: T)
    requires Distinct(s)
    ensures multiset(s)[x] <= 1
  {
    if s != [] {
      assert s == [s[0]] + s[1..];
      assert Distinct(s[1..]) by {
        forall i, j | 0 <= i < j < |s[1..]| ensures s[1..][i] != s[1..][j] {
          assert s[1..][i] == s[i + 1] && s[1..][j] == s[j + 1];
        }
      }
      DistinctOnce(s[1..], x);
      if x == s[0] {
        assert x !in s[1..] by {
          forall k | 0 <= k < |s[1..]| ensures s[1..][k] != x {
            assert s[1..][k] == s[k + 1];
          }
        }
      }
    }
  }

  /** A permutation of a sequence without repeats has none either. */
  lemma DistinctPermutation<T>(a: seq<T>, b: seq<T>)
    requires multiset(a) == multiset(b) && Distinct(b)
    ensures Distinct(a)
  {
    forall i, j | 0 <= i < j < |a| ensures a[i] != a[j] {
      DistinctOnce(b, a[i]);
      assert a == a[..j] + a[j..];
      assert a[i] == a[..j][i];
      assert a[j] == a[j..][0];
      assert multiset(a)[a[j]] == multiset(a[..j])[a[j]] + multiset(a[j..])[a[j]];
    }
  }

  /** Three pieces whose concatenation (the middle one empty) is a
      permutation of a duplicate-free sequence are themselves duplicate-free
      and hold exactly its elements. */
  lemma DistinctPieces<T>(a: seq<T>, v: seq<T>, b: seq<T>, c: seq<T>)
    requires v == [] && multiset(a + b) == multiset(c) && Distinct(c)
    ensures Distinct(a + v + b) && forall x :: x in a + v + b <==> x in c
  {
    assert a + v + b == a + b;
    PermutationMembers(a + b, c);
  }

  /** A permutation of a duplicate-free sequence is duplicate-free and has
      the same elements. */
  lemma PermutationMembers<T>(a: seq<T>, c: seq<T>)
    requires multiset(a) == multiset(c) && Distinct(c)
    ensures Distinct(a) && forall x :: x in a <==> x in c
  {
    DistinctPermutation(a, c);
    forall x ensures x in a <==> x in c {
      assert x in a <==> x in multiset(a);
    }
  }

  /** A sequence with no members is empty. */
  lemma NoMembers<T>(s: seq<T>)
    requires forall x :: x !in s
    ensures s == []
  {
    forall x ensures multiset(s)[x] == 0 {
      assert x !in s;
    }
    assert multiset(s) == multiset{};
  }
}
