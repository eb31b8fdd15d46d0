/** `Array.prototype.filter` and the first-occurrence de-duplication of a
    `Set` built from an array, over sequences. */
module Seqs {

  /** The elements of `s` that satisfy `p`, in their order in `s`. */
  function Filter<T(!new)>(p: T -> bool, s: seq<T>): (r: seq<T>)
    ensures |r| <= |s|
    ensures forall x :: x in r <==> x in s && p(x)
  {
    if s == [] then [] else (if p(s[0]) then [s[0]] else []) + Filter(p, s[1..])
  }

  /** Filtering distributes over concatenation: the kept elements stay in the
      order they had. */
  lemma {:induction false} FilterConcat<T(!new)>(p: T -> bool, a: seq<T>, b: seq<T>)
    ensures Filter(p, a + b) == Filter(p, a) + Filter(p, b)
    decreases |a|
  {
    if a != [] {
      FilterConcat(p, a[1..], b);
      assert (a + b)[0] == a[0] && (a + b)[1..] == a[1..] + b;
    } else {
      assert a + b == b;
    }
  }

  /** Filtering keeps every copy of a satisfying element and no copy of any
      other element. */
  lemma {:induction false} FilterMultiset<T(!new)>(p: T -> bool, s: seq<T>, x: T)
    ensures multiset(Filter(p, s))[x] == if p(x) then multiset(s)[x] else 0
    decreases |s|
  {
    if s != [] {
      FilterMultiset(p, s[1..], x);
      assert s == [s[0]] + s[1..];
    }
  }

  /** The filter keeps everything exactly when every element satisfies the
      predicate, and then it returns the sequence unchanged. */
  lemma {:induction false} FilterKeepsAll<T(!new)>(p: T -> bool, s: seq<T>)
    ensures |Filter(p, s)| == |s| <==> forall x :: x in s ==> p(x)
    ensures (forall x :: x in s ==> p(x)) ==> Filter(p, s) == s
    decreases |s|
  {
    if s != [] {
      FilterKeepsAll(p, s[1..]);
      assert forall x :: x in s[1..] ==> x in s;
      assert s == [s[0]] + s[1..];
    }
  }

  /** The filter is empty exactly when no element satisfies the predicate. */
  lemma {:induction false} FilterEmpty<T(!new)>(p: T -> bool, s: seq<T>)
    ensures Filter(p, s) == [] <==> forall x :: x in s ==> !p(x)
    decreases |s|
  {
    if s != [] {
      FilterEmpty(p, s[1..]);
      assert forall x :: x in s <==> x == s[0] || x in s[1..];
    }
  }

  /** Two predicates that agree on the elements of `s` filter it alike. */
  lemma {:induction false} FilterCongruent<T(!new)>(p: T -> bool, q: T -> bool, s: seq<T>)
    requires forall x :: x in s ==> p(x) == q(x)
    ensures Filter(p, s) == Filter(q, s)
    decreases |s|
  {
    if s != [] {
      assert forall x :: x in s[1..] ==> x in s;
      FilterCongruent(p, q, s[1..]);
    }
  }

  predicate NoDuplicates<T(==)>(s: seq<T>) {
    forall i, j :: 0 <= i < j < |s| ==> s[i] != s[j]
  }

  /** `[...new Set(s)]`: every element of `s`, each once. */
  function Dedup<T(==,!new)>(s: seq<T>): (r: seq<T>)
    ensures forall x :: x in r <==> x in s
    ensures NoDuplicates(r)
  {
    if s == [] then []
    else
      var init := Dedup(s[..|s| - 1]);
      var last := s[|s| - 1];
      assert forall x :: x in s <==> x in s[..|s| - 1] || x == last;
      if last in init then init else init + [last]
  }

  /** A sequence without duplicates holds each element at most once. */
  lemma {:induction false} NoDuplicatesMultiset<T(!new)>(s: seq<T>)
    ensures NoDuplicates(s) <==> forall x :: multiset(s)[x] <= 1
    decreases |s|
  {
    if s != [] {
      var t := s[1..];
      NoDuplicatesMultiset(t);
      assert s == [s[0]] + t;
      if NoDuplicates(s) {
        assert NoDuplicates(t);
        assert s[0] !in t;
      } else {
        var i, j :| 0 <= i < j < |s| && s[i] == s[j];
        if i == 0 {
          assert t[j - 1] == s[0];
          assert multiset(s)[s[0]] >= 2;
        } else {
          assert t[i - 1] == t[j - 1];
          assert !NoDuplicates(t);
          var x :| multiset(t)[x] > 1;
          assert multiset(s)[x] > 1;
        }
      }
    }
  }

  /** A sub-multiset as long as the whole is the whole: a selection from a
      sequence that keeps its length keeps every element. */
  lemma {:induction false} SubMultisetFull<T>(a: seq<T>, b: seq<T>)
    requires multiset(a) <= multiset(b)
    ensures |a| == |b| <==> multiset(a) == multiset(b)
    decreases |a|
  {
    assert |multiset(a)| == |a| && |multiset(b)| == |b|;
    if a == [] {
      if |b| == 0 {
        assert b == [];
      }
    } else if |a| == |b| {
      var x := a[0];
      assert x in multiset(b);
      var j :| 0 <= j < |b| && b[j] == x;
      var rest := b[..j] + b[j + 1..];
      assert b == b[..j] + [x] + b[j + 1..];
      assert multiset(b) == multiset(rest) + multiset{x};
      assert a == [x] + a[1..];
      assert multiset(a) == multiset(a[1..]) + multiset{x};
      forall y ensures multiset(a[1..])[y] <= multiset(rest)[y] {
        assert multiset(a)[y] <= multiset(b)[y];
      }
      SubMultisetFull(a[1..], rest);
    }
  }
}
