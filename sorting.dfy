/** `Array.prototype.sort(compare)`, which ECMAScript requires to be stable,
    as a stable insertion sort over sequences. A comparator returns a negative
    number, zero or a positive number, as JavaScript comparators do. */
module Sorting {

  /** The laws a comparator must obey for the sort to be well defined: swapping
      the operands flips the sign, and "not after" is transitive. */
  ghost predicate IsTotalPreorder<T(!new)>(cmp: (T, T) -> int) {
    && (forall a, b :: cmp(a, b) < 0 <==> cmp(b, a) > 0)
    && (forall a, b, c :: cmp(a, b) <= 0 && cmp(b, c) <= 0 ==> cmp(a, c) <= 0)
  }

  ghost predicate SortedBy<T>(cmp: (T, T) -> int, s: seq<T>) {
    forall i, j :: 0 <= i < j < |s| ==> cmp(s[i], s[j]) <= 0
  }

  /** The elements of `s` that compare equal to `e`, in their order in `s`. */
  function ClassOf<T>(cmp: (T, T) -> int, e: T, s: seq<T>): seq<T> {
    if s == [] then [] else (if cmp(s[0], e) == 0 then [s[0]] else []) + ClassOf(cmp, e, s[1..])
  }

  /** Taking the class of `e` splits over any cut. */
  lemma {:induction false} ClassOfConcat<T>(cmp: (T, T) -> int, e: T, a: seq<T>, b: seq<T>)
    ensures ClassOf(cmp, e, a + b) == ClassOf(cmp, e, a) + ClassOf(cmp, e, b)
  {
    if a == [] {
      assert a + b == b;
    } else {
      var head := if cmp(a[0], e) == 0 then [a[0]] else [];
      assert (a + b)[0] == a[0];
      assert (a + b)[1..] == a[1..] + b;
      ClassOfConcat(cmp, e, a[1..], b);
      assert ClassOf(cmp, e, a + b) == head + ClassOf(cmp, e, a[1..] + b);
      assert ClassOf(cmp, e, a) == head + ClassOf(cmp, e, a[1..]);
    }
  }

  /** Puts `x` in front of the first element it does not come after. */
  function Insert<T>(cmp: (T, T) -> int, x: T, s: seq<T>): seq<T> {
    if s == [] then [x]
    else if cmp(x, s[0]) <= 0 then [x] + s
    else [s[0]] + Insert(cmp, x, s[1..])
  }

  function Sort<T>(cmp: (T, T) -> int, s: seq<T>): seq<T> {
    if s == [] then [] else Insert(cmp, s[0], Sort(cmp, s[1..]))
  }

  /** An element strictly before one that is equivalent to a third is strictly
      before the third. */
  lemma StrictBeforeEquivalent<T(!new)>(cmp: (T, T) -> int, a: T, b: T, c: T)
    requires IsTotalPreorder(cmp)
    requires cmp(a, b) < 0 && cmp(b, c) == 0
    ensures cmp(a, c) < 0
  {
    assert cmp(b, a) > 0 && cmp(b, c) <= 0;
  }

  lemma {:induction false} InsertMultiset<T>(cmp: (T, T) -> int, x: T, s: seq<T>)
    ensures multiset(Insert(cmp, x, s)) == multiset(s) + multiset{x}
    decreases |s|
  {
    if s != [] && cmp(x, s[0]) > 0 {
      InsertMultiset(cmp, x, s[1..]);
      assert s == [s[0]] + s[1..];
    }
  }

  lemma {:induction false} InsertSorted<T(!new)>(cmp: (T, T) -> int, x: T, s: seq<T>)
    requires IsTotalPreorder(cmp) && SortedBy(cmp, s)
    ensures SortedBy(cmp, Insert(cmp, x, s))
    decreases |s|
  {
    if s != [] && cmp(x, s[0]) > 0 {
      var t := s[1..];
      InsertSorted(cmp, x, t);
      InsertMultiset(cmp, x, t);
      var r := Insert(cmp, x, t);
      forall y | y in r ensures cmp(s[0], y) <= 0 {
        assert y in multiset(r);
        if y != x {
          assert y in t;
        }
      }
      assert Insert(cmp, x, s) == [s[0]] + r;
      ConsSorted(cmp, s[0], r);
    }
  }

  /** An element not after any element of a sorted sequence can go in front. */
  lemma ConsSorted<T>(cmp: (T, T) -> int, x: T, r: seq<T>)
    requires SortedBy(cmp, r)
    requires forall y :: y in r ==> cmp(x, y) <= 0
    ensures SortedBy(cmp, [x] + r)
  {
    var s := [x] + r;
    forall i, j | 0 <= i < j < |s| ensures cmp(s[i], s[j]) <= 0 {
      assert s[j] == r[j - 1];
      if i > 0 {
        assert s[i] == r[i - 1];
      }
    }
  }

  /** Inserting `x` puts it first among the elements equivalent to `e` when it
      is itself equivalent to `e`, and leaves that class alone otherwise. The
      hypothesis is what a total preorder guarantees (StrictBeforeEquivalent). */
  lemma {:induction false} InsertClass<T>(cmp: (T, T) -> int, x: T, e: T, s: seq<T>)
    requires forall y :: cmp(x, y) > 0 && cmp(x, e) == 0 ==> cmp(y, e) != 0
    ensures ClassOf(cmp, e, Insert(cmp, x, s))
         == (if cmp(x, e) == 0 then [x] else []) + ClassOf(cmp, e, s)
    decreases |s|
  {
    if s == [] {
    } else if cmp(x, s[0]) <= 0 {
      assert ([x] + s)[1..] == s;
    } else {
      InsertClass(cmp, x, e, s[1..]);
      assert ([s[0]] + Insert(cmp, x, s[1..]))[1..] == Insert(cmp, x, s[1..]);
    }
  }

  /** The sort returns its input ordered by the comparator. */
  lemma {:induction false} SortSorted<T(!new)>(cmp: (T, T) -> int, s: seq<T>)
    requires IsTotalPreorder(cmp)
    ensures SortedBy(cmp, Sort(cmp, s))
    decreases |s|
  {
    if s != [] {
      SortSorted(cmp, s[1..]);
      InsertSorted(cmp, s[0], Sort(cmp, s[1..]));
    }
  }

  /** The sort returns a permutation of its input. */
  lemma {:induction false} SortPermutes<T>(cmp: (T, T) -> int, s: seq<T>)
    ensures multiset(Sort(cmp, s)) == multiset(s)
    decreases |s|
  {
    if s != [] {
      SortPermutes(cmp, s[1..]);
      InsertMultiset(cmp, s[0], Sort(cmp, s[1..]));
      assert s == [s[0]] + s[1..];
    }
  }

  /** The sort is stable: the elements of each equivalence class keep the
      order they had in the input. */
  lemma {:induction false} SortStable<T(!new)>(cmp: (T, T) -> int, s: seq<T>, e: T)
    requires IsTotalPreorder(cmp)
    ensures ClassOf(cmp, e, Sort(cmp, s)) == ClassOf(cmp, e, s)
    decreases |s|
  {
    if s != [] {
      SortStable(cmp, s[1..], e);
      forall y | cmp(s[0], y) > 0 && cmp(s[0], e) == 0 ensures cmp(y, e) != 0 {
        StrictBeforeEquivalent(cmp, y, s[0], e);
      }
      InsertClass(cmp, s[0], e, Sort(cmp, s[1..]));
    }
  }

  /** A class holding every element is the whole sequence. */
  lemma {:induction false} ClassOfAll<T>(cmp: (T, T) -> int, e: T, s: seq<T>)
    requires forall i :: 0 <= i < |s| ==> cmp(s[i], e) == 0
    ensures ClassOf(cmp, e, s) == s
    decreases |s|
  {
    if s != [] {
      ClassOfAll(cmp, e, s[1..]);
    }
  }

  /** A comparator that finds every pair equal leaves the order unchanged. */
  lemma SortAllEqual<T(!new)>(cmp: (T, T) -> int, s: seq<T>)
    requires IsTotalPreorder(cmp)
    requires forall a, b :: cmp(a, b) == 0
    ensures Sort(cmp, s) == s
  {
    if s != [] {
      var e := s[0];
      var r := Sort(cmp, s);
      SortStable(cmp, s, e);
      ClassOfAll(cmp, e, s);
      ClassOfAll(cmp, e, r);
    }
  }
}
