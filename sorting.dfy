/** `Array.prototype.sort` with a comparator, for comparators that are
    consistent (ECMA-262 requires a consistent comparator for the result to be
    defined, and since ES2019 the sort is stable). `less(a, b)` stands for
    `compare(a, b) < 0`. The result is modelled as a stable insertion sort:
    each element goes in front of the first later element it does not follow. */
module Sorting {

  /** `less` is asymmetric and its complement is transitive: together, a
      strict weak order, which is what a consistent comparator induces. */
  ghost predicate StrictWeakOrder<T(!new)>(less: (T, T) -> bool)
  {
    (forall a, b :: less(a, b) ==> !less(b, a)) &&
    (forall a, b, c :: !less(a, b) && !less(b, c) ==> !less(a, c))
  }

  /** No element is followed by one that should come before it. */
  ghost predicate Sorted<T>(s: seq<T>, less: (T, T) -> bool)
  {
    forall i, j | 0 <= i < j < |s| :: !less(s[j], s[i])
  }

  function Insert<T>(x: T, s: seq<T>, less: (T, T) -> bool): (r: seq<T>)
    ensures |r| == |s| + 1
  {
    if s == [] || !less(s[0], x) then [x] + s else [s[0]] + Insert(x, s[1..], less)
  }

  /** `s.slice().sort(compare)`. */
  function Sort<T>(s: seq<T>, less: (T, T) -> bool): (r: seq<T>)
    ensures |r| == |s|
  {
    if s == [] then [] else Insert(s[0], Sort(s[1..], less), less)
  }

  lemma {:induction false} InsertPermutes<T>(x: T, s: seq<T>, less: (T, T) -> bool)
    ensures multiset(Insert(x, s, less)) == multiset([x]) + multiset(s)
  {
    if s != [] && less(s[0], x) {
      InsertPermutes(x, s[1..], less);
      assert s == [s[0]] + s[1..];
    }
  }

  lemma {:induction false} InsertSorted<T(!new)>(x: T, s: seq<T>, less: (T, T) -> bool)
    requires StrictWeakOrder(less)
    requires Sorted(s, less)
    ensures Sorted(Insert(x, s, less), less)
  {
    if s != [] && less(s[0], x) {
      InsertSorted(x, s[1..], less);
      InsertFollowsHead(x, s, less);
      ConsSorted(s[0], Insert(x, s[1..], less), less);
    } else {
      forall j | 0 <= j < |s| ensures !less(s[j], x) {
        if j > 0 {
          assert !less(s[j], s[0]);
        }
      }
      ConsSorted(x, s, less);
    }
  }

  /** Whatever is inserted after the head follows the head. */
  lemma InsertFollowsHead<T(!new)>(x: T, s: seq<T>, less: (T, T) -> bool)
    requires StrictWeakOrder(less)
    requires Sorted(s, less)
    requires s != [] && less(s[0], x)
    ensures forall j | 0 <= j < |Insert(x, s[1..], less)| :: !less(Insert(x, s[1..], less)[j], s[0])
  {
    var rest := Insert(x, s[1..], less);
    InsertPermutes(x, s[1..], less);
    forall j | 0 <= j < |rest| ensures !less(rest[j], s[0]) {
      assert rest[j] in multiset([x]) + multiset(s[1..]);
      if rest[j] != x {
        assert rest[j] in s[1..];
        var k :| 0 <= k < |s[1..]| && s[1..][k] == rest[j];
        assert s[k + 1] == rest[j];
      }
    }
  }

  /** A head that nothing in a sorted tail should precede keeps it sorted. */
  lemma ConsSorted<T>(h: T, rest: seq<T>, less: (T, T) -> bool)
    requires Sorted(rest, less)
    requires forall j | 0 <= j < |rest| :: !less(rest[j], h)
    ensures Sorted([h] + rest, less)
  {
    var r := [h] + rest;
    forall i, j | 0 <= i < j < |r| ensures !less(r[j], r[i]) {
      assert r[j] == rest[j - 1];
      if i > 0 {
        assert r[i] == rest[i - 1];
      }
    }
  }

  /** Sorting rearranges the elements and nothing else. */
  lemma {:induction false} SortPermutes<T>(s: seq<T>, less: (T, T) -> bool)
    ensures multiset(Sort(s, less)) == multiset(s)
  {
    if s != [] {
      SortPermutes(s[1..], less);
      InsertPermutes(s[0], Sort(s[1..], less), less);
      assert s == [s[0]] + s[1..];
    }
  }

  /** Sorting with a consistent comparator leaves the elements in order. */
  lemma {:induction false} SortSorted<T(!new)>(s: seq<T>, less: (T, T) -> bool)
    requires StrictWeakOrder(less)
    ensures Sorted(Sort(s, less), less)
  {
    if s != [] {
      SortSorted(s[1..], less);
      InsertSorted(s[0], Sort(s[1..], less), less);
    }
  }

  /** In a sorted sequence, an element that is different from and not
      equivalent to an earlier one comes strictly after it. */
  lemma SortedPrefixFirst<T(!new)>(s: seq<T>, less: (T, T) -> bool, n: nat, x: T)
    requires Sorted(s, less)
    requires n <= |s|
    requires x in s && x !in s[..n]
    requires forall a, b | a != b :: less(a, b) || less(b, a)
    ensures forall i | 0 <= i < n :: less(s[i], x)
  {
    forall i | 0 <= i < n ensures less(s[i], x) {
      assert s[..n][i] == s[i];
      assert s[i] != x;
    }
  }
}
