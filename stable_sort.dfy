/** A stable sort over a strict weak order: the model of a multi-key `sort_values`
    whose ties keep their input order. */
module StableSort {
  import opened Seqs

  /** `less` is irreflexive, transitive, and incomparability is transitive
      (equivalently: `less(a, c)` forces `b` to be after `a` or before `c`). */
  ghost predicate StrictWeakOrder<T(!new)>(less: (T, T) -> bool)
  {
    && (forall a :: !less(a, a))
    && (forall a, b, c :: less(a, b) && less(b, c) ==> less(a, c))
    && (forall a, b, c :: less(a, c) ==> less(a, b) || less(b, c))
  }

  /** No element is strictly before an element to its left. */
  ghost predicate SortedBy<T>(s: seq<T>, less: (T, T) -> bool)
  {
    forall i, j :: 0 <= i < j < |s| ==> !less(s[j], s[i])
  }

  /** Neither is strictly before the other: `a` and `b` have equal sort keys. */
  predicate Equivalent<T>(less: (T, T) -> bool, a: T, b: T)
  {
    !less(a, b) && !less(b, a)
  }

  /** The mask "has the same sort key as `e`". */
  function EquivalentTo<T>(less: (T, T) -> bool, e: T): T -> bool
  {
    x => Equivalent(less, x, e)
  }

  /** Inserts `x` in front of the first element that is not strictly before it. */
  function Insert<T(==)>(x: T, s: seq<T>, less: (T, T) -> bool): (r: seq<T>)
    ensures |r| == |s| + 1
    ensures multiset(r) == multiset(s) + multiset{x}
  {
    if s == [] || !less(s[0], x) then [x] + s
    else
      assert s == [s[0]] + s[1..];
      [s[0]] + Insert(x, s[1..], less)
  }

  /** Insertion sort, inserting each element in front of its equivalents to the right:
      the sort is stable. */
  function SortBy<T(==)>(xs: seq<T>, less: (T, T) -> bool): (r: seq<T>)
    ensures |r| == |xs|
    ensures multiset(r) == multiset(xs)
  {
    if xs == [] then []
    else
      assert xs == [xs[0]] + xs[1..];
      Insert(xs[0], SortBy(xs[1..], less), less)
  }

  lemma {:induction false} InsertSorted<T(!new)>(x: T, s: seq<T>, less: (T, T) -> bool)
    requires StrictWeakOrder(less) && SortedBy(s, less)
    ensures SortedBy(Insert(x, s, less), less)
  {
    var r := Insert(x, s, less);
    if s == [] || !less(s[0], x) {
      forall i, j | 0 <= i < j < |r| ensures !less(r[j], r[i]) {
        if i == 0 && j > 1 {
          assert !less(s[j - 1], s[0]);
        }
      }
    } else {
      var t := Insert(x, s[1..], less);
      InsertSorted(x, s[1..], less);
      assert r == [s[0]] + t;
      forall j | 0 < j < |r| ensures !less(r[j], s[0]) {
        assert r[j] in multiset(t);
        if r[j] != x {
          assert r[j] in s[1..];
          var k :| 0 <= k < |s[1..]| && s[1..][k] == r[j];
          assert s[k + 1] == r[j];
        }
      }
    }
  }

  /** The result of SortBy is sorted. */
  lemma {:induction false} SortBySorted<T(!new)>(xs: seq<T>, less: (T, T) -> bool)
    requires StrictWeakOrder(less)
    ensures SortedBy(SortBy(xs, less), less)
  {
    if xs != [] {
      SortBySorted(xs[1..], less);
      InsertSorted(xs[0], SortBy(xs[1..], less), less);
    }
  }

  /** An element strictly before `x` cannot share the sort key of anything equivalent to `x`. */
  lemma BeforeNotEquivalent<T(!new)>(less: (T, T) -> bool, a: T, x: T, e: T)
    requires StrictWeakOrder(less)
    requires less(a, x) && Equivalent(less, x, e)
    ensures !Equivalent(less, a, e)
  {
    assert less(a, e) || less(e, x);
  }

  lemma {:induction false} InsertStable<T(!new)>(x: T, s: seq<T>, less: (T, T) -> bool, e: T)
    requires StrictWeakOrder(less)
    ensures Where(Insert(x, s, less), EquivalentTo(less, e))
         == (if Equivalent(less, x, e) then [x] else []) + Where(s, EquivalentTo(less, e))
  {
    var eq := EquivalentTo(less, e);
    var r := Insert(x, s, less);
    if s == [] || !less(s[0], x) {
      assert r[0] == x && r[1..] == s;
    } else {
      var t := Insert(x, s[1..], less);
      InsertStable(x, s[1..], less, e);
      assert r[0] == s[0] && r[1..] == t;
      if eq(x) {
        BeforeNotEquivalent(less, s[0], x, e);
      }
    }
  }

  /** Stability: the elements with any given sort key appear in the output
      in exactly the order they had in the input. */
  lemma {:induction false} SortByStable<T(!new)>(xs: seq<T>, less: (T, T) -> bool, e: T)
    requires StrictWeakOrder(less)
    ensures Where(SortBy(xs, less), EquivalentTo(less, e)) == Where(xs, EquivalentTo(less, e))
  {
    if xs != [] {
      SortByStable(xs[1..], less, e);
      InsertStable(xs[0], SortBy(xs[1..], less), less, e);
    }
  }
}
