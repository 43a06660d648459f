/** Sequence operations the dashboard's table pipeline is built from. */
module Seqs {

  /** The elements of `xs` for which `p` holds, in their original order:
      selecting the rows of a table with a boolean mask. */
  function Where<T(==)>(xs: seq<T>, p: T -> bool): (ys: seq<T>)
    ensures |ys| <= |xs|
  {
    if xs == [] then []
    else (if p(xs[0]) then [xs[0]] else []) + Where(xs[1..], p)
  }

  /** `ys` is obtained from `xs` by deleting elements, keeping the order of the rest. */
  ghost predicate IsSubseq<T>(ys: seq<T>, xs: seq<T>)
    decreases |xs|
  {
    ys == [] || (xs != [] && ((ys[0] == xs[0] && IsSubseq(ys[1..], xs[1..])) || IsSubseq(ys, xs[1..])))
  }

  /** No element occurs twice. */
  predicate NoDups<T(==)>(s: seq<T>)
  {
    forall i, j :: 0 <= i < j < |s| ==> s[i] != s[j]
  }

  /** The distinct elements of `xs`, in order of first appearance. */
  function Distinct<T(==)>(xs: seq<T>): (ds: seq<T>)
    ensures forall x :: x in ds ==> x in xs
    ensures forall x :: x in xs ==> x in ds
    ensures NoDups(ds)
  {
    if xs == [] then []
    else
      var init, last := xs[..|xs| - 1], xs[|xs| - 1];
      assert xs == init + [last];
      var ds := Distinct(init);
      if last in ds then ds else ds + [last]
  }

  /** A selection keeps every element that satisfies the mask, as often as it occurs, and nothing else. */
  lemma {:induction false} WhereCount<T>(xs: seq<T>, p: T -> bool, x: T)
    ensures multiset(Where(xs, p))[x] == if p(x) then multiset(xs)[x] else 0
  {
    if xs != [] {
      WhereCount(xs[1..], p, x);
      assert xs == [xs[0]] + xs[1..];
    }
  }

  /** Membership in a selection, both directions. */
  lemma WhereMembers<T>(xs: seq<T>, p: T -> bool)
    ensures forall x :: x in Where(xs, p) <==> x in xs && p(x)
  {
    forall x ensures x in Where(xs, p) <==> x in xs && p(x) {
      WhereCount(xs, p, x);
    }
  }

  /** A selection preserves the relative order of what it keeps. */
  lemma {:induction false} WhereIsSubseq<T>(xs: seq<T>, p: T -> bool)
    ensures IsSubseq(Where(xs, p), xs)
  {
    if xs != [] {
      WhereIsSubseq(xs[1..], p);
      var ys := Where(xs, p);
      if p(xs[0]) {
        assert ys[0] == xs[0] && ys[1..] == Where(xs[1..], p);
      } else {
        assert ys == Where(xs[1..], p);
      }
    }
  }

  /** A weaker mask keeps a superset, in the same order. */
  lemma {:induction false} WhereMonotone<T>(xs: seq<T>, p: T -> bool, q: T -> bool)
    requires forall x :: q(x) ==> p(x)
    ensures IsSubseq(Where(xs, q), Where(xs, p))
  {
    if xs != [] {
      WhereMonotone(xs[1..], p, q);
      var yq, yp := Where(xs, q), Where(xs, p);
      if q(xs[0]) {
        assert yq[0] == xs[0] == yp[0];
        assert yq[1..] == Where(xs[1..], q) && yp[1..] == Where(xs[1..], p);
      } else if p(xs[0]) {
        assert yq == Where(xs[1..], q) && yp[1..] == Where(xs[1..], p);
      } else {
        assert yq == Where(xs[1..], q) && yp == Where(xs[1..], p);
      }
    }
  }

  /** Applying mask `q` after mask `p` is applying their conjunction `r` once. */
  lemma {:induction false} WhereComposes<T>(xs: seq<T>, p: T -> bool, q: T -> bool, r: T -> bool)
    requires forall x :: r(x) == (p(x) && q(x))
    ensures Where(Where(xs, p), q) == Where(xs, r)
  {
    if xs != [] {
      WhereComposes(xs[1..], p, q, r);
      var yp := Where(xs, p);
      if p(xs[0]) {
        assert yp == [xs[0]] + Where(xs[1..], p);
        assert yp[0] == xs[0] && yp[1..] == Where(xs[1..], p);
      } else {
        assert yp == Where(xs[1..], p);
      }
    }
  }

  /** Two masks that agree everywhere select the same elements. */
  lemma {:induction false} WhereAgree<T>(xs: seq<T>, p: T -> bool, q: T -> bool)
    requires forall x :: p(x) == q(x)
    ensures Where(xs, p) == Where(xs, q)
  {
    if xs != [] {
      WhereAgree(xs[1..], p, q);
    }
  }

  /** A mask that holds for every element keeps the sequence unchanged. */
  lemma {:induction false} WhereAll<T>(xs: seq<T>, p: T -> bool)
    requires forall x :: x in xs ==> p(x)
    ensures Where(xs, p) == xs
  {
    if xs != [] {
      WhereAll(xs[1..], p);
      assert xs == [xs[0]] + xs[1..];
    }
  }

  /** Selecting from a concatenation selects from each part. */
  lemma {:induction false} WhereConcat<T>(xs: seq<T>, ys: seq<T>, p: T -> bool)
    ensures Where(xs + ys, p) == Where(xs, p) + Where(ys, p)
  {
    if xs == [] {
      assert xs + ys == ys;
    } else {
      var zs := xs + ys;
      WhereConcat(xs[1..], ys, p);
      assert zs[0] == xs[0] && zs[1..] == xs[1..] + ys;
      var head := if p(xs[0]) then [xs[0]] else [];
      calc {
        Where(zs, p);
        head + Where(xs[1..] + ys, p);
        head + (Where(xs[1..], p) + Where(ys, p));
        (head + Where(xs[1..], p)) + Where(ys, p);
        Where(xs, p) + Where(ys, p);
      }
    }
  }

  /** A sequence without duplicates holds every element at most once. */
  lemma {:induction false} NoDupsCounts<T>(s: seq<T>)
    requires NoDups(s)
    ensures forall x :: multiset(s)[x] <= 1
  {
    if s != [] {
      NoDupsCounts(s[1..]);
      assert s == [s[0]] + s[1..];
      assert s[0] !in s[1..];
    }
  }

  /** A sequence holding every element at most once has no duplicates. */
  lemma CountsNoDups<T>(s: seq<T>)
    requires forall x :: multiset(s)[x] <= 1
    ensures NoDups(s)
  {
    forall i, j | 0 <= i < j < |s| ensures s[i] != s[j] {
      assert s == s[..j] + s[j..];
      assert s[..j][i] == s[i];
      assert multiset(s)[s[j]] == multiset(s[..j])[s[j]] + multiset(s[j..])[s[j]];
      assert s[j..][0] == s[j];
    }
  }

  /** Rearranging a sequence without duplicates leaves it without duplicates. */
  lemma NoDupsPermutation<T>(s: seq<T>, t: seq<T>)
    requires NoDups(t) && multiset(s) == multiset(t)
    ensures NoDups(s)
  {
    NoDupsCounts(t);
    CountsNoDups(s);
  }
}
