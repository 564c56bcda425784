/** Generic sequence operations mirroring the Python list idioms the system relies on. */
module Seqs {

  /** `xs[:n]` for a non-negative `n`: the first `n` items, or all of them. */
  function Take<T>(xs: seq<T>, n: nat): (r: seq<T>)
    ensures |r| == (if n < |xs| then n else |xs|)
    ensures r == xs[..|r|]
  {
    if n < |xs| then xs[..n] else xs
  }

  /** The last `n` items of `xs`, or all of them when there are fewer. */
  function Last<T>(xs: seq<T>, n: nat): (r: seq<T>)
    ensures |r| == (if n < |xs| then n else |xs|)
    ensures r == xs[|xs| - |r|..]
  {
    if n < |xs| then xs[|xs| - n..] else xs
  }

  /** `a` is obtained from `b` by deleting items, keeping the order of the rest. */
  predicate IsSubseq<T(==)>(a: seq<T>, b: seq<T>)
    decreases |b|
  {
    |a| == 0 || (|b| > 0 && if a[0] == b[0] then IsSubseq(a[1..], b[1..]) else IsSubseq(a, b[1..]))
  }

  /** A list comprehension `[x for x in xs if keep(x)]`. */
  function Filter<T(==,!new)>(xs: seq<T>, keep: T -> bool): (r: seq<T>)
    ensures |r| <= |xs|
    ensures forall i :: 0 <= i < |r| ==> keep(r[i])
  {
    if |xs| == 0 then []
    else (if keep(xs[0]) then [xs[0]] else []) + Filter(xs[1..], keep)
  }

  /** Concatenation is associative. */
  lemma AppendAssoc<T>(a: seq<T>, b: seq<T>, c: seq<T>)
    ensures a + (b + c) == a + b + c
  {
  }

  /** Filtering distributes over concatenation. */
  lemma {:induction false} FilterConcat<T(!new)>(a: seq<T>, b: seq<T>, keep: T -> bool)
    ensures Filter(a + b, keep) == Filter(a, keep) + Filter(b, keep)
  {
    if |a| > 0 {
      FilterConcat(a[1..], b, keep);
      assert (a + b)[1..] == a[1..] + b;
    } else {
      assert a + b == b;
    }
  }

  /** Filtering a sequence whose items are all kept changes nothing. */
  lemma {:induction false} FilterKeepsAll<T(!new)>(xs: seq<T>, keep: T -> bool)
    requires forall i :: 0 <= i < |xs| ==> keep(xs[i])
    ensures Filter(xs, keep) == xs
  {
    if |xs| > 0 {
      FilterKeepsAll(xs[1..], keep);
      assert xs == [xs[0]] + xs[1..];
    }
  }

  /** Filtering keeps every occurrence of a kept item and none of the others. */
  lemma {:induction false} FilterCounts<T(!new)>(xs: seq<T>, keep: T -> bool)
    ensures forall x :: multiset(Filter(xs, keep))[x] == if keep(x) then multiset(xs)[x] else 0
  {
    if |xs| > 0 {
      FilterCounts(xs[1..], keep);
      assert xs == [xs[0]] + xs[1..];
    }
  }

  /** Filtering yields nothing exactly when no item is kept. */
  lemma {:induction false} FilterEmpty<T(!new)>(xs: seq<T>, keep: T -> bool)
    ensures Filter(xs, keep) == [] <==> forall i :: 0 <= i < |xs| ==> !keep(xs[i])
  {
    if |xs| > 0 {
      FilterEmpty(xs[1..], keep);
      assert forall i :: 0 < i < |xs| ==> xs[1..][i - 1] == xs[i];
    }
  }

  /** Filtering keeps the surviving items in their original order. */
  lemma {:induction false} FilterIsSubseq<T(!new)>(xs: seq<T>, keep: T -> bool)
    ensures IsSubseq(Filter(xs, keep), xs)
  {
    if |xs| > 0 {
      var r := Filter(xs, keep);
      FilterIsSubseq(xs[1..], keep);
      if keep(xs[0]) {
        assert r[1..] == Filter(xs[1..], keep);
      } else {
        assert r == Filter(xs[1..], keep);
        if |r| > 0 {
          assert keep(r[0]) && r[0] != xs[0];
        }
      }
    }
  }

  /** A prefix of a subsequence is still a subsequence. */
  lemma {:induction false} PrefixOfSubseq<T>(a: seq<T>, b: seq<T>, n: nat)
    requires IsSubseq(a, b)
    requires n <= |a|
    ensures IsSubseq(a[..n], b)
    decreases |b|
  {
    if n > 0 {
      if a[0] == b[0] {
        assert a[..n][1..] == a[1..][..n - 1];
        PrefixOfSubseq(a[1..], b[1..], n - 1);
      } else {
        PrefixOfSubseq(a, b[1..], n);
      }
    }
  }

  /** Every item of a subsequence occurs in the original. */
  lemma {:induction false} SubseqMembers<T>(a: seq<T>, b: seq<T>)
    requires IsSubseq(a, b)
    ensures forall x :: x in a ==> x in b
    decreases |b|
  {
    if |a| > 0 {
      if a[0] == b[0] {
        SubseqMembers(a[1..], b[1..]);
        assert a == [a[0]] + a[1..];
      } else {
        SubseqMembers(a, b[1..]);
      }
    }
  }

  /** No item occurs twice. */
  predicate Distinct<T(==)>(xs: seq<T>) {
    forall i, j :: 0 <= i < j < |xs| ==> xs[i] != xs[j]
  }

  /** Position of the first occurrence of `x` in `xs`. */
  function IndexOf<T(==)>(xs: seq<T>, x: T): (r: nat)
    requires x in xs
    ensures r < |xs| && xs[r] == x
    ensures x !in xs[..r]
  {
    if xs[0] == x then 0
    else
      var j := IndexOf(xs[1..], x);
      assert xs[..j + 1] == [xs[0]] + xs[1..][..j];
      j + 1
  }

  /** The first occurrence of `x` is unchanged by appending items after a prefix that holds it. */
  lemma {:induction false} IndexOfPrefix<T>(xs: seq<T>, p: nat, x: T)
    requires p <= |xs| && x in xs[..p]
    ensures IndexOf(xs, x) == IndexOf(xs[..p], x)
  {
    var i := IndexOf(xs[..p], x);
    assert xs[..p][..i] == xs[..i];
  }

  /** `list(dict.fromkeys(xs))`: each item once, in the order of its first occurrence. */
  function Dedup<T(==,!new)>(xs: seq<T>): (r: seq<T>)
    ensures |r| <= |xs|
    ensures Distinct(r)
    ensures forall x :: x in r <==> x in xs
    ensures forall i, j :: 0 <= i < j < |r| ==> IndexOf(xs, r[i]) < IndexOf(xs, r[j])
  {
    if |xs| == 0 then []
    else
      var n := |xs| - 1;
      var init := xs[..n];
      var d := Dedup(init);
      assert xs == init + [xs[n]];
      assert forall y :: y in init ==> IndexOf(xs, y) == IndexOf(init, y) by {
        forall y | y in init ensures IndexOf(xs, y) == IndexOf(init, y) {
          IndexOfPrefix(xs, n, y);
        }
      }
      if xs[n] in d then d
      else
        assert IndexOf(xs, xs[n]) == n by {
          assert xs[..n] == init;
        }
        d + [xs[n]]
  }
}
