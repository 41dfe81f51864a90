/** Shared vocabulary of the model: failures, index ranges, order-preserving
    sublists selected by a mask, and counting.

    Every index list the QC loop builds with `push_back` inside a `for` loop
    over another list is, in this model, `Select(list, mask)`: the entries of
    `list` whose mask bit is set, kept in their original order. The lemmas
    here say once and for all what that means. */
module Basics {

  /** Ways a run can stop without a result. */
  datatype Error =
    | DrawsExhausted                // the finite stream of random draws ran out
    | QuantileOutOfRange            // `std::vector::at` was given a position outside the data
    | RankTooLow                    // the truncated eigen rank is at most 1
    | ResidualVarianceNonPositive   // an R-squared value reached 1
    | UndefinedBehaviour            // the C++ code would index outside a vector here

  datatype Result<T> = Ok(value: T) | Err(error: Error)

  datatype Outcome = Pass | Fail(error: Error)

  /** The values 0, 1, ..., n-1 in ascending order (`std::iota`). */
  function Iota(n: nat): (r: seq<nat>)
    ensures |r| == n
    ensures forall k :: 0 <= k < n ==> r[k] == k
  {
    if n == 0 then [] else Iota(n - 1) + [n - 1]
  }

  predicate Distinct<T(==)>(s: seq<T>) {
    forall i, j :: 0 <= i < j < |s| ==> s[i] != s[j]
  }

  predicate StrictlyIncreasing(s: seq<int>) {
    forall i, j :: 0 <= i < j < |s| ==> s[i] < s[j]
  }

  predicate Ascending(s: seq<real>) {
    forall i, j :: 0 <= i < j < |s| ==> s[i] <= s[j]
  }

  /** `s` is a permutation of 0..n-1. */
  predicate IsPermutation(s: seq<nat>, n: nat) {
    multiset(s) == multiset(Iota(n))
  }

  /** Element-wise logical complement of a mask. */
  function Not(m: seq<bool>): (r: seq<bool>)
    ensures |r| == |m|
    ensures forall k :: 0 <= k < |m| ==> r[k] == !m[k]
  {
    seq(|m|, k requires 0 <= k < |m| => !m[k])
  }

  /** The entries of `s` whose bit in `keep` is set, in their original order. */
  function Select<T>(s: seq<T>, keep: seq<bool>): seq<T>
    requires |keep| == |s|
  {
    if s == [] then []
    else
      var n := |s| - 1;
      Select(s[..n], keep[..n]) + (if keep[n] then [s[n]] else [])
  }

  /** The positions whose bit in `keep` is set, in ascending order. */
  function Positions(keep: seq<bool>): seq<nat> {
    if keep == [] then []
    else
      var n := |keep| - 1;
      Positions(keep[..n]) + (if keep[n] then [n] else [])
  }

  /** Number of entries of `s` that satisfy `p`. */
  function Count<T>(s: seq<T>, p: T -> bool): nat {
    if s == [] then 0
    else Count(s[..|s| - 1], p) + (if p(s[|s| - 1]) then 1 else 0)
  }

  /** `Positions(m)` lists exactly the set positions of `m`, strictly ascending. */
  lemma {:induction false} PositionsExact(m: seq<bool>)
    ensures forall k :: 0 <= k < |Positions(m)| ==> Positions(m)[k] < |m|
    ensures StrictlyIncreasing(Positions(m))
    ensures forall i :: 0 <= i < |m| ==> (m[i] <==> i in Positions(m))
  {
    if m != [] {
      var n := |m| - 1;
      PositionsExact(m[..n]);
      assert forall i :: 0 <= i < n ==> m[..n][i] == m[i];
    }
  }

  /** `Select(s, m)` reads `s` along `Positions(m)`: it is the order-preserving
      sublist of exactly the entries whose mask bit is set. */
  lemma {:induction false} SelectIsOrderedSublist<T>(s: seq<T>, m: seq<bool>)
    requires |m| == |s|
    ensures |Select(s, m)| == |Positions(m)|
    ensures forall k :: 0 <= k < |Positions(m)| ==>
              Positions(m)[k] < |s| && Select(s, m)[k] == s[Positions(m)[k]]
  {
    PositionsExact(m);
    if s != [] {
      var n := |s| - 1;
      SelectIsOrderedSublist(s[..n], m[..n]);
      PositionsExact(m[..n]);
    }
  }

  /** An entry is selected exactly when some set position holds it. */
  lemma SelectMembership<T>(s: seq<T>, m: seq<bool>, x: T)
    requires |m| == |s|
    ensures x in Select(s, m) <==> exists i :: 0 <= i < |s| && m[i] && s[i] == x
  {
    SelectIsOrderedSublist(s, m);
    PositionsExact(m);
    var sel, pos := Select(s, m), Positions(m);
    if x in sel {
      var k :| 0 <= k < |sel| && sel[k] == x;
      assert m[pos[k]] && s[pos[k]] == x;
    }
    if i :| 0 <= i < |s| && m[i] && s[i] == x {
      var k :| 0 <= k < |pos| && pos[k] == i;
      assert sel[k] == x;
    }
  }

  /** Growing the scanned prefix by one entry appends that entry when its bit is set. */
  lemma SelectSnoc<T>(s: seq<T>, m: seq<bool>, i: nat)
    requires |m| == |s| && i < |s|
    ensures Select(s[..i + 1], m[..i + 1]) == Select(s[..i], m[..i]) + (if m[i] then [s[i]] else [])
  {
    assert s[..i + 1][..i] == s[..i];
    assert m[..i + 1][..i] == m[..i];
  }

  /** A mask and its complement split `s` exactly: every entry lands in one
      of the two sublists, as often as it occurs in `s`. */
  lemma {:induction false} SelectPartition<T>(s: seq<T>, m: seq<bool>)
    requires |m| == |s|
    ensures multiset(Select(s, m)) + multiset(Select(s, Not(m))) == multiset(s)
    ensures |Select(s, m)| + |Select(s, Not(m))| == |s|
  {
    if s != [] {
      var n := |s| - 1;
      assert Not(m)[..n] == Not(m[..n]);
      SelectPartition(s[..n], m[..n]);
      assert s == s[..n] + [s[n]];
    }
  }

  /** A selected sublist never holds an entry more often than `s` does. */
  lemma {:induction false} SelectSubMultiset<T>(s: seq<T>, m: seq<bool>)
    requires |m| == |s|
    ensures multiset(Select(s, m)) <= multiset(s)
    ensures |Select(s, m)| <= |s|
  {
    SelectPartition(s, m);
  }

  lemma {:induction false} DistinctMultiplicity<T>(s: seq<T>)
    ensures Distinct(s) <==> forall x :: multiset(s)[x] <= 1
  {
    if s != [] {
      var n := |s| - 1;
      DistinctMultiplicity(s[..n]);
      assert s == s[..n] + [s[n]];
      if Distinct(s) {
        assert s[n] !in s[..n];
      } else {
        var i, j :| 0 <= i < j < |s| && s[i] == s[j];
        if j < n {
          assert !Distinct(s[..n]) by { assert s[..n][i] == s[..n][j]; }
          var y :| multiset(s[..n])[y] > 1;
          assert multiset(s)[y] > 1;
        } else {
          assert s[i] in s[..n];
          assert multiset(s)[s[n]] > 1;
        }
      }
    }
  }

  /** Anything contained (as a multiset) in a list without repeats has no repeats. */
  lemma SubMultisetDistinct<T>(a: seq<T>, b: seq<T>)
    requires multiset(a) <= multiset(b) && Distinct(b)
    ensures Distinct(a)
  {
    DistinctMultiplicity(b);
    DistinctMultiplicity(a);
    assert forall x :: multiset(a)[x] <= multiset(b)[x];
  }

  /** A list of distinct ids below n is contained in 0..n-1. */
  lemma DistinctWithinIota(a: seq<nat>, n: nat)
    requires Distinct(a) && forall k :: 0 <= k < |a| ==> a[k] < n
    ensures multiset(a) <= multiset(Iota(n))
  {
    DistinctMultiplicity(a);
    forall x ensures multiset(a)[x] <= multiset(Iota(n))[x] {
      if x in a {
        var k :| 0 <= k < |a| && a[k] == x;
        assert Iota(n)[x] == x;
      }
    }
  }

  /** A sub-multiset as large as the whole is the whole. */
  lemma SubMultisetEqual<T>(a: multiset<T>, b: multiset<T>)
    requires a <= b && |a| == |b|
    ensures a == b
  {
    var d := b - a;
    assert b == a + d;
    assert |d| == 0;
    forall x ensures a[x] == b[x] {
      assert d[x] == 0;
    }
  }

  lemma {:induction false} CountAll<T>(s: seq<T>, p: T -> bool)
    requires forall k :: 0 <= k < |s| ==> p(s[k])
    ensures Count(s, p) == |s|
  {
    if s != [] {
      CountAll(s[..|s| - 1], p);
    }
  }

  lemma {:induction false} CountBound<T>(s: seq<T>, p: T -> bool)
    ensures Count(s, p) <= |s|
  {
    if s != [] {
      CountBound(s[..|s| - 1], p);
    }
  }

  lemma {:induction false} CountAppend<T>(a: seq<T>, b: seq<T>, p: T -> bool)
    ensures Count(a + b, p) == Count(a, p) + Count(b, p)
  {
    if b != [] {
      var n := |b| - 1;
      assert (a + b)[..|a + b| - 1] == a + b[..n];
      CountAppend(a, b[..n], p);
    } else {
      assert a + b == a;
    }
  }

  lemma MultisetCancel<T>(a: multiset<T>, b: multiset<T>, x: T)
    requires a + multiset{x} == b + multiset{x}
    ensures a == b
  {
    forall y ensures a[y] == b[y] {
      assert (a + multiset{x})[y] == (b + multiset{x})[y];
    }
  }

  /** Counting is blind to order: two lists with the same multiset of entries
      have the same number of entries satisfying any predicate. */
  lemma {:induction false} CountPermutation<T>(a: seq<T>, b: seq<T>, p: T -> bool)
    requires multiset(a) == multiset(b)
    ensures Count(a, p) == Count(b, p)
  {
    if a != [] {
      var n := |a| - 1;
      var x := a[n];
      assert a == a[..n] + [x];
      assert x in multiset(b);
      var i :| 0 <= i < |b| && b[i] == x;
      var rest := b[..i] + b[i + 1..];
      assert b == b[..i] + [x] + b[i + 1..];
      assert multiset(b) == multiset(rest) + multiset{x};
      assert multiset(a) == multiset(a[..n]) + multiset{x};
      MultisetCancel(multiset(a[..n]), multiset(rest), x);
      CountPermutation(a[..n], rest, p);
      CountAppend(a[..n], [x], p);
      CountAppend(b[..i], [x], p);
      CountAppend(b[..i] + [x], b[i + 1..], p);
      CountAppend(b[..i], b[i + 1..], p);
      assert Count([x], p) == (if p(x) then 1 else 0) by { assert [x][..0] == []; }
    } else {
      assert b == [];
    }
  }
}
