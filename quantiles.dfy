/** Empirical quantiles (`getQuantile`, `getQuantile2`).

    The C++ works on `double`; the model uses exact reals, so the rounding of
    `size * q` before `ceil` is not modelled. */
module Quantiles {
  import opened Basics

  /** Smallest integer not below `x` (`std::ceil`). */
  function Ceil(x: real): (r: int)
    ensures x <= r as real < x + 1.0
  {
    -((-x).Floor)
  }

  /** The 0-based position `getQuantile` reads: `ceil(n * q) - 1`. */
  function QuantilePos(n: nat, q: real): int {
    Ceil(n as real * q) - 1
  }

  function AtMost(v: real): real -> bool { x => x <= v }

  function AtLeast(v: real): real -> bool { x => x >= v }

  function Insert(x: real, s: seq<real>): (r: seq<real>)
    ensures |r| == |s| + 1
  {
    if s == [] || x <= s[0] then [x] + s else [s[0]] + Insert(x, s[1..])
  }

  /** The ascending copy `std::sort` makes of the data. */
  function SortAsc(s: seq<real>): (r: seq<real>)
    ensures |r| == |s|
  {
    if s == [] then [] else Insert(s[0], SortAsc(s[1..]))
  }

  lemma {:induction false} InsertMultiset(x: real, s: seq<real>)
    ensures multiset(Insert(x, s)) == multiset(s) + multiset{x}
  {
    if s != [] && x > s[0] {
      InsertMultiset(x, s[1..]);
      assert s == [s[0]] + s[1..];
    }
  }

  lemma {:induction false} InsertAscending(x: real, s: seq<real>)
    requires Ascending(s)
    ensures Ascending(Insert(x, s))
  {
    if s == [] || x <= s[0] {
      PrependAscending(x, s);
    } else {
      var tail := s[1..];
      InsertAscending(x, tail);
      InsertMultiset(x, tail);
      var t := Insert(x, tail);
      forall k | 0 <= k < |t| ensures s[0] <= t[k] {
        assert t[k] in multiset(tail) + multiset{x};
        if t[k] != x {
          var m :| 0 <= m < |tail| && tail[m] == t[k];
          assert s[m + 1] == t[k];
        }
      }
      PrependAscending(s[0], t);
    }
  }

  /** An ascending list stays ascending behind a head no larger than its entries. */
  lemma PrependAscending(h: real, t: seq<real>)
    requires Ascending(t)
    requires forall k :: 0 <= k < |t| ==> h <= t[k]
    ensures Ascending([h] + t)
  {
    var r := [h] + t;
    forall i, j | 0 <= i < j < |r| ensures r[i] <= r[j] {
      assert r[j] == t[j - 1];
      if i > 0 {
        assert r[i] == t[i - 1];
      }
    }
  }

  /** The sorted copy is ascending and holds exactly the data. */
  lemma {:induction false} SortAscFacts(s: seq<real>)
    ensures Ascending(SortAsc(s))
    ensures multiset(SortAsc(s)) == multiset(s)
  {
    if s != [] {
      SortAscFacts(s[1..]);
      InsertAscending(s[0], SortAsc(s[1..]));
      InsertMultiset(s[0], SortAsc(s[1..]));
      assert s == [s[0]] + s[1..];
    }
  }

  /** `getQuantile`: the entry at position `ceil(n * q) - 1` of the sorted
      copy; a position outside the data is the exception thrown by `.at()`. */
  function Quantile(dat: seq<real>, q: real): Result<real> {
    var pos := QuantilePos(|dat|, q);
    if 0 <= pos < |dat| then Ok(SortAsc(dat)[pos]) else Err(QuantileOutOfRange)
  }

  /** `getQuantile2`: the quantile of the entries whose group bit is set,
      or 0 when fewer than 50 of them exist. */
  function Quantile2(dat: seq<real>, grouping: seq<bool>, q: real): Result<real>
    requires |grouping| == |dat|
  {
    var filtered := Select(dat, grouping);
    if |filtered| < 50 then Ok(0.0) else Quantile(filtered, q)
  }

  /** The quantile position lies in 0..n-1 exactly when the data are
      non-empty and 0 < q <= 1; otherwise `.at()` throws. */
  lemma QuantileDefined(dat: seq<real>, q: real)
    ensures 0 <= QuantilePos(|dat|, q) < |dat| <==> |dat| > 0 && 0.0 < q <= 1.0
    ensures Quantile(dat, q).Ok? <==> |dat| > 0 && 0.0 < q <= 1.0
  {
    var n := |dat|;
    var x := n as real * q;
    var pos := QuantilePos(n, q);
    assert pos == Ceil(x) - 1;
    CeilBounds(x, n);
    if n > 0 {
      ScaleBounds(n as real, q, x);
    } else {
      assert n as real * q == 0.0;
      assert pos < 0;
    }
    assert Quantile(dat, q).Ok? <==> 0 <= pos < n;
  }

  /** `ceil(x) >= 1` exactly when x > 0, and `ceil(x) <= n` exactly when x <= n. */
  lemma CeilBounds(x: real, n: int)
    ensures Ceil(x) >= 1 <==> x > 0.0
    ensures Ceil(x) <= n <==> x <= n as real
  {
  }

  lemma ScaleBounds(n: real, q: real, x: real)
    requires n > 0.0 && x == n * q
    ensures x > 0.0 <==> q > 0.0
    ensures x <= n <==> q <= 1.0
  {
  }

  lemma ScaleMonotone(n: real, q1: real, q2: real)
    requires n >= 0.0 && q1 <= q2
    ensures n * q1 <= n * q2
  {
  }

  lemma QuantilePosMonotone(n: nat, q1: real, q2: real)
    requires q1 <= q2
    ensures QuantilePos(n, q1) <= QuantilePos(n, q2)
  {
    ScaleMonotone(n as real, q1, q2);
    CeilMonotone(n as real * q1, n as real * q2);
  }

  lemma CeilMonotone(x: real, y: real)
    requires x <= y
    ensures Ceil(x) <= Ceil(y)
  {
  }

  /** The quantile is an order statistic of the data: one of its entries,
      with at least pos+1 entries at or below it and at least n-pos at or
      above it. */
  lemma QuantileIsOrderStatistic(dat: seq<real>, q: real)
    requires |dat| > 0 && 0.0 < q <= 1.0
    ensures Quantile(dat, q).Ok?
    ensures Quantile(dat, q).value in dat
    ensures Count(dat, AtMost(Quantile(dat, q).value)) >= QuantilePos(|dat|, q) + 1
    ensures Count(dat, AtLeast(Quantile(dat, q).value)) >= |dat| - QuantilePos(|dat|, q)
  {
    QuantileDefined(dat, q);
    var s := SortAsc(dat);
    SortAscFacts(dat);
    var pos := QuantilePos(|dat|, q);
    var v := s[pos];
    assert v in multiset(dat);
    AscendingCounts(s, pos);
    CountPermutation(s, dat, AtMost(v));
    CountPermutation(s, dat, AtLeast(v));
  }

  /** In an ascending list the entry at `pos` has pos+1 entries at or below it
      and |s|-pos at or above it. */
  lemma AscendingCounts(s: seq<real>, pos: nat)
    requires Ascending(s) && pos < |s|
    ensures Count(s, AtMost(s[pos])) >= pos + 1
    ensures Count(s, AtLeast(s[pos])) >= |s| - pos
  {
    AscendingCountBelow(s, pos);
    AscendingCountAbove(s, pos);
  }

  lemma AscendingCountBelow(s: seq<real>, pos: nat)
    requires Ascending(s) && pos < |s|
    ensures Count(s, AtMost(s[pos])) >= pos + 1
  {
    var v := s[pos];
    var front, back := s[..pos + 1], s[pos + 1..];
    assert s == front + back;
    assert forall k :: 0 <= k < |front| ==> AtMost(v)(front[k]);
    CountAll(front, AtMost(v));
    CountAppend(front, back, AtMost(v));
  }

  lemma AscendingCountAbove(s: seq<real>, pos: nat)
    requires Ascending(s) && pos < |s|
    ensures Count(s, AtLeast(s[pos])) >= |s| - pos
  {
    var v := s[pos];
    var front, back := s[..pos], s[pos..];
    assert s == front + back;
    assert forall k :: 0 <= k < |back| ==> AtLeast(v)(back[k]);
    CountAll(back, AtLeast(v));
    CountAppend(front, back, AtLeast(v));
  }

  /** With q = 1 the quantile is the maximum of the data. */
  lemma QuantileOneIsMax(dat: seq<real>)
    requires |dat| > 0
    ensures Quantile(dat, 1.0).Ok?
    ensures Quantile(dat, 1.0).value in dat
    ensures forall x :: x in dat ==> x <= Quantile(dat, 1.0).value
  {
    QuantileDefined(dat, 1.0);
    SortAscFacts(dat);
    var s := SortAsc(dat);
    assert QuantilePos(|dat|, 1.0) == |dat| - 1;
    assert s[|dat| - 1] in multiset(dat);
    forall x | x in dat ensures x <= s[|dat| - 1] {
      assert x in multiset(s);
    }
  }

  /** A larger q never gives a smaller quantile. */
  lemma QuantileMonotone(dat: seq<real>, q1: real, q2: real)
    requires |dat| > 0 && 0.0 < q1 <= q2 <= 1.0
    ensures Quantile(dat, q1).Ok? && Quantile(dat, q2).Ok?
    ensures Quantile(dat, q1).value <= Quantile(dat, q2).value
  {
    QuantileDefined(dat, q1);
    QuantileDefined(dat, q2);
    SortAscFacts(dat);
    QuantilePosMonotone(|dat|, q1, q2);
    var s := SortAsc(dat);
    var p1, p2 := QuantilePos(|dat|, q1), QuantilePos(|dat|, q2);
    assert p1 <= p2;
    assert s[p1] <= s[p2];
  }

  /** Quantiles of non-negative data (absolute values) are non-negative. */
  lemma QuantileNonNegative(dat: seq<real>, q: real)
    requires forall k :: 0 <= k < |dat| ==> dat[k] >= 0.0
    requires Quantile(dat, q).Ok?
    ensures Quantile(dat, q).value >= 0.0
  {
    SortAscFacts(dat);
    QuantileDefined(dat, q);
    assert Quantile(dat, q).value in multiset(dat);
  }

  /** `getQuantile2` never fails for 0 < q <= 1. With fewer than 50 group
      members it yields exactly 0; otherwise it is an order statistic of
      exactly the group members, taken in their original order. */
  lemma Quantile2Spec(dat: seq<real>, grouping: seq<bool>, q: real)
    requires |grouping| == |dat| && 0.0 < q <= 1.0
    ensures Quantile2(dat, grouping, q).Ok?
    ensures |Select(dat, grouping)| < 50 ==> Quantile2(dat, grouping, q).value == 0.0
    ensures |Select(dat, grouping)| >= 50 ==>
              var v := Quantile2(dat, grouping, q).value;
              var group := Select(dat, grouping);
              (exists i :: 0 <= i < |dat| && grouping[i] && dat[i] == v) &&
              Count(group, AtMost(v)) >= QuantilePos(|group|, q) + 1 &&
              Count(group, AtLeast(v)) >= |group| - QuantilePos(|group|, q)
  {
    var group := Select(dat, grouping);
    if |group| >= 50 {
      QuantileIsOrderStatistic(group, q);
      SelectMembership(dat, grouping, Quantile(group, q).value);
    }
  }

  /** The grouped threshold of non-negative data is non-negative. */
  lemma Quantile2NonNegative(dat: seq<real>, grouping: seq<bool>, q: real)
    requires |grouping| == |dat| && 0.0 < q <= 1.0
    requires forall k :: 0 <= k < |dat| ==> dat[k] >= 0.0
    ensures Quantile2(dat, grouping, q).Ok? && Quantile2(dat, grouping, q).value >= 0.0
  {
    Quantile2Spec(dat, grouping, q);
    var group := Select(dat, grouping);
    if |group| >= 50 {
      var v := Quantile(group, q).value;
      SelectMembership(dat, grouping, v);
    }
  }
}
