/** The random-order generator of the QC loop: an argsort (`sort_indexes`)
    and the permutation built from distinct random draws
    (`generateSetOfNumbers`).

    The Mersenne-Twister generator is not modelled. A seeded generator is a
    deterministic stream of draws, so the model takes that stream as a finite
    sequence; running out of it is a failure of the model, not of the source. */
module Permutation {
  import opened Basics

  /** Largest value `std::uniform_int_distribution<int>(0, INT_MAX)` can draw. */
  const IntMax: int := 0x7FFF_FFFF

  /** `v` read along `idx` is non-decreasing. */
  predicate SortedAlong(v: seq<int>, idx: seq<nat>)
    requires forall k :: 0 <= k < |idx| ==> idx[k] < |v|
  {
    forall k, l :: 0 <= k < l < |idx| ==> v[idx[k]] <= v[idx[l]]
  }

  /** What a permutation of 0..n-1 is made of: n entries, each below n, no
      repeats, every value below n present. */
  lemma PermutationFacts(p: seq<nat>, n: nat)
    requires IsPermutation(p, n)
    ensures |p| == n
    ensures forall k :: 0 <= k < |p| ==> p[k] < n
    ensures Distinct(p)
    ensures forall x :: 0 <= x < n ==> x in p
  {
    assert |p| == |multiset(p)| == |multiset(Iota(n))| == n;
    forall k | 0 <= k < |p| ensures p[k] < n {
      assert p[k] in multiset(Iota(n));
    }
    forall x | 0 <= x < n ensures x in p {
      assert Iota(n)[x] == x;
      assert x in multiset(p);
    }
    assert Distinct(Iota(n));
    DistinctMultiplicity(Iota(n));
    DistinctMultiplicity(p);
  }

  /** `sort_indexes`: the indices 0..theSize-1 ordered by their key in `v`.
      `std::sort` is not stable, so among equal keys the source fixes no
      order; this implementation is an insertion sort, and only what every
      correct sort guarantees is promised. */
  method SortIndexes(v: seq<int>, theSize: nat) returns (idx: seq<nat>)
    requires theSize <= |v|
    ensures |idx| == theSize && forall k :: 0 <= k < theSize ==> idx[k] < theSize
    ensures IsPermutation(idx, theSize)
    ensures SortedAlong(v, idx)
  {
    var a := new nat[theSize](k => 0);
    var i := 0;
    while i < theSize
      invariant 0 <= i <= theSize
      invariant forall k :: 0 <= k < i ==> a[k] == k
    {
      a[i] := i;
      i := i + 1;
    }
    assert a[..] == Iota(theSize);
    i := 0;
    while i < theSize
      invariant 0 <= i <= theSize
      invariant multiset(a[..]) == multiset(Iota(theSize))
      invariant forall k :: 0 <= k < theSize ==> a[k] < theSize
      invariant forall k, l :: 0 <= k < l < i ==> v[a[k]] <= v[a[l]]
    {
      InsertAt(a, v, i);
      i := i + 1;
    }
    idx := a[..];
  }

  /** One insertion-sort pass: moves `a[i]` down into the sorted prefix `a[..i]`. */
  method InsertAt(a: array<nat>, v: seq<int>, i: nat)
    requires i < a.Length <= |v|
    requires forall k :: 0 <= k < a.Length ==> a[k] < a.Length
    requires forall k, l :: 0 <= k < l < i ==> v[a[k]] <= v[a[l]]
    modifies a
    ensures multiset(a[..]) == multiset(old(a[..]))
    ensures forall k :: 0 <= k < a.Length ==> a[k] < a.Length
    ensures forall k, l :: 0 <= k < l <= i ==> v[a[k]] <= v[a[l]]
  {
    var j := i;
    while j > 0 && v[a[j - 1]] > v[a[j]]
      invariant 0 <= j <= i
      invariant multiset(a[..]) == multiset(old(a[..]))
      invariant forall k :: 0 <= k < a.Length ==> a[k] < a.Length
      invariant forall k, l :: 0 <= k < l <= i && k != j && l != j ==> v[a[k]] <= v[a[l]]
      invariant forall l :: j < l <= i ==> v[a[j]] < v[a[l]]
    {
      SwapDown(a, j);
      j := j - 1;
    }
  }

  method SwapDown(a: array<nat>, j: nat)
    requires 0 < j < a.Length
    modifies a
    ensures a[j - 1] == old(a[j]) && a[j] == old(a[j - 1])
    ensures forall k :: 0 <= k < a.Length && k != j - 1 && k != j ==> a[k] == old(a[k])
    ensures multiset(a[..]) == multiset(old(a[..]))
  {
    a[j - 1], a[j] := a[j], a[j - 1];
  }

  /** With pairwise different keys the argsort is strictly increasing along
      the keys, so it is the only order `std::sort` can produce. */
  lemma ArgsortStrict(v: seq<int>, idx: seq<nat>, n: nat)
    requires n <= |v| && forall p, q :: 0 <= p < q < n ==> v[p] != v[q]
    requires IsPermutation(idx, n)
    requires forall k :: 0 <= k < |idx| ==> idx[k] < |v|
    requires SortedAlong(v, idx)
    ensures forall k, l :: 0 <= k < l < |idx| ==> v[idx[k]] < v[idx[l]]
  {
    PermutationFacts(idx, n);
    forall k, l | 0 <= k < l < |idx| ensures v[idx[k]] < v[idx[l]] {
      assert idx[k] != idx[l];
      if idx[k] < idx[l] {
        assert v[idx[k]] != v[idx[l]];
      } else {
        assert v[idx[l]] != v[idx[k]];
      }
    }
  }

  /** The draws kept by the retry loop: each draw in turn, skipped when it
      equals one already kept. */
  function Dedup(s: seq<int>): seq<int> {
    if s == [] then []
    else
      var kept := Dedup(s[..|s| - 1]);
      if s[|s| - 1] in kept then kept else kept + [s[|s| - 1]]
  }

  /** The kept draws have no repeats, and they are exactly the values drawn. */
  lemma {:induction false} DedupExact(s: seq<int>)
    ensures Distinct(Dedup(s))
    ensures forall x :: x in Dedup(s) <==> x in s
  {
    if s != [] {
      var n := |s| - 1;
      DedupExact(s[..n]);
      assert s == s[..n] + [s[n]];
    }
  }

  /** Drawing more never changes what was already kept. */
  lemma {:induction false} DedupPrefix(s: seq<int>, i: nat)
    requires i <= |s|
    ensures |Dedup(s[..i])| <= |Dedup(s)|
    ensures Dedup(s)[..|Dedup(s[..i])|] == Dedup(s[..i])
  {
    if i < |s| {
      var n := |s| - 1;
      assert s[..n][..i] == s[..i];
      DedupPrefix(s[..n], i);
    } else {
      assert s[..i] == s;
    }
  }

  /** A kept value is never the `-1` retry sentinel, since every draw lies in
      0..INT_MAX. */
  lemma KeptNeverSentinel(draws: seq<int>)
    requires forall k :: 0 <= k < |draws| ==> 0 <= draws[k] <= IntMax
    ensures forall k :: 0 <= k < |Dedup(draws)| ==> 0 <= Dedup(draws)[k] <= IntMax
  {
    DedupExact(draws);
    forall k | 0 <= k < |Dedup(draws)| ensures 0 <= Dedup(draws)[k] <= IntMax {
      var x := Dedup(draws)[k];
      assert x in draws;
    }
  }

  /** The uniqueness scan of lines 44-50: `tempNum` differs from each of the
      first `index` values kept, stopping at the first match. */
  method IsFresh(numbers: array<int>, index: nat, tempNum: int) returns (isUnique: bool)
    requires index <= numbers.Length
    ensures isUnique <==> tempNum !in numbers[..index]
  {
    isUnique := true;
    var index2 := 0;
    while index2 < index
      invariant 0 <= index2 <= index
      invariant tempNum !in numbers[..index2]
    {
      if tempNum == numbers[index2] {
        isUnique := false;
        break;
      }
      assert numbers[..index2 + 1] == numbers[..index2] + [numbers[index2]];
      index2 := index2 + 1;
    }
    if isUnique {
      assert numbers[..index2] == numbers[..index];
    }
  }

  /** The do-while of lines 42-53: draw until a value not kept yet comes up,
      marking a repeat with the sentinel -1. Every draw is consumed; `found`
      is false only when the stream runs out first. */
  method DrawFresh(numbers: array<int>, index: nat, draws: seq<int>, cursor: nat)
    returns (found: bool, tempNum: int, next: nat)
    requires index <= numbers.Length && 1 <= cursor <= |draws|
    requires forall k :: 0 <= k < |draws| ==> 0 <= draws[k] <= IntMax
    requires numbers[..index] == Dedup(draws[..cursor])
    ensures cursor <= next <= |draws|
    ensures found ==> Dedup(draws[..next]) == numbers[..index] + [tempNum]
    ensures found ==> next > cursor && draws[next - 1] == tempNum
    ensures !found ==> next == |draws| && Dedup(draws[..next]) == numbers[..index]
  {
    next := cursor;
    tempNum := -1;
    while tempNum == -1
      invariant cursor <= next <= |draws|
      invariant tempNum == -1 ==> numbers[..index] == Dedup(draws[..next])
      invariant tempNum != -1 ==> Dedup(draws[..next]) == numbers[..index] + [tempNum]
      invariant tempNum != -1 ==> next > cursor && draws[next - 1] == tempNum
      decreases |draws| - next, if tempNum == -1 then 1 else 0
    {
      if next == |draws| {
        return false, tempNum, next;
      }
      tempNum := draws[next];
      assert draws[..next + 1][..next] == draws[..next];
      next := next + 1;
      var isUnique := IsFresh(numbers, index, tempNum);
      if !isUnique {
        tempNum := -1;
      }
    }
    found := true;
  }

  /** `generateSetOfNumbers`: draw `size` pairwise different values, retrying
      on a repeat, and return the order that sorts them.

      It succeeds exactly when the stream holds at least `size` different
      values; the permutation returned then sorts the first `size` different
      values, strictly ascending. */
  method GenerateSetOfNumbers(size: int, draws: seq<int>) returns (r: Result<seq<nat>>)
    requires size >= 1
    requires forall k :: 0 <= k < |draws| ==> 0 <= draws[k] <= IntMax
    ensures r.Ok? <==> |Dedup(draws)| >= size
    ensures r.Ok? ==> |r.value| == size && forall k :: 0 <= k < size ==> r.value[k] < size
    ensures r.Ok? ==> IsPermutation(r.value, size)
    ensures r.Ok? ==> forall k, l :: 0 <= k < l < size ==>
              Dedup(draws)[r.value[k]] < Dedup(draws)[r.value[l]]
    ensures r.Ok? ==> SortsDraws(r.value, size, draws)
  {
    var numbers := new int[size](k => 0);
    if |draws| == 0 {
      return Err(DrawsExhausted);
    }
    numbers[0] := draws[0];
    var cursor := 1;
    assert Dedup(draws[..1]) == [draws[0]] by { assert draws[..1][..0] == []; }
    var index := 1;
    while index < size
      invariant 1 <= index <= size
      invariant 1 <= cursor <= |draws|
      invariant numbers[..index] == Dedup(draws[..cursor])
    {
      var found, tempNum;
      found, tempNum, cursor := DrawFresh(numbers, index, draws, cursor);
      if !found {
        assert draws[..cursor] == draws;
        return Err(DrawsExhausted);
      }
      numbers[index] := tempNum;
      assert numbers[..index + 1] == numbers[..index] + [tempNum];
      index := index + 1;
    }
    assert numbers[..] == numbers[..size];
    DedupPrefix(draws, cursor);
    DedupExact(draws);
    var order := SortIndexes(numbers[..], size);
    ArgsortStrict(numbers[..], order, size);
    return Ok(order);
  }

  /** `order` is a permutation returned by `generateSetOfNumbers(size, ...)`
      on this stream: it sorts the first `size` different draws strictly
      ascending. */
  predicate SortsDraws(order: seq<nat>, size: nat, draws: seq<int>) {
    |Dedup(draws)| >= size && |order| == size &&
    (forall k :: 0 <= k < size ==> order[k] < size) &&
    forall k, l :: 0 <= k < l < size ==> Dedup(draws)[order[k]] < Dedup(draws)[order[l]]
  }

  /** An order that sorts the draws is a permutation of 0..size-1: its
      entries are distinct ids below `size`, and there are `size` of them. */
  lemma SortsDrawsPermutes(order: seq<nat>, size: nat, draws: seq<int>)
    requires SortsDraws(order, size, draws)
    ensures IsPermutation(order, size)
  {
    assert Distinct(order) by {
      forall i, j | 0 <= i < j < |order| ensures order[i] != order[j] {
        assert Dedup(draws)[order[i]] < Dedup(draws)[order[j]];
      }
    }
    DistinctWithinIota(order, size);
    SubMultisetEqual(multiset(order), multiset(Iota(size)));
  }

  /** The stream fixes the order: two orders that both sort the same draws
      are equal, so a seed reproduces its random order. */
  lemma SeedFixesOrder(a: seq<nat>, b: seq<nat>, size: nat, draws: seq<int>)
    requires SortsDraws(a, size, draws) && SortsDraws(b, size, draws)
    ensures a == b
  {
    SortedPrefixAgrees(a, b, size, draws, size);
  }

  lemma {:induction false} SortedPrefixAgrees(a: seq<nat>, b: seq<nat>, size: nat, draws: seq<int>, n: nat)
    requires SortsDraws(a, size, draws) && SortsDraws(b, size, draws) && n <= size
    ensures forall i :: 0 <= i < n ==> a[i] == b[i]
  {
    if n > 0 {
      var k := n - 1;
      SortedPrefixAgrees(a, b, size, draws, k);
      SortsDrawsPermutes(a, size, draws);
      SortsDrawsPermutes(b, size, draws);
      PermutationFacts(a, size);
      PermutationFacts(b, size);
      DedupExact(draws);
      var v := Dedup(draws);
      // b[k] sits in `a` at or after position k, so its key is not below a[k]'s
      assert forall i :: 0 <= i < k ==> a[i] != b[k];
      assert b[k] in a;
      var j :| 0 <= j < size && a[j] == b[k];
      assert v[a[k]] <= v[b[k]];
      // and symmetrically
      assert forall i :: 0 <= i < k ==> b[i] != a[k];
      assert a[k] in b;
      var j' :| 0 <= j' < size && b[j'] == a[k];
      assert v[b[k]] <= v[a[k]];
    }
  }
}
