/** The outer QC loop of `dentist`: bisection of the active markers into a
    reference set `idx` and a target set `idx2`, the group thresholds, the
    provisional QC of the targets, and the survivor / `iterID` update that
    shrinks the active set from round to round.

    Per-marker state (`imputedZ`, `rsq`, `zScore_e`, `iterID`) lives in arrays
    indexed by marker id, as the `arma::vec`s of the source do. */
module Dentist {
  import opened Basics
  import opened Permutation
  import opened Quantiles
  import opened Imputation

  /** The quantile used for every threshold (lines 232-234). */
  const QcQuantile: real := 0.995

  function Abs(x: real): real { if x < 0.0 then -x else x }

  function AtMostNat(h: nat): nat -> bool { v => v <= h }

  /** Bit k is set when the k-th rank exceeds `half`: that member becomes a reference. */
  function AboveMid(rank: seq<nat>, half: nat): (m: seq<bool>)
    ensures |m| == |rank| && forall k :: 0 <= k < |rank| ==> m[k] == (rank[k] > half)
  {
    seq(|rank|, k requires 0 <= k < |rank| => rank[k] > half)
  }

  /** A marker passes QC when its absolute adjusted statistic is at most the
      threshold of its own group. */
  predicate Passes(diff: real, group1: bool, threshold1: real, threshold0: real) {
    if group1 then diff <= threshold1 else diff <= threshold0
  }

  /** Lines 237-242 mask: position i passes with `diff[i]` and `grouping_tmp[i]`. */
  function PassMask(diff: seq<real>, groupTmp: seq<bool>, threshold1: real, threshold0: real): (m: seq<bool>)
    requires |groupTmp| == |diff|
    ensures |m| == |diff|
  {
    seq(|diff|, i requires 0 <= i < |diff| => Passes(diff[i], groupTmp[i], threshold1, threshold0))
  }

  /** Lines 249-256 mask: marker `list[i]` passes with `|zScore_e[list[i]]|`
      and its own group label. */
  function PassMaskAt(list: seq<nat>, zScoreE: seq<real>, grouping: seq<bool>,
                      threshold1: real, threshold0: real): (m: seq<bool>)
    requires forall i :: 0 <= i < |list| ==> list[i] < |zScoreE| && list[i] < |grouping|
    ensures |m| == |list|
  {
    seq(|list|, i requires 0 <= i < |list| =>
      Passes(Abs(zScoreE[list[i]]), grouping[list[i]], threshold1, threshold0))
  }

  // ---------------------------------------------------------------------
  // Bisection

  /** The bisection loop of lines 199-202, and of lines 279-281 with the
      random rank read at the member's POSITION in the active list: member
      k goes to the reference set when `rank[k] > half`, else to the targets. */
  method Bisect(members: seq<nat>, rank: seq<nat>, half: nat) returns (idx: seq<nat>, idx2: seq<nat>)
    requires |rank| == |members|
    ensures idx == Select(members, AboveMid(rank, half))
    ensures idx2 == Select(members, Not(AboveMid(rank, half)))
  {
    var above := AboveMid(rank, half);
    idx, idx2 := [], [];
    var k := 0;
    while k < |members|
      invariant 0 <= k <= |members|
      invariant idx == Select(members[..k], above[..k])
      invariant idx2 == Select(members[..k], Not(above)[..k])
    {
      SelectSnoc(members, above, k);
      SelectSnoc(members, Not(above), k);
      if rank[k] > half {
        idx := idx + [members[k]];
      } else {
        idx2 := idx2 + [members[k]];
      }
      k := k + 1;
    }
    assert members[..k] == members && above[..k] == above && Not(above)[..k] == Not(above);
  }

  /** The later-round bisection of lines 279-281 as written: the rank of a
      surviving marker is read at its marker id `i`, not at its position. */
  method BisectById(members: seq<nat>, rank: seq<nat>, half: nat) returns (idx: seq<nat>, idx2: seq<nat>)
    requires forall k :: 0 <= k < |members| ==> members[k] < |rank|
    ensures idx == Select(members, AboveMid(Gather(rank, members), half))
    ensures idx2 == Select(members, Not(AboveMid(Gather(rank, members), half)))
  {
    idx, idx2 := Bisect(members, Gather(rank, members), half);
  }

  /** `rank` read at the marker ids in `ids`. */
  function Gather(rank: seq<nat>, ids: seq<nat>): (r: seq<nat>)
    requires forall k :: 0 <= k < |ids| ==> ids[k] < |rank|
    ensures |r| == |ids| && forall k :: 0 <= k < |ids| ==> r[k] == rank[ids[k]]
  {
    seq(|ids|, k requires 0 <= k < |ids| => rank[ids[k]])
  }

  /** In the first round the members are 0..M-1 in order, so reading the rank
      by id and by position agree. */
  lemma ByIdAgreesOnFirstRound(rank: seq<nat>)
    ensures forall k :: 0 <= k < |rank| ==> Iota(|rank|)[k] < |rank|
    ensures Gather(rank, Iota(|rank|)) == rank
  {
  }

  /** As soon as one marker whose id is below the active-set size has been
      dropped, some survivor's id is at least that size, so line 280 reads
      `randOrder` out of bounds. */
  lemma DroppedMarkerEscapes(members: seq<nat>, dropped: nat)
    requires Distinct(members)
    requires dropped < |members| && dropped !in members
    ensures exists k :: 0 <= k < |members| && members[k] >= |members|
  {
    if forall k :: 0 <= k < |members| ==> members[k] < |members| {
      IdsBelowWithGap(members, dropped, |members|);
    }
  }

  /** Pigeonhole: distinct ids below n that avoid one id below n number at most n-1. */
  lemma IdsBelowWithGap(members: seq<nat>, dropped: nat, n: nat)
    requires Distinct(members) && dropped < n && dropped !in members
    requires forall k :: 0 <= k < |members| ==> members[k] < n
    ensures |members| <= n - 1
  {
    // `others` holds every id below n except `dropped`, and also n, which no member is
    var others := Iota(n)[dropped := n];
    var a, b := multiset(members), multiset(others);
    DistinctMultiplicity(members);
    forall x ensures a[x] <= b[x] {
      if x in members {
        assert x < n && x != dropped;
        assert others[x] == x;
      }
    }
    assert others[dropped] == n;
    assert (b - a)[n] >= 1;
    assert a + (b - a) == b;
  }

  /** Mask-selected sizes: the targets are as many as the ranks at or below `half`. */
  lemma {:induction false} TargetCount(members: seq<nat>, rank: seq<nat>, half: nat)
    requires |rank| == |members|
    ensures |Select(members, Not(AboveMid(rank, half)))| == Count(rank, AtMostNat(half))
  {
    if members != [] {
      var n := |members| - 1;
      assert Not(AboveMid(rank, half))[..n] == Not(AboveMid(rank[..n], half));
      TargetCount(members[..n], rank[..n], half);
    }
  }

  lemma {:induction false} IotaCountAtMost(n: nat, h: nat)
    requires h < n
    ensures Count(Iota(n), AtMostNat(h)) == h + 1
  {
    if n - 1 > h {
      assert Iota(n)[..n - 1] == Iota(n - 1);
      IotaCountAtMost(n - 1, h);
    } else {
      assert Iota(n)[..n - 1] == Iota(n - 1);
      CountAll(Iota(n - 1), AtMostNat(h));
    }
  }

  /** Bisection by a random permutation of 0..S-1 (S >= 1): the two lists
      cover every member exactly once, |idx2| = S/2 + 1 and
      |idx| = S - 1 - S/2. For even S the target set is larger by 2. */
  lemma BisectionSplit(members: seq<nat>, rank: seq<nat>)
    requires |members| >= 1 && |rank| == |members| && IsPermutation(rank, |members|)
    ensures var m := AboveMid(rank, |members| / 2);
            multiset(Select(members, m)) + multiset(Select(members, Not(m))) == multiset(members)
    ensures |Select(members, Not(AboveMid(rank, |members| / 2)))| == |members| / 2 + 1
    ensures |Select(members, AboveMid(rank, |members| / 2))| == |members| - 1 - |members| / 2
  {
    var s, h := |members|, |members| / 2;
    SelectPartition(members, AboveMid(rank, h));
    TargetCount(members, rank, h);
    CountPermutation(rank, Iota(s), AtMostNat(h));
    IotaCountAtMost(s, h);
  }

  /** The first bisection (lines 195-202): both lists are strictly ascending,
      and marker i is a reference exactly when `randOrder[i] > half` and a
      target otherwise, so the two lists are disjoint. */
  lemma FirstBisection(randOrder: seq<nat>, half: nat)
    ensures StrictlyIncreasing(Select(Iota(|randOrder|), AboveMid(randOrder, half)))
    ensures StrictlyIncreasing(Select(Iota(|randOrder|), Not(AboveMid(randOrder, half))))
    ensures forall i :: 0 <= i < |randOrder| ==>
              (i in Select(Iota(|randOrder|), AboveMid(randOrder, half)) <==> randOrder[i] > half) &&
              (i in Select(Iota(|randOrder|), Not(AboveMid(randOrder, half))) <==> randOrder[i] <= half)
  {
    var n := |randOrder|;
    var m := AboveMid(randOrder, half);
    IotaSelectAscending(n, m);
    IotaSelectAscending(n, Not(m));
    IotaSelectMembers(n, m);
    IotaSelectMembers(n, Not(m));
  }

  lemma IotaSelectMembers(n: nat, m: seq<bool>)
    requires |m| == n
    ensures forall i :: 0 <= i < n ==> (i in Select(Iota(n), m) <==> m[i])
  {
    forall i | 0 <= i < n ensures i in Select(Iota(n), m) <==> m[i] {
      SelectMembership<nat>(Iota(n), m, i);
    }
  }

  lemma IotaSelectAscending(n: nat, m: seq<bool>)
    requires |m| == n
    ensures StrictlyIncreasing(Select(Iota(n), m))
  {
    SelectIsOrderedSublist(Iota(n), m);
    PositionsExact(m);
  }

  // ---------------------------------------------------------------------
  // One round

  /** Lines 225-230: the absolute adjusted statistics and group labels of the targets. */
  method GatherDiffs(idx2: seq<nat>, zScoreE: seq<real>, grouping: seq<bool>)
    returns (diff: seq<real>, groupTmp: seq<bool>)
    requires forall i :: 0 <= i < |idx2| ==> idx2[i] < |zScoreE| && idx2[i] < |grouping|
    ensures |diff| == |idx2| && |groupTmp| == |idx2|
    ensures forall i :: 0 <= i < |idx2| ==>
              diff[i] == Abs(zScoreE[idx2[i]]) && diff[i] >= 0.0 && groupTmp[i] == grouping[idx2[i]]
  {
    diff, groupTmp := [], [];
    var i := 0;
    while i < |idx2|
      invariant 0 <= i <= |idx2|
      invariant |diff| == i && |groupTmp| == i
      invariant forall p :: 0 <= p < i ==> diff[p] == Abs(zScoreE[idx2[p]]) && groupTmp[p] == grouping[idx2[p]]
    {
      diff := diff + [Abs(zScoreE[idx2[i]])];
      groupTmp := groupTmp + [grouping[idx2[i]]];
      i := i + 1;
    }
  }

  /** Lines 225-234: the overall and the two group thresholds from the
      absolute adjusted statistics of the targets. The overall quantile is
      only used for its failure, which happens exactly when there are no
      targets; the group thresholds never fail and are never negative. */
  method Thresholds(idx2: seq<nat>, zScoreE: seq<real>, grouping: seq<bool>)
    returns (diff: seq<real>, groupTmp: seq<bool>, r: Outcome, threshold1: real, threshold0: real)
    requires forall i :: 0 <= i < |idx2| ==> idx2[i] < |zScoreE| && idx2[i] < |grouping|
    ensures |diff| == |idx2| && |groupTmp| == |idx2|
    ensures forall i :: 0 <= i < |idx2| ==> diff[i] == Abs(zScoreE[idx2[i]]) && groupTmp[i] == grouping[idx2[i]]
    ensures r.Pass? <==> |idx2| > 0
    ensures r.Fail? ==> r.error == QuantileOutOfRange
    ensures r.Pass? ==> threshold1 == Quantile2(diff, groupTmp, QcQuantile).value
    ensures r.Pass? ==> threshold0 == Quantile2(diff, Not(groupTmp), QcQuantile).value
    ensures r.Pass? ==> threshold1 >= 0.0 && threshold0 >= 0.0
  {
    threshold1, threshold0 := 0.0, 0.0;
    diff, groupTmp := GatherDiffs(idx2, zScoreE, grouping);
    QuantileDefined(diff, QcQuantile);
    var overall := Quantile(diff, QcQuantile);
    if overall.Err? {
      return diff, groupTmp, Fail(overall.error), threshold1, threshold0;
    }
    Quantile2NonNegative(diff, groupTmp, QcQuantile);
    Quantile2NonNegative(diff, Not(groupTmp), QcQuantile);
    threshold1 := Quantile2(diff, groupTmp, QcQuantile).value;
    threshold0 := Quantile2(diff, Not(groupTmp), QcQuantile).value;
    r := Pass;
  }

  /** Lines 237-242: the provisional QC of the targets, keeping each target
      whose absolute adjusted statistic is within its group's threshold. */
  method QcFilter(idx2: seq<nat>, diff: seq<real>, groupTmp: seq<bool>,
                  threshold1: real, threshold0: real) returns (qced: seq<nat>)
    requires |diff| == |idx2| && |groupTmp| == |idx2|
    ensures qced == Select(idx2, PassMask(diff, groupTmp, threshold1, threshold0))
  {
    var mask := PassMask(diff, groupTmp, threshold1, threshold0);
    qced := [];
    var i := 0;
    while i < |diff|
      invariant 0 <= i <= |diff|
      invariant qced == Select(idx2[..i], mask[..i])
    {
      SelectSnoc(idx2, mask, i);
      if (groupTmp[i] && diff[i] <= threshold1) || (!groupTmp[i] && diff[i] <= threshold0) {
        qced := qced + [idx2[i]];
      }
      i := i + 1;
    }
    assert idx2[..i] == idx2 && mask[..i] == mask;
  }

  /** A list selected by `PassMaskAt` holds exactly the listed markers that
      pass QC, in their original order. */
  lemma PassSelection(list: seq<nat>, zScoreE: seq<real>, grouping: seq<bool>,
                      threshold1: real, threshold0: real)
    requires forall i :: 0 <= i < |list| ==> list[i] < |zScoreE| && list[i] < |grouping|
    ensures forall j :: j in Select(list, PassMaskAt(list, zScoreE, grouping, threshold1, threshold0)) <==>
              j in list && Passes(Abs(zScoreE[j]), grouping[j], threshold1, threshold0)
  {
    var m := PassMaskAt(list, zScoreE, grouping, threshold1, threshold0);
    forall j: nat ensures j in Select(list, m) <==> j in list && Passes(Abs(zScoreE[j]), grouping[j], threshold1, threshold0) {
      SelectMembership(list, m, j);
    }
  }

  /** The targets kept by `QcFilter` are the targets that pass QC under the
      group of their own marker, as an order-preserving sublist of `idx2`. */
  lemma QcFilterSelectsPassing(idx2: seq<nat>, zScoreE: seq<real>, grouping: seq<bool>,
                               diff: seq<real>, groupTmp: seq<bool>, threshold1: real, threshold0: real)
    requires forall i :: 0 <= i < |idx2| ==> idx2[i] < |zScoreE| && idx2[i] < |grouping|
    requires |diff| == |idx2| && |groupTmp| == |idx2|
    requires forall i :: 0 <= i < |idx2| ==> diff[i] == Abs(zScoreE[idx2[i]]) && groupTmp[i] == grouping[idx2[i]]
    ensures PassMask(diff, groupTmp, threshold1, threshold0) == PassMaskAt(idx2, zScoreE, grouping, threshold1, threshold0)
    ensures forall j :: j in Select(idx2, PassMask(diff, groupTmp, threshold1, threshold0)) <==>
              j in idx2 && Passes(Abs(zScoreE[j]), grouping[j], threshold1, threshold0)
  {
    PassSelection(idx2, zScoreE, grouping, threshold1, threshold0);
  }

  /** Lines 248-256: the markers of the active set that pass QC, in active-set
      order; each one's `iterID` goes up by one. */
  method Survivors(fullIdx: seq<nat>, zScoreE: seq<real>, grouping: seq<bool>,
                   threshold1: real, threshold0: real, iterId: array<int>) returns (next: seq<nat>)
    requires forall i :: 0 <= i < |fullIdx| ==>
               fullIdx[i] < |zScoreE| && fullIdx[i] < |grouping| && fullIdx[i] < iterId.Length
    modifies iterId
    ensures next == Select(fullIdx, PassMaskAt(fullIdx, zScoreE, grouping, threshold1, threshold0))
    ensures forall k :: 0 <= k < iterId.Length ==> iterId[k] == old(iterId[k]) + multiset(next)[k]
  {
    var mask := PassMaskAt(fullIdx, zScoreE, grouping, threshold1, threshold0);
    next := [];
    var i := 0;
    while i < |fullIdx|
      invariant 0 <= i <= |fullIdx|
      invariant next == Select(fullIdx[..i], mask[..i])
      invariant forall k :: 0 <= k < iterId.Length ==> iterId[k] == old(iterId[k]) + multiset(next)[k]
    {
      var marker := fullIdx[i];
      SelectSnoc(fullIdx, mask, i);
      var currentDiff := Abs(zScoreE[marker]);
      if (grouping[marker] && currentDiff <= threshold1) || (!grouping[marker] && currentDiff <= threshold0) {
        assert multiset(next + [marker]) == multiset(next) + multiset{marker};
        next := next + [marker];
        iterId[marker] := iterId[marker] + 1;
      }
      i := i + 1;
    }
    assert fullIdx[..i] == fullIdx && mask[..i] == mask;
  }

  /** `Survivors` again, and nothing more: the same contract, with the update
      of `iterId` restated on the whole vector (`Incremented`) instead of
      slot by slot. It only changes the form in which callers see it; stating
      both forms on `Survivors` itself makes its loop proof much costlier. */
  method SurvivorsCounted(fullIdx: seq<nat>, zScoreE: seq<real>, grouping: seq<bool>,
                          threshold1: real, threshold0: real, iterId: array<int>) returns (next: seq<nat>)
    requires forall i :: 0 <= i < |fullIdx| ==>
               fullIdx[i] < |zScoreE| && fullIdx[i] < |grouping| && fullIdx[i] < iterId.Length
    modifies iterId
    ensures next == Select(fullIdx, PassMaskAt(fullIdx, zScoreE, grouping, threshold1, threshold0))
    ensures Incremented(old(iterId[..]), iterId[..], next)
  {
    next := Survivors(fullIdx, zScoreE, grouping, threshold1, threshold0, iterId);
  }

  // ---------------------------------------------------------------------
  // The whole run

  /** The vectors `dentist` hands back. */
  datatype QcResult = QcResult(imputedZ: seq<real>, rsq: seq<real>, zScoreE: seq<real>,
                               iterId: seq<int>, groupingGWAS: seq<bool>)

  /** Every seed's stream holds only values `uniform_int_distribution<int>(0, INT_MAX)` can draw. */
  ghost predicate DrawsInRange(draws: int -> seq<int>) {
    forall s, k :: 0 <= k < |draws(s)| ==> 0 <= draws(s)[k] <= IntMax
  }

  function Rounds(nIter: int): nat { if nIter < 0 then 0 else nIter }

  /** A list contained in the active set inherits its "no repeats, valid ids". */
  lemma WithinActive(a: seq<nat>, fullIdx: seq<nat>, markerSize: nat)
    requires multiset(a) <= multiset(fullIdx) && Distinct(fullIdx)
    requires forall k :: 0 <= k < |fullIdx| ==> fullIdx[k] < markerSize
    ensures Distinct(a) && forall k :: 0 <= k < |a| ==> a[k] < markerSize
  {
    SubMultisetDistinct(a, fullIdx);
    forall k | 0 <= k < |a| ensures a[k] < markerSize {
      assert a[k] in multiset(fullIdx);
    }
  }

  /** The bounds on `iterID` after t rounds: every count lies in 0..t and
      equals t exactly for the markers still active. `CountsLog` states the
      exact count. */
  ghost predicate CountsRounds(counts: seq<int>, active: seq<nat>, t: nat) {
    forall k :: 0 <= k < |counts| ==> 0 <= counts[k] <= t && (counts[k] == t <==> k in active)
  }

  ghost predicate BelowOne(rsq: seq<real>) {
    forall k :: 0 <= k < |rsq| ==> rsq[k] < 1.0
  }

  /** Line 254: each count rises by the number of times its marker is among
      the survivors, and nothing else changes. */
  ghost predicate Incremented(before: seq<int>, after: seq<int>, survivors: seq<nat>) {
    |after| == |before| && forall k :: 0 <= k < |before| ==> after[k] == before[k] + multiset(survivors)[k]
  }

  /** The survivor update keeps "iterID counts the rounds a marker stayed
      active": after round t+1 exactly the survivors have count t+1, every
      other marker keeps a smaller count. */
  lemma CountsAfterRound(fullIdx: seq<nat>, next: seq<nat>, before: seq<int>, after: seq<int>, t: nat)
    requires multiset(next) <= multiset(fullIdx) && Distinct(fullIdx)
    requires |after| == |before|
    requires CountsRounds(before, fullIdx, t)
    requires Incremented(before, after, next)
    ensures CountsRounds(after, next, t + 1)
    ensures forall k :: 0 <= k < |after| ==> after[k] >= before[k]
  {
    SubMultisetDistinct(next, fullIdx);
    DistinctMultiplicity(next);
    forall k | 0 <= k < |after| ensures 0 <= after[k] <= t + 1 && (after[k] == t + 1 <==> k in next) {
      if k in next {
        assert k in multiset(fullIdx);
      }
    }
  }

  /** The per-marker vectors `imputedZ`, `rsq` and `zScore_e` at one moment. */
  datatype Vectors = Vectors(imputedZ: seq<real>, rsq: seq<real>, zScoreE: seq<real>)

  function Snapshot(imputedZ: array<real>, rsq: array<real>, zScoreE: array<real>): Vectors
    reads imputedZ, rsq, zScoreE
  {
    Vectors(imputedZ[..], rsq[..], zScoreE[..])
  }

  /** The vectors as lines 211-214 allocate them: n zeros each. */
  function Zeros(n: nat): Vectors {
    Vectors(seq(n, _ => 0.0), seq(n, _ => 0.0), seq(n, _ => 0.0))
  }

  ghost predicate Sized(v: Vectors, n: nat) {
    |v.imputedZ| == n && |v.rsq| == n && |v.zScoreE| == n
  }

  /** Slot `j` of `v` holds the i-th imputed value, R-squared and residual of `fit`. */
  ghost predicate Holds(v: Vectors, j: nat, fit: Fit, i: nat) {
    j < |v.imputedZ| && j < |v.rsq| && j < |v.zScoreE| &&
    i < |fit.imputed| && i < |fit.rsq| && i < |fit.residual| &&
    v.imputedZ[j] == fit.imputed[i] && v.rsq[j] == fit.rsq[i] && v.zScoreE[j] == fit.residual[i]
  }

  /** Every target slot of `v` holds the values `fit` has for that target. */
  ghost predicate Scattered(targets: seq<nat>, fit: Fit, v: Vectors) {
    forall i :: 0 <= i < |targets| ==> Holds(v, targets[i], fit, i)
  }

  /** `before` and `after` have n slots and agree at every slot not in `targets`. */
  ghost predicate SameOutside(targets: seq<nat>, n: nat, before: Vectors, after: Vectors) {
    Sized(before, n) && Sized(after, n) &&
    forall j :: 0 <= j < n && j !in targets ==>
      after.imputedZ[j] == before.imputedZ[j] && after.rsq[j] == before.rsq[j] &&
      after.zScoreE[j] == before.zScoreE[j]
  }

  /** Line 228, entry by entry. */
  function AbsAll(xs: seq<real>): (d: seq<real>)
    ensures |d| == |xs| && forall i :: 0 <= i < |xs| ==> d[i] == Abs(xs[i]) && d[i] >= 0.0
  {
    seq(|xs|, i requires 0 <= i < |xs| => Abs(xs[i]))
  }

  /** Line 229: the group labels of the listed markers. */
  function GroupsAt(ids: seq<nat>, grouping: seq<bool>): (g: seq<bool>)
    requires forall i :: 0 <= i < |ids| ==> ids[i] < |grouping|
    ensures |g| == |ids| && forall i :: 0 <= i < |ids| ==> g[i] == grouping[ids[i]]
  {
    seq(|ids|, i requires 0 <= i < |ids| => grouping[ids[i]])
  }

  /** Lines 216-234: the thresholds of a round are the two group quantiles
      (q = 0.995) of the absolute residuals that imputing the targets `idx2`
      from the references `idx` yields; the overall quantile needs at least
      one target. */
  ghost predicate QcThresholds(idx: seq<nat>, idx2: seq<nat>, grouping: seq<bool>,
                               eig: seq<nat> -> seq<real>, impute: (seq<nat>, seq<nat>, seq<nat>) -> Fit,
                               nSample: nat, propSVD: real, threshold1: real, threshold0: real)
    requires propSVD >= 0.0 && EigenOracle(eig) && FitOracle(impute)
    requires forall i :: 0 <= i < |idx2| ==> idx2[i] < |grouping|
  {
    TruncationRank(nSample, propSVD, eig(idx)).Ok? && |idx2| > 0 &&
    var d := AbsAll(FitFor(idx, idx2, eig, impute, nSample, propSVD).residual);
    Quantile2(d, GroupsAt(idx2, grouping), QcQuantile) == Ok(threshold1) &&
    Quantile2(d, Not(GroupsAt(idx2, grouping)), QcQuantile) == Ok(threshold0)
  }

  /** Lines 236-242: the kept targets are those whose absolute residual in
      `fit` is within their group's threshold, in target order. */
  ghost predicate KeptTargets(qced: seq<nat>, idx2: seq<nat>, fit: Fit, grouping: seq<bool>,
                              threshold1: real, threshold0: real)
    requires forall i :: 0 <= i < |idx2| ==> idx2[i] < |grouping|
  {
    |fit.residual| == |idx2| &&
    qced == Select(idx2, PassMask(AbsAll(fit.residual), GroupsAt(idx2, grouping), threshold1, threshold0))
  }

  /** A group with fewer than 50 targets gets the threshold 0 from
      `getQuantile2` (lines 233-234), so of that group the QC of lines
      237-242 keeps exactly the targets whose absolute residual is 0. */
  lemma SmallGroupKeepsOnlyExact(diff: seq<real>, groups: seq<bool>, threshold1: real, threshold0: real, i: nat)
    requires |groups| == |diff| && i < |diff| && forall k :: 0 <= k < |diff| ==> diff[k] >= 0.0
    requires Quantile2(diff, groups, QcQuantile) == Ok(threshold1)
    requires Quantile2(diff, Not(groups), QcQuantile) == Ok(threshold0)
    requires |Select(diff, if groups[i] then groups else Not(groups))| < 50
    ensures PassMask(diff, groups, threshold1, threshold0)[i] <==> diff[i] == 0.0
  {
  }

  /** One round of the QC loop as it happened: the reference and target sets
      and the active set it started from, the vectors before and after it,
      its thresholds, the targets kept by the provisional QC and the
      survivors that form the next active set. */
  datatype Round = Round(idx: seq<nat>, idx2: seq<nat>, active: seq<nat>, before: Vectors,
                         threshold1: real, threshold0: real, qced: seq<nat>, after: Vectors,
                         survivors: seq<nat>)

  /** What a round leaves behind, whatever it imputed (lines 216-256): only
      its targets' slots change, and the survivors are the active markers
      whose new residual is within their group's threshold, in active-set
      order. */
  ghost predicate RoundLogged(x: Round, grouping: seq<bool>) {
    var n := |grouping|;
    SameOutside(x.idx2, n, x.before, x.after) &&
    (forall i :: 0 <= i < |x.idx2| ==> x.idx2[i] < n) &&
    (forall i :: 0 <= i < |x.active| ==> x.active[i] < n) &&
    x.survivors == Select(x.active, PassMaskAt(x.active, x.after.zScoreE, grouping, x.threshold1, x.threshold0))
  }

  /** A round that ran to the end (lines 216-256): besides `RoundLogged`, the
      thresholds come from the first imputation of all targets; the kept
      targets hold their second imputation, the other targets their first;
      every R-squared written is below 1. */
  ghost predicate RoundDone(x: Round, grouping: seq<bool>, eig: seq<nat> -> seq<real>,
                            impute: (seq<nat>, seq<nat>, seq<nat>) -> Fit, nSample: nat, propSVD: real)
    requires propSVD >= 0.0 && EigenOracle(eig) && FitOracle(impute)
  {
    RoundLogged(x, grouping) &&
    QcThresholds(x.idx, x.idx2, grouping, eig, impute, nSample, propSVD, x.threshold1, x.threshold0) &&
    var fit1 := FitFor(x.idx, x.idx2, eig, impute, nSample, propSVD);
    var fit2 := FitFor(x.idx, x.qced, eig, impute, nSample, propSVD);
    (forall i :: 0 <= i < |x.idx2| ==> fit1.rsq[i] < 1.0) &&
    KeptTargets(x.qced, x.idx2, fit1, grouping, x.threshold1, x.threshold0) &&
    (forall i :: 0 <= i < |x.qced| ==> fit2.rsq[i] < 1.0) &&
    Scattered(x.qced, fit2, x.after) &&
    (forall i :: 0 <= i < |x.idx2| && x.idx2[i] !in x.qced ==> Holds(x.after, x.idx2[i], fit1, i))
  }

  /** Lines 216-226 succeed: the rank suffices, there are targets and the
      first imputation gives each of them an R-squared below 1. */
  ghost predicate FirstFitOk(idx: seq<nat>, idx2: seq<nat>, eig: seq<nat> -> seq<real>,
                             impute: (seq<nat>, seq<nat>, seq<nat>) -> Fit, nSample: nat, propSVD: real)
    requires propSVD >= 0.0 && EigenOracle(eig) && FitOracle(impute)
  {
    TruncationRank(nSample, propSVD, eig(idx)).Ok? && |idx2| > 0 &&
    forall i :: 0 <= i < |idx2| ==> FitFor(idx, idx2, eig, impute, nSample, propSVD).rsq[i] < 1.0
  }

  /** Lines 244-250 succeed: the second imputation gives each kept target an
      R-squared below 1. */
  ghost predicate SecondFitOk(idx: seq<nat>, qced: seq<nat>, eig: seq<nat> -> seq<real>,
                              impute: (seq<nat>, seq<nat>, seq<nat>) -> Fit, nSample: nat, propSVD: real)
    requires propSVD >= 0.0 && EigenOracle(eig) && FitOracle(impute)
  {
    TruncationRank(nSample, propSVD, eig(idx)).Ok? &&
    forall i :: 0 <= i < |qced| ==> FitFor(idx, qced, eig, impute, nSample, propSVD).rsq[i] < 1.0
  }

  /** How the QC of a round stops the run (`Rcpp::stop` at lines 123 and
      144, or the quantile of line 232 over no targets): the first
      imputation fails, or it succeeds, `qced` are the targets its thresholds
      keep, and their second imputation fails. */
  ghost predicate QcFails(idx: seq<nat>, idx2: seq<nat>, qced: seq<nat>, threshold1: real, threshold0: real,
                          grouping: seq<bool>, eig: seq<nat> -> seq<real>,
                          impute: (seq<nat>, seq<nat>, seq<nat>) -> Fit, nSample: nat, propSVD: real)
    requires propSVD >= 0.0 && EigenOracle(eig) && FitOracle(impute)
  {
    !FirstFitOk(idx, idx2, eig, impute, nSample, propSVD) ||
    ((forall i :: 0 <= i < |idx2| ==> idx2[i] < |grouping|) &&
     QcThresholds(idx, idx2, grouping, eig, impute, nSample, propSVD, threshold1, threshold0) &&
     KeptTargets(qced, idx2, FitFor(idx, idx2, eig, impute, nSample, propSVD), grouping, threshold1, threshold0) &&
     !SecondFitOk(idx, qced, eig, impute, nSample, propSVD))
  }

  /** How round t stops the run: its QC fails (`QcFails`), or it runs to the
      end but leaves no survivors (line 276 would then write past an empty
      vector) or fewer distinct draws in the stream of seed `20000 + t*20000`
      than survivors (line 276). */
  ghost predicate RoundFails(x: Round, t: nat, grouping: seq<bool>, draws: int -> seq<int>,
                             eig: seq<nat> -> seq<real>, impute: (seq<nat>, seq<nat>, seq<nat>) -> Fit,
                             nSample: nat, propSVD: real)
    requires propSVD >= 0.0 && EigenOracle(eig) && FitOracle(impute)
  {
    QcFails(x.idx, x.idx2, x.qced, x.threshold1, x.threshold0, grouping, eig, impute, nSample, propSVD) ||
    (RoundDone(x, grouping, eig, impute, nSample, propSVD) &&
     (|x.survivors| == 0 || |Dedup(draws(RoundSeed(t)))| < |x.survivors|))
  }

  /** Where a round starts: its references, targets, active set and vectors. */
  predicate SameStart(x: Round, y: Round) {
    x.idx == y.idx && x.idx2 == y.idx2 && x.active == y.active && x.before == y.before
  }

  /** A round that runs to the end is determined by where it starts: the
      thresholds, the kept targets, the vectors after it and its survivors
      follow from its references, targets, active set and vectors. */
  lemma {:induction false} RoundDetermined(x: Round, y: Round, grouping: seq<bool>, eig: seq<nat> -> seq<real>,
                                           impute: (seq<nat>, seq<nat>, seq<nat>) -> Fit, nSample: nat, propSVD: real)
    requires propSVD >= 0.0 && EigenOracle(eig) && FitOracle(impute)
    requires SameStart(x, y)
    requires RoundDone(x, grouping, eig, impute, nSample, propSVD) && RoundDone(y, grouping, eig, impute, nSample, propSVD)
    ensures x == y
  {
    var n := |grouping|;
    assert x.threshold1 == y.threshold1 && x.threshold0 == y.threshold0;
    assert x.qced == y.qced;
    var fit1 := FitFor(x.idx, x.idx2, eig, impute, nSample, propSVD);
    var fit2 := FitFor(x.idx, x.qced, eig, impute, nSample, propSVD);
    forall j | 0 <= j < n
      ensures x.after.imputedZ[j] == y.after.imputedZ[j] && x.after.rsq[j] == y.after.rsq[j] &&
              x.after.zScoreE[j] == y.after.zScoreE[j]
    {
      if j in x.qced {
        var i :| 0 <= i < |x.qced| && x.qced[i] == j;
        assert Holds(x.after, j, fit2, i) && Holds(y.after, j, fit2, i);
      } else if j in x.idx2 {
        var i :| 0 <= i < |x.idx2| && x.idx2[i] == j;
        assert Holds(x.after, j, fit1, i) && Holds(y.after, j, fit1, i);
      }
    }
    assert x.after.imputedZ == y.after.imputedZ && x.after.rsq == y.after.rsq && x.after.zScoreE == y.after.zScoreE;
  }

  /** A round fails only where no round that runs to the end with survivors
      and enough distinct draws starts: failure and success exclude each other. */
  lemma {:induction false} FailsOnlyWhenStuck(x: Round, y: Round, t: nat, grouping: seq<bool>, draws: int -> seq<int>,
                                              eig: seq<nat> -> seq<real>,
                                              impute: (seq<nat>, seq<nat>, seq<nat>) -> Fit, nSample: nat, propSVD: real)
    requires propSVD >= 0.0 && EigenOracle(eig) && FitOracle(impute)
    requires SameStart(x, y) && RoundDone(y, grouping, eig, impute, nSample, propSVD)
    requires |y.survivors| >= 1 && |Dedup(draws(RoundSeed(t)))| >= |y.survivors|
    ensures !RoundFails(x, t, grouping, draws, eig, impute, nSample, propSVD)
  {
    if RoundDone(x, grouping, eig, impute, nSample, propSVD) {
      RoundDetermined(x, y, grouping, eig, impute, nSample, propSVD);
    }
  }

  /** The mask of lines 237-242 read through the scattered residuals is the
      mask of the fit's own residuals. */
  lemma ScatteredMask(idx2: seq<nat>, fit: Fit, v: Vectors, grouping: seq<bool>,
                      threshold1: real, threshold0: real)
    requires forall i :: 0 <= i < |idx2| ==> idx2[i] < |grouping|
    requires |fit.residual| == |idx2| && Scattered(idx2, fit, v)
    ensures forall i :: 0 <= i < |idx2| ==> idx2[i] < |v.zScoreE|
    ensures PassMaskAt(idx2, v.zScoreE, grouping, threshold1, threshold0) ==
            PassMask(AbsAll(fit.residual), GroupsAt(idx2, grouping), threshold1, threshold0)
  {
    assert forall i :: 0 <= i < |idx2| ==> Holds(v, idx2[i], fit, i);
  }

  /** After a successful imputation of the targets every R-squared is still below 1. */
  lemma RsqStaysBelowOne(idx2: seq<nat>, fit: Fit, n: nat, before: Vectors, after: Vectors)
    requires Scattered(idx2, fit, after) && |fit.rsq| == |idx2|
    requires forall i :: 0 <= i < |idx2| ==> fit.rsq[i] < 1.0
    requires SameOutside(idx2, n, before, after)
    requires BelowOne(before.rsq)
    ensures BelowOne(after.rsq)
  {
    forall k | 0 <= k < |after.rsq| ensures after.rsq[k] < 1.0 {
      if k in idx2 {
        var i :| 0 <= i < |idx2| && idx2[i] == k;
        assert Holds(after, k, fit, i);
      }
    }
  }

  /** Lines 216-242: impute the targets from the references, derive the
      group thresholds from their residuals and keep the targets within
      them. It succeeds exactly when the rank suffices, there are targets
      and every target's R-squared is below 1; then the targets' slots hold
      their fit, the thresholds and the kept targets are those of that fit,
      and every R-squared is still below 1. No slot outside `idx2` changes. */
  method ProvisionalQc(idx: seq<nat>, idx2: seq<nat>, groupingGWAS: seq<bool>,
                       eig: seq<nat> -> seq<real>, impute: (seq<nat>, seq<nat>, seq<nat>) -> Fit,
                       nSample: nat, propSVD: real,
                       imputedZ: array<real>, rsq: array<real>, zScoreE: array<real>)
    returns (r: Outcome, qced: seq<nat>, threshold1: real, threshold0: real)
    requires propSVD >= 0.0
    requires EigenOracle(eig) && FitOracle(impute)
    requires imputedZ != rsq && imputedZ != zScoreE && rsq != zScoreE
    requires imputedZ.Length == rsq.Length == zScoreE.Length == |groupingGWAS|
    requires Distinct(idx2) && forall k :: 0 <= k < |idx2| ==> idx2[k] < rsq.Length
    requires BelowOne(rsq[..])
    modifies imputedZ, rsq, zScoreE
    ensures r.Pass? <==>
              TruncationRank(nSample, propSVD, eig(idx)).Ok? && |idx2| > 0 &&
              forall i :: 0 <= i < |idx2| ==> FitFor(idx, idx2, eig, impute, nSample, propSVD).rsq[i] < 1.0
    ensures r.Fail? ==> r.error in {RankTooLow, ResidualVarianceNonPositive, QuantileOutOfRange}
    // `P(...) == true` states the predicate P as it is; the comparison only
    // keeps the verifier from splitting P into one goal per conjunct, which
    // makes the methods of this module and their callers much cheaper to check.
    ensures r.Pass? ==>
              QcThresholds(idx, idx2, groupingGWAS, eig, impute, nSample, propSVD, threshold1, threshold0) == true &&
              var fit := FitFor(idx, idx2, eig, impute, nSample, propSVD);
              KeptTargets(qced, idx2, fit, groupingGWAS, threshold1, threshold0) == true &&
              Scattered(idx2, fit, Snapshot(imputedZ, rsq, zScoreE)) == true
    ensures SameOutside(idx2, |groupingGWAS|, old(Snapshot(imputedZ, rsq, zScoreE)), Snapshot(imputedZ, rsq, zScoreE)) == true
    ensures r.Pass? ==> BelowOne(rsq[..])
    ensures multiset(qced) <= multiset(idx2)
  {
    qced, threshold1, threshold0 := [], 0.0, 0.0;
    ghost var before := Snapshot(imputedZ, rsq, zScoreE);
    r := OneIteration(idx, idx2, eig, impute, nSample, propSVD, imputedZ, rsq, zScoreE);
    if r.Fail? {
      if TruncationRank(nSample, propSVD, eig(idx)).Ok? {
        assert FitFor(idx, idx2, eig, impute, nSample, propSVD) ==
               impute(idx, idx2, TopColumns(|idx|, TruncationRank(nSample, propSVD, eig(idx)).value));
      }
      return;
    }
    ghost var fit := FitFor(idx, idx2, eig, impute, nSample, propSVD);
    ghost var mid := Snapshot(imputedZ, rsq, zScoreE);
    assert Scattered(idx2, fit, mid);
    RsqStaysBelowOne(idx2, fit, |groupingGWAS|, before, mid);

    var diff, groupTmp;
    diff, groupTmp, r, threshold1, threshold0 := Thresholds(idx2, zScoreE[..], groupingGWAS);
    if r.Fail? {
      return;
    }
    ScatteredMask(idx2, fit, mid, groupingGWAS, threshold1, threshold0);
    assert diff == AbsAll(fit.residual);
    assert groupTmp == GroupsAt(idx2, groupingGWAS);
    qced := QcFilter(idx2, diff, groupTmp, threshold1, threshold0);
    SelectSubMultiset(idx2, PassMask(diff, groupTmp, threshold1, threshold0));
  }

  /** `SameOutside` chains, and widens to any larger set of targets. */
  lemma SameOutsideChain(targets: seq<nat>, inner: seq<nat>, n: nat, a: Vectors, b: Vectors, c: Vectors)
    requires multiset(inner) <= multiset(targets)
    requires SameOutside(targets, n, a, b) && SameOutside(inner, n, b, c)
    ensures SameOutside(targets, n, a, c)
  {
    forall j | j in inner ensures j in targets {
      assert j in multiset(inner);
    }
  }

  /** Line 245: the kept targets imputed again from the same references.
      It succeeds exactly when every kept target's new R-squared is below 1;
      then the kept targets hold their new fit, the other targets keep the
      first one, and every R-squared is still below 1. No slot outside
      `idx2` changes. */
  method Reimpute(idx: seq<nat>, idx2: seq<nat>, qced: seq<nat>,
                  eig: seq<nat> -> seq<real>, impute: (seq<nat>, seq<nat>, seq<nat>) -> Fit,
                  nSample: nat, propSVD: real,
                  imputedZ: array<real>, rsq: array<real>, zScoreE: array<real>)
    returns (r: Outcome)
    requires propSVD >= 0.0
    requires EigenOracle(eig) && FitOracle(impute)
    requires TruncationRank(nSample, propSVD, eig(idx)).Ok?
    requires imputedZ != rsq && imputedZ != zScoreE && rsq != zScoreE
    requires imputedZ.Length == rsq.Length == zScoreE.Length
    requires Distinct(qced) && multiset(qced) <= multiset(idx2)
    requires forall k :: 0 <= k < |qced| ==> qced[k] < rsq.Length
    requires Scattered(idx2, FitFor(idx, idx2, eig, impute, nSample, propSVD), Snapshot(imputedZ, rsq, zScoreE))
    requires BelowOne(rsq[..])
    modifies imputedZ, rsq, zScoreE
    ensures r.Pass? <==> forall i :: 0 <= i < |qced| ==> FitFor(idx, qced, eig, impute, nSample, propSVD).rsq[i] < 1.0
    ensures r.Fail? ==> r.error == ResidualVarianceNonPositive
    ensures r.Pass? ==> Scattered(qced, FitFor(idx, qced, eig, impute, nSample, propSVD), Snapshot(imputedZ, rsq, zScoreE))
    ensures r.Pass? ==> forall i :: 0 <= i < |idx2| && idx2[i] !in qced ==>
                          Holds(Snapshot(imputedZ, rsq, zScoreE), idx2[i], FitFor(idx, idx2, eig, impute, nSample, propSVD), i)
    ensures SameOutside(qced, rsq.Length, old(Snapshot(imputedZ, rsq, zScoreE)), Snapshot(imputedZ, rsq, zScoreE))
    ensures r.Pass? ==> BelowOne(rsq[..])
  {
    ghost var mid := Snapshot(imputedZ, rsq, zScoreE);
    ghost var fit1 := FitFor(idx, idx2, eig, impute, nSample, propSVD);
    ghost var fit2 := FitFor(idx, qced, eig, impute, nSample, propSVD);
    r := OneIteration(idx, qced, eig, impute, nSample, propSVD, imputedZ, rsq, zScoreE);
    ghost var after := Snapshot(imputedZ, rsq, zScoreE);
    assert SameOutside(qced, rsq.Length, mid, after);
    if r.Pass? {
      assert Scattered(qced, fit2, after);
      RsqStaysBelowOne(qced, fit2, rsq.Length, mid, after);
      forall i | 0 <= i < |idx2| && idx2[i] !in qced ensures Holds(after, idx2[i], fit1, i) {
        assert Holds(mid, idx2[i], fit1, i);
      }
    }
  }

  /** Lines 216-256, one round of the QC loop: the provisional QC of the
      targets, the imputation of the kept targets again, and the update of
      the active set and `iterID`. On success the round is `RoundDone`: its
      thresholds, kept targets, vector contents and survivors are those the
      source computes; each survivor's `iterID` goes up by one, and every
      R-squared is still below 1. */
  method QcRound(idx: seq<nat>, idx2: seq<nat>, fullIdx: seq<nat>, groupingGWAS: seq<bool>,
                 eig: seq<nat> -> seq<real>, impute: (seq<nat>, seq<nat>, seq<nat>) -> Fit,
                 nSample: nat, propSVD: real,
                 imputedZ: array<real>, rsq: array<real>, zScoreE: array<real>, iterId: array<int>)
    returns (r: Result<seq<nat>>, qced: seq<nat>, threshold1: real, threshold0: real)
    requires propSVD >= 0.0
    requires EigenOracle(eig) && FitOracle(impute)
    requires imputedZ != rsq && imputedZ != zScoreE && rsq != zScoreE
    requires imputedZ.Length == rsq.Length == zScoreE.Length == iterId.Length == |groupingGWAS|
    requires Distinct(fullIdx) && forall k :: 0 <= k < |fullIdx| ==> fullIdx[k] < iterId.Length
    requires multiset(idx2) <= multiset(fullIdx)
    requires BelowOne(rsq[..])
    modifies imputedZ, rsq, zScoreE, iterId
    ensures r.Ok? <==>
              FirstFitOk(idx, idx2, eig, impute, nSample, propSVD) && SecondFitOk(idx, qced, eig, impute, nSample, propSVD)
    ensures r.Err? ==> QcFails(idx, idx2, qced, threshold1, threshold0, groupingGWAS, eig, impute, nSample, propSVD) == true
    ensures r.Ok? ==> RoundDone(Round(idx, idx2, fullIdx, old(Snapshot(imputedZ, rsq, zScoreE)), threshold1, threshold0,
                                      qced, Snapshot(imputedZ, rsq, zScoreE), r.value),
                                groupingGWAS, eig, impute, nSample, propSVD)
    ensures r.Ok? ==> BelowOne(rsq[..])
    ensures r.Ok? ==> Incremented(old(iterId[..]), iterId[..], r.value) == true
    ensures r.Err? ==> iterId[..] == old(iterId[..])
  {
    WithinActive(idx2, fullIdx, rsq.Length);
    ghost var before := Snapshot(imputedZ, rsq, zScoreE);
    var provisional;
    provisional, qced, threshold1, threshold0 :=
      ProvisionalQc(idx, idx2, groupingGWAS, eig, impute, nSample, propSVD, imputedZ, rsq, zScoreE);
    if provisional.Fail? {
      return Err(provisional.error), qced, threshold1, threshold0;
    }
    ghost var mid := Snapshot(imputedZ, rsq, zScoreE);
    WithinActive(qced, fullIdx, rsq.Length);
    var again := Reimpute(idx, idx2, qced, eig, impute, nSample, propSVD, imputedZ, rsq, zScoreE);
    if again.Fail? {
      return Err(again.error), qced, threshold1, threshold0;
    }
    ghost var after := Snapshot(imputedZ, rsq, zScoreE);
    SameOutsideChain(idx2, qced, rsq.Length, before, mid, after);

    var next := SurvivorsCounted(fullIdx, zScoreE[..], groupingGWAS, threshold1, threshold0, iterId);
    assert Snapshot(imputedZ, rsq, zScoreE) == after;
    return Ok(next), qced, threshold1, threshold0;
  }

  /** Lines 275-281: a fresh random order of the survivors, drawn from the
      stream it is given, and their bisection by it. */
  method Rebisect(fullIdx: seq<nat>, draws: seq<int>) returns (r: Result<seq<nat>>, idx: seq<nat>, idx2: seq<nat>)
    requires |fullIdx| >= 1
    requires forall k :: 0 <= k < |draws| ==> 0 <= draws[k] <= IntMax
    ensures r.Ok? <==> |Dedup(draws)| >= |fullIdx|
    ensures r.Ok? ==> SortsDraws(r.value, |fullIdx|, draws)
    ensures r.Ok? ==> idx == Select(fullIdx, AboveMid(r.value, |fullIdx| / 2))
    ensures r.Ok? ==> idx2 == Select(fullIdx, Not(AboveMid(r.value, |fullIdx| / 2)))
    ensures r.Ok? ==> multiset(idx2) <= multiset(fullIdx)
  {
    idx, idx2 := [], [];
    r := GenerateSetOfNumbers(|fullIdx|, draws);
    if r.Ok? {
      idx, idx2 := Bisect(fullIdx, r.value, |fullIdx| / 2);
      SelectSubMultiset(fullIdx, Not(AboveMid(r.value, |fullIdx| / 2)));
    }
  }

  /** Lines 195-202: the first random order of all markers (it is also the
      first active set) and the bisection of the marker ids 0..M-1 by it. */
  method Start(markerSize: nat, draws: seq<int>) returns (r: Result<seq<nat>>, idx: seq<nat>, idx2: seq<nat>)
    requires markerSize >= 1
    requires forall k :: 0 <= k < |draws| ==> 0 <= draws[k] <= IntMax
    ensures r.Ok? <==> |Dedup(draws)| >= markerSize
    ensures r.Ok? ==> SortsDraws(r.value, markerSize, draws)
    ensures r.Ok? ==> idx == Select(Iota(markerSize), AboveMid(r.value, markerSize / 2))
    ensures r.Ok? ==> idx2 == Select(Iota(markerSize), Not(AboveMid(r.value, markerSize / 2)))
    ensures r.Ok? ==> Distinct(r.value) && (forall k :: 0 <= k < markerSize ==> r.value[k] < markerSize) &&
                      (forall x :: 0 <= x < markerSize ==> x in r.value) &&
                      multiset(idx2) <= multiset(r.value)
  {
    idx, idx2 := [], [];
    r := GenerateSetOfNumbers(markerSize, draws);
    if r.Ok? {
      PermutationFacts(r.value, markerSize);
      idx, idx2 := Bisect(Iota(markerSize), r.value, markerSize / 2);
      SelectSubMultiset(Iota(markerSize), Not(AboveMid(r.value, markerSize / 2)));
    }
  }

  /** The stream of the random order drawn after round t (line 276). */
  function RoundSeed(t: nat): int { 20000 + t * 20000 }

  /** The round-to-round step of lines 216-281: one QC round, then a fresh
      bisection of the survivors by the order drawn from the stream of seed
      `20000 + t*20000`. It keeps the loop's invariants: the active set has
      no repeats and only valid ids, the targets lie in it, every R-squared
      is below 1, each survivor's `iterID` rises by one and no other count
      changes (`Incremented`), and the counts stay within the bounds of
      `CountsRounds`. An empty set of survivors stops the run, since
      `generateSetOfNumbers(0, ...)` writes past the end of an empty vector.
      It succeeds exactly when both imputations succeed, there is a survivor
      and the stream has enough distinct draws; when it fails, the round it
      ran (with `survivors` empty if its QC failed) is one that `RoundFails`. */
  method NextRound(t: nat, idx: seq<nat>, idx2: seq<nat>, fullIdx: seq<nat>, groupingGWAS: seq<bool>,
                   draws: int -> seq<int>, eig: seq<nat> -> seq<real>,
                   impute: (seq<nat>, seq<nat>, seq<nat>) -> Fit, nSample: nat, propSVD: real,
                   imputedZ: array<real>, rsq: array<real>, zScoreE: array<real>, iterId: array<int>)
    returns (r: Result<seq<nat>>, nextIdx: seq<nat>, nextIdx2: seq<nat>, order: seq<nat>,
             threshold1: real, threshold0: real, ghost qced: seq<nat>, ghost survivors: seq<nat>)
    requires propSVD >= 0.0
    requires DrawsInRange(draws) && EigenOracle(eig) && FitOracle(impute)
    requires imputedZ != rsq && imputedZ != zScoreE && rsq != zScoreE
    requires imputedZ.Length == rsq.Length == zScoreE.Length == iterId.Length == |groupingGWAS|
    requires Distinct(fullIdx) && forall k :: 0 <= k < |fullIdx| ==> fullIdx[k] < iterId.Length
    requires multiset(idx2) <= multiset(fullIdx)
    requires BelowOne(rsq[..]) && CountsRounds(iterId[..], fullIdx, t)
    modifies imputedZ, rsq, zScoreE, iterId
    ensures r.Ok? <==>
              FirstFitOk(idx, idx2, eig, impute, nSample, propSVD) && SecondFitOk(idx, qced, eig, impute, nSample, propSVD) &&
              |survivors| >= 1 && |Dedup(draws(RoundSeed(t)))| >= |survivors|
    ensures r.Ok? ==> survivors == r.value
    ensures r.Err? ==> RoundFails(Round(idx, idx2, fullIdx, old(Snapshot(imputedZ, rsq, zScoreE)), threshold1, threshold0,
                                        qced, Snapshot(imputedZ, rsq, zScoreE), survivors),
                                  t, groupingGWAS, draws, eig, impute, nSample, propSVD) == true
    ensures r.Ok? ==> RoundDone(Round(idx, idx2, fullIdx, old(Snapshot(imputedZ, rsq, zScoreE)), threshold1, threshold0,
                                      qced, Snapshot(imputedZ, rsq, zScoreE), r.value),
                                groupingGWAS, eig, impute, nSample, propSVD)
    ensures r.Ok? ==> |r.value| >= 1 && SortsDraws(order, |r.value|, draws(RoundSeed(t)))
    ensures r.Ok? ==> nextIdx == Select(r.value, AboveMid(order, |r.value| / 2)) &&
                      nextIdx2 == Select(r.value, Not(AboveMid(order, |r.value| / 2)))
    ensures r.Ok? ==> Distinct(r.value) && forall k :: 0 <= k < |r.value| ==> r.value[k] < iterId.Length
    ensures r.Ok? ==> multiset(r.value) <= multiset(fullIdx) && |r.value| <= |fullIdx|
    ensures r.Ok? ==> multiset(nextIdx2) <= multiset(r.value)
    ensures r.Ok? ==> BelowOne(rsq[..]) && CountsRounds(iterId[..], r.value, t + 1)
    ensures r.Ok? ==> Incremented(old(iterId[..]), iterId[..], r.value) == true
  {
    nextIdx, nextIdx2, order, survivors := [], [], [], [];
    ghost var before := iterId[..];
    var round;
    round, qced, threshold1, threshold0 := QcRound(idx, idx2, fullIdx, groupingGWAS, eig, impute, nSample, propSVD,
                                                   imputedZ, rsq, zScoreE, iterId);
    if round.Err? {
      return Err(round.error), nextIdx, nextIdx2, order, threshold1, threshold0, qced, survivors;
    }
    var next := round.value;
    survivors := next;
    SelectSubMultiset(fullIdx, PassMaskAt(fullIdx, zScoreE[..], groupingGWAS, threshold1, threshold0));
    CountsAfterRound(fullIdx, next, before, iterId[..], t);
    WithinActive(next, fullIdx, iterId.Length);
    if |next| == 0 {
      return Err(UndefinedBehaviour), nextIdx, nextIdx2, order, threshold1, threshold0, qced, survivors;
    }
    var drawn;
    drawn, nextIdx, nextIdx2 := Rebisect(next, draws(RoundSeed(t)));
    if drawn.Err? {
      return Err(drawn.error), nextIdx, nextIdx2, order, threshold1, threshold0, qced, survivors;
    }
    order := drawn.value;
    return Ok(next), nextIdx, nextIdx2, order, threshold1, threshold0, qced, survivors;
  }

  /** Every round in the log left only its targets changed and kept the
      markers within its thresholds. */
  ghost predicate AllLogged(log: seq<Round>, grouping: seq<bool>) {
    forall s {:trigger RoundLogged(log[s], grouping)} :: 0 <= s < |log| ==> RoundLogged(log[s], grouping)
  }

  /** Every round in the log ran to the end as `RoundDone` says. */
  ghost predicate AllDone(log: seq<Round>, grouping: seq<bool>, eig: seq<nat> -> seq<real>,
                          impute: (seq<nat>, seq<nat>, seq<nat>) -> Fit, nSample: nat, propSVD: real)
    requires propSVD >= 0.0 && EigenOracle(eig) && FitOracle(impute)
  {
    forall s {:trigger RoundDone(log[s], grouping, eig, impute, nSample, propSVD)} ::
      0 <= s < |log| ==> RoundDone(log[s], grouping, eig, impute, nSample, propSVD)
  }

  lemma AllDoneExtends(log: seq<Round>, round: Round, grouping: seq<bool>, eig: seq<nat> -> seq<real>,
                       impute: (seq<nat>, seq<nat>, seq<nat>) -> Fit, nSample: nat, propSVD: real)
    requires propSVD >= 0.0 && EigenOracle(eig) && FitOracle(impute)
    requires AllDone(log, grouping, eig, impute, nSample, propSVD)
    requires RoundDone(round, grouping, eig, impute, nSample, propSVD)
    ensures AllDone(log + [round], grouping, eig, impute, nSample, propSVD)
  {
    assert forall s :: 0 <= s < |log| ==> (log + [round])[s] == log[s];
    assert (log + [round])[|log|] == round;
  }

  /** `orders[0]` is the order of all markers drawn from the seed's stream
      (line 195); `orders[s + 1]` is the order of round s's survivors drawn
      after it from the stream of seed `20000 + s*20000` (line 276). */
  ghost predicate OrdersDrawn(log: seq<Round>, orders: seq<seq<nat>>, markerSize: nat, seed: int,
                              draws: int -> seq<int>) {
    |orders| == |log| + 1 && SortsDraws(orders[0], markerSize, draws(seed)) &&
    forall s {:trigger SortsDraws(orders[s + 1], |log[s].survivors|, draws(RoundSeed(s)))} ::
      0 <= s < |log| ==> SortsDraws(orders[s + 1], |log[s].survivors|, draws(RoundSeed(s)))
  }

  /** Lines 195-214: round 0 bisects the ids 0..M-1 by the seed's order,
      which is also the first active set, and starts from zero vectors. */
  ghost predicate FirstRound(x: Round, order: seq<nat>, markerSize: nat) {
    x.active == order && x.before == Zeros(markerSize) && |order| == markerSize &&
    x.idx == Select(Iota(markerSize), AboveMid(order, markerSize / 2)) &&
    x.idx2 == Select(Iota(markerSize), Not(AboveMid(order, markerSize / 2)))
  }

  /** Lines 273-281: round s+1 starts from round s's survivors and vectors,
      bisected by the order drawn after round s. */
  ghost predicate Follows(prev: Round, x: Round, order: seq<nat>) {
    x.active == prev.survivors && x.before == prev.after && |order| == |x.active| &&
    x.idx == Select(x.active, AboveMid(order, |x.active| / 2)) &&
    x.idx2 == Select(x.active, Not(AboveMid(order, |x.active| / 2)))
  }

  /** Round 0 is the first round; every later round follows the one before. */
  ghost predicate Chained(log: seq<Round>, orders: seq<seq<nat>>, markerSize: nat) {
    |orders| == |log| + 1 &&
    (|log| > 0 ==> FirstRound(log[0], orders[0], markerSize)) &&
    forall s {:trigger Follows(log[s - 1], log[s], orders[s])} ::
      0 < s < |log| ==> Follows(log[s - 1], log[s], orders[s])
  }

  /** The run so far, as a log of rounds: every round is `RoundLogged`, the
      orders are those drawn from the seeds, and each round starts where the
      one before left off. `orders[s]` is the order round s was bisected by. */
  ghost predicate Trace(log: seq<Round>, orders: seq<seq<nat>>, markerSize: nat, seed: int,
                        grouping: seq<bool>, draws: int -> seq<int>)
  {
    AllLogged(log, grouping) &&
    OrdersDrawn(log, orders, markerSize, seed, draws) && Chained(log, orders, markerSize)
  }

  /** The state the next round starts from once the rounds in `log` are
      done: the active set, its bisection by `order` and the vectors. */
  ghost predicate StartsFrom(log: seq<Round>, order: seq<nat>, markerSize: nat, active: seq<nat>,
                             idx: seq<nat>, idx2: seq<nat>, v: Vectors) {
    if |log| == 0 then
      active == order && v == Zeros(markerSize) && |order| == markerSize &&
      idx == Select(Iota(markerSize), AboveMid(order, markerSize / 2)) &&
      idx2 == Select(Iota(markerSize), Not(AboveMid(order, markerSize / 2)))
    else
      active == log[|log| - 1].survivors && v == log[|log| - 1].after && |order| == |active| &&
      idx == Select(active, AboveMid(order, |active| / 2)) &&
      idx2 == Select(active, Not(AboveMid(order, |active| / 2)))
  }

  lemma AllLoggedExtends(log: seq<Round>, round: Round, grouping: seq<bool>)
    requires AllLogged(log, grouping) && RoundLogged(round, grouping)
    ensures AllLogged(log + [round], grouping)
  {
    assert forall s :: 0 <= s < |log| ==> (log + [round])[s] == log[s];
  }

  lemma OrdersDrawnExtends(log: seq<Round>, orders: seq<seq<nat>>, round: Round, order: seq<nat>,
                           markerSize: nat, seed: int, draws: int -> seq<int>)
    requires OrdersDrawn(log, orders, markerSize, seed, draws)
    requires SortsDraws(order, |round.survivors|, draws(RoundSeed(|log|)))
    ensures OrdersDrawn(log + [round], orders + [order], markerSize, seed, draws)
  {
    var log', orders' := log + [round], orders + [order];
    assert orders'[0] == orders[0] && log'[|log|] == round && orders'[|log| + 1] == order;
    assert forall s :: 0 <= s < |log| ==> log'[s] == log[s] && orders'[s + 1] == orders[s + 1];
  }

  lemma ChainedExtends(log: seq<Round>, orders: seq<seq<nat>>, round: Round, order: seq<nat>, markerSize: nat)
    requires Chained(log, orders, markerSize)
    requires StartsFrom(log, orders[|log|], markerSize, round.active, round.idx, round.idx2, round.before)
    ensures Chained(log + [round], orders + [order], markerSize)
  {
    var log', orders' := log + [round], orders + [order];
    assert log'[|log|] == round && orders'[|log|] == orders[|log|];
    assert forall s :: 0 <= s < |log| ==> log'[s] == log[s] && orders'[s] == orders[s];
  }

  /** After the round, the next one starts from its survivors and vectors. */
  lemma StartsAfter(log: seq<Round>, round: Round, order: seq<nat>, markerSize: nat,
                    nextIdx: seq<nat>, nextIdx2: seq<nat>)
    requires |order| == |round.survivors|
    requires nextIdx == Select(round.survivors, AboveMid(order, |round.survivors| / 2))
    requires nextIdx2 == Select(round.survivors, Not(AboveMid(order, |round.survivors| / 2)))
    ensures StartsFrom(log + [round], order, markerSize, round.survivors, nextIdx, nextIdx2, round.after)
  {
    assert (log + [round])[|log|] == round;
  }

  /** Every slot that no round so far had as a target still holds zero. */
  ghost predicate NeverTargetedZero(log: seq<Round>, v: Vectors, n: nat) {
    Sized(v, n) &&
    forall k :: 0 <= k < n && (forall s :: 0 <= s < |log| ==> k !in log[s].idx2) ==>
      v.imputedZ[k] == 0.0 && v.rsq[k] == 0.0 && v.zScoreE[k] == 0.0
  }

  lemma NeverTargetedStep(log: seq<Round>, round: Round, n: nat)
    requires NeverTargetedZero(log, round.before, n)
    requires SameOutside(round.idx2, n, round.before, round.after)
    ensures NeverTargetedZero(log + [round], round.after, n)
  {
    var log' := log + [round];
    forall k | 0 <= k < n && (forall s :: 0 <= s < |log'| ==> k !in log'[s].idx2)
      ensures round.after.imputedZ[k] == 0.0 && round.after.rsq[k] == 0.0 && round.after.zScoreE[k] == 0.0
    {
      assert log'[|log|] == round;
      assert forall s :: 0 <= s < |log| ==> log'[s] == log[s];
    }
  }

  /** The number of logged rounds whose survivors include marker k. */
  ghost function Survived(log: seq<Round>, k: nat): (n: nat)
    ensures n <= |log|
  {
    if log == [] then 0
    else Survived(log[..|log| - 1], k) + (if k in log[|log| - 1].survivors then 1 else 0)
  }

  /** `iterID` of every marker is the number of logged rounds it survived
      (line 254 adds one per round survived; line 214 starts from 0). */
  ghost predicate CountsLog(counts: seq<int>, log: seq<Round>) {
    forall k :: 0 <= k < |counts| ==> counts[k] == Survived(log, k)
  }

  /** The update of line 254 by one round's survivors keeps `CountsLog`. */
  lemma CountsLogStep(before: seq<int>, after: seq<int>, log: seq<Round>, round: Round)
    requires CountsLog(before, log) && Distinct(round.survivors)
    requires Incremented(before, after, round.survivors)
    ensures CountsLog(after, log + [round])
  {
    DistinctMultiplicity(round.survivors);
    assert (log + [round])[..|log|] == log;
  }

  /** The state of the loop of lines 216-281 after t rounds: the log so far
      is a trace and the next round starts where it left off; the active set
      has no repeats and only valid ids and holds the targets; every
      R-squared is below 1; `iterID` of each marker is the number of logged
      rounds it survived; a slot never targeted still holds zero. */
  ghost predicate Poised(t: nat, log: seq<Round>, orders: seq<seq<nat>>, fullIdx: seq<nat>,
                         idx: seq<nat>, idx2: seq<nat>, v: Vectors, counts: seq<int>,
                         markerSize: nat, seed: int, grouping: seq<bool>, draws: int -> seq<int>)
  {
    |log| == t && Trace(log, orders, markerSize, seed, grouping, draws) &&
    StartsFrom(log, orders[t], markerSize, fullIdx, idx, idx2, v) &&
    Distinct(fullIdx) && |fullIdx| >= 1 && (forall k :: 0 <= k < |fullIdx| ==> fullIdx[k] < markerSize) &&
    multiset(idx2) <= multiset(fullIdx) &&
    BelowOne(v.rsq) && |counts| == markerSize && CountsRounds(counts, fullIdx, t) &&
    CountsLog(counts, log) && NeverTargetedZero(log, v, markerSize)
  }

  /** The rounds in `log` ran to the end, and the next one, `x`, which starts
      where they left off, fails (`RoundFails`). */
  ghost predicate FailsNext(log: seq<Round>, orders: seq<seq<nat>>, x: Round, markerSize: nat, seed: int,
                            grouping: seq<bool>, draws: int -> seq<int>, eig: seq<nat> -> seq<real>,
                            impute: (seq<nat>, seq<nat>, seq<nat>) -> Fit, nSample: nat, propSVD: real)
    requires propSVD >= 0.0 && EigenOracle(eig) && FitOracle(impute)
  {
    Trace(log, orders, markerSize, seed, grouping, draws) && AllDone(log, grouping, eig, impute, nSample, propSVD) &&
    StartsFrom(log, orders[|log|], markerSize, x.active, x.idx, x.idx2, x.before) &&
    RoundFails(x, |log|, grouping, draws, eig, impute, nSample, propSVD)
  }

  /** How a run of `nIter` rounds stops early: the first random order
      fails, for the seed's stream has fewer distinct draws than markers
      (line 195), or fewer than `nIter` rounds ran to the end and the next
      one, `failed`, fails (`FailsNext`). */
  ghost predicate Stopped(nIter: int, log: seq<Round>, orders: seq<seq<nat>>, failed: Round, markerSize: nat,
                          seed: int, grouping: seq<bool>, draws: int -> seq<int>, eig: seq<nat> -> seq<real>,
                          impute: (seq<nat>, seq<nat>, seq<nat>) -> Fit, nSample: nat, propSVD: real)
    requires propSVD >= 0.0 && EigenOracle(eig) && FitOracle(impute)
  {
    (|log| == 0 && |Dedup(draws(seed))| < markerSize) ||
    (|log| < Rounds(nIter) &&
     FailsNext(log, orders, failed, markerSize, seed, grouping, draws, eig, impute, nSample, propSVD))
  }

  /** One pass of the loop of lines 216-281 (`NextRound`), with the run's
      log: the round it ran and the order drawn after it extend the trace,
      the round ran to the end (`AllDone`), and the next round starts from
      its survivors and vectors. When it fails, the round it ran is the one
      that starts where the log left off, and it fails (`FailsNext`). */
  method Advance(t: nat, ghost log: seq<Round>, ghost orders: seq<seq<nat>>,
                 idx: seq<nat>, idx2: seq<nat>, fullIdx: seq<nat>, markerSize: nat, seed: int,
                 groupingGWAS: seq<bool>, draws: int -> seq<int>, eig: seq<nat> -> seq<real>,
                 impute: (seq<nat>, seq<nat>, seq<nat>) -> Fit, nSample: nat, propSVD: real,
                 imputedZ: array<real>, rsq: array<real>, zScoreE: array<real>, iterId: array<int>)
    returns (r: Result<seq<nat>>, nextIdx: seq<nat>, nextIdx2: seq<nat>, ghost round: Round, ghost order: seq<nat>)
    requires propSVD >= 0.0
    requires DrawsInRange(draws) && EigenOracle(eig) && FitOracle(impute)
    requires imputedZ != rsq && imputedZ != zScoreE && rsq != zScoreE
    requires imputedZ.Length == rsq.Length == zScoreE.Length == iterId.Length == |groupingGWAS| == markerSize
    requires Poised(t, log, orders, fullIdx, idx, idx2, Snapshot(imputedZ, rsq, zScoreE), iterId[..],
                    markerSize, seed, groupingGWAS, draws) == true
    requires AllDone(log, groupingGWAS, eig, impute, nSample, propSVD) == true
    modifies imputedZ, rsq, zScoreE, iterId
    ensures r.Ok? ==> Poised(t + 1, log + [round], orders + [order], r.value, nextIdx, nextIdx2,
                             Snapshot(imputedZ, rsq, zScoreE), iterId[..],
                             markerSize, seed, groupingGWAS, draws) == true
    ensures r.Ok? ==> AllDone(log + [round], groupingGWAS, eig, impute, nSample, propSVD) == true
    ensures r.Err? ==> FailsNext(log, orders, round, markerSize, seed, groupingGWAS, draws,
                                 eig, impute, nSample, propSVD) == true
  {
    ghost var before := Snapshot(imputedZ, rsq, zScoreE);
    ghost var counts := iterId[..];
    var threshold1, threshold0;
    ghost var qced, survivors;
    r, nextIdx, nextIdx2, order, threshold1, threshold0, qced, survivors :=
      NextRound(t, idx, idx2, fullIdx, groupingGWAS, draws, eig, impute, nSample, propSVD,
                imputedZ, rsq, zScoreE, iterId);
    round := Round(idx, idx2, fullIdx, before, threshold1, threshold0, qced, Snapshot(imputedZ, rsq, zScoreE), survivors);
    if r.Ok? {
      PoisedStep(t, log, orders, round, order, nextIdx, nextIdx2, counts, iterId[..], markerSize, seed,
                 groupingGWAS, draws);
      AllDoneExtends(log, round, groupingGWAS, eig, impute, nSample, propSVD);
    }
  }

  /** A round that ran to the end, followed by the bisection of its
      survivors, takes the loop's state after t rounds to the state after
      t + 1. */
  lemma PoisedStep(t: nat, log: seq<Round>, orders: seq<seq<nat>>, round: Round, order: seq<nat>,
                   nextIdx: seq<nat>, nextIdx2: seq<nat>, counts: seq<int>, after: seq<int>,
                   markerSize: nat, seed: int, grouping: seq<bool>, draws: int -> seq<int>)
    requires Poised(t, log, orders, round.active, round.idx, round.idx2, round.before, counts,
                    markerSize, seed, grouping, draws) == true
    requires |grouping| == markerSize && RoundLogged(round, grouping)
    requires |round.survivors| >= 1 && SortsDraws(order, |round.survivors|, draws(RoundSeed(t)))
    requires nextIdx == Select(round.survivors, AboveMid(order, |round.survivors| / 2))
    requires nextIdx2 == Select(round.survivors, Not(AboveMid(order, |round.survivors| / 2)))
    requires Distinct(round.survivors) && forall k :: 0 <= k < |round.survivors| ==> round.survivors[k] < markerSize
    requires multiset(nextIdx2) <= multiset(round.survivors)
    requires BelowOne(round.after.rsq) && CountsRounds(after, round.survivors, t + 1)
    requires Incremented(counts, after, round.survivors)
    ensures Poised(t + 1, log + [round], orders + [order], round.survivors, nextIdx, nextIdx2, round.after, after,
                   markerSize, seed, grouping, draws)
  {
    AllLoggedExtends(log, round, grouping);
    OrdersDrawnExtends(log, orders, round, order, markerSize, seed, draws);
    ChainedExtends(log, orders, round, order, markerSize);
    StartsAfter(log, round, order, markerSize, nextIdx, nextIdx2);
    NeverTargetedStep(log, round, markerSize);
    CountsLogStep(counts, after, log, round);
    assert (orders + [order])[t + 1] == order;
  }

  /** The state the initial bisection leaves (lines 195-214) is the loop's
      state after no rounds. */
  lemma StartPoised(order: seq<nat>, idx: seq<nat>, idx2: seq<nat>, v: Vectors, counts: seq<int>,
                    markerSize: nat, seed: int, grouping: seq<bool>, draws: int -> seq<int>)
    requires markerSize >= 1 && SortsDraws(order, markerSize, draws(seed))
    requires idx == Select(Iota(markerSize), AboveMid(order, markerSize / 2))
    requires idx2 == Select(Iota(markerSize), Not(AboveMid(order, markerSize / 2)))
    requires Distinct(order) && (forall k :: 0 <= k < markerSize ==> order[k] < markerSize) &&
             (forall x :: 0 <= x < markerSize ==> x in order) && multiset(idx2) <= multiset(order)
    requires v == Zeros(markerSize) && |counts| == markerSize && forall k :: 0 <= k < markerSize ==> counts[k] == 0
    ensures Poised(0, [], [order], order, idx, idx2, v, counts, markerSize, seed, grouping, draws)
  {
    assert [order][0] == order;
  }

  /** What the run's state after `t` rounds says about it: the log is a
      trace of t rounds; the active set and vectors are those the last round
      left (the first order and zeros when there was none); the active set
      is non-empty, without repeats and of valid ids; `iterID` of each
      marker is the number of rounds it survived; every R-squared is below 1, and a
      slot no round targeted holds zero. */
  ghost predicate Finished(t: nat, log: seq<Round>, orders: seq<seq<nat>>, active: seq<nat>, v: Vectors,
                           counts: seq<int>, markerSize: nat, seed: int, grouping: seq<bool>,
                           draws: int -> seq<int>)
  {
    |log| == t && Trace(log, orders, markerSize, seed, grouping, draws) &&
    active == (if t == 0 then orders[0] else log[t - 1].survivors) &&
    v == (if t == 0 then Zeros(markerSize) else log[t - 1].after) &&
    |active| >= 1 && Distinct(active) && (forall k :: 0 <= k < |active| ==> active[k] < markerSize) &&
    |counts| == markerSize && CountsRounds(counts, active, t) && CountsLog(counts, log) &&
    BelowOne(v.rsq) && NeverTargetedZero(log, v, markerSize)
  }

  /** The loop's state after the last round is `Finished`. */
  lemma PoisedOutcome(t: nat, log: seq<Round>, orders: seq<seq<nat>>, fullIdx: seq<nat>,
                      idx: seq<nat>, idx2: seq<nat>, v: Vectors, counts: seq<int>,
                      markerSize: nat, seed: int, grouping: seq<bool>, draws: int -> seq<int>)
    requires Poised(t, log, orders, fullIdx, idx, idx2, v, counts, markerSize, seed, grouping, draws) == true
    ensures Finished(t, log, orders, fullIdx, v, counts, markerSize, seed, grouping, draws)
  {
  }

  /** Lines 195-283: the initial random bisection of all markers and the
      zero vectors, then `nIter` rounds, each followed by the bisection of
      its survivors for the next. A run that fails has `Stopped`. */
  method RunRounds(nIter: int, markerSize: nat, seed: int, groupingGWAS: seq<bool>, draws: int -> seq<int>,
                   eig: seq<nat> -> seq<real>, impute: (seq<nat>, seq<nat>, seq<nat>) -> Fit,
                   nSample: nat, propSVD: real)
    returns (r: Result<seq<nat>>, imputedZ: array<real>, rsq: array<real>, zScoreE: array<real>,
             iterId: array<int>, ghost log: seq<Round>, ghost orders: seq<seq<nat>>, ghost failed: Round)
    requires markerSize >= 1 && |groupingGWAS| == markerSize && propSVD >= 0.0
    requires DrawsInRange(draws) && EigenOracle(eig) && FitOracle(impute)
    ensures r.Ok? ==> Finished(Rounds(nIter), log, orders, r.value, Snapshot(imputedZ, rsq, zScoreE), iterId[..],
                               markerSize, seed, groupingGWAS, draws) == true
    ensures r.Ok? ==> AllDone(log, groupingGWAS, eig, impute, nSample, propSVD) == true
    ensures r.Err? ==> Stopped(nIter, log, orders, failed, markerSize, seed, groupingGWAS, draws,
                               eig, impute, nSample, propSVD) == true
  {
    var first, idx, idx2;
    first, idx, idx2, imputedZ, rsq, zScoreE, iterId := Setup(markerSize, seed, groupingGWAS, draws);
    log, orders := [], [];
    failed := Round([], [], [], Zeros(0), 0.0, 0.0, [], Zeros(0), []);
    if first.Err? {
      return Err(first.error), imputedZ, rsq, zScoreE, iterId, log, orders, failed;
    }
    orders := [first.value];
    var fullIdx := first.value;
    var t := 0;
    while t < nIter
      invariant 0 <= t && (t <= nIter || t == 0)
      invariant Poised(t, log, orders, fullIdx, idx, idx2, Snapshot(imputedZ, rsq, zScoreE), iterId[..],
                       markerSize, seed, groupingGWAS, draws) == true
      invariant AllDone(log, groupingGWAS, eig, impute, nSample, propSVD) == true
    {
      var next, nextIdx, nextIdx2;
      ghost var round, order;
      next, nextIdx, nextIdx2, round, order :=
        Advance(t, log, orders, idx, idx2, fullIdx, markerSize, seed, groupingGWAS, draws, eig, impute,
                nSample, propSVD, imputedZ, rsq, zScoreE, iterId);
      if next.Err? {
        return Err(next.error), imputedZ, rsq, zScoreE, iterId, log, orders, round;
      }
      log, orders := log + [round], orders + [order];
      fullIdx, idx, idx2 := next.value, nextIdx, nextIdx2;
      t := t + 1;
    }
    PoisedOutcome(t, log, orders, fullIdx, idx, idx2, Snapshot(imputedZ, rsq, zScoreE), iterId[..], markerSize, seed,
                  groupingGWAS, draws);
    r := Ok(fullIdx);
  }

  /** Lines 195-214: the first random order and bisection of all markers,
      and the zero vectors; on success the loop's state after no rounds. */
  method Setup(markerSize: nat, seed: int, groupingGWAS: seq<bool>, draws: int -> seq<int>)
    returns (r: Result<seq<nat>>, idx: seq<nat>, idx2: seq<nat>,
             imputedZ: array<real>, rsq: array<real>, zScoreE: array<real>, iterId: array<int>)
    requires markerSize >= 1 && DrawsInRange(draws)
    ensures fresh(imputedZ) && fresh(rsq) && fresh(zScoreE) && fresh(iterId)
    ensures imputedZ != rsq && imputedZ != zScoreE && rsq != zScoreE
    ensures imputedZ.Length == rsq.Length == zScoreE.Length == iterId.Length == markerSize
    ensures r.Err? <==> |Dedup(draws(seed))| < markerSize
    ensures r.Ok? ==> Poised(0, [], [r.value], r.value, idx, idx2, Snapshot(imputedZ, rsq, zScoreE), iterId[..],
                             markerSize, seed, groupingGWAS, draws) == true
  {
    imputedZ, rsq, zScoreE, iterId := ZeroVectors(markerSize);
    r, idx, idx2 := Start(markerSize, draws(seed));
    if r.Ok? {
      StartPoised(r.value, idx, idx2, Snapshot(imputedZ, rsq, zScoreE), iterId[..], markerSize, seed,
                  groupingGWAS, draws);
    }
  }

  /** What `Finished` says about the vectors and counts `dentist` returns. */
  lemma FinishedResult(r: Result<QcResult>, v: Vectors, counts: seq<int>, active: seq<nat>, log: seq<Round>,
                       orders: seq<seq<nat>>, nIter: int, markerSize: nat, seed: int, groupingGWAS: seq<bool>,
                       draws: int -> seq<int>)
    requires r == Ok(QcResult(v.imputedZ, v.rsq, v.zScoreE, counts, groupingGWAS))
    requires Finished(Rounds(nIter), log, orders, active, v, counts, markerSize, seed, groupingGWAS, draws) == true
    ensures r.Ok? ==> |log| == Rounds(nIter) && Trace(log, orders, markerSize, seed, groupingGWAS, draws)
    ensures r.Ok? ==> active == (if |log| == 0 then orders[0] else log[|log| - 1].survivors)
    ensures r.Ok? ==> Vectors(r.value.imputedZ, r.value.rsq, r.value.zScoreE) ==
                      (if |log| == 0 then Zeros(markerSize) else log[|log| - 1].after)
    ensures r.Ok? ==> |r.value.imputedZ| == |r.value.rsq| == |r.value.zScoreE| == |r.value.iterId| == markerSize &&
                      r.value.groupingGWAS == groupingGWAS
    ensures r.Ok? ==> forall k :: 0 <= k < markerSize ==>
                        0 <= r.value.iterId[k] <= Rounds(nIter) &&
                        (r.value.iterId[k] == Rounds(nIter) <==> k in active)
    ensures r.Ok? ==> forall k :: 0 <= k < markerSize ==> r.value.iterId[k] == Survived(log, k)
    ensures r.Ok? ==> |active| >= 1 && Distinct(active) && (forall k :: 0 <= k < |active| ==> active[k] < markerSize) &&
                      multiset(active) <= multiset(Iota(markerSize))
    ensures r.Ok? ==> forall k :: 0 <= k < markerSize ==> r.value.rsq[k] < 1.0
    ensures r.Ok? ==> forall k :: 0 <= k < markerSize && (forall s :: 0 <= s < |log| ==> k !in log[s].idx2) ==>
                        r.value.imputedZ[k] == 0.0 && r.value.rsq[k] == 0.0 && r.value.zScoreE[k] == 0.0
  {
    DistinctWithinIota(active, markerSize);
  }

  /** Lines 211-214: the output vectors and `iterID`, all zero. */
  method ZeroVectors(n: nat) returns (imputedZ: array<real>, rsq: array<real>, zScoreE: array<real>, iterId: array<int>)
    ensures fresh(imputedZ) && fresh(rsq) && fresh(zScoreE) && fresh(iterId)
    ensures imputedZ != rsq && imputedZ != zScoreE && rsq != zScoreE
    ensures imputedZ.Length == rsq.Length == zScoreE.Length == iterId.Length == n
    ensures Snapshot(imputedZ, rsq, zScoreE) == Zeros(n)
    ensures forall k :: 0 <= k < n ==> iterId[k] == 0
  {
    imputedZ := new real[n](_ => 0.0);
    rsq := new real[n](_ => 0.0);
    zScoreE := new real[n](_ => 0.0);
    iterId := new int[n](_ => 0);
    assert Snapshot(imputedZ, rsq, zScoreE) == Zeros(n);
  }

  /** `dentist` without genomic control: the initial random bisection, then
      `nIter` rounds of QC, each followed by a fresh random bisection of the
      survivors. On success `log` records every round (`Trace`), each of
      which ran to the end (`RoundDone`); the vectors returned are those
      after the last round (zeros when there was none); each marker's
      `iterID` is the number of rounds it survived; and the markers still
      active at the end are the last round's survivors, exactly those with
      `iterID == nIter`: a non-empty set of distinct valid ids. Every
      R-squared is below 1, and a marker that was never a target keeps its
      zeros. On failure the run has `Stopped`: either the first random order
      failed, or the rounds in `log` ran to the end and `failed`, the round
      that starts where they left off, fails. */
  method Dentist(markerSize: nat, nSample: nat, groupingGWAS: seq<bool>, propSVD: real,
                 nIter: int, seed: int, draws: int -> seq<int>,
                 eig: seq<nat> -> seq<real>, impute: (seq<nat>, seq<nat>, seq<nat>) -> Fit)
    returns (r: Result<QcResult>, ghost active: seq<nat>, ghost log: seq<Round>, ghost orders: seq<seq<nat>>,
             ghost failed: Round)
    requires markerSize >= 1
    requires |groupingGWAS| == markerSize
    requires propSVD >= 0.0
    requires DrawsInRange(draws)
    requires EigenOracle(eig) && FitOracle(impute)
    ensures r.Ok? ==> |log| == Rounds(nIter) && Trace(log, orders, markerSize, seed, groupingGWAS, draws)
    ensures r.Ok? ==> active == (if |log| == 0 then orders[0] else log[|log| - 1].survivors)
    ensures r.Ok? ==> Vectors(r.value.imputedZ, r.value.rsq, r.value.zScoreE) ==
                      (if |log| == 0 then Zeros(markerSize) else log[|log| - 1].after)
    ensures r.Ok? ==> |r.value.imputedZ| == |r.value.rsq| == |r.value.zScoreE| == |r.value.iterId| == markerSize &&
                      r.value.groupingGWAS == groupingGWAS
    ensures r.Ok? ==> forall k :: 0 <= k < markerSize ==>
                        0 <= r.value.iterId[k] <= Rounds(nIter) &&
                        (r.value.iterId[k] == Rounds(nIter) <==> k in active)
    ensures r.Ok? ==> forall k :: 0 <= k < markerSize ==> r.value.iterId[k] == Survived(log, k)
    ensures r.Ok? ==> |active| >= 1 && Distinct(active) && (forall k :: 0 <= k < |active| ==> active[k] < markerSize) &&
                      multiset(active) <= multiset(Iota(markerSize))
    ensures r.Ok? ==> forall k :: 0 <= k < markerSize ==> r.value.rsq[k] < 1.0
    ensures r.Ok? ==> forall k :: 0 <= k < markerSize && (forall s :: 0 <= s < |log| ==> k !in log[s].idx2) ==>
                        r.value.imputedZ[k] == 0.0 && r.value.rsq[k] == 0.0 && r.value.zScoreE[k] == 0.0
    ensures r.Ok? ==> forall s :: 0 <= s < |log| ==> RoundDone(log[s], groupingGWAS, eig, impute, nSample, propSVD)
    ensures r.Err? ==> Stopped(nIter, log, orders, failed, markerSize, seed, groupingGWAS, draws,
                               eig, impute, nSample, propSVD)
  {
    active, log, orders := [], [], [];
    var last, imputedZ, rsq, zScoreE, iterId;
    last, imputedZ, rsq, zScoreE, iterId, log, orders, failed :=
      RunRounds(nIter, markerSize, seed, groupingGWAS, draws, eig, impute, nSample, propSVD);
    if last.Err? {
      return Err(last.error), active, log, orders, failed;
    }
    active := last.value;
    ghost var v := Snapshot(imputedZ, rsq, zScoreE);
    r := Ok(QcResult(imputedZ[..], rsq[..], zScoreE[..], iterId[..], groupingGWAS));
    FinishedResult(r, v, iterId[..], active, log, orders, nIter, markerSize, seed, groupingGWAS, draws);
  }
}
