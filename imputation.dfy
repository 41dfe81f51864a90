/** The discrete part of `oneIteration`: the truncation rank, the choice of
    eigen-columns, and the scatter of per-target results into the per-marker
    vectors, with its two failures.

    The numerical work is not modelled. `eig` stands for `arma::eig_sym` on the
    reference submatrix VV (it yields |idx| eigenvalues in ascending order),
    and `impute` for the matrix products that turn the chosen eigen-columns
    into, per target, the imputed statistic, its R-squared and the
    standardised residual `(z - imputed) / sqrt(LD(j,j) - rsq)`. */
module Imputation {
  import opened Basics

  /** Eigenvalues below this count as zero (line 119). */
  const ZeroEigenvalue: real := 0.0001

  /** What the linear algebra yields per target position. */
  datatype Fit = Fit(imputed: seq<real>, rsq: seq<real>, residual: seq<real>)

  /** `eig` behaves as `eig_sym` does: one eigenvalue per reference, ascending. */
  ghost predicate EigenOracle(eig: seq<nat> -> seq<real>) {
    forall a :: |eig(a)| == |a| && Ascending(eig(a))
  }

  /** `impute` yields one imputed value, R-squared and residual per target. */
  ghost predicate FitOracle(impute: (seq<nat>, seq<nat>, seq<nat>) -> Fit) {
    forall a, b, c :: |impute(a, b, c).imputed| == |impute(a, b, c).rsq| ==
                      |impute(a, b, c).residual| == |b|
  }

  function Below(t: real): real -> bool { x => x < t }

  function Min(a: int, b: int): int { if a <= b then a else b }

  /** `std::min(idx.size(), nSample) * probSVD`, truncated on conversion to `uint`. */
  function RequestedRank(nRef: nat, nSample: nat, probSVD: real): (k: nat)
    requires probSVD >= 0.0
    ensures k as real <= Min(nRef, nSample) as real * probSVD < k as real + 1.0
  {
    var x := Min(nRef, nSample) as real * probSVD;
    NonNegativeProduct(Min(nRef, nSample) as real, probSVD);
    x.Floor
  }

  lemma NonNegativeProduct(a: real, b: real)
    requires a >= 0.0 && b >= 0.0
    ensures a * b >= 0.0
  {
  }

  /** Number of eigenvalues the source treats as non-zero:
      `eigvec.n_rows - sum(eigval < 0.0001)`. */
  function EffectiveRank(eigval: seq<real>): (r: nat)
    ensures r <= |eigval|
  {
    CountBound(eigval, Below(ZeroEigenvalue));
    |eigval| - Count(eigval, Below(ZeroEigenvalue))
  }

  /** The truncation rank K: the requested rank capped at the effective rank;
      a capped rank of at most 1 stops the run ("Rank of eigen matrix <= 1"). */
  function TruncationRank(nSample: nat, probSVD: real, eigval: seq<real>): (r: Result<nat>)
    requires probSVD >= 0.0
    ensures r.Ok? ==> 2 <= r.value <= EffectiveRank(eigval)
    ensures r.Ok? ==> r.value <= RequestedRank(|eigval|, nSample, probSVD)
    ensures r.Ok? ==> r.value == RequestedRank(|eigval|, nSample, probSVD) ||
                      r.value == EffectiveRank(eigval)
    ensures r.Err? <==> RequestedRank(|eigval|, nSample, probSVD) <= 1 || EffectiveRank(eigval) <= 1
    ensures r.Err? ==> r.error == RankTooLow
  {
    var k := Min(RequestedRank(|eigval|, nSample, probSVD), EffectiveRank(eigval));
    if k <= 1 then Err(RankTooLow) else Ok(k)
  }

  /** Columns n-1, n-2, ..., n-k of the eigenvector matrix (line 129). */
  function TopColumns(n: nat, k: nat): (cols: seq<nat>)
    requires k <= n
  {
    seq(k, m requires 0 <= m < k => n - 1 - m)
  }

  /** The fit `oneIteration` computes for `targets`: the K eigen-columns of
      the references with the largest eigenvalues, K the truncation rank. */
  function FitFor(idx: seq<nat>, targets: seq<nat>, eig: seq<nat> -> seq<real>,
                  impute: (seq<nat>, seq<nat>, seq<nat>) -> Fit, nSample: nat, probSVD: real): Fit
    requires probSVD >= 0.0 && |eig(idx)| == |idx|
    requires TruncationRank(nSample, probSVD, eig(idx)).Ok?
  {
    impute(idx, targets, TopColumns(|idx|, TruncationRank(nSample, probSVD, eig(idx)).value))
  }

  /** With eigenvalues in ascending order, the ones counted as zero are
      exactly a prefix: those from position `|eigval| - EffectiveRank` on
      are all at or above the tolerance. */
  lemma ZeroEigenvaluesFirst(eigval: seq<real>)
    requires Ascending(eigval)
    ensures forall j :: 0 <= j < |eigval| ==>
              (eigval[j] >= ZeroEigenvalue <==> j >= |eigval| - EffectiveRank(eigval))
  {
    BelowCountIsPrefix(eigval);
  }

  lemma {:induction false} BelowCountIsPrefix(eigval: seq<real>)
    requires Ascending(eigval)
    ensures forall j :: 0 <= j < |eigval| ==>
              (eigval[j] >= ZeroEigenvalue <==> j >= Count(eigval, Below(ZeroEigenvalue)))
  {
    if eigval != [] {
      var n := |eigval| - 1;
      var front := eigval[..n];
      assert Ascending(front);
      BelowCountIsPrefix(front);
      CountBound(front, Below(ZeroEigenvalue));
      assert Count(eigval, Below(ZeroEigenvalue)) ==
             Count(front, Below(ZeroEigenvalue)) + (if eigval[n] < ZeroEigenvalue then 1 else 0);
      if eigval[n] < ZeroEigenvalue {
        assert forall j :: 0 <= j < n ==> front[j] < ZeroEigenvalue;
      }
      forall j | 0 <= j < n
        ensures eigval[j] >= ZeroEigenvalue <==> j >= Count(eigval, Below(ZeroEigenvalue))
      {
        assert front[j] == eigval[j];
      }
    }
  }

  /** The chosen columns are distinct, valid, each with an eigenvalue at or
      above the tolerance, and none left out has a larger eigenvalue. */
  lemma TopColumnsFacts(eigval: seq<real>, k: nat)
    requires Ascending(eigval) && k <= EffectiveRank(eigval)
    ensures var cols := TopColumns(|eigval|, k);
            Distinct(cols) &&
            (forall m :: 0 <= m < k ==> cols[m] < |eigval| && eigval[cols[m]] >= ZeroEigenvalue) &&
            (forall j, m :: 0 <= j < |eigval| - k && 0 <= m < k ==> eigval[j] <= eigval[cols[m]])
  {
    ZeroEigenvaluesFirst(eigval);
  }

  /** `w` is the weight `1 / e` the source gives eigenvalue `e`. */
  predicate InverseOf(w: real, e: real) {
    w * e == 1.0
  }

  lemma InverseWeight(e: real)
    requires e > 0.0
    ensures InverseOf(1.0 / e, e)
  {
  }

  /** Lines 126-132: the K eigen-columns with the largest eigenvalues and
      their inverse eigenvalues as weights. Every chosen eigenvalue is at
      or above the zero tolerance, so each weight is well defined, and no
      column left out has a larger eigenvalue than one chosen. */
  method SelectTopColumns(eigval: seq<real>, k: nat) returns (cols: seq<nat>, weights: seq<real>)
    requires Ascending(eigval)
    requires 2 <= k <= EffectiveRank(eigval)
    ensures cols == TopColumns(|eigval|, k)
    ensures |cols| == k && Distinct(cols)
    ensures forall m :: 0 <= m < k ==> cols[m] < |eigval| && eigval[cols[m]] >= ZeroEigenvalue
    ensures forall j, m :: 0 <= j < |eigval| - k && 0 <= m < k ==> eigval[j] <= eigval[cols[m]]
    ensures |weights| == k && forall m :: 0 <= m < k ==> InverseOf(weights[m], eigval[cols[m]])
  {
    TopColumnsFacts(eigval, k);
    ZeroEigenvaluesFirst(eigval);
    var n := |eigval|;
    cols, weights := [], [];
    var m := 0;
    while m < k
      invariant 0 <= m <= k
      invariant cols == TopColumns(n, m)
      invariant |weights| == m && forall p :: 0 <= p < m ==> InverseOf(weights[p], eigval[n - 1 - p])
    {
      var j := n - m - 1;
      assert eigval[j] >= ZeroEigenvalue;
      InverseWeight(eigval[j]);
      cols := cols + [j];
      weights := weights + [1.0 / eigval[j]];
      m := m + 1;
    }
  }

  /** `oneIteration`: impute every target `idx2[i]` from the reference set
      `idx`, writing `imputedZ`, `rsqList` and `zScore_e` at target slots only.
      It fails when the truncation rank is at most 1 (before writing
      anything), and when some R-squared reaches 1. */
  method OneIteration(idx: seq<nat>, idx2: seq<nat>, eig: seq<nat> -> seq<real>,
                      impute: (seq<nat>, seq<nat>, seq<nat>) -> Fit,
                      nSample: nat, probSVD: real,
                      imputedZ: array<real>, rsqList: array<real>, zScoreE: array<real>)
    returns (r: Outcome)
    requires probSVD >= 0.0
    requires |eig(idx)| == |idx| && Ascending(eig(idx))
    requires forall cols :: |impute(idx, idx2, cols).imputed| == |impute(idx, idx2, cols).rsq| ==
                            |impute(idx, idx2, cols).residual| == |idx2|
    requires imputedZ != rsqList && imputedZ != zScoreE && rsqList != zScoreE
    requires imputedZ.Length == rsqList.Length == zScoreE.Length
    requires forall i :: 0 <= i < |idx2| ==> idx2[i] < imputedZ.Length
    requires Distinct(idx2)
    modifies imputedZ, rsqList, zScoreE
    ensures r.Fail? && r.error == RankTooLow <==> TruncationRank(nSample, probSVD, eig(idx)).Err?
    ensures r.Fail? && r.error == RankTooLow ==>
              imputedZ[..] == old(imputedZ[..]) && rsqList[..] == old(rsqList[..]) && zScoreE[..] == old(zScoreE[..])
    ensures r.Pass? <==>
              (TruncationRank(nSample, probSVD, eig(idx)).Ok? &&
               var fit := impute(idx, idx2, TopColumns(|idx|, TruncationRank(nSample, probSVD, eig(idx)).value));
               forall i :: 0 <= i < |idx2| ==> fit.rsq[i] < 1.0)
    ensures r.Fail? ==> r.error == RankTooLow || r.error == ResidualVarianceNonPositive
    ensures r.Pass? ==>
              var fit := impute(idx, idx2, TopColumns(|idx|, TruncationRank(nSample, probSVD, eig(idx)).value));
              forall i :: 0 <= i < |idx2| ==>
                imputedZ[idx2[i]] == fit.imputed[i] && rsqList[idx2[i]] == fit.rsq[i] &&
                zScoreE[idx2[i]] == fit.residual[i]
    ensures forall j :: 0 <= j < imputedZ.Length && j !in idx2 ==>
              imputedZ[j] == old(imputedZ[j]) && rsqList[j] == old(rsqList[j]) &&
              zScoreE[j] == old(zScoreE[j])
  {
    var eigval := eig(idx);
    var rank := TruncationRank(nSample, probSVD, eigval);
    if rank.Err? {
      return Fail(RankTooLow);
    }
    var k := rank.value;
    var cols, _ := SelectTopColumns(eigval, k);
    var fit := impute(idx, idx2, cols);
    var i := 0;
    while i < |idx2|
      invariant 0 <= i <= |idx2|
      invariant forall p :: 0 <= p < i ==> fit.rsq[p] < 1.0
      invariant forall p :: 0 <= p < i ==>
                  imputedZ[idx2[p]] == fit.imputed[p] && rsqList[idx2[p]] == fit.rsq[p] &&
                  zScoreE[idx2[p]] == fit.residual[p]
      invariant forall j :: 0 <= j < imputedZ.Length && j !in idx2 ==>
                  imputedZ[j] == old(imputedZ[j]) && rsqList[j] == old(rsqList[j]) &&
                  zScoreE[j] == old(zScoreE[j])
    {
      var j := idx2[i];
      imputedZ[j] := fit.imputed[i];
      rsqList[j] := fit.rsq[i];
      if fit.rsq[i] >= 1.0 {
        return Fail(ResidualVarianceNonPositive);
      }
      zScoreE[j] := fit.residual[i];
      i := i + 1;
    }
    return Pass;
  }
}
