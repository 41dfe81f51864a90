# DENTIST summary-statistics QC: index and order-statistic bookkeeping

This project models the discrete core of `dentist` in `src/dentist.cpp`.
`dentist` is an iterative quality control for GWAS summary statistics. In each
round it does five things:

- it splits the active markers at random into a reference set `idx` and a
  target set `idx2`;
- it imputes every target's z-score from the references;
- it derives a QC threshold per GWAS group from the adjusted statistics of the
  targets (`getQuantile`, `getQuantile2`);
- it re-imputes the targets that pass;
- it keeps as the next active set the markers within their group's threshold,
  counting in `iterID` how many rounds each marker survived.

The random order comes from `generateSetOfNumbers`, which draws distinct random
values and argsorts them with `sort_indexes`.

The model keeps the source's form.

- Code that fills vectors step by step is written as methods with loops:
  - the draw-and-retry generator and the argsort;
  - the bisection, the QC filter and the survivor update;
  - the scatter of `oneIteration` into the per-marker arrays;
  - the round loop.

  Each method is proved against a specification function. Every `push_back`
  filter loop equals `Select(list, mask)`: the entries whose mask bit is set,
  kept in their original order. `basics.dfy` proves once what that means:
  membership, order, an exact partition, and containment.
- The per-marker vectors `imputedZ`, `rsq`, `zScore_e` and `iterID` are arrays
  written in place.
- `getQuantile` and `getQuantile2` copy, sort and index. They are functions,
  with lemmas.
- The numerical work is taken as given.
  - `eig` stands for `eig_sym` on the reference block: one eigenvalue per
    reference, in ascending order.
  - `impute` stands for the products that give, for each target, the imputed
    value, the R-squared and the standardised residual.
  - The seeded Mersenne Twister is a finite stream of draws for each seed.

Modules: `Basics` (failures, `Iota`, `Select`, `Count`), `Permutation`,
`Quantiles`, `Imputation` (`oneIteration`) and `Dentist` (the round loop).

The two halves of the bisection are not balanced to within one marker. The
code sends ranks `0..S/2` to the targets, so `|idx2| = S/2 + 1` and
`|idx| = S - 1 - S/2`. For an even active-set size `S` the targets outnumber
the references by 2. The model follows the code (`Dentist.BisectionSplit`).

A threshold of 0 does not switch the filter off. `getQuantile2` returns 0
for a group with fewer than 50 targets, and the filters of lines 237-242 and
249-256 then keep only the markers of that group whose absolute residual is
exactly 0. In round 0 this keeps every reference, whose `zScore_e` is still 0
(`Dentist.SmallGroupKeepsOnlyExact`).

## Model

| member | source | states |
|---|---|---|
| Permutation.SortIndexes | src/dentist.cpp:25-30 | the result is a permutation of 0..theSize-1, and `v` read along it is non-decreasing |
| Permutation.ArgsortStrict | src/dentist.cpp:25-30 | when the keys are pairwise different, `v` read along the argsort is strictly increasing, so no other order is possible |
| Permutation.PermutationFacts | src/dentist.cpp:195-196 | a permutation of 0..n-1 has n entries, each below n, no repeats, and every id below n appears |
| Permutation.Dedup | src/dentist.cpp:40-57 | the values the retry loop keeps, in draw order: each draw is skipped when it equals a value already kept; its properties are `DedupExact` and `DedupPrefix` |
| Permutation.DedupExact | src/dentist.cpp:40-57 | the values kept by the retry loop are pairwise different and are exactly the values drawn |
| Permutation.DedupPrefix | src/dentist.cpp:40-57 | drawing more never changes the values already kept |
| Permutation.KeptNeverSentinel | src/dentist.cpp:36-53 | every kept value lies in 0..INT_MAX, so the retry sentinel -1 is never stored |
| Permutation.IsFresh | src/dentist.cpp:45-51 | the uniqueness scan answers true exactly when the draw is not among the first `index` kept values |
| Permutation.DrawFresh | src/dentist.cpp:42-54 | the do-while consumes draws until one not kept yet comes up, and the kept values then extend by exactly that draw; it fails only when the stream runs out |
| Permutation.GenerateSetOfNumbers | src/dentist.cpp:33-61 | succeeds exactly when the stream holds at least SIZE different values; the result is then a permutation of 0..SIZE-1 that orders the first SIZE different draws strictly ascending |
| Permutation.SortsDraws | src/dentist.cpp:33-61 | what `generateSetOfNumbers(size, seed)` returns, stated without the loop: `size` ids below `size` along which the first `size` different draws of the seed's stream strictly ascend |
| Permutation.SortsDrawsPermutes | src/dentist.cpp:25-30 | an order that sorts the draws is a permutation of 0..size-1 |
| Permutation.SeedFixesOrder | src/dentist.cpp:33-61 | two orders that both sort the same stream are equal: a seed determines its random order |
| Quantiles.Ceil | src/dentist.cpp:67 | the smallest integer not below x |
| Quantiles.QuantilePos | src/dentist.cpp:67 | the position `ceil(n*q) - 1` that `getQuantile` reads; `QuantileDefined` says when it is in range and `QuantilePosMonotone` that it grows with q |
| Quantiles.SortAsc | src/dentist.cpp:65-66 | the sorted copy, as an insertion sort on values; `SortAscFacts` proves it is ascending and holds exactly the data |
| Quantiles.SortAscFacts | src/dentist.cpp:65-66 | the sorted copy is ascending and holds exactly the data |
| Quantiles.Quantile | src/dentist.cpp:64-69 | `getQuantile`: the entry at `QuantilePos` of the sorted copy, or the `.at()` failure when the position is out of range; its meaning is proved by the five lemmas below |
| Quantiles.QuantileDefined | src/dentist.cpp:64-69 | the position ceil(n*q)-1 lies in 0..n-1, and the quantile is defined, exactly when the data are non-empty and 0 < q <= 1; otherwise `.at()` fails |
| Quantiles.QuantileIsOrderStatistic | src/dentist.cpp:64-69 | the quantile is one of the data; at least pos+1 entries are at or below it and at least n-pos are at or above it |
| Quantiles.QuantileOneIsMax | src/dentist.cpp:64-69 | q = 1 yields the maximum of the data |
| Quantiles.QuantileMonotone | src/dentist.cpp:64-69 | a larger q never yields a smaller quantile |
| Quantiles.QuantilePosMonotone | src/dentist.cpp:67 | the position read never decreases as q grows |
| Quantiles.QuantileNonNegative | src/dentist.cpp:64-69 | the quantile of non-negative data (absolute statistics) is non-negative |
| Quantiles.Quantile2 | src/dentist.cpp:72-77 | `getQuantile2`: 0 when fewer than 50 entries carry the group bit, else the quantile of exactly those entries; `Quantile2Spec` states its meaning |
| Quantiles.Quantile2Spec | src/dentist.cpp:72-77 | never fails for 0 < q <= 1; exactly 0 when fewer than 50 entries are in the group; otherwise a group member that is an order statistic of exactly the group's entries, in their original order |
| Quantiles.Quantile2NonNegative | src/dentist.cpp:72-77 | a group threshold of absolute statistics is defined and non-negative |
| Imputation.RequestedRank | src/dentist.cpp:91 | K is min(\|idx\|, nSample) * probSVD truncated toward zero |
| Imputation.EffectiveRank | src/dentist.cpp:118-120 | the number of eigenvalues not counted as zero never exceeds the number of eigenvalues |
| Imputation.TruncationRank | src/dentist.cpp:118-124 | K is the smaller of the requested and the effective rank; it fails with "rank <= 1" exactly when either of them is at most 1, and otherwise 2 <= K |
| Imputation.ZeroEigenvaluesFirst | src/dentist.cpp:118-120 | with ascending eigenvalues, those counted as zero form exactly a prefix |
| Imputation.TopColumns | src/dentist.cpp:128-130 | the columns `n-1-m` for m in 0..K-1 that line 129 picks; `TopColumnsFacts` states what they are |
| Imputation.TopColumnsFacts | src/dentist.cpp:126-132 | columns n-1, ..., n-K are distinct and in range, each with an eigenvalue at or above 0.0001, and no column left out has a larger eigenvalue |
| Imputation.SelectTopColumns | src/dentist.cpp:126-132 | the selection loop picks columns n-1-m for m below K, with the weights 1/eigval of their eigenvalues; `OneIteration` passes only the columns on, since the oracle `impute` stands for the products that use the weights |
| Imputation.FitFor | src/dentist.cpp:86-137 | the fit `oneIteration` computes for a list of targets: the oracle applied to the K top eigen-columns of the references, K the truncation rank |
| Imputation.OneIteration | src/dentist.cpp:86-148 | fails with "rank <= 1" exactly when the truncation rank fails, before writing anything; otherwise it succeeds exactly when every target's R-squared is below 1; on success it writes the imputed value, the R-squared and the residual at each target's slot; no slot outside `idx2` ever changes |
| Dentist.AboveMid | src/dentist.cpp:199-202 | bit k is set exactly when rank k exceeds the midpoint, that is when member k becomes a reference |
| Dentist.Passes | src/dentist.cpp:237-242 | a statistic passes when it is at most the threshold of its own group: `threshold1` for group 1, `threshold0` otherwise |
| Dentist.PassMask | src/dentist.cpp:237-242 | one `Passes` bit per target, read from `diff[i]` and `grouping_tmp[i]` |
| Dentist.PassMaskAt | src/dentist.cpp:249-256 | one `Passes` bit per listed marker, read from \|zScore_e\| and the group label at the marker's own id |
| Dentist.Bisect | src/dentist.cpp:199-202 | reference and target lists are the order-preserving sublists of the members whose rank is above, and at or below, the midpoint |
| Dentist.BisectById | src/dentist.cpp:279-281 | the later-round split as written: it reads `randOrder` at each survivor's marker id |
| Dentist.ByIdAgreesOnFirstRound | src/dentist.cpp:199-202 | while the members are 0..M-1 in order, reading the rank by id or by position is the same |
| Dentist.DroppedMarkerEscapes | src/dentist.cpp:279-281 | once a marker whose id is below the active-set size has been dropped, some survivor's id is at least that size, so the as-written read is out of bounds |
| Dentist.TargetCount | src/dentist.cpp:199-202 | the number of targets equals the number of ranks at or below the midpoint |
| Dentist.BisectionSplit | src/dentist.cpp:195-202 | with a random permutation of size S >= 1, the two lists cover every member exactly once, \|idx2\| = S/2 + 1 and \|idx\| = S - 1 - S/2 |
| Dentist.FirstBisection | src/dentist.cpp:199-202 | both first-round lists are strictly ascending; marker i is a reference exactly when randOrder[i] > M/2 and a target exactly when not |
| Dentist.GatherDiffs | src/dentist.cpp:225-230 | diff[i] is \|zScore_e\| of the i-th target and never negative; grouping_tmp[i] is that target's group |
| Dentist.Thresholds | src/dentist.cpp:225-234 | the overall quantile fails exactly when there are no targets; otherwise the group thresholds are the `getQuantile2` values over the group and over its complement, both non-negative |
| Dentist.SmallGroupKeepsOnlyExact | src/dentist.cpp:232-242 | in a group with fewer than 50 targets the threshold is 0, so the filter keeps a target of that group exactly when its absolute residual is 0 |
| Dentist.QcFilter | src/dentist.cpp:237-242 | `idx2_QCed` is the order-preserving sublist of `idx2` at the positions that pass their group threshold |
| Dentist.QcFilterSelectsPassing | src/dentist.cpp:227-242 | a marker is in `idx2_QCed` exactly when it is a target whose \|zScore_e\| is within the threshold of its own group |
| Dentist.PassSelection | src/dentist.cpp:248-256 | a marker survives exactly when it is active and within its group's threshold |
| Dentist.Survivors | src/dentist.cpp:248-256 | `fullIdx_tmp` is the order-preserving sublist of the active markers that pass QC, and `iterID` rises by one at each survivor and nowhere else |
| Dentist.Incremented | src/dentist.cpp:249-256 | the update of `iterID` by one round on whole vectors: each count rises by the number of times its marker is among the survivors, and nothing else changes |
| Dentist.SurvivorsCounted | src/dentist.cpp:248-256 | `Survivors` unchanged; only the form of its contract changes, with the count update stated as `Incremented` on the whole vector |
| Dentist.CountsAfterRound | src/dentist.cpp:248-256 | after round t+1, `iterID` is t+1 exactly at the survivors and at most t+1 everywhere; no count ever decreases |
| Dentist.RsqStaysBelowOne | src/dentist.cpp:139-148 | after a successful imputation every stored R-squared is still below 1 |
| Dentist.QcThresholds | src/dentist.cpp:222-234 | the thresholds of a round: the two group quantiles (q = 0.995) of the absolute residuals that imputing all targets from the references yields; the overall quantile needs at least one target |
| Dentist.KeptTargets | src/dentist.cpp:236-242 | the kept targets are those whose first-imputation residual is within their group's threshold, in target order |
| Dentist.ProvisionalQc | src/dentist.cpp:222-242 | succeeds exactly when the rank is high enough, there is a target and every target's R-squared is below 1; on success the thresholds are `QcThresholds` of this imputation, `idx2_QCed` is `KeptTargets`, every target slot holds its imputed values, and nothing outside the targets changes |
| Dentist.Reimpute | src/dentist.cpp:245 | succeeds exactly when every kept target's second R-squared is below 1; kept targets then hold their second imputation, the other targets keep their first, and nothing outside the kept targets changes |
| Dentist.RoundLogged | src/dentist.cpp:216-256 | what a round leaves behind: only its targets' slots change, and the survivors are the active markers within their group's threshold on the new residuals, in active-set order |
| Dentist.RoundDone | src/dentist.cpp:216-256 | a round that ran to the end: `RoundLogged`, the thresholds from the first imputation of all targets, the kept targets holding their second imputation and the others their first, every R-squared below 1 |
| Dentist.FirstFitOk | src/dentist.cpp:119-148 | the first imputation of a round succeeds: the rank suffices, there is a target, and every target's R-squared is below 1 |
| Dentist.SecondFitOk | src/dentist.cpp:245 | the second imputation succeeds: every kept target's R-squared is below 1 |
| Dentist.QcFails | src/dentist.cpp:216-245 | the QC of a round stops the run: the first imputation fails, or it succeeds and the second imputation of exactly the targets its thresholds keep fails |
| Dentist.RoundFails | src/dentist.cpp:216-276 | round t stops the run: its QC fails, or it runs to the end but leaves no survivors, or leaves more survivors than the stream of seed 20000 + 20000t has distinct draws |
| Dentist.RoundDetermined | src/dentist.cpp:216-256 | two rounds from the same references, targets, active set and vectors that both run to the end are equal: same thresholds, kept targets, vectors and survivors |
| Dentist.FailsOnlyWhenStuck | src/dentist.cpp:216-281 | a round that starts where a round ran to the end with survivors and enough distinct draws does not fail, so failure and success exclude each other |
| Dentist.QcRound | src/dentist.cpp:216-256 | one round; it succeeds exactly when both imputations succeed, and then `RoundDone` holds of it and `iterID` rises by one at each survivor and nowhere else (`Incremented`); on failure `QcFails` holds and `iterID` is unchanged |
| Dentist.Start | src/dentist.cpp:195-202 | the first random order sorts the draws of the seed's stream and is a permutation of 0..M-1 that becomes the active set; the two lists are the split of 0..M-1 by it |
| Dentist.RoundSeed | src/dentist.cpp:276 | the seed of the order drawn after round t, 20000 + 20000t |
| Dentist.Rebisect | src/dentist.cpp:275-281 | succeeds exactly when the stream holds enough different draws; the order then sorts those draws (`SortsDraws`), and the two lists are the positional split of the survivors by it |
| Dentist.NextRound | src/dentist.cpp:216-281 | it succeeds exactly when both imputations succeed, there is a survivor and the stream of seed 20000 + 20000t has at least as many distinct draws as survivors; on failure `RoundFails` holds of the round; on success `RoundDone` holds of it; the survivors are non-empty, have no repeats and only valid ids, and never grow; the next split is by the order drawn from the stream of seed 20000 + 20000t; every R-squared is below 1; `iterID` rises by one at each survivor and nowhere else, so after round t+1 it is t+1 exactly at the survivors and at most t+1 elsewhere |
| Dentist.Trace | src/dentist.cpp:195-283 | the run as a log of rounds: every round is `RoundLogged`, round 0 splits 0..M-1 by the seed's order and starts from zero vectors, and each later round starts from the survivors and vectors of the one before, split by the order drawn from seed 20000 + 20000s |
| Dentist.AllDone | src/dentist.cpp:216-256 | every round of the log ran to the end as `RoundDone` states |
| Dentist.AllDoneExtends | src/dentist.cpp:216-256 | a log of completed rounds extended by a completed round is still one |
| Dentist.Survived | src/dentist.cpp:254 | the number of logged rounds whose survivors include a marker; never more than the number of rounds |
| Dentist.CountsLog | src/dentist.cpp:214 | every marker's `iterID` is the number of logged rounds it survived |
| Dentist.CountsLogStep | src/dentist.cpp:249-256 | the update of one round keeps `iterID` equal to the number of rounds survived, for the log extended by that round |
| Dentist.NeverTargetedStep | src/dentist.cpp:211-214 | a slot that no round has targeted still holds the zeros of lines 211-214 after one more round |
| Dentist.FailsNext | src/dentist.cpp:216-283 | the logged rounds ran to the end and the round that starts where they left off fails |
| Dentist.Stopped | src/dentist.cpp:195-283 | a run stops early either because the seed's stream has fewer than M distinct draws, before any round, or because fewer than nIter rounds ran to the end and the next one fails |
| Dentist.Advance | src/dentist.cpp:216-283 | one pass of the loop keeps the loop invariant `Poised` (the trace extended by this round; the exact counts; the active set and R-squared invariants) and extends `AllDone` by the round it ran; on failure the round it ran is the one `FailsNext` describes |
| Dentist.PoisedStep | src/dentist.cpp:216-283 | a completed round and the bisection of its survivors take the loop's state after t rounds to the state after t + 1 |
| Dentist.Setup | src/dentist.cpp:195-214 | the first order and bisection of all markers and four zero vectors; it fails exactly when the seed's stream holds fewer than M different draws, and otherwise the loop invariant holds with an empty trace |
| Dentist.StartPoised | src/dentist.cpp:195-214 | the state before the loop satisfies the loop invariant with an empty trace |
| Dentist.PoisedOutcome | src/dentist.cpp:216-283 | when the loop stops, the invariant yields the final statement `Finished` about the active set, vectors and counts |
| Dentist.RunRounds | src/dentist.cpp:195-283 | on success after Rounds(nIter) rounds `Finished` holds (the trace, the final active set as the last survivors, the vectors as the last round left them, each `iterID` equal to the number of rounds survived) and every round ran to the end (`AllDone`); on failure the run `Stopped` as that predicate states |
| Dentist.FinishedResult | src/dentist.cpp:286-290 | the returned list carries what `Finished` says, in the form `Dentist` promises |
| Dentist.ZeroVectors | src/dentist.cpp:211-214 | four fresh, distinct vectors of M zeros |
| Dentist.Dentist | src/dentist.cpp:188-291 | on success there is a trace of Rounds(nIter) rounds as `Trace` states, each of which is `RoundDone`; the returned vectors are those the last round left (zeros when there is none); the active set is the last round's survivors, non-empty, with distinct ids below M; every R-squared is below 1; each marker's `iterID` is the number of rounds it survived, lies in 0..nIter and equals nIter exactly at the active markers; a slot no round targeted is still 0. On failure the run `Stopped`: the first order failed, or the rounds in the log ran to the end and the next one fails |

## Findings

| source | as written | input that shows it | evidently intended | confidence | as-written member | corrected member |
|---|---|---|---|---|---|---|
| src/dentist.cpp:279-281 | each survivor `i` reads `randOrder[i]` at its marker id, while `randOrder` holds only `fullIdx.size()` entries | M = 8, the identity as LD matrix, every z-score non-zero, nSample >= 3, propSVD = 1: round 0 has 3 references and 5 targets, K = 3, and every target residual is non-zero; both groups have fewer than 50 targets, so both thresholds are 0; the survivors are exactly the 3 references, whose `zScore_e` is still 0, and unless they are markers 0, 1 and 2 line 280 reads past the 3-entry `randOrder` | the survivor at position k reads `randOrder[k]`, so every survivor gets its own rank in a random order of the survivors | high, not executed | Dentist.BisectById | Dentist.Bisect |

`Dentist.DroppedMarkerEscapes` proves the general form of that input. If a
marker whose id is below the active-set size has been dropped, the
out-of-bounds read always happens. The rounds use the positional `Bisect`
through `Dentist.Rebisect`. `Dentist.BisectionSplit` proves the intended
split for it: an exact cover of the survivors, with the stated sizes.

## Left out

- Numerical linear algebra is not part of this model: `eig_sym`, the matrix
  products for the imputed values and R-squared, and the division by
  `sqrt(LD(j,j) - rsq)` (lines 93-116, 135-137, 147). The oracles `eig` and
  `impute` take their place. Only their shapes and the ascending order of the
  eigenvalues are assumed.
- The group labels are a given boolean sequence. `minusLogPvalueChisq2` and
  the chi-squared test of lines 204-209 are not modelled.
- OpenMP is not modelled. Every parallel loop is run sequentially; their
  writes go to distinct slots.
- Imputation.OneIteration: the model is kinder than the source when the
  R-squared check fails. `Rcpp::stop` at line 144 throws inside the
  `#pragma omp parallel for` of line 139. An exception that escapes an
  OpenMP region ends the process through `std::terminate`; it does not
  become an R error. The model returns an `Err` result instead.
- The Mersenne Twister is not modelled; a finite stream of draws for each seed
  replaces it. `DrawsExhausted` is a failure of the model only. The source
  retries forever.
- The R glue is not modelled. `Rcpp::stop` becomes an `Err` result, and
  `List::create` becomes the `QcResult` value.
- The `gcControl` branch (lines 259-272) is left out. It reads an undeclared
  `chisq`, so it has no definite meaning.
- `!grouping_tmp` at line 234 is not an element-wise complement of a
  `std::vector`. `threshold0` is modelled over the element-wise complement
  `Not(groupTmp)`.
- Floating point is exact here.
  - Reals stand for `double` and `float`.
  - `ceil(n * q)` is taken on the exact product.
  - A comparison such as `rsq >= 1` is taken on exact values.
- The integer widths `uint`, `size_t` and `int` are unbounded here. The seed
  `20000 + t*20000` overflows for very large `t`, and that is not modelled.
- Dentist.Dentist: when no marker survives a round, the run ends with
  `Err(UndefinedBehaviour)`. The source would then call
  `generateSetOfNumbers(0, ...)`, which writes `numbers[0]` of an empty vector.
- Dentist.NextRound: the later rounds use the positional bisection, not the
  out-of-bounds read of line 280 (see Findings).
- Dentist.Reimpute: the oracle `impute` is not required to be row-local. In
  the source a target's imputed value and R-squared depend only on `idx` and
  that target's own row, so the second `oneIteration` of line 245 cannot
  fail and gives each kept target the values the first one gave it. The
  model allows the second imputation to fail or to change those values.
- Imputation.OneIteration: it requires the targets to have no repeated ids.
  Every call `dentist` makes satisfies this, as the round loop proves.
- Imputation.RequestedRank: it requires `probSVD >= 0`. A negative product
  converted to `uint` has no defined value.
- Permutation.SortIndexes: `std::sort` fixes no order among equal keys. The
  model sorts by insertion and promises only what every sort guarantees.
- The arguments `LDmat`, `zScore`, `pValueThreshold` and `ncpus` only reach
  the left-out numerical code and the left-out branch, so they are absent.
