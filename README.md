# Generational-depth variance of a pedigree (geneo `describe`)

This project models, in Dafny, the one piece of `geneo/describe.py` that the
Python package computes itself: the generational-depth variance pipeline.

- **Generation-count walker** (`get_generational_counts`). Starting from a list
  of probands, it walks up the father and mother links one generation level at
  a time. Identifier 0 means "no recorded parent". Every entry of a level is
  classified by its parents:
  - both parents absent: a founder;
  - exactly one absent: a semi-founder;
  - both present: neither.

  Every recorded parent is pushed into the next level, the father before the
  mother, with no deduplication. Each level adds one founder count to `vctF`
  and one semi-founder count to `vctDF`. The walk stops at the first empty level.
- **Moment aggregator** (`variance3V`). It weights level `g` by `N * 2^g`, where
  `N` is the number of probands, and gives semi-founders half weight. It
  accumulates the first moment `P` and the second moment `sum_sq` of generation
  depth, and returns `sum_sq - P^2`. With no probands it returns 0.
- **Entry point** (`meangendepthVar`). 'MEAN' runs the aggregator on the whole
  proband list. 'IND' runs it once per proband, on that proband's lineage. Any
  other type gives no result.

Modules:

- `Pedigrees` (pedigrees.dfy). The read-only pedigree is a `map<int, Parents>`.
  - `Closed`: the map is closed under parent links and 0 is never a key.
  - `RankedBy`: a ghost `rank` function drops strictly from child to parent.
    This witnesses that the ancestry is acyclic.
- `Generations` (generations.dfy). The walker.
  - Reference functions work on the part of a level scanned so far:
    `FounderCount`, `SemiFounderCount` and `NextGen`.
  - `Level(ped, pro, g)` is `NextGen` applied `g` times.
  - `Counts` is the whole walk. It terminates because the highest rank in the
    level drops at every step.
  - The methods `ScanLevel` (the inner `for` loop) and `GetGenerationalCounts`
    (the outer `while` loop) are proved against those functions.
- `Relabeling` (relabeling.dfy). The walk reads identifiers only through
  parent lookups and comparisons with 0. So the two count lists do not change
  when the individuals are renamed by a map that keeps 0, or when the pedigree
  changes outside the levels the walk reaches.
- `Moments` (moments.dfy). Finite distributions over depth.
  - The raw-moment form of the variance, `Variance(w) = MeanSquare(w) - Mean(w)^2`.
  - An independent reference definition, the spread `Spread(w, c)`: the
    weighted squared distance of each depth from `c`.
  - The proof that the two agree around the mean when the weights sum to one.
  - `PopulationVariance`: the variance of a plain list of depths, one per
    lineage, used to check a worked example.
- `Variance` (variance.dfy). The aggregator and the entry point.
  - Level `g`'s share is `(F_g + DF_g/2) / (N * 2^g)`.
  - The mass identity `sum_g (F_g + DF_g/2) / 2^g == N` is proved by
    telescoping the level sizes of the walk. So the shares sum to one, the
    result is a true variance, and it is never negative.
  - The method `AccumulateMoments` (the `for` loop, with the `weight == 0`
    guard kept) is proved to return the first and second moments (`Mean`,
    `MeanSquare`) of the share distribution. `Variance3V` and
    `MeanGenDepthVar` are proved against `GenerationalVariance`.

Python floats are modelled by exact reals, and Python's unbounded integers by `nat`.

A proband with exactly one recorded parent counts as a semi-founder at level 0
(`Generations.FatherOnlyExample`). Level 0 has no founder and no semi-founder
when every proband has both parents recorded (`Generations.AllBothParents`).

## Model

| member | source | states |
|---|---|---|
| Pedigrees.ParentsOf | geneo/describe.py:65-77 | the entries an individual pushes into the next level are its recorded parents only, never 0, father first and mother last; there are none for a founder, one for a semi-founder and two when both parents are recorded |
| Generations.FounderCount | geneo/describe.py:60-69 | the founder count of a level never exceeds the level's size |
| Generations.SemiFounderCount | geneo/describe.py:61-71 | the semi-founder count of a level never exceeds the level's size |
| Generations.BothParentsCount | geneo/describe.py:64-71 | entries with both parents recorded are at most the level's size |
| Generations.NextGen | geneo/describe.py:62-77 | the next level never contains 0, and on a closed pedigree all its entries are individuals of the pedigree |
| Generations.Level | geneo/describe.py:81 | every level reached by rebinding the current generation holds only individuals of the pedigree, and none is 0 after the first |
| Generations.MaxRankLeast | geneo/describe.py:59 | the termination measure is the least bound on the ranks in a level |
| Generations.NextGenRanksDrop | geneo/describe.py:59-77 | every parent pushed into the next level ranks below the highest entry of the current level |
| Generations.NextGenMeasureDrops | geneo/describe.py:59-81 | from a non-empty level the measure strictly drops, so the `while current_gen` loop terminates on an acyclic pedigree |
| Generations.Counts | geneo/describe.py:54-83 | the two returned lists always have equal length, and they are empty exactly when the proband list is empty |
| Generations.LevelPartition | geneo/describe.py:64-77 | every entry is exactly one of founder, semi-founder or both-parents, and the next level has 2 × both-parents + semi-founders entries |
| Generations.NoParentsIffAllFounders | geneo/describe.py:59-77 | a level produces no parents if and only if all its entries are founders, and then it has no semi-founder |
| Generations.AllBothParents | geneo/describe.py:64-77 | a level whose entries all have both parents counts no founder and no semi-founder, and the next level is twice as large |
| Generations.LevelSplits | geneo/describe.py:55-77 | no deduplication: counts and next level of a concatenated level are those of the two parts, added or concatenated in order |
| Generations.LevelStep | geneo/describe.py:81 | level g+1 is the next generation of level g |
| Generations.CountsByLevel | geneo/describe.py:59-81 | entry g of `vctF`/`vctDF` counts the founders/semi-founders of level g, every listed level is non-empty and the level after the last listed is empty |
| Generations.LevelSizes | geneo/describe.py:60-81 | at each listed level, founders + semi-founders ≤ the level's size, and the next level has 2 × (size − founders − semi-founders) + semi-founders entries |
| Generations.LastLevelAllFounders | geneo/describe.py:59-77 | the last founder count equals the size of the last level and the last semi-founder count is 0 |
| Generations.ScanLevel | geneo/describe.py:60-77 | the inner loop returns the founder and semi-founder counts and the next level of the scanned level, with the size relation and no 0 in the next level |
| Generations.GetGenerationalCounts | geneo/describe.py:54-83 | returns exactly the walk's counts: equal lengths, `([], [])` for no probands, entry g describing level g, all listed levels non-empty and the walk ending at an empty level; the inputs are values and are not modified |
| Generations.FatherOnlyExample | geneo/describe.py:54-83 | proband 1 with only a founder father 2 gives `([0, 1], [1, 0])` |
| Generations.RepeatedProbandExample | geneo/describe.py:55-69 | a founder listed twice as a proband gives `([2], [0])` |
| Generations.ThreeLevelWalk | geneo/describe.py:59-83 | a walk whose fourth level is empty returns, in order, the founder and semi-founder counts of its three levels |
| Generations.TwoLineagesExample | geneo/describe.py:54-83 | probands 1 and 8 with disjoint ancestries, closing at depths 2 and 1, give `([0, 2, 4], [0, 0, 0])` |
| Relabeling.ParentsRenamed | geneo/describe.py:65-77 | under a renaming that keeps 0, an individual stays a founder, semi-founder or neither, and pushes its renamed parents in the same order |
| Relabeling.LevelCorresponds | geneo/describe.py:60-77 | on a level where the second pedigree holds the renamed links of the first, the renamed level has the same founder and semi-founder counts, and its next level is the renamed next level |
| Relabeling.CountsCorrespond | geneo/describe.py:54-83 | if the correspondence holds on every level of the walk, the walk from the renamed probands returns the same two count lists |
| Relabeling.CountsRelabel | geneo/describe.py:54-83 | renaming every individual and parent link by a map that keeps 0 does not change the count lists |
| Relabeling.CountsUnderRelabel | geneo/describe.py:54-83 | the renamed pedigree, walked from the renamed probands, gives the original count lists |
| Relabeling.CountsReachableOnly | geneo/describe.py:54-83 | a pedigree that agrees with another on every level of the walk gives the same count lists, whatever it holds elsewhere |
| Moments.SumNormalised | geneo/describe.py:98 | weights whose N-fold multiples sum to N sum to one: dividing every level by N turns the lineage masses into a distribution |
| Moments.SpreadNonNegative | geneo/describe.py:112 | a weighted squared distance from any centre is non-negative |
| Moments.SpreadExpands | geneo/describe.py:112 | the spread around c is second moment − 2c × first moment + c² × total weight |
| Moments.VarianceIsSpread | geneo/describe.py:112 | `sum_sq - P**2` equals the reference variance (the spread around the mean) for a distribution |
| Moments.VarianceNonNegative | geneo/describe.py:112 | `sum_sq - P**2` is non-negative for a distribution |
| Variance.Pow2 | geneo/describe.py:98 | 2^g is at least 1 |
| Variance.LevelMass | geneo/describe.py:98-110 | the lineage mass of a level is `(F + DF/2) / 2^g` and never negative |
| Variance.Share | geneo/describe.py:98-110 | a level's share `(F + DF/2) / (N·2^g)` is non-negative |
| Variance.Shares | geneo/describe.py:97-110 | one non-negative share per level, entry g being level g's share |
| Variance.MassIsScaledShare | geneo/describe.py:98-110 | a level's lineage mass is N times its share |
| Variance.MassStep | geneo/describe.py:68-81 | closing a level's founders and semi-founders and passing the rest up as parents keeps the total mass |
| Variance.Telescope | geneo/describe.py:59-81 | after k levels, closed mass plus the open slots of level k (each worth 2^-k) equals the size of the first level |
| Variance.WalkSizeStep | geneo/describe.py:64-81 | twice a level's size is the next level's size + 2 × founders + semi-founders |
| Variance.WalkSizesFollow | geneo/describe.py:59-81 | that recurrence holds at every level of the walk |
| Variance.WalkSizesEnds | geneo/describe.py:55-59 | the walk starts with the N probands and ends with an empty level |
| Variance.MassIdentity | geneo/describe.py:64-110 | mass identity: the sum of (F_g + DF_g/2)/2^g over all levels is N |
| Variance.SharesSumToOne | geneo/describe.py:88-110 | for N > 0, the weights the loop uses form a probability distribution over depth |
| Variance.GenerationalVarianceIsSpread | geneo/describe.py:112 | for N > 0, `sum_sq - P**2` is the weighted squared distance of depth from its mean |
| Variance.GenerationalVarianceNonNegative | geneo/describe.py:88-112 | the variance is 0 for no probands and never negative |
| Variance.FatherOnlyVariance | geneo/describe.py:85-113 | proband 1 with a founder father only has variance 1/4 |
| Variance.RepeatedProbandVariance | geneo/describe.py:85-113 | a founder listed twice has variance 0 |
| Variance.TwoLineagesVariance | geneo/describe.py:85-113 | probands closing at depths 2 and 1 have variance 1/4, which is the population variance of the depths `[2, 1]` |
| Variance.GenerationalVarianceRelabel | geneo/describe.py:85-113 | renaming the individuals by a map that keeps 0 does not change the variance |
| Variance.GenerationalVarianceReachableOnly | geneo/describe.py:85-113 | the variance depends only on the ancestors the walk from the probands reaches |
| Variance.IndividualRowsNonNegative | geneo/describe.py:124-129 | every 'IND' row is indexed by its proband and holds a non-negative variance |
| Variance.SourceTerms | geneo/describe.py:103-110 | the founder term plus the half-weighted semi-founder term is the depth (or squared depth) times the level's share |
| Variance.FirstMomentStep | geneo/describe.py:103-109 | one loop pass adds exactly level g's term to the first moment |
| Variance.SecondMomentStep | geneo/describe.py:105-110 | one loop pass adds exactly level g's term to the second moment |
| Variance.AccumulateMoments | geneo/describe.py:94-110 | the loop leaves `P` equal to the mean depth and `sum_sq` equal to the mean squared depth of the share distribution; with N > 0 no weight is 0, so the `continue` never skips a level |
| Variance.Variance3V | geneo/describe.py:85-113 | returns 0.0 for no probands, otherwise the depth variance of the walk's counts; the result is never negative |
| Variance.PerIndividualVariances | geneo/describe.py:124-129 | row i pairs proband i with the variance of its own lineage, for every proband |
| Variance.MeanGenDepthVar | geneo/describe.py:115-129 | the type defaults to 'MEAN'; 'MEAN' gives the variance of the whole proband list, 'IND' the per-proband table and any other type no result |

## Left out

- Default proband resolution through the native engine (`pro=None`): the proband list is always an explicit parameter.
- The thin wrappers around the native engine (`noind`, `nomen`, `nowomen`, `depth`, `min`, `mean`, `max`, `meangendepth`, `nochildren`, `completeness`, `implex`, `occ`, `rec`, `findDistance`): they contain no logic of their own.
- `completenessVar` and `implexVar`: numpy sample variances over matrices the native engine produces.
- IEEE floating-point rounding: Python floats are exact reals here, so the model claims nothing about rounding error. For example, it does not model a slightly negative `sum_sq - P**2`.
- `branching`, from geneo/extract.py, is not part of this model.
- Variance.MeanGenDepthVar: in 'IND' the caller supplies each proband's restricted pedigree (`lineages[i]`). The model assumes that the default probands of that pedigree are exactly `[pro[i]]`.
- pandas DataFrame construction: the 'IND' table is a sequence of (proband, variance) pairs. A type other than 'MEAN' or 'IND' gives `NoReport`, where Python returns None.
- Lookups of an identifier that is not in the pedigree: a proband missing from the pedigree is excluded by the `AllIn(ped, pro)` precondition, and a missing parent by the `Closed` precondition. The error the native accessor would raise is not modelled.
- Pedigrees the walk handles but the preconditions exclude: `Closed` and `RankedBy` constrain the whole map, not only the probands' ancestry. A pedigree with a cycle or a dangling parent link outside that ancestry is excluded, although the Python walk terminates on it. The preconditions are stronger than the walk needs.
- Cyclic ancestries of the probands, on which the walk would not terminate, are excluded by the `RankedBy` precondition.
- The `Parents` record keeps only the two parent identifiers read at geneo/describe.py:65-66. The other fields of the native individual objects are not modelled.
- geneo/include/output.hpp declares file I/O only.
