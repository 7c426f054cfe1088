# libembedding: verified models of its metrics, kernels, caches and release scripts

A Dafny 4.11 model of the parts of libembedding whose correctness is an argument rather than
a reading of one function body. `dafny verify dfyconfig.toml` checks everything.

| module | models |
|---|---|
| `Ndcg`, `Ranking` | DCG and NDCG@k of the reranking benchmark: truncated rearrangement by prefix dominance and Abel summation |
| `Retrieval` | average precision, MRR and recall@k, all seen as functions of the positions of the relevant documents |
| `RerankerCompare`, `RerankerAgreement` | the C++ NDCG@10 and MRR, when the value stays in [0, 1], and when it agrees with the Python one |
| `CompositeScore` | the normalised score and final ranking of the benchmark suite, and which orders depend on the rest of the suite |
| `Similarity` | the cosine, dot product and distance loops: Cauchy-Schwarz, Minkowski, equal rankings on unit vectors |
| `Quantization` | min-max int8 quantization: monotone, tight error bound, projection |
| `SparseDot`, `Pruning`, `SparsePostprocess` | the two-pointer merge against three reference sums, threshold / top-k pruning, and the library's pruning and ordering |
| `WorkQueue` | the fetch-and-add worker pool over every interleaving, and the static split of queries |
| `Stamps`, `VersionSync`, `SyncedLines` | the version-stamp patterns, the rule table, `sync` over a working tree, and what each kind of line carries afterwards |
| `Diffs`, `ReportedLines`, `SyncBranch`, `SourceLines` | what counts as a substantive change, and the merge script: how every run ends and what it leaves behind, and the lines it reads and writes |
| `GgufUrl` | GGUF URL parsing in C++ and Python, and the resolver around it |
| `CacheCleanup` | model cache cleanup with byte and directory accounting |
| `ModelRegistry` | the variant lookup, the 128-byte buffer of its error message and what the message shows |
| `BatchLayout` | batch ranges, the flat result matrix and the counters of the embedders |
| `LruCache`, `Recency` | the embedding cache, embedding through it, and for which calls a larger capacity never hurts |
| `Options`, `Sequences`, `Reals`, `Sorting` | shared: optional values, slices and text positions, small facts about reals, Python's stable descending sort |

Floats are exact reals. The discount `1 / log2(i + 2)` is any strictly decreasing positive
sequence, the square root any function with `r >= 0` and `r * r == x`, the model any row-wise
function. Clocks, file existence, failing removals, diffs and merge results are parameters.

## Where the code falls short of what it says

Each of these is proved, together with the exact condition under which the code is right.

- The two-pointer sparse product is called exact, but it is so only on ascending ids, on either
  side (`SparseDot.MergeRightIffAscending`, `SparseDot.MergeRightIffDocumentAscends`); the library's default "dict" format orders by weight,
  and the merge then loses terms (`SparsePostprocess.DictOrderMergesWrong`).
- The comment at `sparse_postprocess.hpp:135-136` says a top-k vector stays ordered by weight
  even in index order. The code sorts it by index again (`SparsePostprocess.IndexOrderTopTwo`); the
  comment is right exactly when no term that can be kept is outweighed by one whose id is not
  smaller (`SparsePostprocess.IndexOrderDescendsIff`).
- `sync_version.py:213` tests `found and not found`, so write mode fails only when no rule matches
  any file (`VersionSync.Repository.Sync`), although lines 220-224 announce another failure.
- An empty list of substantive changes does not always mean that nothing is lost: changed lines
  that begin with `--` or `++` are taken for file headers, and a binary difference prints no
  lines at all (`Diffs.EmptyReportLosesNothingIff`, `Diffs.OverlookedChange`).
- `sync_branch.py` and `sync_version.py` read the version with different patterns. An earlier
  single-quoted or loosely spaced `version` line makes the whole tree follow the wrong version
  (`SyncBranch.StampsFollowRefIff`, `SyncBranch.EarlierVersionLineWins`).
- The `<repo>/<filename>` shorthand cuts at the first slash, so no `owner/name` repository can be
  written that way (`GgufUrl.ShorthandIff`).
- NDCG@10 in C++ can exceed 1 when a document is returned twice (`RerankerCompare.RepeatedResultExceedsOne`).
  It stays within 1 for every discount exactly when the first ten results hit no more often than
  there are positives (`RerankerCompare.NdcgAt10AtMostOneIff`), as distinct results do. It reads past
  the relevance vector exactly when that is shorter than the cut-off (`RerankerCompare.ComputeNdcgAt10`).
- The C++ value equals the Python one for every order std::sort may leave ties in exactly when
  documents of equal score and different relevance have ten documents above them
  (`RerankerAgreement.AgreesWithPythonIff`).
- The static split hands out queries that do not exist as soon as there are two more sessions than
  queries (`WorkQueue.SplitIsExactIff`).
- Freed bytes are counted before anything is removed, so they overstate a cleanup whose removals
  fail part-way (`CacheCleanup.BytesBalanceIff`).
- After a failed lookup the message can list the mode it says is missing: "none" for a model that is
  not in the registry at all (`ModelRegistry.UnknownModelShowsNone`), and "none" for a number outside
  the enumeration while an unquantized entry is shown; in no other case
  (`ModelRegistry.RequestedModeShownIff`). An entry is shown exactly when the list up to it fits
  (`ModelRegistry.EntryShownIff`), so a crowded list hides some (`ModelRegistry.CrowdedListHidesUnquantized`).
- The best file size of the suite starts at 999, so with larger files only, nobody gets the full
  cost share (`CompositeScore.CostNormalisedIff`).
- The composite score ranks two models differently in different suites (`CompositeScore.ThirdModelSwapsTwo`)
  unless one dominates the other or they agree in all three respects, and only then
  (`CompositeScore.OrderFixedIff`).
- A larger embedding cache can hit less often (`Recency.MoreCapacityFewerHits`). Over calls of at most
  n texts, more capacity never means fewer hits exactly when n <= 2 (`LruCache.CapacityNeverHurtsTextsIff`).
- Reranker cache keys collide across pairs that split the same text at different newlines
  (`LruCache.SharedKeyIff`).

## Model

| member | source | states |
|---|---|---|
| `Sorting.SortDescSorts` | benchmarks/reranking/bench_quality.py:38 | the sort used by all metrics is a permutation in descending order |
| `Sorting.SortDescStable` | benchmarks/reranking/bench_quality.py:52 | it is stable: sorting commutes with every filter, so ties keep their order |
| `Sorting.SortIsUnique` | benchmarks/bench_reranker_compare.cpp:196 | where equal keys mean equal elements, std::sort and Python's sort can only produce the same list |
| `Sorting.SameOrderSameSort` | benchmarks/image/bench_multimodal.py:106 | keys that compare alike sort alike, ties included |
| `Ranking.AbelGap` | benchmarks/reranking/bench_quality.py:29-32 | under prefix dominance the DCG gap is at least the plain gap times the last discount, strictly more after an earlier gap |
| `Ranking.EqualDiscountedEqualLists` | benchmarks/reranking/bench_quality.py:29-32 | under prefix dominance two DCG values agree exactly when the lists agree up to the cut |
| `Ranking.SortedDominates` | benchmarks/reranking/bench_quality.py:42 | the descending arrangement dominates every permutation, prefix by prefix |
| `Ndcg.ComputeDcg` | benchmarks/reranking/bench_quality.py:27-32 | the loop computes the discounted gain sum over the slice `[:k]`, negative k included |
| `Ndcg.ComputeNdcg` | benchmarks/reranking/bench_quality.py:35-47 | the result is the specified quotient and always in [0, 1] |
| `Ndcg.GainDoubles` | benchmarks/reranking/bench_quality.py:31 | the gain is 2^rel - 1: 0 for 0, and twice itself plus 1 for one more |
| `Ndcg.DcgIs` | benchmarks/reranking/bench_quality.py:27-32 | DCG@k place by place: one summand (2^rel - 1) d(i) more for one more place, and only the slice [:k] counts |
| `Ndcg.NdcgIsRatio` | benchmarks/reranking/bench_quality.py:35-47 | NDCG times the DCG of the descending relevances is the DCG of those in order of score; 0 when the former is 0 |
| `Ndcg.GainMonotone` | benchmarks/reranking/bench_quality.py:31 | the gain 2^rel - 1 is non-negative and strictly increasing |
| `Ndcg.IdealDominates` | benchmarks/reranking/bench_quality.py:37-42 | the score order never gathers more gain in any prefix than the ideal order |
| `Ndcg.DcgAtMostIdeal` | benchmarks/reranking/bench_quality.py:44-45 | DCG@k is at most the ideal one, with equality exactly when the first k relevances are the ideal ones |
| `Ndcg.DcgNonNegative` | benchmarks/reranking/bench_quality.py:27-32 | DCG@k is non-negative, and zero exactly when nothing relevant is within k |
| `Ndcg.NdcgInUnitInterval` | benchmarks/reranking/bench_quality.py:47 | NDCG lies in [0, 1] for every list and every k |
| `Ndcg.NdcgIsOneIff` | benchmarks/reranking/bench_quality.py:47 | NDCG is 1 exactly when the first k relevances are ideal and one of them is positive |
| `Ndcg.NdcgIsZeroIff` | benchmarks/reranking/bench_quality.py:47 | NDCG is 0 exactly when the first k documents are all irrelevant |
| `Ndcg.PromotionRaisesDcg` | benchmarks/reranking/bench_quality.py:30-31 | putting the more relevant of two documents first raises DCG@k, strictly within reach of k |
| `Retrieval.ComputeMap` | benchmarks/image/bench_multimodal.py:133-146 | the two passes compute average precision of the ranked relevance flags |
| `Retrieval.ApIs` | benchmarks/image/bench_multimodal.py:133-146 | average precision place by place: an irrelevant document adds nothing, the R-th relevant one at place n adds R / n to R times the average |
| `Retrieval.ComputeMrr` | benchmarks/image/bench_multimodal.py:124-130 | the result times the place of the first document that reaches the threshold is 1; it is 0 if none does |
| `Retrieval.RankedByScore` | benchmarks/image/bench_multimodal.py:126 | the documents are ranked by their score |
| `Retrieval.ComputeRecall` | benchmarks/image/bench_multimodal.py:101-108 | recall of the ranked relevance flags, counting the total before the sort |
| `Retrieval.RecallIs` | benchmarks/image/bench_multimodal.py:101-108 | that recall times the number of relevant documents is the number of them in the slice [:k] |
| `Retrieval.RelevantPermutes` | benchmarks/image/bench_multimodal.py:103-107 | counting relevant documents before or after the sort gives the same number |
| `Retrieval.PrecisionByPositions` | benchmarks/image/bench_multimodal.py:142-145 | the loop's sum is the sum of j / position over the relevant positions |
| `Retrieval.OutranksScoresHigher` | benchmarks/image/bench_multimodal.py:101-146 | a ranking ahead in every prefix is no worse in all three metrics; equal AP means the same ranking |
| `Retrieval.ApBetweenMrrAndOne` | benchmarks/image/bench_multimodal.py:124-146 | with R relevant documents AP lies in [MRR / R, 1] and is positive |
| `Retrieval.ApIsOneIff` | benchmarks/image/bench_multimodal.py:146 | AP is 1 exactly when the first R places are all relevant |
| `Retrieval.RelevantFirstIsBest` | benchmarks/image/bench_multimodal.py:101-146 | the relevant-first ranking maximises AP, MRR and recall@k |
| `Retrieval.PromotionNeverLowers` | benchmarks/image/bench_multimodal.py:101-146 | moving a relevant document past an irrelevant one raises AP and lowers neither MRR nor recall |
| `Retrieval.RecallOrdersIffOutranks` | benchmarks/reranking/bench_quality.py:59-68 | recall is at least as high for every k exactly when the ranking is ahead in every prefix |
| `RerankerCompare.ComputeNdcgAt10` | benchmarks/bench_reranker_compare.cpp:179-203 | the two loops compute the binary NDCG over the first ten results, bad indices counting as misses; they stay in bounds exactly when the cut-off does not exceed the relevance vector |
| `RerankerCompare.NdcgAt10IsRatio` | benchmarks/bench_reranker_compare.cpp:179-203 | NDCG@10 times the ideal sum is the sum over the first ten results, one point for each that names a document of positive relevance |
| `RerankerCompare.ValidResultsStayInBounds` | benchmarks/bench_reranker_compare.cpp:186-198 | distinct results that name judged documents never lead out of bounds |
| `RerankerCompare.ComputeMrr` | benchmarks/bench_reranker_compare.cpp:208-219 | the result times the place of the first result that names a document of positive relevance is 1; it is 0 if none does |
| `RerankerCompare.HitsDominated` | benchmarks/bench_reranker_compare.cpp:186-200 | with no more hits than positives no prefix collects more than the ideal order |
| `RerankerCompare.DistinctHitsFit` | benchmarks/bench_reranker_compare.cpp:186-192 | distinct results hit no more often than there are positives |
| `RerankerCompare.NdcgAt10Bounds` | benchmarks/bench_reranker_compare.cpp:179-203 | with no more hits than positives the value is in [0, 1], and 1 exactly when hits sit where the ideal order has them |
| `RerankerCompare.NdcgAt10AtMostOneIff` | benchmarks/bench_reranker_compare.cpp:179-203 | the value is at most 1 for every discount exactly when the hits within the limit are no more than the positives |
| `RerankerCompare.DistinctResultsInUnit` | benchmarks/bench_reranker_compare.cpp:179-203 | with distinct results it is in [0, 1] |
| `RerankerCompare.RepeatedResultExceedsOne` | benchmarks/bench_reranker_compare.cpp:186-192 | the only relevant document returned twice gives more than 1, for every discount |
| `RerankerCompare.PermutationCovers` | benchmarks/bench_reranker_compare.cpp:187-189 | n distinct indices below n are each of them once |
| `RerankerAgreement.AgreesWithPython` | benchmarks/bench_reranker_compare.cpp:179-203 | on 0/1 relevance and even ties every full ranking by score gets the Python NDCG with k = 10 |
| `RerankerAgreement.UnevenTiesDisagree` | benchmarks/bench_reranker_compare.cpp:179-203 | on uneven ties two full rankings of the same documents get different values |
| `RerankerAgreement.AgreesWithPythonIff` | benchmarks/bench_reranker_compare.cpp:179-203 | all full rankings get the Python value exactly when documents of equal score and different relevance have ten above them |
| `CompositeScore.BestIs` | benchmarks/benchmark_suite.cpp:268-273 | the running best values are attained maxima over 0 and an attained minimum under 999 |
| `CompositeScore.StdSort` | benchmarks/benchmark_suite.cpp:283-284 | the sort leaves a permutation with no two entries in the wrong order, NaN scores included |
| `CompositeScore.RankResults` | benchmarks/benchmark_suite.cpp:266-284 | scores in place and a descending permutation of all results |
| `CompositeScore.ScoreIs` | benchmarks/benchmark_suite.cpp:268-280 | half the share of the best quality, three tenths of the best throughput, one fifth of the smallest size or 999 |
| `CompositeScore.ScoredOrNot` | benchmarks/benchmark_suite.cpp:275-280 | all scores are numbers exactly when some model has quality and some has throughput; otherwise all are NaN |
| `CompositeScore.UnscoredRankings` | benchmarks/benchmark_suite.cpp:283-284 | with NaN scores every order of the models may come out |
| `CompositeScore.ScoreBounds` | benchmarks/benchmark_suite.cpp:275-280 | scores lie in (0, 1], and 1 takes the best value in all three respects |
| `CompositeScore.CostNormalisedIff` | benchmarks/benchmark_suite.cpp:268-278 | some model gets the full cost share exactly when some file takes at most 999 MB |
| `CompositeScore.DominatorRanksFirst` | benchmarks/benchmark_suite.cpp:275-284 | in every sorted outcome a model that dominates another comes before it |
| `CompositeScore.ThirdModelSwapsTwo` | benchmarks/benchmark_suite.cpp:268-280 | the score is relative: adding a third model can swap two others |
| `CompositeScore.CanWinIff` | benchmarks/benchmark_suite.cpp:268-280 | some suite scores one model above another exactly when it is better in some respect |
| `CompositeScore.OrderFixedIff` | benchmarks/benchmark_suite.cpp:268-280 | the order of two models is the same in every suite exactly when one dominates or they agree in all three respects |
| `Similarity.CosineSimilarity` | include/libembedding/similarity.h:46-56 | the three accumulators give the cosine of the two vectors, 0 for null, empty or zero input |
| `Similarity.DotProduct` | include/libembedding/similarity.h:58-65 | the loop computes the dot product |
| `Similarity.DotIs` | include/libembedding/similarity.h:58-65 | the dot product, component by component |
| `Similarity.CosineIs` | include/libembedding/similarity.h:46-56 | the cosine times the two roots is the dot product; 0 if a vector has no length |
| `Similarity.EuclideanDistance` | include/libembedding/similarity.h:67-75 | the loop computes the norm of the difference |
| `Similarity.DistanceIs` | include/libembedding/similarity.h:67-75 | the distance squared is the dot product of the difference with itself |
| `Similarity.SquareOfCombination` | include/libembedding/similarity.h:50-52 | \|a + s b\|^2 expands into the three accumulators |
| `Similarity.CauchySchwarz` | include/libembedding/similarity.h:46-56 | dot^2 <= norm_a * norm_b for all vectors of any dimension |
| `Similarity.CauchySchwarzEquality` | include/libembedding/similarity.h:46-56 | with equality exactly for vectors on a common line |
| `Similarity.CosineBounds` | include/libembedding/similarity.h:46-56 | the cosine is in [-1, 1], and 1 exactly for non-zero vectors of one direction |
| `Similarity.CosineSymmetric` | include/libembedding/similarity.h:46-56 | the cosine is symmetric |
| `Similarity.CosineScaleInvariant` | include/libembedding/similarity.h:46-56 | scaling either vector by a positive factor changes nothing |
| `Similarity.DistanceSquared` | include/libembedding/similarity.h:67-75 | distance^2 = \|a\|^2 + \|b\|^2 - 2 dot |
| `Similarity.DistanceIsMetric` | include/libembedding/similarity.h:67-75 | the distance is a metric |
| `Similarity.TriangleInequality` | include/libembedding/similarity.h:67-75 | Minkowski's inequality for the distance loop |
| `Similarity.UnitVectorOrder` | include/libembedding/similarity.h:46-75 | on unit vectors the cosine is the dot product and the distance orders the other way |
| `Similarity.UnitVectorsRankAlike` | include/libembedding/similarity.h:46-75 | all three produce the same ranking of unit vectors |
| `Quantization.QuantizeToInt8` | benchmarks/image/bench_vector_quantize.py:70-82 | every vector is quantized with its own minimum and maximum; an empty one makes the call fail |
| `Quantization.CodeIs` | benchmarks/image/bench_vector_quantize.py:80-88 | the code is (x - min) / (max - min) * 255 - 128 without its fraction, and decoding undoes that formula |
| `Quantization.QuantizeIs` | benchmarks/image/bench_vector_quantize.py:75-80 | a vector is coded between its own extremes, a constant one is 0 |
| `Quantization.CodeMonotone` | benchmarks/image/bench_vector_quantize.py:80 | codes stay in int8, keep the order, and hit -128 and 127 at the extremes |
| `Quantization.QuantizeMonotone` | benchmarks/image/bench_vector_quantize.py:75-80 | the same for a whole vector, constant ones included |
| `Quantization.RoundTripError` | benchmarks/image/bench_vector_quantize.py:80-88 | decoding lands less than (max - min) / 255 from the component |
| `Quantization.RoundTripErrorIsTight` | benchmarks/image/bench_vector_quantize.py:80-88 | no smaller fraction of a step would do, because the conversion truncates |
| `Quantization.QuantizeRoundTrip` | benchmarks/image/bench_vector_quantize.py:70-88 | the extremes and constant vectors come back exactly, the rest within a step |
| `Quantization.QuantizedDotError` | benchmarks/image/bench_vector_quantize.py:70-88 | a dot product with b moves by at most one step times the 1-norm of b |
| `Quantization.SlackIsNorm` | benchmarks/image/bench_vector_quantize.py:70-88 | the slack of that bound is the step times the 1-norm |
| `Quantization.QuantizeIsProjection` | benchmarks/image/bench_vector_quantize.py:70-88 | quantizing the decoded vector, with its own extremes, returns the same codes |
| `Quantization.IntCauchySchwarz` | benchmarks/image/bench_vector_quantize.py:101-108 | the integer accumulators obey Cauchy-Schwarz |
| `SparseDot.SparseScores` | benchmarks/sparse/bench_sparse_backend_comparison.py:257-284 | the merge loop ends, and on ascending ids every score is the nested double sum |
| `SparseDot.ScoreOne` | benchmarks/sparse/bench_sparse_backend_comparison.py:266-282 | the two-pointer loop for one document, whatever the order of the ids |
| `SparseDot.MergeIsNestedSum` | benchmarks/sparse/bench_sparse_similarity.py:54-57 | on ascending ids merge and nested loops agree |
| `SparseDot.MergeRightIffAscending` | benchmarks/sparse/bench_sparse_backend_comparison.py:258-263 | a query (distinct ids, no zero weights) is scored right against every ascending document exactly when its own ids ascend |
| `SparseDot.MergeSymmetric` | benchmarks/sparse/bench_sparse_backend_comparison.py:266-282 | the merge treats query and document alike, whatever the order of the ids |
| `SparseDot.MergeRightIffDocumentAscends` | benchmarks/sparse/bench_sparse_backend_comparison.py:258-263 | the same condition for the document, over all ascending queries |
| `SparseDot.MergeLosesWeightOrderedTerms` | benchmarks/sparse/bench_sparse_backend_comparison.py:272-282 | two weight-ordered vectors with the same terms are scored 2 instead of 4 |
| `SparseDot.NestedSumIsDictSum` | benchmarks/sparse/bench_sparse_similarity.py:52-59 | nested loops and dictionary lookup agree on distinct query ids |
| `SparseDot.NestedSumIsDense` | include/libembedding/similarity.h:58-65 | both equal the dense dot product over the vocabulary |
| `SparseDot.AllFormsAgree` | benchmarks/sparse/bench_sparse_similarity.py:50-60 | on ascending ids all four forms agree |
| `Pruning.PruneCorpus` | benchmarks/sparse/bench_sparse_autotune.py:29-45 | each vector is filtered, sorted and sliced, a negative top_k counting from the end; its size is 8 bytes per kept term |
| `Pruning.PruneOne` | benchmarks/sparse/bench_sparse_autotune.py:33-37 | the loop, the sort and the slice for one vector |
| `Pruning.PruneKeepsHeaviest` | benchmarks/sparse/bench_sparse_autotune.py:33-37 | exactly min(top_k, survivors) terms stay, no dropped term outweighs a kept one, nothing else is lost |
| `Pruning.PruneIs` | benchmarks/sparse/bench_sparse_autotune.py:33-37 | the same by absolute weight: heavy terms only, the heaviest first, as many as the slice of all heavy ones has, and none heavier left out |
| `Pruning.PruneAgain` | benchmarks/sparse/bench_sparse_autotune.py:33-37 | pruning a pruned vector, for any two top_k: the larger threshold, then the second slice of what the first left |
| `Pruning.PruneTwice` | benchmarks/sparse/bench_sparse_autotune.py:33-37 | with non-negative top_k that is pruning once with the larger threshold and the smaller top_k |
| `Pruning.ScoreSplits` | benchmarks/sparse/bench_sparse_autotune.py:33-37 | the full score is the kept score plus the dropped score, for every query |
| `Pruning.PruningLoss` | benchmarks/sparse/bench_sparse_autotune.py:33-37 | the score changes by at most the cutoff weight times the query mass on dropped ids |
| `SparsePostprocess.ProducesHeaviest` | include/libembedding/detail/sparse_postprocess.hpp:138-212 | whatever unstable sorts do with ties: the right number of heaviest survivors, in the requested order |
| `SparsePostprocess.SurvivorsAre` | include/libembedding/detail/sparse_postprocess.hpp:140-155 | a positive minimum weight takes away exactly the lighter terms |
| `SparsePostprocess.ProducesOnly` | include/libembedding/detail/sparse_postprocess.hpp:138-212 | size, choice and order of every possible output, by weight and id |
| `SparsePostprocess.IndexOrderDescendsIff` | include/libembedding/detail/sparse_postprocess.hpp:135-195 | index-ordered outputs are all weight-descending exactly when no keepable survivor is outweighed by one whose id is not smaller |
| `SparsePostprocess.IndexOrderTopTwo` | include/libembedding/detail/sparse_postprocess.hpp:135-195 | a top-2 vector that comes out with the lighter term first |
| `SparsePostprocess.IndexOrderMergesRight` | include/libembedding/detail/sparse_postprocess.hpp:182-195 | two index-ordered outputs are merged to their true dot product |
| `SparsePostprocess.DictOrderMergesWrong` | include/libembedding/detail/sparse_postprocess.hpp:196-211 | two default outputs that the merge scores wrong |
| `WorkQueue.StepKeepsInv` | docs/archive/benchmarks/baseline_bench.cpp:100-109 | every atomic step of a worker, and the join, keeps the invariant |
| `WorkQueue.StepCountsDown` | docs/archive/benchmarks/baseline_bench.cpp:97-110 | every step lowers the remaining work by exactly one |
| `WorkQueue.JoinPoint` | docs/archive/benchmarks/baseline_bench.cpp:108-109 | at the join every text has been embedded once more and the counter is total + sessions |
| `WorkQueue.NeverStuck` | docs/archive/benchmarks/baseline_bench.cpp:97-110 | an open round always has a possible step |
| `WorkQueue.RunsKeepInv` | docs/archive/benchmarks/baseline_bench.cpp:97-110 | every reachable state satisfies the invariant; steps taken and work left add up |
| `WorkQueue.AnyInterleavingIsSafe` | docs/archive/benchmarks/baseline_bench.cpp:97-110 | no out-of-range embed, no text held twice, none more than one round ahead, counter bounded |
| `WorkQueue.EveryRunEmbedsEachTextOncePerRound` | docs/archive/benchmarks/baseline_bench.cpp:94-110 | every run ends after the same number of steps, with each text embedded exactly once per round |
| `WorkQueue.RoundsCostIs` | docs/archive/benchmarks/baseline_bench.cpp:94-110 | that number is rounds * (2 total + 2 sessions + 1) |
| `WorkQueue.RunPool` | benchmarks/benchmark_suite.cpp:231-243 | under an arbitrary scheduler the pool embeds each text once per round, if there is a session at all |
| `WorkQueue.SplitIsExactIff` | benchmarks/bench_reranker_compare.cpp:325-342 | the slices are in bounds, disjoint and complete exactly when sessions <= queries + 1 |
| `WorkQueue.SliceSizes` | benchmarks/bench_reranker_compare.cpp:325-342 | with enough queries every session but the last gets queries / sessions of them, slice behind slice, and the last one the rest |
| `Stamps.RewrittenLineMatches` | scripts/sync_version.py:83-96 | a rewritten line is matched again with the same prefix and suffix |
| `Stamps.NoNewMarker` | scripts/sync_version.py:129 | rewriting `(vX.Y.Z)` markers creates no marker where there was none |
| `Stamps.RewriteMarkersAbsorbs` | scripts/sync_version.py:129 | rewriting markers to v and then to w is rewriting to w |
| `Stamps.RewriteLineKeepsNonDigits` | scripts/sync_version.py:102-115 | a rewritten stamp line changes in digits only |
| `Stamps.RewriteMarkersKeepsNonDigits` | scripts/sync_version.py:129 | rewritten markers change in digits only |
| `Stamps.VersionAtText` | scripts/sync_version.py:64 | reading a version back from its own text gives that version |
| `VersionSync.RuleAbsorbs` | scripts/sync_version.py:83-96 | the last version applied by a rule wins |
| `VersionSync.RulesCommute` | scripts/sync_version.py:118-138 | any two rules of the table commute on every line, for all versions |
| `VersionSync.SyncLineAbsorbs` | scripts/sync_version.py:192-212 | all the rules of one file, config.h included: syncing to v and then w is syncing to w |
| `VersionSync.SyncLineSettles` | scripts/sync_version.py:199-207 | after a sync no rule of the file has anything left to change |
| `VersionSync.SyncLineKeepsNonDigits` | scripts/sync_version.py:192-212 | a sync changes nothing but digits |
| `VersionSync.InSyncIffNothingStale` | scripts/sync_version.py:199-207 | a file passes the rule-by-rule check exactly when the whole sync is a no-op on it |
| `VersionSync.SyncedTreeAbsorbs` | scripts/sync_version.py:182-232 | sync(w) after sync(v) leaves the tree that sync(w) alone leaves |
| `VersionSync.SyncedTreeIsInSync` | scripts/sync_version.py:182-232 | after a sync the check succeeds; a tree passes it exactly when a sync would change nothing |
| `VersionSync.Repository.ApplyRule` | scripts/sync_version.py:193-214 | one rule over its files, in any order: the new tree, staleness, and as change count the number of files that come out different |
| `VersionSync.Repository.Pass` | scripts/sync_version.py:196-212 | the loop over the files, for any edit: the edited tree and the number of files edited |
| `VersionSync.Repository.SyncRules` | scripts/sync_version.py:192-214 | the loop over the rules: all applied in turn, or in check mode none, and the rewrites counted |
| `VersionSync.RewritesIff` | scripts/sync_version.py:192-232 | a sync rewrites something exactly when the tree is out of sync, and exactly then it changes the tree |
| `VersionSync.Repository.Sync` | scripts/sync_version.py:182-232 | exit code and tree in both modes, and as change count the number of rule and file pairs rewritten; check mode fails exactly when some file is stale and writes nothing |
| `SyncedLines.SyncedMacros` | scripts/sync_version.py:75-115 | in config.h the MAJOR, MINOR and PATCH macros come out with the three numbers of the version, whatever blanks and digits they had |
| `SyncedLines.SyncedHeader` | scripts/sync_version.py:118-123 | in every header `* Version: X.Y.Z` comes out with the version |
| `SyncedLines.SyncedPython` | scripts/sync_version.py:124-128 | in every module of the package `Version: X.Y.Z` does |
| `SyncedLines.SyncedAgents` | scripts/sync_version.py:133-137 | and so does the line of AGENTS.md |
| `SyncedLines.SyncedMarker` | scripts/sync_version.py:129 | in _cdefs.h every `(vX.Y.Z)` does, wherever it stands |
| `SyncedLines.UnmarkedStays` | scripts/sync_version.py:129 | a character there that does not begin such a marker stays |
| `SyncedLines.OnlyStampsChange` | scripts/sync_version.py:118-138 | a line that a sync changes has one of these forms, in a file of that kind |
| `SyncedLines.SyncedFiles` | scripts/sync_version.py:192-212 | the synced tree has the same files with as many lines, each synced by itself |
| `SyncedLines.ManagedFiles` | scripts/sync_version.py:49-62 | which files the header, Python, marker and AGENTS rules manage |
| `SyncedLines.AnyManagedIff` | scripts/sync_version.py:172-186 | some rule matches a file exactly when the tree has a file of one of these kinds |
| `Diffs.StripKeepsStampLike` | scripts/sync_branch.py:60-64 | stripping blanks does not affect whether a line is stamp-like |
| `Diffs.SubstantiveChanges` | scripts/sync_branch.py:103-118 | the loop collects exactly the reported lines of the diff |
| `ReportedLines.SubstantiveIff` | scripts/sync_branch.py:55-64 | a line counts exactly when it is not blank and spells no stamp: the macro name, the word version with X.Y.Z behind it, or `(vX.Y.Z)` |
| `ReportedLines.ReportOfEdit` | scripts/sync_branch.py:103-118 | the report of one edit: an inserted or deleted line of that kind with its sign, unless it begins with `++` or `--` behind it |
| `ReportedLines.ReportOfParts` | scripts/sync_branch.py:103-118 | the report of a diff goes edit by edit and in order, and a binary difference has none |
| `Diffs.EmptyReportLosesNothingIff` | scripts/sync_branch.py:103-118 | with an empty report both sides agree on all substantive lines exactly when no `++` / `--` line changed |
| `Diffs.OverlookedChange` | scripts/sync_branch.py:111-113 | concrete changes, and every binary one, that are not reported |
| `SyncBranch.PartitionConflicts` | scripts/sync_branch.py:121-134 | a path is listed as blocking, with its lines, exactly when it has substantive changes, and as resolvable otherwise |
| `SyncBranch.Checkout.TakeSides` | scripts/sync_branch.py:276-284 | the tree after one --ours checkout of all other paths and --theirs of the generated ones, or where a missing side stopped it |
| `SyncBranch.SidesSettle` | scripts/sync_branch.py:276-284 | that succeeds exactly when no wanted side is missing, and then every conflict carries its side and nothing else changed |
| `SyncBranch.Checkout.StampSource` | scripts/sync_branch.py:189-201 | one source is stamped, or reported missing with the tree unchanged |
| `SyncBranch.Checkout.StampMachineSources` | scripts/sync_branch.py:156-201 | stamps the sources in turn up to the first without its line, and succeeds exactly when there is none such |
| `SourceLines.SourceLineStamped` | scripts/sync_branch.py:172-201 | the three files and their lines: the first line of the expected form gets the version, and no other line changes |
| `SourceLines.CanonicalIs` | scripts/sync_branch.py:86-95 | the version of a ref is what the first line `version = "..."` quotes |
| `SyncBranch.Checkout.SyncStamps` | scripts/sync_branch.py:295 | the sync with the version read back; fails, changing nothing, exactly when it cannot be read or no file is managed |
| `SyncBranch.Checkout.Publish` | scripts/sync_branch.py:295-308 | sync, generator, marker search and final check: the exact tree and success, in which the final check has no say |
| `SyncBranch.FinalCheckPasses` | scripts/sync_branch.py:307 | after a successful sync and generator run the final --check always succeeds |
| `SyncBranch.Checkout.Conclude` | scripts/sync_branch.py:290-322 | from settled conflicts to a commit, an empty merge or a failure, with the exact tree and merge state of each |
| `SyncBranch.Checkout.Integrate` | scripts/sync_branch.py:213-327 | when each outcome occurs and what it leaves behind, in terms of the inputs: a non-generated conflict with reported lines aborts and restores our tree, a dry run never commits; only a commit adds to the history, and it is sound |
| `SyncBranch.EndIs` | scripts/sync_branch.py:213-327 | the same conditions for the staged description of the run |
| `SyncBranch.CommittedOthers` | scripts/sync_branch.py:276-322 | a committed tree has exactly the merged and the conflicting files beside the generated ones, conflicts on our side, all synced |
| `SyncBranch.RegeneratedAre` | scripts/sync_branch.py:298-301 | the generator's two texts go into their two files, and nothing else changes |
| `SyncBranch.RunStopsIff` | scripts/sync_branch.py:276-313 | a begun merge without blocking conflicts fails exactly for a deleted side, a machine source without its line, an unreadable version, a failing generator or a marker left over |
| `SyncBranch.SyncedIff` | scripts/sync_branch.py:294-295 | once the sources are stamped, the sync fails exactly when no version can be read back: config.h is always managed |
| `SyncBranch.PublishedVersionReadable` | scripts/sync_branch.py:294-295 | and a published X.Y.Z can always be read back |
| `SyncBranch.MarkersLeftIff` | scripts/sync_branch.py:303-305 | the marker search depends only on the settled files and the generated ones: stamping and syncing leave and remove no marker |
| `SourceLines.ConflictMarkersIff` | scripts/sync_branch.py:137-153 | the search finds seven < or > at the beginning of a line, alone or before a space, outside third_party |
| `SyncBranch.SyncKeepsMarkerLines` | scripts/sync_branch.py:137-153 | under any number of rules a line is a conflict marker exactly when it was one |
| `SyncBranch.CommittedSoundly` | scripts/sync_branch.py:290-322 | the tree of every committing run is sound |
| `SyncBranch.RewrittenLinesAreStampLike` | scripts/sync_version.py:118-138 | every line a rule rewrites is stamp-like before and after |
| `SyncBranch.SyncKeepsSignificant` | scripts/sync_branch.py:295 | a sync leaves the substantive lines of every file in place |
| `SyncBranch.MachineStampedKeepsSignificant` | scripts/sync_branch.py:172-201 | so does stamping the machine sources, up to the version line of pyproject.toml |
| `SyncBranch.CommitBuiltSoundly` | scripts/sync_branch.py:290-322 | the pipeline's steps add up to a sound commit |
| `SyncBranch.CommittedMergeLosesNothingIff` | scripts/sync_branch.py:103-134 | a committed resolution keeps our substantive lines, and the incoming side had changed none exactly when none was overlooked |
| `SyncBranch.StampsFollowRefIff` | scripts/sync_version.py:160-169 | the version read back is the stamped one exactly when no earlier line announces another |
| `SourceLines.LooseIff` | scripts/sync_version.py:160-169 | which lines sync_version.py reads a version from, and which version |
| `SourceLines.ReadBackIs` | scripts/sync_version.py:160-169 | it reads the first such line |
| `SyncBranch.CommittedStampsFollowRefIff` | scripts/sync_branch.py:290-308 | the whole committed tree carries the version of the ref exactly under that condition |
| `SyncBranch.EarlierVersionLineWins` | scripts/sync_version.py:163-165 | an earlier single-quoted version line makes the tree follow the wrong version |
| `GgufUrl.FindIsFirst` | include/libembedding/downloader.h:277-283 | the search returns the first occurrence at or after a position, and none only if there is none |
| `GgufUrl.ExtractIff` | include/libembedding/downloader.h:274-289 | a URL is split behind its first host and at the first marker after that |
| `GgufUrl.PythonAgreesWithCpp` | benchmarks/sparse/bench_sparse_backend_comparison.py:317-322 | the Python split succeeds on exactly the URLs that C++ accepts, with the same result |
| `GgufUrl.MarkerOverlap` | include/libembedding/downloader.h:283 | two occurrences of the marker share at most their outer slash |
| `GgufUrl.BuildThenExtractIff` | include/libembedding/downloader.h:276-289 | parsing a built URL returns (repo, filename) exactly when the marker is not already in repo + "/" |
| `GgufUrl.ResolveBuiltUrlIff` | include/libembedding/downloader.h:252-332 | the whole resolver inverts URL building under the same condition |
| `GgufUrl.ResolveIs` | include/libembedding/downloader.h:252-332 | every case: an existing .gguf file, then a URL, then the registry, then the shorthand cut at its first slash, else an error |
| `GgufUrl.ShorthandIff` | include/libembedding/downloader.h:313-324 | the shorthand comes back as written exactly when the repository has no slash |
| `CacheCleanup.KeepDirs` | include/libembedding/downloader.h:365-370 | the keep set holds exactly the directory names of the models to keep |
| `CacheCleanup.ModelCache.Scan` | include/libembedding/downloader.h:375-391 | finds exactly the unkept model directories and their bytes, in any visiting order, unless the cache or one of them cannot be read |
| `CacheCleanup.ModelCache.RemoveAll` | include/libembedding/downloader.h:405-410 | removes exactly those, counting the removals without error |
| `CacheCleanup.ModelCache.Cleanup` | include/libembedding/downloader.h:342-421 | status, counts, bytes and the new directory in every mode; an I/O error exactly when the measuring throws, with zero counts and nothing removed |
| `CacheCleanup.OthersUntouched` | include/libembedding/downloader.h:372-380 | non-model entries and kept models stay as they were |
| `CacheCleanup.SurvivorsAre` | include/libembedding/downloader.h:365-410 | after a full cleanup a directory models--... is there exactly when a kept model has that name with its slashes as dashes |
| `CacheCleanup.BytesBalanceIff` | include/libembedding/downloader.h:381-413 | bytes before = bytes after + freed exactly when failed removals leave no bytes |
| `CacheCleanup.DryRunCountIff` | include/libembedding/downloader.h:393-410 | dry run and real run report the same count exactly when no removal fails |
| `CacheCleanup.SecondCleanupFindsNothing` | include/libembedding/downloader.h:342-414 | after a full cleanup a second one deletes and frees nothing |
| `CacheCleanup.SecondCleanupSeesLeftovers` | include/libembedding/downloader.h:405-410 | after failures it sees exactly what was left |
| `CacheCleanup.SharedDirectoryIff` | include/libembedding/detail/downloader_impl.hpp:88-94 | two codes share a directory exactly when they differ in `/` against `-` only |
| `ModelRegistry.FindVariant` | include/libembedding/model_registry.h:494-524 | the first matching entry, or -1 with the message: the modes that fit, or "none" for an empty list, cut at 319 characters |
| `ModelRegistry.ListModes` | include/libembedding/model_registry.h:503-515 | the buffer loop writes the join of the modes that fit |
| `ModelRegistry.ModesAre` | include/libembedding/model_registry.h:473-506 | the modes of a model, entry by entry, by their names |
| `ModelRegistry.MessageIs` | include/libembedding/model_registry.h:509-521 | the wording of the message, its separators and its cut |
| `ModelRegistry.Strlen` | include/libembedding/model_registry.h:507 | the scan for the terminator finds the length of the text held |
| `ModelRegistry.Memcpy` | include/libembedding/model_registry.h:513 | the copy overwrites exactly its range of the buffer |
| `ModelRegistry.TryAppend` | include/libembedding/model_registry.h:507-514 | a mode is appended exactly when it fits; the buffer stays terminated and in bounds |
| `ModelRegistry.AppendMode` | include/libembedding/model_registry.h:509-514 | separator, mode and terminator are written within the 128 bytes |
| `ModelRegistry.WrittenIsMaximal` | include/libembedding/model_registry.h:504-508 | every listed mode fitted, and the first unlisted one did not |
| `ModelRegistry.AllShownIff` | include/libembedding/model_registry.h:503-508 | all modes are shown exactly when their list takes at most 126 characters |
| `ModelRegistry.EntryShownIff` | include/libembedding/model_registry.h:503-515 | an entry's mode is in the message exactly when the list up to it takes at most 126 characters |
| `ModelRegistry.RequestedModeShownIff` | include/libembedding/model_registry.h:473-521 | the message lists the missing mode exactly as "none" for an unknown model, or for a number outside the enumeration when an unquantized entry is shown |
| `ModelRegistry.UnknownModelShowsNone` | include/libembedding/model_registry.h:517-521 | an unknown model, asked for unquantized, has no 'none' variant (available: none) |
| `ModelRegistry.CrowdedListHidesUnquantized` | include/libembedding/model_registry.h:503-515 | after fourteen dynamic entries an unquantized one is no longer shown |
| `ModelRegistry.MessageWholeIff` | include/libembedding/model_registry.h:517-521 | the message is whole exactly when name, mode and list take at most 279 characters |
| `BatchLayout.BatchesPartition` | include/libembedding/detail/batch.hpp:30-41 | the ranges are non-empty, consecutive and cover [0, total) |
| `BatchLayout.BatchSizes` | include/libembedding/detail/batch.hpp:30-41 | every batch but the last has the wanted size, and there are as many as that takes |
| `BatchLayout.NextBatch` | include/libembedding/image_embedding.h:242-246 | the running output offset is always the start of the next batch |
| `BatchLayout.Embedder.RunBatch` | include/libembedding/image_embedding.h:250-277 | a batch yields the rows of its items in order, or fails with any one of them |
| `BatchLayout.CopyRows` | include/libembedding/image_embedding.h:279-280 | the copy appends the rows behind what is there and keeps the rest of the prefix |
| `BatchLayout.FlatConcat` | include/libembedding/image_embedding.h:279-281 | encoding batch by batch is encoding all at once |
| `BatchLayout.RowAt` | include/libembedding/image_embedding.h:279-281 | row i sits at offset i * dim and is the encoding of item i |
| `BatchLayout.Embedder.FillBatch` | include/libembedding/image_embedding.h:315-345 | one batch extends the filled prefix by exactly its rows |
| `BatchLayout.Embedder.FillRows` | include/libembedding/sparse_text_embedding.h:336-396 | the batch loop writes the whole matrix in input order, for any batch size |
| `BatchLayout.Embedder.EmbedBytes` | include/libembedding/image_embedding.h:292-360 | status, data and counters; a failing call changes no counter |
| `BatchLayout.Embedder.EmbedFiles` | include/libembedding/image_embedding.h:223-290 | the same layout without counters |
| `BatchLayout.EmbedMany` | include/libembedding/image_embedding.h:349-352 | over any sequence of successful calls the counters are the sums over the calls |
| `LruCache.Cache.Touch` | include/libembedding/detail/embedding_cache_impl.hpp:146-160 | a live entry moves to the front, an expired one is dropped, nothing else changes |
| `LruCache.Cache.GetCopy` | include/libembedding/detail/embedding_cache_impl.hpp:71-77 | the cached vector of a live, non-empty entry, with the same effect on recency |
| `LruCache.Cache.EvictLast` | include/libembedding/detail/embedding_cache_impl.hpp:103-107 | the least recently used entry goes, and no other |
| `LruCache.Cache.Refresh` | include/libembedding/detail/embedding_cache_impl.hpp:92-101 | a stored key gets the new entry and moves to the front |
| `LruCache.Cache.Add` | include/libembedding/detail/embedding_cache_impl.hpp:109-111 | a new key goes to the front of a list that has room |
| `LruCache.Cache.Put` | include/libembedding/detail/embedding_cache_impl.hpp:79-112 | the new entry is in front, at most one other makes room, capacity 0 stores nothing |
| `LruCache.PutThenGet` | include/libembedding/detail/embedding_cache_impl.hpp:71-160 | a stored vector is found again until its time is up, for ever without a set time, never with capacity 0 |
| `LruCache.CachedEmbedder.LookUp` | include/libembedding/detail/text_embedding_impl.hpp:180-188 | a hit is the model's own vector; it is counted as a hit and moves to the front |
| `LruCache.CachedEmbedder.LookUpAll` | include/libembedding/detail/text_embedding_impl.hpp:179-189 | hits are copied to their rows, misses listed in order, both counted |
| `LruCache.CachedEmbedder.FillMisses` | include/libembedding/detail/text_embedding_impl.hpp:191-203 | every missing row is filled and stored in order |
| `LruCache.CachedEmbedder.Embed` | include/libembedding/detail/text_embedding_impl.hpp:157-221 | the cache is invisible in a successful result, whatever its capacity, expiry and history; a failing model run stores nothing and moves no counter but hits and misses |
| `LruCache.CachedEmbedder.BatchesForIs` | include/libembedding/detail/text_embedding_impl.hpp:204-212 | the batches counted for a call: none without misses, one for llama, else as many as the misses fill |
| `Recency.WithoutIs` | include/libembedding/detail/embedding_cache_impl.hpp:146-160 | taking a key out of the list keeps the order of the others |
| `Recency.InsertedIs` | include/libembedding/detail/embedding_cache_impl.hpp:79-112 | a stored key comes to the front, the others keep their order, and of a full list the last one goes |
| `Recency.AccessInclusion` | include/libembedding/detail/embedding_cache_impl.hpp:79-112 | one access keeps the smaller cache the top part of the larger one |
| `Recency.OneByOneInclusion` | include/libembedding/detail/text_embedding_impl.hpp:171-204 | over calls of one text the smaller cache always is that top part |
| `Recency.NestedBatch` | include/libembedding/detail/text_embedding_impl.hpp:171-204 | a call of at most two texts keeps the first k keys of the smaller cache among the first k + 1 of the larger |
| `Recency.MoreCapacityMoreHits` | include/libembedding/detail/text_embedding_impl.hpp:171-204 | calls of at most two texts, without expiry: more capacity never means fewer hits |
| `Recency.MoreCapacityFewerHits` | include/libembedding/detail/text_embedding_impl.hpp:171-204 | four calls, one of them of three texts, in which capacity 1 hits twice and capacity 2 once |
| `Recency.CapacityNeverHurtsIff` | include/libembedding/detail/text_embedding_impl.hpp:171-204 | over calls of at most n keys more capacity never means fewer hits exactly when n <= 2 |
| `LruCache.CapacityNeverHurtsTextsIff` | include/libembedding/detail/text_embedding_impl.hpp:171-204 | the same for texts as keys |
| `LruCache.SharedKeyIff` | include/libembedding/detail/reranker_impl.hpp:316 | two pairs share a key exactly when one query continues over a newline into the other's document |
| `LruCache.NewlineFreeKeysInjective` | include/libembedding/detail/reranker_impl.hpp:316 | queries without a newline never share a key |

## Left out

- Ndcg.ComputeNdcg: no IEEE rounding, NaN scores or the numeric value of log2; reals and an abstract discount stand in, here and in all other numeric modules.
- RerankerCompare.ComputeNdcgAt10: what the read past the end of a short relevance vector yields is undefined in C++ and not modelled further.
- SparsePostprocess.ProducesHeaviest: the function is a relation on values, because its sorts are not stable; the vectors it moves in and out of are not modelled.
- VersionSync.Repository.Sync: patterns are read within one line; `\s` does not span newlines, and digits and blanks are the ASCII ones.
- Diffs.SubstantiveChanges: a diff is an edit script plus its printed signs; diff lines holding a form feed or another character at which Python splits lines are not modelled.
- SyncBranch.Checkout.Integrate: git is given by its trees (base, ours, theirs, merged) and its list of conflicts; its exit codes beyond those, the files git ignores, the index apart from the working tree, what a failing generator may have written, and I/O errors are not modelled.
- SyncBranch.Checkout.StampMachineSources: patterns are read within one line; the quoted text of the original's could run over several.
- SyncBranch.CommittedMergeLosesNothingIff: speaks of text files; a binary difference is always taken to be resolvable, which `Diffs.OverlookedChange` states.
- GgufUrl.ResolveBuiltUrlIff: downloading, the file system and the registry are parameters; `tolower` is the one of ASCII.
- CacheCleanup.ModelCache.Cleanup: symbolic links and concurrent writers are not modelled; byte counts are unbounded; the outputs that an invalid argument leaves unwritten are zero here.
- BatchLayout.Embedder.FillRows: failing allocations and a session whose output width differs from the declared one are not modelled; inference is a function of the single item.
- LruCache.CachedEmbedder.Embed: one thread; the vector overload of `get_copy` copies after it has released the mutex, and failing allocations are not modelled.
- Recency.MoreCapacityMoreHits: without expiry times.
- WorkQueue.RunPool: an embedding that throws inside a worker is not modelled; memory ordering is not either, since only the counter is shared.
- `lembed_cleanup_model_cache_except` and the static query and free functions are one-line wrappers.
- `lembed__resolve_by_code_or_name`, `recall_at_k`, the NDCG copies of the image benchmarks and the Python cosine functions repeat what is modelled.
- Tokenizer, session pools, scheduler, autotuner, quantization chooser, pooling and image decoding are not part of this model.
- ONNX Runtime, llama.cpp, downloads, timing, reports and argument parsing are not part of this model.
