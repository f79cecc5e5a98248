# Recommender and similarity routines, in Dafny

A model of the set-similarity and recommendation code of a data-science
coursework repository, with proofs about it:

- **Exact Jaccard** similarity of two movie sets, the all-pairs table keyed
  `"u1_u2"`, sorted and thresholded, and the "most similar pair" lookup
  (`jaccard_similarity.py`).
- **MinHash signatures**: the in-place minimum of `(a*x + b) % R` per hash
  function, starting from the sentinel `R+1` (`lsh_similarity.py` and its
  identical copy in `min_hash_similarity.py`); the signature-agreement
  **estimate**, its all-pairs table and the **false positive / negative**
  count against the exact table (`min_hash_similarity.py`).
- **Banded LSH**: one bucket dict per band, the scan of all pairs i < j
  (matrix rows by position, movie lists looked up by the ids i+1 and j+1)
  with its early exit, and the `true_pairs` / `similarity_evaluations`
  counters (`lsh_similarity.py`).
- **Recommenders**: rating discretisation, the LSH index filter, neighbour
  retrieval, vote accumulation and the top-N selection of unrated jokes
  (`item_based_recommendations.py`), the top-N selection of
  `matrix_factorization_recommendations.py`, the top-k cut of
  `recommend_movies`, and the **MRR** and **AP** evaluations of both
  recommenders (`content_based_recommendations.py`).
- **Review analysis**: word and document frequencies of review nouns and
  the "only in one list" top-k words (`frequencies.py`), and the literal
  string transforms of the review cleaner (`preprocessing.py`).

Python dicts whose iteration order matters are sequences of items
(`OrderedDicts`, `UserPairs.Entry`); dicts whose order does not matter are
Dafny maps. Ratios are exact `real` values. Errors the code raises
(division by zero, a missing key, an index past the end) are `Failure`
values of `Results.Result`. The exceptions are the few assumptions listed
under "## Left out" (ids 1..n for the MinHash estimate, R > 0 for the
hash), which are preconditions. `Ranking.SortDesc` is a
stable insertion sort standing for Python's `sorted`.

The modules: `Results`, `Strings` (Python `str` methods used by the code),
`Ranking`, `UserPairs`, `JaccardSimilarity`, `MinHashSignatures`,
`MinHashSimilarity`, `LshSimilarity`, `RankingMetrics`, `Selection`,
`OrderedDicts`, `MatrixFactorizationRecommendations`,
`ContentBasedRecommendations`, `ItemBasedRecommendations`, `Frequencies`,
`Preprocessing`.

## Model

| member | source | states |
|---|---|---|
| JaccardSimilarity.Jaccard | q5-data_mining/computing_user_similarity_using_jaccard_minhash_lsh/functions/jaccard_similarity.py:12-22 | fails with a ZeroDivisionError exactly when both sets are empty; otherwise the ratio lies in [0, 1] |
| JaccardSimilarity.JaccardSymmetric | q5-data_mining/computing_user_similarity_using_jaccard_minhash_lsh/functions/jaccard_similarity.py:16-20 | the coefficient is symmetric in its two sets |
| JaccardSimilarity.JaccardOfItself | q5-data_mining/computing_user_similarity_using_jaccard_minhash_lsh/functions/jaccard_similarity.py:20 | a non-empty set has coefficient 1 with itself |
| JaccardSimilarity.JaccardOneIffEqual | q5-data_mining/computing_user_similarity_using_jaccard_minhash_lsh/functions/jaccard_similarity.py:20 | unless both sets are empty, the coefficient is 1 exactly when the sets are equal |
| JaccardSimilarity.JaccardZeroIffDisjoint | q5-data_mining/computing_user_similarity_using_jaccard_minhash_lsh/functions/jaccard_similarity.py:20 | unless both sets are empty, the coefficient is 0 exactly when the sets are disjoint |
| JaccardSimilarity.JaccardTableFailsIffTwoEmpty | q5-data_mining/computing_user_similarity_using_jaccard_minhash_lsh/functions/jaccard_similarity.py:40-53 | the pair loop raises exactly when two users have seen no movie |
| JaccardSimilarity.UserSimilarityUsingJaccard | q5-data_mining/computing_user_similarity_using_jaccard_minhash_lsh/functions/jaccard_similarity.py:28-61 | fails exactly when two users have seen no movie; otherwise returns the pair dict sorted by descending score, with its entries at or above the threshold |
| JaccardSimilarity.JaccardTableSize | q5-data_mining/computing_user_similarity_using_jaccard_minhash_lsh/functions/jaccard_similarity.py:32-53 | with distinct user ids the dict holds n(n-1)/2 entries with distinct keys |
| JaccardSimilarity.JaccardTableHasPair | q5-data_mining/computing_user_similarity_using_jaccard_minhash_lsh/functions/jaccard_similarity.py:40-53 | every pair of positions i < j has its entry: key "id_i_id_j" with the coefficient of the two movie sets |
| JaccardSimilarity.JaccardTableOnlyPairs | q5-data_mining/computing_user_similarity_using_jaccard_minhash_lsh/functions/jaccard_similarity.py:40-53 | every entry of the dict is the entry of some pair i < j |
| JaccardSimilarity.MoviesOf | q5-data_mining/computing_user_similarity_using_jaccard_minhash_lsh/functions/jaccard_similarity.py:79-80 | `user_movies[id]` raises a KeyError exactly when no user has that id |
| JaccardSimilarity.MostSimilarPairIsFirstEntry | q5-data_mining/computing_user_similarity_using_jaccard_minhash_lsh/functions/jaccard_similarity.py:67-83 | the pair reported is the one encoded in the first key, and its movie set is the union of the two users' sets |
| JaccardSimilarity.MostSimilarPairOfEmptyDict | q5-data_mining/computing_user_similarity_using_jaccard_minhash_lsh/functions/jaccard_similarity.py:72 | an empty dict has no first pair: IndexError |
| UserPairs.KeyRoundTrip | q5-data_mining/computing_user_similarity_using_jaccard_minhash_lsh/functions/jaccard_similarity.py:75-76 | splitting `str(u1) + "_" + str(u2)` at "_" and parsing both halves gives back (u1, u2) |
| UserPairs.KeyInjective | q5-data_mining/computing_user_similarity_using_jaccard_minhash_lsh/functions/jaccard_similarity.py:50 | different id pairs never share a key |
| Strings.ParseIntRoundTrip | q5-data_mining/computing_user_similarity_using_jaccard_minhash_lsh/functions/jaccard_similarity.py:75-76 | `int(str(i))` gives back i for every integer, negative ones included |
| UserPairs.CombinationsMembers | q5-data_mining/computing_user_similarity_using_jaccard_minhash_lsh/functions/jaccard_similarity.py:32 | `combinations(range(n), 2)` holds exactly the pairs a < b < n, n(n-1)/2 of them |
| UserPairs.CombinationsIncreasing | q5-data_mining/computing_user_similarity_using_jaccard_minhash_lsh/functions/jaccard_similarity.py:32 | the pairs come in strictly increasing lexicographic order, so each once |
| UserPairs.PairTableFails | q5-data_mining/computing_user_similarity_using_jaccard_minhash_lsh/functions/jaccard_similarity.py:40-53 | a table filled pair by pair fails exactly when some pair's score fails |
| UserPairs.PairTableKeysDistinct | q5-data_mining/computing_user_similarity_using_jaccard_minhash_lsh/functions/jaccard_similarity.py:50-53 | with distinct ids the table over all pairs has distinct keys |
| UserPairs.AllPairsTableHasPair | q5-data_mining/computing_user_similarity_using_jaccard_minhash_lsh/functions/jaccard_similarity.py:40-53 | a successful table over all pairs holds the entry of every pair i < j |
| UserPairs.AllPairsTableOnlyPairs | q5-data_mining/computing_user_similarity_using_jaccard_minhash_lsh/functions/jaccard_similarity.py:40-53 | every entry of the table over all pairs is some pair's key and score |
| Ranking.SortDesc | q5-data_mining/computing_user_similarity_using_jaccard_minhash_lsh/functions/jaccard_similarity.py:56 | `sorted(..., reverse=True)` returns a rearrangement of its input in non-increasing score order |
| Ranking.SortThenFilterMeaning | q5-data_mining/computing_user_similarity_using_jaccard_minhash_lsh/functions/jaccard_similarity.py:56-59 | the sorted dict is a sorted permutation; the thresholded part is sorted and holds exactly the entries scoring at least the threshold |
| Ranking.FilterAtLeast | q5-data_mining/computing_user_similarity_using_jaccard_minhash_lsh/functions/jaccard_similarity.py:59 | the kept entries are entries of the input scoring at least the threshold, and every such entry is kept |
| Ranking.SortDescDistinct | q5-data_mining/computing_user_similarity_using_jaccard_minhash_lsh/functions/jaccard_similarity.py:56 | sorting the items of a dict keeps their keys distinct |
| Ranking.Slice | q5-recommender_systems/rec_sys_content_based/functions/content_based_recommendations.py:198 | `s[:k]` has min(k, len(s)) items for k >= 0, drops -k items from the end otherwise, and is a prefix of s |
| MinHashSignatures.Hash | q5-data_mining/computing_user_similarity_using_jaccard_minhash_lsh/functions/lsh_similarity.py:41 | `(a*x + b) % R` lies in [0, R) for R > 0 |
| MinHashSignatures.MinHash | q5-data_mining/computing_user_similarity_using_jaccard_minhash_lsh/functions/lsh_similarity.py:31-45 | the signature entry of a set: R+1 for the empty set, otherwise a hash of one of its items in [0, R) and at most the hash of every item |
| MinHashSignatures.MinHashInsert | q5-data_mining/computing_user_similarity_using_jaccard_minhash_lsh/functions/lsh_similarity.py:37-45 | adding an item lowers the entry to that item's hash when smaller, as the comparison in the loop does |
| MinHashSignatures.MinHashUnion | q5-data_mining/computing_user_similarity_using_jaccard_minhash_lsh/functions/lsh_similarity.py:37-45 | the entry of a union of two non-empty sets is the smaller of their entries |
| MinHashSignatures.SignatureIgnoresDuplicates | q5-data_mining/computing_user_similarity_using_jaccard_minhash_lsh/functions/lsh_similarity.py:28 | a repeated movie does not change the signature, since the list is turned into a set |
| MinHashSignatures.SignatureSentinel | q5-data_mining/computing_user_similarity_using_jaccard_minhash_lsh/functions/lsh_similarity.py:31-45 | entry i stays at the sentinel R+1 exactly when the user has no movie, and otherwise lies in [0, R) |
| MinHashSignatures.UserSignature | q5-data_mining/computing_user_similarity_using_jaccard_minhash_lsh/functions/lsh_similarity.py:25-48 | the in-place minimum loop over items and hash functions yields the signature of the user's movie set |
| MinHashSignatures.ComputeUserSignatures | q5-data_mining/computing_user_similarity_using_jaccard_minhash_lsh/functions/lsh_similarity.py:12-50 | one signature per user, in the mapping's order, each with one entry per hash function |
| MinHashSimilarity.Estimate | q5-data_mining/computing_user_similarity_using_jaccard_minhash_lsh/functions/min_hash_similarity.py:56-80 | fails with a ZeroDivisionError exactly when the signatures are empty |
| MinHashSimilarity.EstimatedSimilarity | q5-data_mining/computing_user_similarity_using_jaccard_minhash_lsh/functions/min_hash_similarity.py:56-80 | counts the agreeing positions of the signatures at user1-1 and user2-1 and divides by the size of the union of their value sets |
| MinHashSimilarity.AgreementsSymmetric | q5-data_mining/computing_user_similarity_using_jaccard_minhash_lsh/functions/min_hash_similarity.py:72-78 | the agreement count does not depend on the order of the two signatures |
| MinHashSimilarity.EstimateSymmetric | q5-data_mining/computing_user_similarity_using_jaccard_minhash_lsh/functions/min_hash_similarity.py:65-80 | the estimate is symmetric in the two users |
| MinHashSimilarity.EstimateBounds | q5-data_mining/computing_user_similarity_using_jaccard_minhash_lsh/functions/min_hash_similarity.py:72-80 | the estimate lies between 0 and the signature length |
| MinHashSimilarity.EstimateOfItself | q5-data_mining/computing_user_similarity_using_jaccard_minhash_lsh/functions/min_hash_similarity.py:80 | a signature against itself scores its length over its number of distinct values: at least 1, and exactly 1 iff its values differ |
| MinHashSimilarity.EstimateCanExceedOne | q5-data_mining/computing_user_similarity_using_jaccard_minhash_lsh/functions/min_hash_similarity.py:80 | two users with signature [5, 5, 5] get the estimate 3 |
| MinHashSimilarity.MinHashTableFails | q5-data_mining/computing_user_similarity_using_jaccard_minhash_lsh/functions/min_hash_similarity.py:105-114 | the pair loop fails exactly when there is a pair and no hash function |
| MinHashSimilarity.EstimateAllPairs | q5-data_mining/computing_user_similarity_using_jaccard_minhash_lsh/functions/min_hash_similarity.py:105-114 | the pair loop fills the dict with every pair's estimate, in `combinations` order |
| MinHashSimilarity.UserSimilarityUsingMinHash | q5-data_mining/computing_user_similarity_using_jaccard_minhash_lsh/functions/min_hash_similarity.py:86-122 | fails exactly when there are two users and no hash function; otherwise the pair dict sorted by descending estimate, with its entries at or above the threshold |
| MinHashSimilarity.MinHashTableSize | q5-data_mining/computing_user_similarity_using_jaccard_minhash_lsh/functions/min_hash_similarity.py:97-114 | with at least one hash function and distinct ids the dict holds n(n-1)/2 entries with distinct keys |
| MinHashSimilarity.MinHashTableHasPair | q5-data_mining/computing_user_similarity_using_jaccard_minhash_lsh/functions/min_hash_similarity.py:105-114 | every pair i < j has the entry "(i+1)_(j+1)" with the estimate of the two signatures |
| MinHashSimilarity.MinHashTableEntry | q5-data_mining/computing_user_similarity_using_jaccard_minhash_lsh/functions/min_hash_similarity.py:105-114 | entry k of the dict is the k-th pair's key and estimate |
| MinHashSimilarity.CountFalsePositivesAndNegatives | q5-data_mining/computing_user_similarity_using_jaccard_minhash_lsh/functions/min_hash_similarity.py:128-141 | counts the keys whose exact value is below (FP) and above (FN) the estimate, raising a KeyError for a key the estimate lacks |
| MinHashSimilarity.DisagreementsBound | q5-data_mining/computing_user_similarity_using_jaccard_minhash_lsh/functions/min_hash_similarity.py:135-139 | a key counts as at most one of FP and FN, so FP + FN is at most the number of keys |
| MinHashSimilarity.DisagreementsFail | q5-data_mining/computing_user_similarity_using_jaccard_minhash_lsh/functions/min_hash_similarity.py:135-139 | the count fails, with a KeyError, exactly when some exact key is missing from the estimated dict |
| MinHashSimilarity.NoDisagreementWithItself | q5-data_mining/computing_user_similarity_using_jaccard_minhash_lsh/functions/min_hash_similarity.py:135-139 | a dict with distinct keys compared with itself has no FP and no FN |
| LshSimilarity.Reshape | q5-data_mining/computing_user_similarity_using_jaccard_minhash_lsh/functions/lsh_similarity.py:205 | every user gets num_bands bands of num_rows_per_band entries |
| LshSimilarity.ReshapeKeepsSignatures | q5-data_mining/computing_user_similarity_using_jaccard_minhash_lsh/functions/lsh_similarity.py:205 | the bands of a user, concatenated in order, are its signature |
| LshSimilarity.BucketMembers | q5-data_mining/computing_user_similarity_using_jaccard_minhash_lsh/functions/lsh_similarity.py:84-94 | a bucket holds exactly the users whose band tuple is its key |
| LshSimilarity.BucketAscending | q5-data_mining/computing_user_similarity_using_jaccard_minhash_lsh/functions/lsh_similarity.py:84-94 | each bucket lists its users in strictly ascending index order |
| LshSimilarity.CreateHashTables | q5-data_mining/computing_user_similarity_using_jaccard_minhash_lsh/functions/lsh_similarity.py:56-96 | one dict per band, each equal to the buckets of all users' band tuples |
| LshSimilarity.HashTablesPlaceEachUserOnce | q5-data_mining/computing_user_similarity_using_jaccard_minhash_lsh/functions/lsh_similarity.py:64-94 | in every band a user is listed under its own band tuple, under no other, and once |
| LshSimilarity.CollidesIffSameBand | q5-data_mining/computing_user_similarity_using_jaccard_minhash_lsh/functions/lsh_similarity.py:150-157 | with tables built from the same matrix, user j is found under user i's band-b tuple exactly when their band-b tuples are equal |
| LshSimilarity.PairJaccard | q5-data_mining/computing_user_similarity_using_jaccard_minhash_lsh/functions/lsh_similarity.py:159-164 | `set(user_movies[i+1])` and `set(user_movies[j+1])` compared: fails only with KeyError or ZeroDivisionError, otherwise lies in [0, 1] |
| LshSimilarity.PairJaccardById | q5-data_mining/computing_user_similarity_using_jaccard_minhash_lsh/functions/lsh_similarity.py:159-164 | KeyError exactly when id i+1 or id j+1 is missing; with ids 1..n in order it is the Jaccard of the users at positions i and j |
| LshSimilarity.PairOutcomeSummary | q5-data_mining/computing_user_similarity_using_jaccard_minhash_lsh/functions/lsh_similarity.py:141-181 | a pair with no colliding band costs nothing; at the first colliding band the movies of ids i+1 and j+1 are looked up and compared: their KeyError or ZeroDivisionError fails the pair, a Jaccard at least the threshold gives one evaluation and the entry "(i+1)_(j+1)" (the loop breaks), otherwise there is one evaluation per colliding band |
| LshSimilarity.ScanBands | q5-data_mining/computing_user_similarity_using_jaccard_minhash_lsh/functions/lsh_similarity.py:141-181 | the band loop of one pair, with its by-id movie lookups, computes that outcome |
| LshSimilarity.ScanPairs | q5-data_mining/computing_user_similarity_using_jaccard_minhash_lsh/functions/lsh_similarity.py:135-181 | the nested loops over i < j compute the scan of all pairs in `combinations` order, or fail exactly when it does, with a KeyError or a ZeroDivisionError |
| LshSimilarity.FindSimilarUsers | q5-data_mining/computing_user_similarity_using_jaccard_minhash_lsh/functions/lsh_similarity.py:118-186 | returns the scan's found pairs sorted by descending similarity with the two counters, or fails exactly when the scan does (a missing id or two empty movie lists) |
| LshSimilarity.ScanCounters | q5-data_mining/computing_user_similarity_using_jaccard_minhash_lsh/functions/lsh_similarity.py:166-181 | `true_pairs` equals the number of found pairs and never exceeds `similarity_evaluations` |
| LshSimilarity.ScanFindsPair | q5-data_mining/computing_user_similarity_using_jaccard_minhash_lsh/functions/lsh_similarity.py:155-179 | a pair (i, j) of the scanned list colliding in some band, whose ids i+1 and j+1 have a Jaccard at least the threshold, appears in the found entries |
| LshSimilarity.PairFailureFailsScan | q5-data_mining/computing_user_similarity_using_jaccard_minhash_lsh/functions/lsh_similarity.py:160-164 | a pair whose lookup raises KeyError or whose Jaccard divides by zero makes the whole scan fail; the pair's error is that KeyError or ZeroDivisionError |
| LshSimilarity.ScanOnlyFound | q5-data_mining/computing_user_similarity_using_jaccard_minhash_lsh/functions/lsh_similarity.py:155-179 | each found entry comes from a scanned pair (i, j) that collides in some band, keyed "(i+1)_(j+1)", whose value is the Jaccard of ids i+1 and j+1 |
| LshSimilarity.LshFindsPair | q5-data_mining/computing_user_similarity_using_jaccard_minhash_lsh/functions/lsh_similarity.py:155-181 | a pair i < j with equal band tuples in some band and a Jaccard of ids i+1 and j+1 at least the threshold is in the sorted dict returned, under "(i+1)_(j+1)" with that Jaccard |
| LshSimilarity.LshReportsOnlySimilarPairs | q5-data_mining/computing_user_similarity_using_jaccard_minhash_lsh/functions/lsh_similarity.py:155-181 | every entry of the sorted dict returned is such a pair: colliding in some band, Jaccard of ids i+1 and j+1 at least the threshold, key "(i+1)_(j+1)" |
| LshSimilarity.UserSimilarityUsingLsh | q5-data_mining/computing_user_similarity_using_jaccard_minhash_lsh/functions/lsh_similarity.py:192-216 | signatures of num_bands * num_rows_per_band hash functions, reshaped, bucketed and scanned: the result is the sorted scan with its counters, or its KeyError or ZeroDivisionError |
| RankingMetrics.MeanReciprocalRank | q5-recommender_systems/rec_sys_content_based/functions/content_based_recommendations.py:489-526 | the loop computes the mean of 1/(i+1) over the relevant positions i, and 0 when nothing is relevant |
| RankingMetrics.AveragePrecision | q5-recommender_systems/rec_sys_content_based/functions/content_based_recommendations.py:532-575 | the loop computes the mean over the relevant positions i of (relevant items so far)/(i+1), and 0 when nothing is relevant |
| RankingMetrics.ReciprocalRanksBounds | q5-recommender_systems/rec_sys_content_based/functions/content_based_recommendations.py:506-518 | the sum of reciprocal ranks is positive and at most the number of relevant items when any is relevant |
| RankingMetrics.MrrBounds | q5-recommender_systems/rec_sys_content_based/functions/content_based_recommendations.py:493-526 | MRR is 0 with no relevant item and lies in (0, 1] otherwise |
| RankingMetrics.PrecisionsBounds | q5-recommender_systems/rec_sys_content_based/functions/content_based_recommendations.py:552-567 | each precision term is at most 1, so their sum lies in (0, count] when any item is relevant |
| RankingMetrics.ApBounds | q5-recommender_systems/rec_sys_content_based/functions/content_based_recommendations.py:536-575 | AP is 0 with no relevant item and lies in (0, 1] otherwise |
| RankingMetrics.PrecisionsFull | q5-recommender_systems/rec_sys_content_based/functions/content_based_recommendations.py:552-567 | the precisions sum to the number of relevant items exactly when every relevant item precedes every other |
| RankingMetrics.ApOneIff | q5-recommender_systems/rec_sys_content_based/functions/content_based_recommendations.py:552-575 | AP is 1 exactly when some item is relevant and all relevant items come first |
| RankingMetrics.OnlyRelevanceMatters | q5-recommender_systems/rec_sys_content_based/functions/content_based_recommendations.py:506-518 | any non-relevant label counts the same: two label lists with the same relevant positions have the same MRR and AP |
| ContentBasedRecommendations.ResultsOfMeaning | q5-recommender_systems/rec_sys_content_based/functions/content_based_recommendations.py:181-195 | the results dict holds one item per distinct candidate title, with that title's similarity |
| ContentBasedRecommendations.RecommendMovies | q5-recommender_systems/rec_sys_content_based/functions/content_based_recommendations.py:172-198 | fills the dict candidate by candidate and returns the first k items of its items sorted by descending similarity |
| ContentBasedRecommendations.TopKMeaning | q5-recommender_systems/rec_sys_content_based/functions/content_based_recommendations.py:198 | at most k items, in non-increasing similarity, distinct candidate titles with their own similarity, and no left-out candidate scores above a returned one |
| ContentBasedRecommendations.EvaluateUsingMrr | q5-recommender_systems/rec_sys_content_based/functions/content_based_recommendations.py:489-526 | the MRR of the liked ('Y') titles: 0 with none, in (0, 1] otherwise |
| ContentBasedRecommendations.EvaluateUsingAp | q5-recommender_systems/rec_sys_content_based/functions/content_based_recommendations.py:532-575 | the AP of the liked titles: 0 with none, in (0, 1] otherwise, 1 exactly when all liked titles come first |
| ItemBasedRecommendations.DiscretizeRating | q5-recommender_systems/rec_sys_collaborative_filtering/functions/item_based_recommendations.py:14-27 | 'N' exactly below 0, 'P' exactly above 5, 'A' exactly on [0, 5] |
| ItemBasedRecommendations.CreateLshIndex | q5-recommender_systems/rec_sys_collaborative_filtering/functions/item_based_recommendations.py:57-114 | the loop indexes and stores a signature for each entity with enough ratings, in order |
| ItemBasedRecommendations.IndexMeaning | q5-recommender_systems/rec_sys_collaborative_filtering/functions/item_based_recommendations.py:93-112 | the signature keys are exactly the indexed ids, which are exactly the entities with at least `min_num_ratings` ratings |
| ItemBasedRecommendations.OtherIds | q5-recommender_systems/rec_sys_collaborative_filtering/functions/item_based_recommendations.py:146 | the candidates other than the item itself |
| ItemBasedRecommendations.GetNeighbors | q5-recommender_systems/rec_sys_collaborative_filtering/functions/item_based_recommendations.py:136-168 | the loop over the candidates computes the neighbour list |
| ItemBasedRecommendations.NeighborScanFailIff | q5-recommender_systems/rec_sys_collaborative_filtering/functions/item_based_recommendations.py:153-166 | the candidate loop fails exactly when some candidate cannot be compared with the item |
| ItemBasedRecommendations.NeighborScanLists | q5-recommender_systems/rec_sys_collaborative_filtering/functions/item_based_recommendations.py:153-166 | a successful loop lists, in candidate order, exactly the qualifying candidates, each with its Jaccard similarity |
| ItemBasedRecommendations.NeighborsFailIff | q5-recommender_systems/rec_sys_collaborative_filtering/functions/item_based_recommendations.py:143-166 | a KeyError when the item has no signature; otherwise failure exactly when another candidate cannot be compared |
| ItemBasedRecommendations.NeighborsMeaning | q5-recommender_systems/rec_sys_collaborative_filtering/functions/item_based_recommendations.py:143-168 | a neighbour is never the item, is a candidate, carries its Jaccard similarity, which reaches the threshold, and neighbours keep candidate order |
| ItemBasedRecommendations.AddVotesMeaning | q5-recommender_systems/rec_sys_collaborative_filtering/functions/item_based_recommendations.py:202-206 | adding a neighbour list adds to each joke's vote the similarities it lists for it, keys staying distinct |
| ItemBasedRecommendations.VotesFailIff | q5-recommender_systems/rec_sys_collaborative_filtering/functions/item_based_recommendations.py:193-206 | vote counting fails exactly when the neighbours of some 'P' joke cannot be retrieved |
| ItemBasedRecommendations.VotesMeaning | q5-recommender_systems/rec_sys_collaborative_filtering/functions/item_based_recommendations.py:193-206 | each joke appears once, with the sum over the 'P' jokes of the similarity their neighbour lists give it |
| ItemBasedRecommendations.RatedIffGet | q5-recommender_systems/rec_sys_collaborative_filtering/functions/item_based_recommendations.py:231-233 | `user_jokes.get(joke_id)` finds a polarity exactly for the jokes the user rated |
| ItemBasedRecommendations.SelectRecommendations | q5-recommender_systems/rec_sys_collaborative_filtering/functions/item_based_recommendations.py:218-255 | the selection loop keeps the unrated jokes until `num_recommendations` are kept and sets the rated ones aside with their polarity |
| ItemBasedRecommendations.MakeRecommendations | q5-recommender_systems/rec_sys_collaborative_filtering/functions/item_based_recommendations.py:174-260 | votes, sort, selection and final sort compute the specification of the whole step |
| ItemBasedRecommendations.SortedVotes | q5-recommender_systems/rec_sys_collaborative_filtering/functions/item_based_recommendations.py:209 | every sorted vote is the vote the 'P' jokes give that joke |
| ItemBasedRecommendations.ToRecommendMeaning | q5-recommender_systems/rec_sys_collaborative_filtering/functions/item_based_recommendations.py:209-258 | the recommended jokes are, up to order, the first `num_recommendations` unrated jokes in vote order (all of them when fewer or when the number is below 1); they come sorted by vote, each with its vote, none rated by the user |
| ItemBasedRecommendations.AlreadyRatedMeaning | q5-recommender_systems/rec_sys_collaborative_filtering/functions/item_based_recommendations.py:225-252 | the set-aside jokes are rated jokes with the user's polarity and their vote, and none of them is recommended |
| ItemBasedRecommendations.EvaluateUsingMrr | q5-recommender_systems/rec_sys_collaborative_filtering/functions/item_based_recommendations.py:369-405 | the MRR of the 'P' jokes: 0 when there is none, in (0, 1] otherwise |
| ItemBasedRecommendations.EvaluateUsingAp | q5-recommender_systems/rec_sys_collaborative_filtering/functions/item_based_recommendations.py:411-453 | the AP of the 'P' jokes: 0 when there is none, in (0, 1] otherwise, 1 exactly when all 'P' jokes come first |
| Selection.UnratedMembers | q5-recommender_systems/rec_sys_collaborative_filtering/functions/matrix_factorization_recommendations.py:42-45 | the unrated candidates are exactly the candidates whose joke the user has not rated |
| Selection.SelectPicksFirstUnrated | q5-recommender_systems/rec_sys_collaborative_filtering/functions/matrix_factorization_recommendations.py:36-48 | the kept jokes are exactly the first `num` unrated candidates in scan order, or all of them |
| Selection.SelectSkipsRated | q5-recommender_systems/rec_sys_collaborative_filtering/functions/item_based_recommendations.py:243-249 | everything set aside comes from the candidates and was rated by the user |
| Selection.SelectMeaning | q5-recommender_systems/rec_sys_collaborative_filtering/functions/matrix_factorization_recommendations.py:36-48 | only unrated candidates are kept, at most `num` when `num >= 1`, no unrated candidate is passed over before a kept one, and no key is both kept and set aside |
| Selection.SelectStaysStopped | q5-recommender_systems/rec_sys_collaborative_filtering/functions/matrix_factorization_recommendations.py:48 | once the loop has broken out, later candidates change nothing |
| MatrixFactorizationRecommendations.KeptRows | q5-recommender_systems/rec_sys_collaborative_filtering/functions/matrix_factorization_recommendations.py:51-54 | restricting the rows to the kept jokes gives back exactly the kept rows, as joke ids are distinct |
| MatrixFactorizationRecommendations.MakeRecommendations | q5-recommender_systems/rec_sys_collaborative_filtering/functions/matrix_factorization_recommendations.py:11-59 | the result is sorted by predicted rating and holds each prediction the selection loop keeps over the predictions sorted by rating exactly once, so at most `num_jokes_to_recommend` of them |
| OrderedDicts.PutGet | q5-recommender_systems/rec_sys_content_based/functions/content_based_recommendations.py:195 | after `d[k] = v`, k maps to v and every other key to its old value |
| OrderedDicts.PutDistinct | q5-recommender_systems/rec_sys_content_based/functions/content_based_recommendations.py:195 | assignment keeps the keys distinct |
| OrderedDicts.GetMember | q5-recommender_systems/rec_sys_content_based/functions/content_based_recommendations.py:195 | with distinct keys an item is present exactly when its key maps to its value |
| Frequencies.TokensMeaning | q4-advanced_customer_analytics/scraping_and_summarizing_glassdoor_reviews/functions/frequencies.py:62-70 | every counted token is lower case, alphabetic, longer than 3 and not a stop word |
| Frequencies.CountReview | q4-advanced_customer_analytics/scraping_and_summarizing_glassdoor_reviews/functions/frequencies.py:49-70 | the per-review counter holds exactly the review's counted tokens, each with its number of occurrences |
| Frequencies.AddOnePerKey | q4-advanced_customer_analytics/scraping_and_summarizing_glassdoor_reviews/functions/frequencies.py:76-77 | the doc-frequency loop adds one to each key of the review's counter and leaves the others unchanged |
| Frequencies.CountWordFrequencies | q4-advanced_customer_analytics/scraping_and_summarizing_glassdoor_reviews/functions/frequencies.py:41-77 | both dicts have the words occurring in some review as keys; each word's total occurrences and number of reviews; 1 <= doc <= word, doc <= number of reviews |
| Frequencies.FrequencyBounds | q4-advanced_customer_analytics/scraping_and_summarizing_glassdoor_reviews/functions/frequencies.py:46-77 | document frequency is at most word frequency and the number of reviews, zero exactly together, and a counted word is a lower-case alphabetic non-stop word longer than 3 |
| Frequencies.OnlyInMembers | q4-advanced_customer_analytics/scraping_and_summarizing_glassdoor_reviews/functions/frequencies.py:130 | the kept rows are exactly the rows of the first table whose word the second lacks |
| Frequencies.TopOnlyInMeaning | q4-advanced_customer_analytics/scraping_and_summarizing_glassdoor_reviews/functions/frequencies.py:130-132 | at most k rows, by non-increasing frequency, each a row whose word the other table lacks, and no such row left out has a higher frequency than a kept one |
| Frequencies.TopKDistinctDisjoint | q4-advanced_customer_analytics/scraping_and_summarizing_glassdoor_reviews/functions/frequencies.py:130-139 | no word selected for one table occurs in the other, so the two selections share no word |
| Frequencies.DisplaySameWord | q4-advanced_customer_analytics/scraping_and_summarizing_glassdoor_reviews/functions/frequencies.py:133 | same length and the same letters up to case; the first character is never lower case; words of up to 3 characters have no lower-case letter, longer ones no upper-case letter after the first |
| Frequencies.DisplayRows | q4-advanced_customer_analytics/scraping_and_summarizing_glassdoor_reviews/functions/frequencies.py:133 | every row keeps its frequency and its word's length and letters up to case: all upper case for at most 3 characters, otherwise upper case first and no upper case after; a table in non-increasing frequency stays so |
| Frequencies.DisplayedTopOnlyIn | q4-advanced_customer_analytics/scraping_and_summarizing_glassdoor_reviews/functions/frequencies.py:130-133 | the displayed top rows number at most k, are in non-increasing frequency, and each is, up to case, a row of its table whose word the other table lacks |
| Frequencies.TopKDistinctMeaning | q4-advanced_customer_analytics/scraping_and_summarizing_glassdoor_reviews/functions/frequencies.py:129-141 | both returned tables have that meaning, each with respect to the other table |
| Preprocessing.ReplaceColonsMeaning | q4-advanced_customer_analytics/scraping_and_summarizing_glassdoor_reviews/functions/preprocessing.py:28-29 | same length, no ':' left, every other character unchanged |
| Preprocessing.ReplaceSemicolonsMeaning | q4-advanced_customer_analytics/scraping_and_summarizing_glassdoor_reviews/functions/preprocessing.py:31-32 | same length, no ';' left, every other character unchanged |
| Preprocessing.RemoveCommasMeaning | q4-advanced_customer_analytics/scraping_and_summarizing_glassdoor_reviews/functions/preprocessing.py:68-69 | each replacement removes exactly one ',' and keeps every '.', so the text never grows |
| Preprocessing.RemoveCommasIsOnePass | q4-advanced_customer_analytics/scraping_and_summarizing_glassdoor_reviews/functions/preprocessing.py:68-69 | one pass only: ",,." becomes ",." |
| Preprocessing.FixWorkLifeBalanceNoUpper | q4-advanced_customer_analytics/scraping_and_summarizing_glassdoor_reviews/functions/preprocessing.py:49-58 | the result has no upper-case letter |
| Preprocessing.CapitalizeSentenceCount | q4-advanced_customer_analytics/scraping_and_summarizing_glassdoor_reviews/functions/preprocessing.py:66 | stripping and capitalising a sentence keeps its '.' count |
| Preprocessing.CapitalizeSentencesKeepsDots | q4-advanced_customer_analytics/scraping_and_summarizing_glassdoor_reviews/functions/preprocessing.py:65-66 | capitalising the sentences keeps the number of '.' characters |
| Preprocessing.SplitProsAndConsFailsIff | q4-advanced_customer_analytics/scraping_and_summarizing_glassdoor_reviews/functions/preprocessing.py:71-74 | splitting fails with an IndexError exactly when the separator does not occur |
| Preprocessing.SplitConcatRoundTrip | q4-advanced_customer_analytics/scraping_and_summarizing_glassdoor_reviews/functions/preprocessing.py:71-79 | splitting the concatenation with the separator gives back pros and cons when neither holds '*' nor leading or trailing whitespace |

## Left out

- MinHashSimilarity.EstimatedSimilarity: requires both ids in 1..n, where n is the number of signatures. The source indexes `min_hash_signatures[user1-1]` unchecked, so an id above n raises IndexError and id 0 silently reads the last row; neither is modelled.
- MinHashSimilarity.UserSimilarityUsingMinHash: requires the ids to be 1..n in mapping order (`ConsecutiveIds`), which the source relies on when it pairs row i with id i+1 but never checks. It also requires R > 0, where the source's `% R` would raise ZeroDivisionError for R = 0. The same R > 0 precondition is on `MinHashSignatures` and `LshSimilarity.UserSimilarityUsingLsh`.
- Randomness: `random.sample` for the hash coefficients is replaced by coefficient inputs that are distinct and in [0, R).
- numpy: the signature matrix `reshape` is band slicing (`LshSimilarity.Reshape`); arrays are sequences.
- datasketch `MinHash` / `MinHashLSH`: `create_LSH_index` records the ratings a signature digests and the ids it inserts; `index.query` is an input map from item id to its candidate ids.
- spaCy, NLTK, SentenceTransformer, torch and surprise: tokens, noun lemmas, `compute_similarity` and `svd.predict` are inputs (lists, a function parameter, a prediction list).
- `compute_similarity`'s per-factor scores: `recommend_movies` keeps only the total similarity it sorts by.
- Floating point: all ratios are exact reals; `round`, nDCG (`log2`), RMSE and the like-threshold statistics are not modelled.
- The decision-support evaluation (precision / recall counts) of the item-based recommender is not modelled.
- Regex cleaners of the review preprocessing (bullet points, special characters, blank spaces, leftovers, `beautify_text`) are not modelled.
- pandas glue: DataFrame loading, the joke-text lookup `df_jokes[...]['joke'].values[0]` (an IndexError for an unknown joke), `df_concat`'s inner merge, the mixed pros/cons table, and the word and document frequency DataFrames built from the two dicts.
- Printing and progress output are left out; `get_the_movies_of_the_most_similar_pair_of_users` returns what it would print.
- Set iteration order: sets the code iterates are given as sequences in a fixed order; results that depend on that order are stated for the given order.
- Sort stability: pandas `sort_values` (quicksort by default) need not be stable, the model's sort is; ties may be ordered differently.
- Case and character classes are ASCII only: `lower`, `upper`, `capitalize`, `isalpha` and `strip` do not model Unicode.
- ItemBasedRecommendations.EvaluateUsingMrr: returns the value the source only prints; the source returns None unless nothing is relevant.
- ItemBasedRecommendations.EvaluateUsingAp: returns the value the source only prints; the source returns None unless nothing is relevant.
- Integer widths: movie ids come from a numpy int64 array (q5-data_mining/computing_user_similarity_using_jaccard_minhash_lsh/functions/data_preprocessing.py:26), so `(a*x + b) % R` is computed in int64; the model uses unbounded integers and so assumes `a*x + b < 2^63`, which holds for R = 1000003 and movie ids below 2^42.
- Strings.ParseInt: models `int()` on ASCII whitespace, an optional sign and ASCII digits; the Unicode whitespace and digits and the `_` digit separators that Python's `int()` also accepts are not modelled (the keys it parses are built by `UserPairs.Key`, which never contains them).
