/**
 * The item-based collaborative-filtering recommender for jokes: rating
 * discretisation, the rating-count filter of the LSH index, neighbour
 * retrieval, vote accumulation, top-N selection that skips jokes the user
 * already rated, and the MRR / AP evaluation of the already-rated jokes.
 *
 * The datasketch MinHash / MinHashLSH objects are not modelled: the index
 * is the sequence of indexed entity ids, a signature is the set of ratings
 * it digests, and `index.query(hashes[item])` is given, per indexed item,
 * as the input map `candidates`.
 */
module ItemBasedRecommendations {
  import opened Results
  import opened Ranking
  import opened OrderedDicts
  import opened Selection
  import JaccardSimilarity
  import RankingMetrics

  /** A (user id, polarity) pair: the ratings of an item are a set of these. */
  type Rating = (int, char)

  /** The similarity threshold `get_neighbors` is called with (its default). */
  const NeighborThreshold: real := 0.2

  // ---------------------------------------------------------------------------
  // Rating discretisation
  // ---------------------------------------------------------------------------

  /** 'N' below 0, 'P' above 5, 'A' otherwise (both ends of [0, 5] included). */
  function DiscretizeRating(rating: real): (polarity: char)
    ensures polarity == 'N' <==> rating < 0.0
    ensures polarity == 'P' <==> rating > 5.0
    ensures polarity == 'A' <==> 0.0 <= rating <= 5.0
  {
    var polarity := if rating < 0.0 then 'N' else 'A';
    if rating > 5.0 then 'P' else polarity
  }

  // ---------------------------------------------------------------------------
  // The rating-count filter of `create_LSH_index`
  // ---------------------------------------------------------------------------

  /** The ids of the entities with at least `minNumRatings` ratings, in iteration order. */
  function IndexedIds(entities: seq<(int, set<Rating>)>, minNumRatings: int): seq<int>
    decreases |entities|
  {
    if |entities| == 0 then []
    else
      var e := entities[|entities| - 1];
      IndexedIds(entities[..|entities| - 1], minNumRatings)
      + (if |e.1| < minNumRatings then [] else [e.0])
  }

  /** `min_hash_signatures`: each entity with enough ratings, mapped to the ratings its signature digests. */
  function SignaturesOf(entities: seq<(int, set<Rating>)>, minNumRatings: int): map<int, set<Rating>>
    decreases |entities|
  {
    if |entities| == 0 then map[]
    else
      var e := entities[|entities| - 1];
      var before := SignaturesOf(entities[..|entities| - 1], minNumRatings);
      if |e.1| < minNumRatings then before else before[e.0 := e.1]
  }

  /**
   * Loops over the entities, skips those with fewer than `minNumRatings`
   * ratings, and stores and indexes a signature for each of the others.
   */
  method CreateLshIndex(entities: seq<(int, set<Rating>)>, minNumRatings: int)
    returns (index: seq<int>, signatures: map<int, set<Rating>>)
    ensures index == IndexedIds(entities, minNumRatings)
    ensures signatures == SignaturesOf(entities, minNumRatings)
  {
    index := [];
    signatures := map[];
    for counter := 0 to |entities|
      invariant index == IndexedIds(entities[..counter], minNumRatings)
      invariant signatures == SignaturesOf(entities[..counter], minNumRatings)
    {
      assert entities[..counter + 1][..counter] == entities[..counter];
      var (entityId, itsRatings) := entities[counter];
      if |itsRatings| >= minNumRatings {
        signatures := signatures[entityId := itsRatings];
        index := index + [entityId];
      }
    }
    assert entities[..|entities|] == entities;
  }

  /**
   * The signature keys are exactly the indexed ids, which are exactly the
   * entities with at least `minNumRatings` ratings; each signature digests
   * the ratings of an entity with that id.
   */
  lemma {:induction false} IndexMeaning(entities: seq<(int, set<Rating>)>, minNumRatings: int)
    ensures forall id :: id in SignaturesOf(entities, minNumRatings) <==> id in IndexedIds(entities, minNumRatings)
    ensures forall id :: id in IndexedIds(entities, minNumRatings) <==>
      exists e :: e in entities && e.0 == id && |e.1| >= minNumRatings
    ensures forall id :: id in SignaturesOf(entities, minNumRatings) ==>
      (id, SignaturesOf(entities, minNumRatings)[id]) in entities && |SignaturesOf(entities, minNumRatings)[id]| >= minNumRatings
    decreases |entities|
  {
    if |entities| > 0 {
      var init, e := entities[..|entities| - 1], entities[|entities| - 1];
      IndexMeaning(init, minNumRatings);
      assert entities == init + [e];
    }
  }

  // ---------------------------------------------------------------------------
  // Neighbours
  // ---------------------------------------------------------------------------

  /** `[c for c in candidates if c != item_id]` */
  function OtherIds(candidates: seq<int>, itemId: int): (r: seq<int>)
    ensures forall c :: c in r <==> c in candidates && c != itemId
    decreases |candidates|
  {
    if |candidates| == 0 then []
    else
      var init, c := candidates[..|candidates| - 1], candidates[|candidates| - 1];
      assert candidates == init + [c];
      OtherIds(init, itemId) + (if c == itemId then [] else [c])
  }

  /** The similarity of `itemId` to `other`: two dict lookups and a Jaccard ratio. */
  function Similarity(itemId: int, other: int, ratings: map<int, set<Rating>>): Result<real>
  {
    if itemId !in ratings || other !in ratings then Failure(KeyError)
    else JaccardSimilarity.Jaccard(ratings[itemId], ratings[other])
  }

  /** The neighbour list after the candidate ids `ids`. */
  function NeighborScan(itemId: int, ratings: map<int, set<Rating>>, ids: seq<int>, threshold: real): Result<seq<(int, real)>>
    decreases |ids|
  {
    if |ids| == 0 then Success([])
    else
      var id := ids[|ids| - 1];
      match NeighborScan(itemId, ratings, ids[..|ids| - 1], threshold)
      case Failure(e) => Failure(e)
      case Success(ns) =>
        match Similarity(itemId, id, ratings)
        case Failure(e) => Failure(e)
        case Success(j) => Success(if j >= threshold then ns + [(id, j)] else ns)
  }

  /** `get_neighbors`: a missing signature is a KeyError before anything else. */
  function Neighbors(itemId: int, ratings: map<int, set<Rating>>, candidates: map<int, seq<int>>, threshold: real): Result<seq<(int, real)>>
  {
    if itemId !in candidates then Failure(KeyError)
    else NeighborScan(itemId, ratings, OtherIds(candidates[itemId], itemId), threshold)
  }

  /**
   * Looks up the LSH candidates of the item, drops the item itself, and
   * keeps each remaining candidate whose Jaccard similarity reaches the
   * threshold, with that similarity.
   */
  method GetNeighbors(itemId: int, ratings: map<int, set<Rating>>, candidates: map<int, seq<int>>, threshold: real)
    returns (res: Result<seq<(int, real)>>)
    ensures res == Neighbors(itemId, ratings, candidates, threshold)
  {
    if itemId !in candidates {
      return Failure(KeyError);
    }
    var neighborIds := OtherIds(candidates[itemId], itemId);
    var neighbors: seq<(int, real)> := [];
    for k := 0 to |neighborIds|
      invariant NeighborScan(itemId, ratings, neighborIds[..k], threshold) == Success(neighbors)
    {
      assert neighborIds[..k + 1][..k] == neighborIds[..k];
      var neighborId := neighborIds[k];
      if itemId !in ratings || neighborId !in ratings {
        NeighborScanFails(itemId, ratings, neighborIds, k + 1, threshold);
        return Failure(KeyError);
      }
      var jaccard := JaccardSimilarity.Jaccard(ratings[itemId], ratings[neighborId]);
      if jaccard.Failure? {
        NeighborScanFails(itemId, ratings, neighborIds, k + 1, threshold);
        return Failure(jaccard.error);
      }
      if jaccard.value >= threshold {
        neighbors := neighbors + [(neighborId, jaccard.value)];
      }
    }
    assert neighborIds[..|neighborIds|] == neighborIds;
    res := Success(neighbors);
  }

  /** Once the scan has failed it stays failed with the same error. */
  lemma {:induction false} NeighborScanFails(itemId: int, ratings: map<int, set<Rating>>, ids: seq<int>, k: nat, threshold: real)
    requires k <= |ids| && NeighborScan(itemId, ratings, ids[..k], threshold).Failure?
    ensures NeighborScan(itemId, ratings, ids, threshold) == NeighborScan(itemId, ratings, ids[..k], threshold)
    decreases |ids| - k
  {
    if k < |ids| {
      assert ids[..k + 1][..k] == ids[..k];
      NeighborScanFails(itemId, ratings, ids, k + 1, threshold);
    } else {
      assert ids[..k] == ids;
    }
  }

  /** A candidate is a neighbour when it is not the item and its similarity reaches the threshold. */
  predicate IsNeighbor(itemId: int, ratings: map<int, set<Rating>>, threshold: real, c: int)
  {
    c != itemId && Similarity(itemId, c, ratings).Success? && Similarity(itemId, c, ratings).value >= threshold
  }

  /** The ids of a neighbour list. */
  function Ids(ns: seq<(int, real)>): (r: seq<int>)
    ensures |r| == |ns|
  {
    seq(|ns|, i requires 0 <= i < |ns| => ns[i].0)
  }

  /** The candidates that are neighbours, in candidate order: an independent statement of the filter. */
  function NeighborFilter(itemId: int, ratings: map<int, set<Rating>>, threshold: real, cs: seq<int>): seq<int>
    decreases |cs|
  {
    if |cs| == 0 then []
    else
      NeighborFilter(itemId, ratings, threshold, cs[..|cs| - 1])
      + (if IsNeighbor(itemId, ratings, threshold, cs[|cs| - 1]) then [cs[|cs| - 1]] else [])
  }

  /** Some candidate other than the item cannot be compared with it. */
  predicate Incomparable(itemId: int, ratings: map<int, set<Rating>>, cs: seq<int>)
  {
    exists c :: c in cs && c != itemId && Similarity(itemId, c, ratings).Failure?
  }

  /** The scan fails exactly when some candidate id cannot be compared with the item. */
  lemma {:induction false} NeighborScanFailIff(itemId: int, ratings: map<int, set<Rating>>, ids: seq<int>, threshold: real)
    requires forall c :: c in ids ==> c != itemId
    ensures NeighborScan(itemId, ratings, ids, threshold).Failure? <==> Incomparable(itemId, ratings, ids)
    decreases |ids|
  {
    if |ids| > 0 {
      var init, id := ids[..|ids| - 1], ids[|ids| - 1];
      assert ids == init + [id];
      assert forall c :: c in init ==> c in ids;
      NeighborScanFailIff(itemId, ratings, init, threshold);
      if Incomparable(itemId, ratings, init) {
        var c :| c in init && c != itemId && Similarity(itemId, c, ratings).Failure?;
        assert c in ids;
      }
      if Incomparable(itemId, ratings, ids) && !Incomparable(itemId, ratings, init) {
        var c :| c in ids && c != itemId && Similarity(itemId, c, ratings).Failure?;
        assert c == id;
      }
    }
  }

  /** A successful scan lists, in order, the neighbours among the ids, each with its similarity. */
  lemma {:induction false} NeighborScanLists(itemId: int, ratings: map<int, set<Rating>>, ids: seq<int>, threshold: real, ns: seq<(int, real)>)
    requires forall c :: c in ids ==> c != itemId
    requires NeighborScan(itemId, ratings, ids, threshold) == Success(ns)
    ensures Ids(ns) == NeighborFilter(itemId, ratings, threshold, ids)
    ensures forall n :: n in ns ==> Similarity(itemId, n.0, ratings) == Success(n.1)
    decreases |ids|
  {
    if |ids| > 0 {
      var init, id := ids[..|ids| - 1], ids[|ids| - 1];
      assert forall c :: c in init ==> c in ids;
      var prev := NeighborScan(itemId, ratings, init, threshold);
      NeighborScanLists(itemId, ratings, init, threshold, prev.value);
      var j := Similarity(itemId, id, ratings).value;
      if j >= threshold {
        assert Ids(prev.value + [(id, j)]) == Ids(prev.value) + [id];
      }
    }
  }

  lemma {:induction false} NeighborFilterMembers(itemId: int, ratings: map<int, set<Rating>>, threshold: real, cs: seq<int>)
    ensures forall c :: c in NeighborFilter(itemId, ratings, threshold, cs) <==> c in cs && IsNeighbor(itemId, ratings, threshold, c)
    decreases |cs|
  {
    if |cs| > 0 {
      NeighborFilterMembers(itemId, ratings, threshold, cs[..|cs| - 1]);
      assert cs == cs[..|cs| - 1] + [cs[|cs| - 1]];
    }
  }

  /**
   * `get_neighbors` fails exactly when the item has no signature (a
   * KeyError) or some other candidate cannot be compared with it.
   */
  lemma NeighborsFailIff(itemId: int, ratings: map<int, set<Rating>>, candidates: map<int, seq<int>>, threshold: real)
    ensures itemId !in candidates ==> Neighbors(itemId, ratings, candidates, threshold) == Failure(KeyError)
    ensures itemId in candidates ==>
      (Neighbors(itemId, ratings, candidates, threshold).Failure? <==> Incomparable(itemId, ratings, candidates[itemId]))
  {
    if itemId in candidates {
      var others := OtherIds(candidates[itemId], itemId);
      NeighborScanFailIff(itemId, ratings, others, threshold);
      if Incomparable(itemId, ratings, candidates[itemId]) {
        var c :| c in candidates[itemId] && c != itemId && Similarity(itemId, c, ratings).Failure?;
        assert c in others;
      }
    }
  }

  /**
   * When `get_neighbors` succeeds it never returns the item itself, every
   * neighbour is a candidate whose Jaccard similarity is the one listed and
   * reaches the threshold, and the neighbours are the qualifying candidates
   * in candidate order.
   */
  lemma NeighborsMeaning(itemId: int, ratings: map<int, set<Rating>>, candidates: map<int, seq<int>>, threshold: real, ns: seq<(int, real)>)
    requires Neighbors(itemId, ratings, candidates, threshold) == Success(ns)
    ensures itemId in candidates
    ensures Ids(ns) == NeighborFilter(itemId, ratings, threshold, OtherIds(candidates[itemId], itemId))
    ensures forall n :: n in ns ==>
      (n.0 != itemId && n.0 in candidates[itemId] && Similarity(itemId, n.0, ratings) == Success(n.1) && n.1 >= threshold)
  {
    var others := OtherIds(candidates[itemId], itemId);
    NeighborScanLists(itemId, ratings, others, threshold, ns);
    NeighborFilterMembers(itemId, ratings, threshold, others);
    forall n | n in ns
      ensures n.0 != itemId && n.0 in candidates[itemId] && n.1 >= threshold
    {
      var i :| 0 <= i < |ns| && ns[i] == n;
      assert Ids(ns)[i] == n.0;
      assert n.0 in NeighborFilter(itemId, ratings, threshold, others);
    }
  }

  // ---------------------------------------------------------------------------
  // Votes
  // ---------------------------------------------------------------------------

  /** `votes[k]` of a `defaultdict(int)`: 0 for a joke with no vote yet. */
  function VoteOf(votes: seq<(int, real)>, k: int): real
  {
    match Get(votes, k)
    case None => 0.0
    case Some(v) => v
  }

  /** `votes[neighbor] += sim_value` for each neighbour in turn. */
  function AddVotes(votes: seq<(int, real)>, ns: seq<(int, real)>): seq<(int, real)>
    decreases |ns|
  {
    if |ns| == 0 then votes
    else
      var before := AddVotes(votes, ns[..|ns| - 1]);
      var n := ns[|ns| - 1];
      Put(before, n.0, VoteOf(before, n.0) + n.1)
  }

  /** The sum of the similarities a neighbour list gives `k`. */
  function SumFor(ns: seq<(int, real)>, k: int): real
    decreases |ns|
  {
    if |ns| == 0 then 0.0
    else SumFor(ns[..|ns| - 1], k) + (if ns[|ns| - 1].0 == k then ns[|ns| - 1].1 else 0.0)
  }

  /** Adding the votes of a neighbour list adds, to each joke, the similarities it lists for it. */
  lemma {:induction false} AddVotesMeaning(votes: seq<(int, real)>, ns: seq<(int, real)>)
    requires DistinctBy(votes, Key)
    ensures DistinctBy(AddVotes(votes, ns), Key)
    ensures forall k :: VoteOf(AddVotes(votes, ns), k) == VoteOf(votes, k) + SumFor(ns, k)
    decreases |ns|
  {
    if |ns| > 0 {
      var init, n := ns[..|ns| - 1], ns[|ns| - 1];
      AddVotesMeaning(votes, init);
      var before := AddVotes(votes, init);
      PutDistinct(before, n.0, VoteOf(before, n.0) + n.1);
      forall k ensures VoteOf(AddVotes(votes, ns), k) == VoteOf(votes, k) + SumFor(ns, k) {
        PutGet(before, n.0, VoteOf(before, n.0) + n.1, k);
      }
    }
  }

  /** The votes after the user's rated jokes `userJokes`: only 'P' jokes vote for their neighbours. */
  function VotesOf(userJokes: seq<(int, char)>, ratings: map<int, set<Rating>>, candidates: map<int, seq<int>>): Result<seq<(int, real)>>
    decreases |userJokes|
  {
    if |userJokes| == 0 then Success([])
    else
      var joke := userJokes[|userJokes| - 1];
      match VotesOf(userJokes[..|userJokes| - 1], ratings, candidates)
      case Failure(e) => Failure(e)
      case Success(votes) =>
        if joke.1 != 'P' then Success(votes)
        else
          match Neighbors(joke.0, ratings, candidates, NeighborThreshold)
          case Failure(e) => Failure(e)
          case Success(ns) => Success(AddVotes(votes, ns))
  }

  /** Once vote counting has failed it stays failed with the same error. */
  lemma {:induction false} VotesFailStays(userJokes: seq<(int, char)>, k: nat, ratings: map<int, set<Rating>>, candidates: map<int, seq<int>>)
    requires k <= |userJokes| && VotesOf(userJokes[..k], ratings, candidates).Failure?
    ensures VotesOf(userJokes, ratings, candidates) == VotesOf(userJokes[..k], ratings, candidates)
    decreases |userJokes| - k
  {
    if k < |userJokes| {
      assert userJokes[..k + 1][..k] == userJokes[..k];
      VotesFailStays(userJokes, k + 1, ratings, candidates);
    } else {
      assert userJokes[..k] == userJokes;
    }
  }

  /**
   * The vote a joke should get: the sum, over the jokes the user rated 'P',
   * of the similarity each neighbour list gives it.
   */
  function ExpectedVote(userJokes: seq<(int, char)>, ratings: map<int, set<Rating>>, candidates: map<int, seq<int>>, k: int): real
    decreases |userJokes|
  {
    if |userJokes| == 0 then 0.0
    else
      var joke := userJokes[|userJokes| - 1];
      ExpectedVote(userJokes[..|userJokes| - 1], ratings, candidates, k)
      + if joke.1 != 'P' then 0.0
        else match Neighbors(joke.0, ratings, candidates, NeighborThreshold)
          case Failure(_) => 0.0
          case Success(ns) => SumFor(ns, k)
  }

  /** Some joke the user rated 'P' has neighbours that cannot be retrieved. */
  predicate NeighborsFail(userJokes: seq<(int, char)>, ratings: map<int, set<Rating>>, candidates: map<int, seq<int>>)
  {
    exists i :: 0 <= i < |userJokes| && userJokes[i].1 == 'P'
      && Neighbors(userJokes[i].0, ratings, candidates, NeighborThreshold).Failure?
  }

  /** Vote counting fails exactly when the neighbours of some 'P' joke cannot be retrieved. */
  lemma {:induction false} VotesFailIff(userJokes: seq<(int, char)>, ratings: map<int, set<Rating>>, candidates: map<int, seq<int>>)
    ensures VotesOf(userJokes, ratings, candidates).Failure? <==> NeighborsFail(userJokes, ratings, candidates)
    decreases |userJokes|
  {
    if |userJokes| > 0 {
      var init := userJokes[..|userJokes| - 1];
      VotesFailIff(init, ratings, candidates);
      if NeighborsFail(init, ratings, candidates) {
        var i :| 0 <= i < |init| && init[i].1 == 'P' && Neighbors(init[i].0, ratings, candidates, NeighborThreshold).Failure?;
        assert userJokes[i] == init[i];
      }
      if NeighborsFail(userJokes, ratings, candidates) && !NeighborsFail(init, ratings, candidates) {
        var i :| 0 <= i < |userJokes| && userJokes[i].1 == 'P' && Neighbors(userJokes[i].0, ratings, candidates, NeighborThreshold).Failure?;
      }
    }
  }

  /**
   * When vote counting succeeds each joke appears once, with the vote the
   * 'P' jokes give it.
   */
  lemma {:induction false} VotesMeaning(userJokes: seq<(int, char)>, ratings: map<int, set<Rating>>, candidates: map<int, seq<int>>, votes: seq<(int, real)>)
    requires VotesOf(userJokes, ratings, candidates) == Success(votes)
    ensures DistinctBy(votes, Key)
    ensures forall k :: VoteOf(votes, k) == ExpectedVote(userJokes, ratings, candidates, k)
    decreases |userJokes|
  {
    if |userJokes| > 0 {
      var init, joke := userJokes[..|userJokes| - 1], userJokes[|userJokes| - 1];
      var prev := VotesOf(init, ratings, candidates).value;
      VotesMeaning(init, ratings, candidates, prev);
      if joke.1 == 'P' {
        var ns := Neighbors(joke.0, ratings, candidates, NeighborThreshold).value;
        AddVotesMeaning(prev, ns);
      }
    }
  }

  // ---------------------------------------------------------------------------
  // Selection
  // ---------------------------------------------------------------------------

  function Vote(e: (int, real)): real { e.1 }

  /** The jokes the user rated: the keys of `user_jokes`. */
  function RatedJokes(userJokes: seq<(int, char)>): set<int>
  {
    set e | e in userJokes :: e.0
  }

  /** `user_jokes.get(joke_id)` finds a polarity exactly for the rated jokes. */
  lemma {:induction false} RatedIffGet(userJokes: seq<(int, char)>, j: int)
    ensures Get(userJokes, j).Some? <==> j in RatedJokes(userJokes)
    decreases |userJokes|
  {
    if |userJokes| > 0 {
      RatedIffGet(userJokes[1..], j);
      assert userJokes == [userJokes[0]] + userJokes[1..];
    }
  }

  /** The polarity the user gave a rated joke. */
  function PolarityOf(userJokes: seq<(int, char)>, j: int): char
  {
    match Get(userJokes, j)
    case None => 'A'
    case Some(p) => p
  }

  /** The already-rated jokes with the user's polarity and their votes. */
  function WithPolarity(skipped: seq<(int, real)>, userJokes: seq<(int, char)>): (r: seq<(int, char, real)>)
    ensures |r| == |skipped|
    decreases |skipped|
  {
    if |skipped| == 0 then []
    else
      var e := skipped[|skipped| - 1];
      WithPolarity(skipped[..|skipped| - 1], userJokes) + [(e.0, PolarityOf(userJokes, e.0), e.1)]
  }

  /** `make_recommendations_using_item_based_technique`, as a function of its inputs. */
  function Recommendations(userJokes: seq<(int, char)>, ratings: map<int, set<Rating>>, candidates: map<int, seq<int>>, num: int)
    : Result<(seq<(int, real)>, seq<(int, char, real)>)>
  {
    match VotesOf(userJokes, ratings, candidates)
    case Failure(e) => Failure(e)
    case Success(votes) =>
      var (picked, skipped) := Select(SortDesc(votes, Vote), RatedJokes(userJokes), num);
      Success((SortDesc(picked, Vote), WithPolarity(skipped, userJokes)))
  }

  /**
   * Adds, for every joke the user rated 'P', each neighbour's similarity
   * to its votes; sorts the voted jokes; sets aside those the user rated
   * and keeps the others until `num` are kept; and returns the kept jokes
   * sorted by votes together with the set-aside ones.
   */
  method MakeRecommendations(userJokes: seq<(int, char)>, ratings: map<int, set<Rating>>, candidates: map<int, seq<int>>, num: int)
    returns (res: Result<(seq<(int, real)>, seq<(int, char, real)>)>)
    ensures res == Recommendations(userJokes, ratings, candidates, num)
  {
    var votes: seq<(int, real)> := [];
    for idx := 0 to |userJokes|
      invariant VotesOf(userJokes[..idx], ratings, candidates) == Success(votes)
    {
      assert userJokes[..idx + 1][..idx] == userJokes[..idx];
      var (jokeId, polarity) := userJokes[idx];
      if polarity == 'P' {
        var jokeNeighbors := GetNeighbors(jokeId, ratings, candidates, NeighborThreshold);
        if jokeNeighbors.Failure? {
          VotesFailStays(userJokes, idx + 1, ratings, candidates);
          return Failure(jokeNeighbors.error);
        }
        var ns := jokeNeighbors.value;
        ghost var before := votes;
        for m := 0 to |ns|
          invariant votes == AddVotes(before, ns[..m])
        {
          assert ns[..m + 1][..m] == ns[..m];
          var (neighbor, simValue) := ns[m];
          votes := Put(votes, neighbor, VoteOf(votes, neighbor) + simValue);
        }
        assert ns[..|ns|] == ns;
      }
    }
    assert userJokes[..|userJokes|] == userJokes;
    var srt := SortDesc(votes, Vote);
    var toRecommend, alreadyRated := SelectRecommendations(srt, userJokes, num);
    toRecommend := SortDesc(toRecommend, Vote);
    res := Success((toRecommend, alreadyRated));
  }

  /** The selection loop over the sorted votes, with its early `break`. */
  method SelectRecommendations(srt: seq<(int, real)>, userJokes: seq<(int, char)>, num: int)
    returns (toRecommend: seq<(int, real)>, alreadyRated: seq<(int, char, real)>)
    ensures toRecommend == Select(srt, RatedJokes(userJokes), num).0
    ensures alreadyRated == WithPolarity(Select(srt, RatedJokes(userJokes), num).1, userJokes)
  {
    toRecommend := [];
    alreadyRated := [];
    ghost var skipped: seq<(int, real)> := [];
    ghost var done := false;
    for i := 0 to |srt|
      invariant toRecommend == Select(srt[..i], RatedJokes(userJokes), num).0
      invariant skipped == Select(srt[..i], RatedJokes(userJokes), num).1
      invariant alreadyRated == WithPolarity(skipped, userJokes)
      invariant !Stopped(|toRecommend|, num)
    {
      SelectStep(srt, i, RatedJokes(userJokes), num, toRecommend, skipped);
      var (jokeId, score) := srt[i];
      var jokePolarity := Get(userJokes, jokeId);
      RatedIffGet(userJokes, jokeId);
      if jokePolarity.Some? {
        alreadyRated := alreadyRated + [(jokeId, jokePolarity.value, score)];
        skipped := skipped + [srt[i]];
      } else {
        toRecommend := toRecommend + [(jokeId, score)];
        if |toRecommend| == num {
          SelectStaysStopped(srt, i + 1, RatedJokes(userJokes), num);
          done := true;
          break;
        }
      }
    }
    if !done {
      assert srt[..|srt|] == srt;
    }
  }

  lemma {:induction false} WithPolarityMembers(skipped: seq<(int, real)>, userJokes: seq<(int, char)>)
    ensures forall x :: x in WithPolarity(skipped, userJokes) ==> (x.0, x.2) in skipped && x.1 == PolarityOf(userJokes, x.0)
    decreases |skipped|
  {
    if |skipped| > 0 {
      var init := skipped[..|skipped| - 1];
      WithPolarityMembers(init, userJokes);
      assert skipped == init + [skipped[|skipped| - 1]];
    }
  }

  /** Each sorted vote carries the vote the 'P' jokes give that joke. */
  lemma SortedVotes(userJokes: seq<(int, char)>, ratings: map<int, set<Rating>>, candidates: map<int, seq<int>>, votes: seq<(int, real)>)
    requires VotesOf(userJokes, ratings, candidates) == Success(votes)
    ensures forall e :: e in SortDesc(votes, Vote) ==> e.1 == ExpectedVote(userJokes, ratings, candidates, e.0)
  {
    VotesMeaning(userJokes, ratings, candidates, votes);
    SortDescMembers(votes, Vote);
    forall e | e in SortDesc(votes, Vote) ensures e.1 == ExpectedVote(userJokes, ratings, candidates, e.0) {
      GetMember(votes, e);
    }
  }

  /**
   * The recommended jokes, when vote counting succeeds: the first `num`
   * unrated jokes in vote order (all of them when there are fewer or when
   * `num < 1`), sorted by votes, none rated by the user, each with the vote
   * the 'P' jokes give it.
   */
  lemma ToRecommendMeaning(userJokes: seq<(int, char)>, ratings: map<int, set<Rating>>, candidates: map<int, seq<int>>, num: int,
                           toRecommend: seq<(int, real)>, alreadyRated: seq<(int, char, real)>)
    requires Recommendations(userJokes, ratings, candidates, num) == Success((toRecommend, alreadyRated))
    ensures VotesOf(userJokes, ratings, candidates).Success?
    ensures SortedDesc(toRecommend, Vote)
    ensures multiset(toRecommend)
      == multiset(Take(Unrated(SortDesc(VotesOf(userJokes, ratings, candidates).value, Vote), RatedJokes(userJokes)), num))
    ensures num >= 1 ==> |toRecommend| <= num
    ensures forall e :: e in toRecommend ==>
      Get(userJokes, e.0).None? && e.1 == ExpectedVote(userJokes, ratings, candidates, e.0)
  {
    var votes := VotesOf(userJokes, ratings, candidates).value;
    var srt := SortDesc(votes, Vote);
    var picked := Select(srt, RatedJokes(userJokes), num).0;
    SortedVotes(userJokes, ratings, candidates, votes);
    SelectPicksFirstUnrated(srt, RatedJokes(userJokes), num);
    SelectMeaning(srt, RatedJokes(userJokes), num);
    SortDescMembers(picked, Vote);
    assert |toRecommend| == |multiset(toRecommend)| == |multiset(picked)| == |picked|;
    forall e | e in toRecommend ensures Get(userJokes, e.0).None? {
      RatedIffGet(userJokes, e.0);
    }
  }

  /**
   * The jokes set aside, when vote counting succeeds: each is a joke the
   * user rated, with the polarity the user gave it and the vote the 'P'
   * jokes give it, and none is also recommended.
   */
  lemma AlreadyRatedMeaning(userJokes: seq<(int, char)>, ratings: map<int, set<Rating>>, candidates: map<int, seq<int>>, num: int,
                            toRecommend: seq<(int, real)>, alreadyRated: seq<(int, char, real)>)
    requires Recommendations(userJokes, ratings, candidates, num) == Success((toRecommend, alreadyRated))
    ensures forall e :: e in alreadyRated ==>
      Get(userJokes, e.0) == Some(e.1) && e.2 == ExpectedVote(userJokes, ratings, candidates, e.0)
    ensures forall e, f :: e in toRecommend && f in alreadyRated ==> e.0 != f.0
  {
    var votes := VotesOf(userJokes, ratings, candidates).value;
    var srt := SortDesc(votes, Vote);
    var (picked, skipped) := Select(srt, RatedJokes(userJokes), num);
    SortedVotes(userJokes, ratings, candidates, votes);
    SelectMeaning(srt, RatedJokes(userJokes), num);
    SelectSkipsRated(srt, RatedJokes(userJokes), num);
    WithPolarityMembers(skipped, userJokes);
    SortDescMembers(picked, Vote);
    forall e | e in alreadyRated
      ensures Get(userJokes, e.0) == Some(e.1) && e.2 == ExpectedVote(userJokes, ratings, candidates, e.0)
    {
      RatedIffGet(userJokes, e.0);
    }
    forall e, f | e in toRecommend && f in alreadyRated ensures e.0 != f.0 {
      assert (f.0, f.2) in skipped;
    }
  }

  // ---------------------------------------------------------------------------
  // Evaluation
  // ---------------------------------------------------------------------------

  /** The polarity of an already-rated joke. */
  function Polarity(rated: (int, char, real)): char { rated.1 }

  /**
   * `evaluate_recommendations_using_MRR` with the 'P' jokes as the relevant
   * ones: 0 when there is none, otherwise the value it displays.
   */
  method EvaluateUsingMrr(alreadyRated: seq<(int, char, real)>) returns (mrr: real)
    ensures mrr == RankingMetrics.Mrr(RankingMetrics.LabelsOf(alreadyRated, Polarity), 'P')
    ensures RankingMetrics.CountOf(RankingMetrics.LabelsOf(alreadyRated, Polarity), 'P') == 0 ==> mrr == 0.0
    ensures RankingMetrics.CountOf(RankingMetrics.LabelsOf(alreadyRated, Polarity), 'P') > 0 ==> 0.0 < mrr <= 1.0
  {
    mrr := RankingMetrics.MeanReciprocalRank(RankingMetrics.LabelsOf(alreadyRated, Polarity), 'P');
    RankingMetrics.MrrBounds(RankingMetrics.LabelsOf(alreadyRated, Polarity), 'P');
  }

  /**
   * `evaluate_recommendations_using_AP` with the 'P' jokes as the relevant
   * ones: 0 when there is none, otherwise the value it displays.
   */
  method EvaluateUsingAp(alreadyRated: seq<(int, char, real)>) returns (ap: real)
    ensures ap == RankingMetrics.Ap(RankingMetrics.LabelsOf(alreadyRated, Polarity), 'P')
    ensures RankingMetrics.CountOf(RankingMetrics.LabelsOf(alreadyRated, Polarity), 'P') == 0 ==> ap == 0.0
    ensures RankingMetrics.CountOf(RankingMetrics.LabelsOf(alreadyRated, Polarity), 'P') > 0 ==> 0.0 < ap <= 1.0
    ensures ap == 1.0 <==>
              RankingMetrics.CountOf(RankingMetrics.LabelsOf(alreadyRated, Polarity), 'P') > 0
              && RankingMetrics.RelevantFirst(RankingMetrics.LabelsOf(alreadyRated, Polarity), 'P')
  {
    ap := RankingMetrics.AveragePrecision(RankingMetrics.LabelsOf(alreadyRated, Polarity), 'P');
    RankingMetrics.ApBounds(RankingMetrics.LabelsOf(alreadyRated, Polarity), 'P');
    RankingMetrics.ApOneIff(RankingMetrics.LabelsOf(alreadyRated, Polarity), 'P');
  }
}
