/**
 * `lsh_similarity.py`: banded locality-sensitive hashing over MinHash
 * signatures. The signature matrix (users × bands × rows) is bucketed into
 * one dict per band, then every pair of users whose band tuples collide is
 * checked with the exact Jaccard similarity.
 */
module LshSimilarity {
  import opened Results
  import opened Ranking
  import opened UserPairs
  import opened MinHashSignatures
  import opened JaccardSimilarity
  import opened MinHashSimilarity
  import opened Strings

  /** A signature matrix: one sequence of band tuples per user. */
  type Matrix = seq<seq<seq<int>>>

  /** Every user has the same number of bands (the matrix is a numpy array). */
  predicate Shaped(m: Matrix, numBands: nat)
  {
    forall i :: 0 <= i < |m| ==> |m[i]| == numBands
  }

  // ---------------------------------------------------------------------------
  // np.array(user_signatures).reshape(n, num_bands, num_rows_per_band)
  // ---------------------------------------------------------------------------

  /** The bands of a row, concatenated in order. */
  function Flatten(bands: seq<seq<int>>): seq<int>
  {
    if |bands| == 0 then [] else Flatten(bands[..|bands| - 1]) + bands[|bands| - 1]
  }

  lemma MulMonotone(a: nat, c: nat, x: nat)
    requires a <= c
    ensures a * x <= c * x
  {
  }

  lemma BandFits(b: nat, bands: nat, rows: nat)
    requires b < bands
    ensures 0 <= b * rows && b * rows + rows == (b + 1) * rows <= bands * rows
  {
    MulMonotone(0, b, rows);
    MulStep(b + 1, rows);
    MulMonotone(b + 1, bands, rows);
  }

  /** Band b of a signature: entries b*rows up to (b+1)*rows. */
  function Band(sig: seq<int>, b: nat, bands: nat, rows: nat): (band: seq<int>)
    requires b < bands && |sig| == bands * rows
    ensures |band| == rows
  {
    BandFits(b, bands, rows);
    sig[b * rows..(b + 1) * rows]
  }

  /** The first k bands of a signature, in order. */
  function BandsUpTo(sig: seq<int>, bands: nat, rows: nat, k: nat): (r: seq<seq<int>>)
    requires |sig| == bands * rows && k <= bands
    ensures |r| == k && forall b :: 0 <= b < k ==> |r[b]| == rows
  {
    if k == 0 then [] else BandsUpTo(sig, bands, rows, k - 1) + [Band(sig, k - 1, bands, rows)]
  }

  lemma FlattenSnoc(bands: seq<seq<int>>, band: seq<int>)
    ensures Flatten(bands + [band]) == Flatten(bands) + band
  {
    assert (bands + [band])[..|bands|] == bands;
  }

  lemma SliceConcat(s: seq<int>, lo: int, hi: int)
    requires 0 <= lo <= hi <= |s|
    ensures s[..lo] + s[lo..hi] == s[..hi]
  {
  }

  lemma {:induction false} FlattenBands(sig: seq<int>, bands: nat, rows: nat, k: nat)
    requires |sig| == bands * rows && k <= bands
    ensures k * rows <= |sig|
    ensures Flatten(BandsUpTo(sig, bands, rows, k)) == sig[..k * rows]
  {
    if k > 0 {
      FlattenBands(sig, bands, rows, k - 1);
      BandFits(k - 1, bands, rows);
      FlattenSnoc(BandsUpTo(sig, bands, rows, k - 1), Band(sig, k - 1, bands, rows));
      SliceConcat(sig, (k - 1) * rows, k * rows);
    }
  }

  /** Splits each user's signature into `bands` consecutive bands of `rows` entries. */
  function Reshape(sigs: seq<seq<int>>, bands: nat, rows: nat): (m: Matrix)
    requires forall u :: 0 <= u < |sigs| ==> |sigs[u]| == bands * rows
    ensures |m| == |sigs| && Shaped(m, bands)
    ensures forall u, b :: 0 <= u < |m| && 0 <= b < bands ==> |m[u][b]| == rows
  {
    seq(|sigs|, u requires 0 <= u < |sigs| => BandsUpTo(sigs[u], bands, rows, bands))
  }

  /** Reshaping loses nothing: the bands of each user, concatenated, are its signature. */
  lemma ReshapeKeepsSignatures(sigs: seq<seq<int>>, bands: nat, rows: nat, u: nat)
    requires forall v :: 0 <= v < |sigs| ==> |sigs[v]| == bands * rows
    requires u < |sigs|
    ensures Flatten(Reshape(sigs, bands, rows)[u]) == sigs[u]
  {
    FlattenBands(sigs[u], bands, rows, bands);
  }

  // ---------------------------------------------------------------------------
  // create_hash_tables(signature_matrix)
  // ---------------------------------------------------------------------------

  /** One dict per band: band tuple -> indices of the users having it. */
  type HashTables = seq<map<seq<int>, seq<nat>>>

  /** The indices below n, ascending, of the users whose band b is `key`. */
  function Bucket(m: Matrix, b: nat, key: seq<int>, n: nat): seq<nat>
    requires n <= |m| && forall i :: 0 <= i < n ==> b < |m[i]|
  {
    if n == 0 then []
    else Bucket(m, b, key, n - 1) + (if m[n - 1][b] == key then [n - 1] else [])
  }

  /** The band-b tuples of the first n users. */
  function BandValues(m: Matrix, b: nat, n: nat): set<seq<int>>
    requires n <= |m| && forall i :: 0 <= i < n ==> b < |m[i]|
  {
    set i | 0 <= i < n :: m[i][b]
  }

  /** The band-b dict after the first n users have been inserted. */
  function BucketTable(m: Matrix, b: nat, n: nat): map<seq<int>, seq<nat>>
    requires n <= |m| && forall i :: 0 <= i < n ==> b < |m[i]|
  {
    map key | key in BandValues(m, b, n) :: Bucket(m, b, key, n)
  }

  /** A bucket holds exactly the users below n whose band b is the key. */
  lemma {:induction false} BucketMembers(m: Matrix, b: nat, key: seq<int>, n: nat)
    requires n <= |m| && forall i :: 0 <= i < n ==> b < |m[i]|
    ensures forall x: nat :: x in Bucket(m, b, key, n) <==> x < n && m[x][b] == key
  {
    if n > 0 {
      BucketMembers(m, b, key, n - 1);
    }
  }

  /** A bucket lists its users in strictly ascending order, so each at most once. */
  lemma {:induction false} BucketAscending(m: Matrix, b: nat, key: seq<int>, n: nat)
    requires n <= |m| && forall i :: 0 <= i < n ==> b < |m[i]|
    ensures forall k, l :: 0 <= k < l < |Bucket(m, b, key, n)| ==> Bucket(m, b, key, n)[k] < Bucket(m, b, key, n)[l]
  {
    if n > 0 {
      BucketAscending(m, b, key, n - 1);
      BucketMembers(m, b, key, n - 1);
      var s := Bucket(m, b, key, n - 1);
      assert forall k :: 0 <= k < |s| ==> s[k] in s;
    }
  }

  lemma {:induction false} BucketOfNewKey(m: Matrix, b: nat, key: seq<int>, n: nat)
    requires n <= |m| && forall i :: 0 <= i < n ==> b < |m[i]|
    requires key !in BandValues(m, b, n)
    ensures Bucket(m, b, key, n) == []
  {
    if n > 0 {
      assert m[n - 1][b] in BandValues(m, b, n);
      assert BandValues(m, b, n - 1) <= BandValues(m, b, n);
      BucketOfNewKey(m, b, key, n - 1);
    }
  }

  /** Inserting user n into band b's dict: create the bucket if missing, then append n. */
  lemma BucketTableStep(m: Matrix, b: nat, n: nat)
    requires n < |m| && forall i :: 0 <= i <= n ==> b < |m[i]|
    ensures var t, key := BucketTable(m, b, n), m[n][b];
      var t' := if key !in t then t[key := []] else t;
      BucketTable(m, b, n + 1) == t'[key := t'[key] + [n]]
  {
    var t, key := BucketTable(m, b, n), m[n][b];
    var t' := if key !in t then t[key := []] else t;
    var lhs, rhs := BucketTable(m, b, n + 1), t'[key := t'[key] + [n]];
    assert BandValues(m, b, n + 1) == BandValues(m, b, n) + {key};
    assert lhs.Keys == rhs.Keys;
    BucketMembers(m, b, key, n);
    forall k | k in lhs ensures lhs[k] == rhs[k] {
      if k == key {
        if key !in t {
          BucketOfNewKey(m, b, key, n);
        }
        assert lhs[k] == Bucket(m, b, key, n) + [n];
      } else {
        assert lhs[k] == Bucket(m, b, k, n) + [];
      }
    }
  }

  /**
   * Builds the dicts user by user: for each user and each band, creates the
   * band tuple's list when it is missing and appends the user's index.
   */
  method CreateHashTables(m: Matrix, numBands: nat) returns (tables: HashTables)
    requires Shaped(m, numBands)
    ensures |tables| == numBands
    ensures forall b :: 0 <= b < numBands ==> tables[b] == BucketTable(m, b, |m|)
  {
    tables := seq(numBands, _ => map[]);
    for i := 0 to |m|
      invariant |tables| == numBands
      invariant forall c :: 0 <= c < numBands ==> tables[c] == BucketTable(m, c, i)
    {
      for b := 0 to numBands
        invariant |tables| == numBands
        invariant forall c :: 0 <= c < b ==> tables[c] == BucketTable(m, c, i + 1)
        invariant forall c :: b <= c < numBands ==> tables[c] == BucketTable(m, c, i)
      {
        var hashValue := m[i][b];
        var table := tables[b];
        if hashValue !in table {
          table := table[hashValue := []];
        }
        table := table[hashValue := table[hashValue] + [i]];
        BucketTableStep(m, b, i);
        tables := tables[b := table];
      }
    }
  }

  /** All bands' dicts built from the whole matrix. */
  function AllBucketTables(m: Matrix, numBands: nat): (tables: HashTables)
    requires Shaped(m, numBands)
    ensures |tables| == numBands
  {
    seq(numBands, b requires 0 <= b < numBands => BucketTable(m, b, |m|))
  }

  /**
   * In band b every user appears in the bucket of its own band tuple, in no
   * other bucket, and exactly once in its bucket.
   */
  lemma HashTablesPlaceEachUserOnce(m: Matrix, numBands: nat, b: nat, i: nat)
    requires Shaped(m, numBands) && b < numBands && i < |m|
    ensures var t := AllBucketTables(m, numBands)[b];
      && m[i][b] in t && i in t[m[i][b]]
      && (forall key :: key in t && i in t[key] ==> key == m[i][b])
      && (forall k, l :: 0 <= k < l < |t[m[i][b]]| ==> t[m[i][b]][k] != t[m[i][b]][l])
  {
    var t := AllBucketTables(m, numBands)[b];
    assert m[i][b] in BandValues(m, b, |m|);
    BucketMembers(m, b, m[i][b], |m|);
    BucketAscending(m, b, m[i][b], |m|);
    forall key | key in t && i in t[key] ensures key == m[i][b] {
      BucketMembers(m, b, key, |m|);
    }
  }

  // ---------------------------------------------------------------------------
  // find_similar_users(user_movies, signature_matrix, hash_tables, threshold)
  // ---------------------------------------------------------------------------

  /** The inputs fit together: one user per matrix row, one dict per band. */
  predicate Fits(users: seq<UserMovies>, m: Matrix, numBands: nat, tables: HashTables)
  {
    |users| == |m| && Shaped(m, numBands) && |tables| == numBands
  }

  /** User j is listed under user i's band-b tuple in band b's dict. */
  predicate Collides(m: Matrix, tables: HashTables, i: nat, j: nat, b: nat)
    requires i < |m| && b < |m[i]| && b < |tables|
  {
    m[i][b] in tables[b] && j in tables[b][m[i][b]]
  }

  /**
   * `jaccard_similarity(set(user_movies[i+1]), set(user_movies[j+1]))`:
   * matrix rows are taken by position, but the movies are looked up by id,
   * so a missing id raises KeyError before the Jaccard is computed.
   */
  function PairJaccard(users: seq<UserMovies>, i: nat, j: nat): (r: Result<real>)
    ensures r.Failure? ==> r.error == KeyError || r.error == ZeroDivisionError
    ensures r.Success? ==> 0.0 <= r.value <= 1.0
  {
    match MoviesOf(users, i + 1)
    case Failure(e) => Failure(e)
    case Success(s1) =>
      match MoviesOf(users, j + 1)
      case Failure(e) => Failure(e)
      case Success(s2) => Jaccard(Items(s1), Items(s2))
  }

  /**
   * The lookup raises KeyError exactly when id i+1 or id j+1 is missing;
   * when the ids are 1..n in order it compares the users at positions i and j.
   */
  lemma PairJaccardById(users: seq<UserMovies>, i: nat, j: nat)
    ensures PairJaccard(users, i, j) == Failure(KeyError) <==>
      (forall k :: 0 <= k < |users| ==> users[k].id != i + 1)
      || (forall k :: 0 <= k < |users| ==> users[k].id != j + 1)
    ensures ConsecutiveIds(users) && i < |users| && j < |users| ==>
      PairJaccard(users, i, j) == Jaccard(Items(users[i].movies), Items(users[j].movies))
  {
    if ConsecutiveIds(users) && i < |users| && j < |users| {
      MoviesOfAt(users, i);
      MoviesOfAt(users, j);
    }
  }

  /** The number of bands below nb in which the pair collides. */
  function CollidingBands(m: Matrix, tables: HashTables, i: nat, j: nat, nb: nat): (c: nat)
    requires i < |m| && nb <= |m[i]| && nb <= |tables|
    ensures c <= nb
  {
    if nb == 0 then 0
    else CollidingBands(m, tables, i, j, nb - 1) + (if Collides(m, tables, i, j, nb - 1) then 1 else 0)
  }

  /**
   * The band loop of the pair (i, j) from band b on, after `evaluations`
   * Jaccard evaluations: a colliding band evaluates the exact Jaccard, and
   * the loop breaks with the entry "(i+1)_(j+1)" at the first evaluation
   * that clears the threshold.
   */
  function BandScan(users: seq<UserMovies>, m: Matrix, numBands: nat, tables: HashTables, threshold: real,
                    i: nat, j: nat, b: nat, evaluations: nat): Result<(Option<Entry>, nat)>
    requires Fits(users, m, numBands, tables) && i < |m| && j < |m| && b <= numBands
    decreases numBands - b
  {
    if b == numBands then Success((None, evaluations))
    else if !Collides(m, tables, i, j, b) then BandScan(users, m, numBands, tables, threshold, i, j, b + 1, evaluations)
    else
      match PairJaccard(users, i, j)
      case Failure(e) => Failure(e)
      case Success(v) =>
        if v >= threshold then Success((Some((Key(i + 1, j + 1), v)), evaluations + 1))
        else BandScan(users, m, numBands, tables, threshold, i, j, b + 1, evaluations + 1)
  }

  /** What the band loop of one pair contributes; positions outside the matrix raise. */
  function PairOutcome(users: seq<UserMovies>, m: Matrix, numBands: nat, tables: HashTables, threshold: real, p: (nat, nat))
    : Result<(Option<Entry>, nat)>
    requires Fits(users, m, numBands, tables)
  {
    if p.0 < |m| && p.1 < |m| then BandScan(users, m, numBands, tables, threshold, p.0, p.1, 0, 0)
    else Failure(IndexError)
  }

  /**
   * The outcome of a pair with `colliding` colliding bands still ahead:
   * nothing when there are none; the Jaccard's error; one evaluation and the
   * entry when the Jaccard clears the threshold; otherwise one evaluation per
   * colliding band and no entry.
   */
  function Summary(users: seq<UserMovies>, threshold: real, i: nat, j: nat, colliding: nat, evaluations: nat)
    : Result<(Option<Entry>, nat)>
  {
    if colliding == 0 then Success((None, evaluations))
    else
      match PairJaccard(users, i, j)
      case Failure(e) => Failure(e)
      case Success(v) =>
        if v >= threshold then Success((Some((Key(i + 1, j + 1), v)), evaluations + 1))
        else Success((None, evaluations + colliding))
  }

  lemma {:induction false} BandScanSummary(users: seq<UserMovies>, m: Matrix, numBands: nat, tables: HashTables,
                                           threshold: real, i: nat, j: nat, b: nat, evaluations: nat)
    requires Fits(users, m, numBands, tables) && i < |m| && j < |m| && b <= numBands
    ensures CollidingBands(m, tables, i, j, b) <= CollidingBands(m, tables, i, j, numBands)
    ensures BandScan(users, m, numBands, tables, threshold, i, j, b, evaluations)
      == Summary(users, threshold, i, j,
                 CollidingBands(m, tables, i, j, numBands) - CollidingBands(m, tables, i, j, b), evaluations)
    decreases numBands - b
  {
    CollidingBandsGrow(m, tables, i, j, b, numBands);
    if b < numBands {
      assert CollidingBands(m, tables, i, j, b + 1)
        == CollidingBands(m, tables, i, j, b) + (if Collides(m, tables, i, j, b) then 1 else 0);
      if Collides(m, tables, i, j, b) {
        BandScanSummary(users, m, numBands, tables, threshold, i, j, b + 1, evaluations + 1);
      } else {
        BandScanSummary(users, m, numBands, tables, threshold, i, j, b + 1, evaluations);
      }
    }
  }

  /**
   * A pair's outcome: no entry and no evaluation when no band collides; the
   * lookup's KeyError or the Jaccard's division by zero, at the first
   * colliding band; one evaluation and the entry "(i+1)_(j+1)"
   * when the Jaccard clears the threshold (the loop breaks at the first
   * colliding band); otherwise one evaluation per colliding band.
   */
  lemma PairOutcomeSummary(users: seq<UserMovies>, m: Matrix, numBands: nat, tables: HashTables, threshold: real,
                           i: nat, j: nat)
    requires Fits(users, m, numBands, tables) && i < |m| && j < |m|
    ensures PairOutcome(users, m, numBands, tables, threshold, (i, j))
      == Summary(users, threshold, i, j, CollidingBands(m, tables, i, j, numBands), 0)
    ensures PairOutcome(users, m, numBands, tables, threshold, (i, j)).Failure? ==>
      PairJaccard(users, i, j).Failure?
      && PairOutcome(users, m, numBands, tables, threshold, (i, j)).error == PairJaccard(users, i, j).error
  {
    BandScanSummary(users, m, numBands, tables, threshold, i, j, 0, 0);
  }

  /** The state of the scan: (similar users, true pairs, similarity evaluations). */
  type ScanState = (seq<Entry>, nat, nat)

  function Accumulate(state: ScanState, entry: Option<Entry>, evaluations: nat): ScanState
  {
    var (similar, truePairs, evals) := state;
    if entry.Some? then (similar + [entry.value], truePairs + 1, evals + evaluations)
    else (similar, truePairs, evals + evaluations)
  }

  /** One pair's outcome folded into the scan so far. */
  function Step(acc: Result<ScanState>, outcome: Result<(Option<Entry>, nat)>): Result<ScanState>
  {
    match acc
    case Failure(e) => Failure(e)
    case Success(state) =>
      match outcome
      case Failure(e) => Failure(e)
      case Success((entry, evaluations)) => Success(Accumulate(state, entry, evaluations))
  }

  /** The scan over the pairs `ps`, in order, or the first error. */
  function Scan(users: seq<UserMovies>, m: Matrix, numBands: nat, tables: HashTables, threshold: real, ps: seq<(nat, nat)>)
    : Result<ScanState>
    requires Fits(users, m, numBands, tables)
  {
    if |ps| == 0 then Success(([], 0, 0))
    else
      Step(Scan(users, m, numBands, tables, threshold, ps[..|ps| - 1]),
           PairOutcome(users, m, numBands, tables, threshold, ps[|ps| - 1]))
  }

  lemma ScanSnoc(users: seq<UserMovies>, m: Matrix, numBands: nat, tables: HashTables, threshold: real,
                 ps: seq<(nat, nat)>, p: (nat, nat))
    requires Fits(users, m, numBands, tables)
    ensures Scan(users, m, numBands, tables, threshold, ps + [p]) ==
      Step(Scan(users, m, numBands, tables, threshold, ps), PairOutcome(users, m, numBands, tables, threshold, p))
  {
    assert (ps + [p])[..|ps + [p]| - 1] == ps;
  }

  /** The scan fails exactly when some pair's outcome fails. */
  lemma {:induction false} ScanFails(users: seq<UserMovies>, m: Matrix, numBands: nat, tables: HashTables, threshold: real,
                                     ps: seq<(nat, nat)>)
    requires Fits(users, m, numBands, tables)
    ensures Scan(users, m, numBands, tables, threshold, ps).Failure? <==>
      exists k :: 0 <= k < |ps| && PairOutcome(users, m, numBands, tables, threshold, ps[k]).Failure?
    decreases |ps|
  {
    if |ps| > 0 {
      var init := ps[..|ps| - 1];
      ScanFails(users, m, numBands, tables, threshold, init);
      assert forall k :: 0 <= k < |init| ==> init[k] == ps[k];
      if exists k :: 0 <= k < |ps| && PairOutcome(users, m, numBands, tables, threshold, ps[k]).Failure? {
        var k :| 0 <= k < |ps| && PairOutcome(users, m, numBands, tables, threshold, ps[k]).Failure?;
        if k < |init| {
          assert PairOutcome(users, m, numBands, tables, threshold, init[k]).Failure?;
        }
      }
    }
  }

  /** A failing pair of `combinations`, failing with its lookup's or its Jaccard's error, makes the whole scan fail. */
  lemma PairFailureFailsScan(users: seq<UserMovies>, m: Matrix, numBands: nat, tables: HashTables, threshold: real,
                             i: nat, j: nat)
    requires Fits(users, m, numBands, tables) && i < j < |m|
    requires PairOutcome(users, m, numBands, tables, threshold, (i, j)).Failure?
    ensures Scan(users, m, numBands, tables, threshold, Combinations(|m|)).Failure?
    ensures PairJaccard(users, i, j).Failure?
      && PairOutcome(users, m, numBands, tables, threshold, (i, j)).error == PairJaccard(users, i, j).error
  {
    CombinationsMembers(|m|);
    assert (i, j) in Combinations(|m|);
    var k :| 0 <= k < |Combinations(|m|)| && Combinations(|m|)[k] == (i, j);
    ScanFails(users, m, numBands, tables, threshold, Combinations(|m|));
    PairOutcomeSummary(users, m, numBands, tables, threshold, i, j);
  }

  lemma {:induction false} CollidingBandsGrow(m: Matrix, tables: HashTables, i: nat, j: nat, b: nat, nb: nat)
    requires i < |m| && b <= nb <= |m[i]| && nb <= |tables|
    ensures CollidingBands(m, tables, i, j, b) <= CollidingBands(m, tables, i, j, nb)
    decreases nb - b
  {
    if b < nb {
      CollidingBandsGrow(m, tables, i, j, b, nb - 1);
    }
  }

  /**
   * The band loop of one pair: for each band, looks user i's band tuple up
   * in the band's dict and, when user j is listed there, evaluates the exact
   * Jaccard; stops at the first evaluation that clears the threshold.
   * Returns the entry found, if any, and the number of evaluations.
   */
  method ScanBands(users: seq<UserMovies>, m: Matrix, numBands: nat, tables: HashTables, threshold: real, i: nat, j: nat)
    returns (outcome: Result<(Option<Entry>, nat)>)
    requires Fits(users, m, numBands, tables) && i < j < |m|
    ensures outcome == PairOutcome(users, m, numBands, tables, threshold, (i, j))
  {
    var evaluations := 0;
    var b := 0;
    while b < numBands
      invariant 0 <= b <= numBands
      invariant BandScan(users, m, numBands, tables, threshold, i, j, b, evaluations)
        == BandScan(users, m, numBands, tables, threshold, i, j, 0, 0)
    {
      var hashValue := m[i][b];
      if hashValue in tables[b] && j in tables[b][hashValue] {
        var movies1 := MoviesOf(users, i + 1);
        if movies1.Failure? {
          return Failure(movies1.error);
        }
        var movies2 := MoviesOf(users, j + 1);
        if movies2.Failure? {
          return Failure(movies2.error);
        }
        var s1, s2 := Items(movies1.value), Items(movies2.value);
        var similarity := Jaccard(s1, s2);
        if similarity.Failure? {
          return Failure(similarity.error);
        }
        evaluations := evaluations + 1;
        if similarity.value >= threshold {
          return Success((Some((Key(i + 1, j + 1), similarity.value)), evaluations));
        }
      }
      b := b + 1;
    }
    outcome := Success((None, evaluations));
  }

  /**
   * The scan as the nested loops run it: through row i up to (excluding)
   * column j, each row continuing from the end of the one before.
   */
  function ScanTo(users: seq<UserMovies>, m: Matrix, numBands: nat, tables: HashTables, threshold: real, i: nat, j: nat)
    : Result<ScanState>
    requires Fits(users, m, numBands, tables)
    decreases i, j
  {
    if j > i + 1 then
      Step(ScanTo(users, m, numBands, tables, threshold, i, j - 1),
           PairOutcome(users, m, numBands, tables, threshold, (i, j - 1)))
    else if i == 0 then Success(([], 0, 0))
    else ScanTo(users, m, numBands, tables, threshold, i - 1, |m|)
  }

  /** The nested loops scan the pairs in `combinations` order. */
  lemma {:induction false} ScanToScan(users: seq<UserMovies>, m: Matrix, numBands: nat, tables: HashTables,
                                      threshold: real, i: nat, j: nat)
    requires Fits(users, m, numBands, tables)
    ensures ScanTo(users, m, numBands, tables, threshold, i, j)
      == Scan(users, m, numBands, tables, threshold, PairsBefore(i, |m|) + Row(i, j))
    decreases i, j
  {
    if j > i + 1 {
      ScanToScan(users, m, numBands, tables, threshold, i, j - 1);
      ScanToStep(users, m, numBands, tables, threshold, i, j);
    } else if i > 0 {
      ScanToScan(users, m, numBands, tables, threshold, i - 1, |m|);
      ScanToRowStart(users, m, numBands, tables, threshold, i, j);
    } else {
      PairsThroughRowStart(i, j, |m|);
    }
  }

  lemma ScanToStep(users: seq<UserMovies>, m: Matrix, numBands: nat, tables: HashTables, threshold: real, i: nat, j: nat)
    requires Fits(users, m, numBands, tables) && j > i + 1
    requires ScanTo(users, m, numBands, tables, threshold, i, j - 1)
      == Scan(users, m, numBands, tables, threshold, PairsBefore(i, |m|) + Row(i, j - 1))
    ensures ScanTo(users, m, numBands, tables, threshold, i, j)
      == Scan(users, m, numBands, tables, threshold, PairsBefore(i, |m|) + Row(i, j))
  {
    PairsThroughSnoc(i, j, |m|);
    ScanSnoc(users, m, numBands, tables, threshold, PairsBefore(i, |m|) + Row(i, j - 1), (i, j - 1));
  }

  lemma ScanToRowStart(users: seq<UserMovies>, m: Matrix, numBands: nat, tables: HashTables, threshold: real,
                       i: nat, j: nat)
    requires Fits(users, m, numBands, tables) && 0 < i && j <= i + 1
    requires ScanTo(users, m, numBands, tables, threshold, i - 1, |m|)
      == Scan(users, m, numBands, tables, threshold, PairsBefore(i - 1, |m|) + Row(i - 1, |m|))
    ensures ScanTo(users, m, numBands, tables, threshold, i, j)
      == Scan(users, m, numBands, tables, threshold, PairsBefore(i, |m|) + Row(i, j))
  {
    PairsThroughRowStart(i, j, |m|);
  }

  /**
   * The body of the inner loop for the pair (i, j): its band loop, then the
   * entry found appended to the similar users, the true-pair counter bumped
   * and its evaluations added to the counter.
   */
  method ScanPair(users: seq<UserMovies>, m: Matrix, numBands: nat, tables: HashTables, threshold: real,
                  i: nat, j: nat, state: ScanState)
    returns (res: Result<ScanState>)
    requires Fits(users, m, numBands, tables) && i < j < |m|
    requires ScanTo(users, m, numBands, tables, threshold, i, j) == Success(state)
    ensures res.Success? ==> ScanTo(users, m, numBands, tables, threshold, i, j + 1) == res
    ensures res.Failure? ==> Scan(users, m, numBands, tables, threshold, Combinations(|m|)).Failure?
    ensures res.Failure? ==> (res.error == KeyError || res.error == ZeroDivisionError)
  {
    var outcome := ScanBands(users, m, numBands, tables, threshold, i, j);
    if outcome.Failure? {
      PairFailureFailsScan(users, m, numBands, tables, threshold, i, j);
      return Failure(outcome.error);
    }
    var (similarUsers, truePairs, similarityEvaluations) := state;
    var found, evaluations := outcome.value.0, outcome.value.1;
    if found.Some? {
      similarUsers := similarUsers + [found.value];
      truePairs := truePairs + 1;
    }
    similarityEvaluations := similarityEvaluations + evaluations;
    res := Success((similarUsers, truePairs, similarityEvaluations));
  }

  /** The inner loop of the scan, for row i: the pairs (i, j) for j from i+1 up. */
  method ScanRow(users: seq<UserMovies>, m: Matrix, numBands: nat, tables: HashTables, threshold: real,
                 i: nat, state: ScanState)
    returns (res: Result<ScanState>)
    requires Fits(users, m, numBands, tables) && i < |m|
    requires ScanTo(users, m, numBands, tables, threshold, i, i + 1) == Success(state)
    ensures res.Success? ==> ScanTo(users, m, numBands, tables, threshold, i, |m|) == res
    ensures res.Failure? ==> Scan(users, m, numBands, tables, threshold, Combinations(|m|)).Failure?
    ensures res.Failure? ==> (res.error == KeyError || res.error == ZeroDivisionError)
  {
    var current := state;
    for j := i + 1 to |m|
      invariant ScanTo(users, m, numBands, tables, threshold, i, j) == Success(current)
    {
      res := ScanPair(users, m, numBands, tables, threshold, i, j, current);
      if res.Failure? {
        return;
      }
      current := res.value;
    }
    res := Success(current);
  }

  /**
   * The nested loops over the pairs i < j, in order: adds each pair's
   * evaluations to the counter and records the pairs found.
   */
  method ScanPairs(users: seq<UserMovies>, m: Matrix, numBands: nat, tables: HashTables, threshold: real)
    returns (res: Result<ScanState>)
    requires Fits(users, m, numBands, tables)
    ensures var scan := Scan(users, m, numBands, tables, threshold, Combinations(|m|));
      && (res.Failure? <==> scan.Failure?)
      && (res.Failure? ==> (res.error == KeyError || res.error == ZeroDivisionError))
      && (res.Success? ==> res.value == scan.value)
  {
    var n := |m|;
    var state: ScanState := ([], 0, 0);
    for i := 0 to n
      invariant ScanTo(users, m, numBands, tables, threshold, i, i + 1) == Success(state)
    {
      var row := ScanRow(users, m, numBands, tables, threshold, i, state);
      if row.Failure? {
        return row;
      }
      state := row.value;
    }
    ScanToScan(users, m, numBands, tables, threshold, n, n + 1);
    assert PairsBefore(n, n) + Row(n, n + 1) == Combinations(n);
    res := Success(state);
  }

  /**
   * `find_similar_users`: the scan of all pairs, with the found pairs sorted
   * by descending similarity.
   */
  method FindSimilarUsers(users: seq<UserMovies>, m: Matrix, numBands: nat, tables: HashTables, threshold: real)
    returns (res: Result<ScanState>)
    requires Fits(users, m, numBands, tables)
    ensures var scan := Scan(users, m, numBands, tables, threshold, Combinations(|m|));
      && (res.Failure? <==> scan.Failure?)
      && (res.Failure? ==> (res.error == KeyError || res.error == ZeroDivisionError))
      && (res.Success? ==> res.value == (SortDesc(scan.value.0, Score), scan.value.1, scan.value.2))
  {
    res := ScanPairs(users, m, numBands, tables, threshold);
    if res.Success? {
      var (similarUsers, truePairs, similarityEvaluations) := res.value;
      res := Success((SortDesc(similarUsers, Score), truePairs, similarityEvaluations));
    }
  }

  // ---------------------------------------------------------------------------
  // What the scan reports
  // ---------------------------------------------------------------------------

  /** A found entry costs at least one evaluation. */
  lemma FoundEntryEvaluated(users: seq<UserMovies>, m: Matrix, numBands: nat, tables: HashTables, threshold: real,
                            p: (nat, nat), e: Entry, evaluations: nat)
    requires Fits(users, m, numBands, tables)
    requires PairOutcome(users, m, numBands, tables, threshold, p) == Success((Some(e), evaluations))
    ensures p.0 < |m| && p.1 < |m| && evaluations == 1
    ensures CollidingBands(m, tables, p.0, p.1, numBands) > 0
    ensures PairJaccard(users, p.0, p.1) == Success(e.1)
    ensures e.1 >= threshold && e.0 == Key(p.0 + 1, p.1 + 1)
  {
    PairOutcomeSummary(users, m, numBands, tables, threshold, p.0, p.1);
  }

  /** A successful scan is the successful scan of all but its last pair, accumulated with that pair's outcome. */
  lemma ScanLast(users: seq<UserMovies>, m: Matrix, numBands: nat, tables: HashTables, threshold: real,
                 ps: seq<(nat, nat)>)
    requires Fits(users, m, numBands, tables) && |ps| > 0
    requires Scan(users, m, numBands, tables, threshold, ps).Success?
    ensures var init := Scan(users, m, numBands, tables, threshold, ps[..|ps| - 1]);
      var outcome := PairOutcome(users, m, numBands, tables, threshold, ps[|ps| - 1]);
      && init.Success? && outcome.Success?
      && Scan(users, m, numBands, tables, threshold, ps).value == Accumulate(init.value, outcome.value.0, outcome.value.1)
  {
  }

  /** `true_pairs` counts the pairs found, and each of them was an evaluation. */
  lemma {:induction false} ScanCounters(users: seq<UserMovies>, m: Matrix, numBands: nat, tables: HashTables,
                                        threshold: real, ps: seq<(nat, nat)>)
    requires Fits(users, m, numBands, tables)
    requires Scan(users, m, numBands, tables, threshold, ps).Success?
    ensures var (similar, truePairs, evaluations) := Scan(users, m, numBands, tables, threshold, ps).value;
      truePairs == |similar| <= evaluations
    decreases |ps|
  {
    if |ps| > 0 {
      var init, p := ps[..|ps| - 1], ps[|ps| - 1];
      ScanLast(users, m, numBands, tables, threshold, ps);
      ScanCounters(users, m, numBands, tables, threshold, init);
      var outcome := PairOutcome(users, m, numBands, tables, threshold, p);
      if outcome.value.0.Some? {
        FoundEntryEvaluated(users, m, numBands, tables, threshold, p, outcome.value.0.value, outcome.value.1);
      }
    }
  }

  /**
   * A scanned pair that collides in some band and whose Jaccard clears the
   * threshold is reported, under the key "(i+1)_(j+1)".
   */
  lemma {:induction false} ScanFindsPair(users: seq<UserMovies>, m: Matrix, numBands: nat, tables: HashTables,
                                         threshold: real, ps: seq<(nat, nat)>, k: nat, i: nat, j: nat, v: real)
    requires Fits(users, m, numBands, tables) && i < |m| && j < |m|
    requires Scan(users, m, numBands, tables, threshold, ps).Success?
    requires k < |ps| && ps[k] == (i, j)
    requires CollidingBands(m, tables, i, j, numBands) > 0
    requires PairJaccard(users, i, j) == Success(v) && v >= threshold
    ensures (Key(i + 1, j + 1), v) in Scan(users, m, numBands, tables, threshold, ps).value.0
    decreases |ps|
  {
    ScanLast(users, m, numBands, tables, threshold, ps);
    if k == |ps| - 1 {
      PairOutcomeSummary(users, m, numBands, tables, threshold, i, j);
    } else {
      var init := ps[..|ps| - 1];
      assert init[k] == ps[k];
      ScanFindsPair(users, m, numBands, tables, threshold, init, k, i, j, v);
    }
  }

  /** Every reported entry is a scanned pair that collides in some band and clears the threshold. */
  lemma {:induction false} ScanOnlyFound(users: seq<UserMovies>, m: Matrix, numBands: nat, tables: HashTables,
                                         threshold: real, ps: seq<(nat, nat)>, e: Entry)
    returns (k: nat)
    requires Fits(users, m, numBands, tables)
    requires Scan(users, m, numBands, tables, threshold, ps).Success?
    requires e in Scan(users, m, numBands, tables, threshold, ps).value.0
    ensures k < |ps| && ps[k].0 < |m| && ps[k].1 < |m|
    ensures CollidingBands(m, tables, ps[k].0, ps[k].1, numBands) > 0
    ensures PairJaccard(users, ps[k].0, ps[k].1) == Success(e.1)
    ensures e.1 >= threshold && e.0 == Key(ps[k].0 + 1, ps[k].1 + 1)
    decreases |ps|
  {
    var init, p := ps[..|ps| - 1], ps[|ps| - 1];
    var outcome := PairOutcome(users, m, numBands, tables, threshold, p);
    ScanLast(users, m, numBands, tables, threshold, ps);
    if e in Scan(users, m, numBands, tables, threshold, init).value.0 {
      k := ScanOnlyFound(users, m, numBands, tables, threshold, init, e);
      assert init[k] == ps[k];
    } else {
      FoundEntryEvaluated(users, m, numBands, tables, threshold, p, e, outcome.value.1);
      k := |ps| - 1;
    }
  }

  /**
   * With the dicts built from the matrix, users i and j collide in band b
   * exactly when their band-b tuples are equal.
   */
  lemma CollidesIffSameBand(m: Matrix, numBands: nat, i: nat, j: nat, b: nat)
    requires Shaped(m, numBands) && i < |m| && j < |m| && b < numBands
    ensures Collides(m, AllBucketTables(m, numBands), i, j, b) <==> m[i][b] == m[j][b]
  {
    assert m[i][b] in BandValues(m, b, |m|);
    BucketMembers(m, b, m[i][b], |m|);
  }

  /** Some band below nb collides exactly when the count of colliding bands is positive. */
  lemma {:induction false} CollidingBandCounted(m: Matrix, tables: HashTables, i: nat, j: nat, nb: nat, b: nat)
    requires i < |m| && nb <= |m[i]| && nb <= |tables| && b < nb
    requires Collides(m, tables, i, j, b)
    ensures CollidingBands(m, tables, i, j, nb) > 0
    decreases nb
  {
    if b < nb - 1 {
      CollidingBandCounted(m, tables, i, j, nb - 1, b);
    }
  }

  lemma {:induction false} CollidingBandWitness(m: Matrix, tables: HashTables, i: nat, j: nat, nb: nat)
    returns (b: nat)
    requires i < |m| && nb <= |m[i]| && nb <= |tables|
    requires CollidingBands(m, tables, i, j, nb) > 0
    ensures b < nb && Collides(m, tables, i, j, b)
    decreases nb
  {
    if Collides(m, tables, i, j, nb - 1) {
      b := nb - 1;
    } else {
      b := CollidingBandWitness(m, tables, i, j, nb - 1);
    }
  }

  /**
   * LSH finds every pair i < j that shares a band tuple and whose exact
   * Jaccard (of ids i+1 and j+1) clears the threshold: it is in the sorted
   * dict `find_similar_users` returns.
   */
  lemma LshFindsPair(users: seq<UserMovies>, m: Matrix, numBands: nat, threshold: real,
                     i: nat, j: nat, b: nat, v: real)
    requires |users| == |m| && Shaped(m, numBands) && i < j < |m| && b < numBands
    requires Scan(users, m, numBands, AllBucketTables(m, numBands), threshold, Combinations(|m|)).Success?
    requires m[i][b] == m[j][b]
    requires PairJaccard(users, i, j) == Success(v) && v >= threshold
    ensures (Key(i + 1, j + 1), v)
      in SortDesc(Scan(users, m, numBands, AllBucketTables(m, numBands), threshold, Combinations(|m|)).value.0, Score)
  {
    var tables := AllBucketTables(m, numBands);
    var found := Scan(users, m, numBands, tables, threshold, Combinations(|m|)).value.0;
    CollidesIffSameBand(m, numBands, i, j, b);
    CollidingBandCounted(m, tables, i, j, numBands, b);
    CombinationsMembers(|m|);
    assert (i, j) in Combinations(|m|);
    var k :| 0 <= k < |Combinations(|m|)| && Combinations(|m|)[k] == (i, j);
    ScanFindsPair(users, m, numBands, tables, threshold, Combinations(|m|), k, i, j, v);
    SortDescMembers(found, Score);
  }

  /**
   * LSH reports no false positive: every entry of the sorted dict
   * `find_similar_users` returns is a pair i < j that shares
   * a band tuple, keyed "(i+1)_(j+1)", with its exact Jaccard at or above
   * the threshold.
   */
  lemma LshReportsOnlySimilarPairs(users: seq<UserMovies>, m: Matrix, numBands: nat, threshold: real, e: Entry)
    returns (i: nat, j: nat, b: nat)
    requires |users| == |m| && Shaped(m, numBands)
    requires Scan(users, m, numBands, AllBucketTables(m, numBands), threshold, Combinations(|m|)).Success?
    requires e in SortDesc(Scan(users, m, numBands, AllBucketTables(m, numBands), threshold, Combinations(|m|)).value.0, Score)
    ensures i < j < |m| && b < numBands && m[i][b] == m[j][b]
    ensures PairJaccard(users, i, j) == Success(e.1)
    ensures e.1 >= threshold && e.0 == Key(i + 1, j + 1)
  {
    var tables := AllBucketTables(m, numBands);
    var pairs := Combinations(|m|);
    SortDescMembers(Scan(users, m, numBands, tables, threshold, pairs).value.0, Score);
    var k := ScanOnlyFound(users, m, numBands, tables, threshold, pairs, e);
    CombinationsAt(|m|, k);
    i, j := pairs[k].0, pairs[k].1;
    b := CollidingBandWitness(m, tables, i, j, numBands);
    CollidesIffSameBand(m, numBands, i, j, b);
  }

  /**
   * `user_similarity_using_lsh`: the signatures of `num_bands *
   * num_rows_per_band` hash functions, reshaped into bands, hashed into one
   * dict per band, then scanned.
   */
  method UserSimilarityUsingLsh(users: seq<UserMovies>, numBands: nat, rows: nat, R: int,
                                as_: seq<int>, bs: seq<int>, threshold: real)
    returns (res: Result<ScanState>)
    requires R > 0 && |as_| == |bs| == numBands * rows && Sampled(as_, R) && Sampled(bs, R)
    ensures var m := Reshape(AllSignatures(users, as_, bs, R), numBands, rows);
      var scan := Scan(users, m, numBands, AllBucketTables(m, numBands), threshold, Combinations(|m|));
      && (res.Failure? <==> scan.Failure?)
      && (res.Failure? ==> (res.error == KeyError || res.error == ZeroDivisionError))
      && (res.Success? ==> res.value == (SortDesc(scan.value.0, Score), scan.value.1, scan.value.2))
  {
    var signatures := ComputeUserSignatures(users, as_, bs, R);
    var m := Reshape(signatures, numBands, rows);
    var tables := CreateHashTables(m, numBands);
    assert tables == AllBucketTables(m, numBands);
    res := FindSimilarUsers(users, m, numBands, tables, threshold);
  }
}
