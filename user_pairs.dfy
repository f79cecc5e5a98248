/**
 * What the three similarity scripts share: the user table (a dict from user
 * id to the list of movies the user has seen, in insertion order), the pair
 * key `str(u1) + "_" + str(u2)` and its parsing, the pair order of
 * `itertools.combinations(keys, 2)`, and the pair table a loop over those
 * pairs fills.
 */
module UserPairs {
  import opened Results
  import opened Strings

  /** One item of the `user_movies` dict. */
  datatype UserMovies = UserMovies(id: int, movies: seq<int>)

  /** Dict keys are distinct. */
  predicate DistinctIds(users: seq<UserMovies>)
  {
    forall i, j :: 0 <= i < j < |users| ==> users[i].id != users[j].id
  }

  /** `set(movie_list)` */
  function Items(s: seq<int>): (r: set<int>)
    ensures forall x :: x in r <==> x in s
  {
    set x | x in s
  }

  /** The ids of the users, in the mapping's order. */
  function Ids(users: seq<UserMovies>): (ids: seq<int>)
    ensures |ids| == |users| && forall k :: 0 <= k < |users| ==> ids[k] == users[k].id
  {
    seq(|users|, k requires 0 <= k < |users| => users[k].id)
  }

  /** A similarity dict, in its iteration order: (pair key, score). */
  type Entry = (string, real)

  function Score(e: Entry): real { e.1 }

  /** The keys of a dict are distinct. */
  predicate DistinctKeys(d: seq<Entry>)
  {
    forall k, l :: 0 <= k < l < |d| ==> d[k].0 != d[l].0
  }

  /** `d[key]` on a dict held as its entries: the value of the first entry with that key. */
  function Lookup(d: seq<Entry>, key: string): (r: Option<real>)
    ensures r.Some? <==> exists k :: 0 <= k < |d| && d[k].0 == key
    decreases |d|
  {
    if |d| == 0 then None
    else if d[0].0 == key then Some(d[0].1)
    else
      var r := Lookup(d[1..], key);
      assert r.Some? ==> exists k :: 0 <= k < |d| && d[k].0 == key by {
        if r.Some? {
          var k :| 0 <= k < |d[1..]| && d[1..][k].0 == key;
          assert d[k + 1].0 == key;
        }
      }
      assert (exists k :: 0 <= k < |d| && d[k].0 == key) ==> r.Some? by {
        if exists k :: 0 <= k < |d| && d[k].0 == key {
          var k :| 0 <= k < |d| && d[k].0 == key;
          assert d[1..][k - 1].0 == key;
        }
      }
      r
  }

  /** With distinct keys, looking up an entry's key gives that entry's value. */
  lemma {:induction false} LookupFindsEntry(d: seq<Entry>, k: nat)
    requires DistinctKeys(d) && k < |d|
    ensures Lookup(d, d[k].0) == Some(d[k].1)
    decreases k
  {
    if k > 0 {
      assert d[0].0 != d[k].0;
      LookupFindsEntry(d[1..], k - 1);
    }
  }

  // ---------------------------------------------------------------------------
  // Pair keys
  // ---------------------------------------------------------------------------

  /** `str(u1) + "_" + str(u2)` */
  function Key(u1: int, u2: int): string
  {
    IntToString(u1) + "_" + IntToString(u2)
  }

  /**
   * `int(key.split('_')[0])`, then `int(key.split('_')[1])`: the first id is
   * parsed before the second piece is indexed.
   */
  function ParseKey(key: string): Result<(int, int)>
  {
    var parts := Split(key, "_");
    match ParseInt(parts[0])
    case Failure(e) => Failure(e)
    case Success(u1) =>
      if |parts| < 2 then Failure(IndexError)
      else
        match ParseInt(parts[1])
        case Failure(e) => Failure(e)
        case Success(u2) => Success((u1, u2))
  }

  /** A key parses back to the two ids it was built from. */
  lemma KeyRoundTrip(u1: int, u2: int)
    ensures ParseKey(Key(u1, u2)) == Success((u1, u2))
  {
    var x, y := IntToString(u1), IntToString(u2);
    forall k: nat | k < |x| ensures !OccursAt(x + "_" + y, "_", k) {
      assert (x + "_" + y)[k] == x[k];
    }
    SplitAtFirstSeparator(x, "_", y);
    assert '_' !in y;
    MissingCharMeansNoOccurrence(y, "_", 0);
    SplitWithoutSeparator(y, "_");
    assert Key(u1, u2) == x + "_" + y;
    ParseIntRoundTrip(u1);
    ParseIntRoundTrip(u2);
  }

  /** Distinct id pairs give distinct keys. */
  lemma KeyInjective(u1: int, u2: int, v1: int, v2: int)
    requires Key(u1, u2) == Key(v1, v2)
    ensures u1 == v1 && u2 == v2
  {
    KeyRoundTrip(u1, u2);
    KeyRoundTrip(v1, v2);
  }

  // ---------------------------------------------------------------------------
  // itertools.combinations(range(n), 2)
  // ---------------------------------------------------------------------------

  /** The pairs (i, i+1), ..., (i, j-1). */
  function Row(i: nat, j: nat): seq<(nat, nat)>
    decreases j
  {
    if j <= i + 1 then [] else Row(i, j - 1) + [(i, j - 1)]
  }

  /** The rows 0 .. i-1 of the pairs of `range(n)`. */
  function PairsBefore(i: nat, n: nat): seq<(nat, nat)>
    decreases i
  {
    if i == 0 then [] else PairsBefore(i - 1, n) + Row(i - 1, n)
  }

  /** Within row i, column j - 1 follows the pairs before it. */
  lemma PairsThroughSnoc(i: nat, j: nat, n: nat)
    requires j > i + 1
    ensures PairsBefore(i, n) + Row(i, j) == (PairsBefore(i, n) + Row(i, j - 1)) + [(i, j - 1)]
  {
  }

  /** Before column i + 1 of row i come exactly the rows before i. */
  lemma PairsThroughRowStart(i: nat, j: nat, n: nat)
    requires j <= i + 1
    ensures PairsBefore(i, n) + Row(i, j) == if i == 0 then [] else PairsBefore(i - 1, n) + Row(i - 1, n)
  {
    assert Row(i, j) == [];
  }

  /** Index pairs in the order `combinations(range(n), 2)` yields them. */
  function Combinations(n: nat): seq<(nat, nat)>
  {
    PairsBefore(n, n)
  }

  lemma {:induction false} RowMembers(i: nat, j: nat)
    ensures forall a: nat, b: nat :: (a, b) in Row(i, j) <==> a == i && i < b < j
    ensures |Row(i, j)| == if j <= i + 1 then 0 else j - i - 1
    decreases j
  {
    if j > i + 1 {
      RowMembers(i, j - 1);
    }
  }

  lemma {:induction false} RowMember(i: nat, j: nat, a: nat, b: nat)
    ensures (a, b) in Row(i, j) <==> a == i && i < b < j
    decreases j
  {
    if j > i + 1 {
      RowMember(i, j - 1, a, b);
      assert Row(i, j) == Row(i, j - 1) + [(i, j - 1)];
    }
  }

  lemma PairsBeforeMembers(i: nat, n: nat)
    ensures forall a: nat, b: nat :: (a, b) in PairsBefore(i, n) <==> a < i && a < b < n
  {
    forall a: nat, b: nat ensures (a, b) in PairsBefore(i, n) <==> a < i && a < b < n {
      PairsBeforeMember(i, n, a, b);
    }
  }

  lemma {:induction false} PairsBeforeMember(i: nat, n: nat, a: nat, b: nat)
    ensures (a, b) in PairsBefore(i, n) <==> a < i && a < b < n
    decreases i
  {
    if i > 0 {
      var A, B := PairsBefore(i - 1, n), Row(i - 1, n);
      assert PairsBefore(i, n) == A + B;
      PairsBeforeMember(i - 1, n, a, b);
      RowMember(i - 1, n, a, b);
      assert (a, b) in A + B <==> (a, b) in A || (a, b) in B;
    }
  }

  lemma {:induction false} PairsBeforeLength(i: nat, n: nat)
    requires i <= n
    ensures 2 * |PairsBefore(i, n)| == i * (2 * n - i - 1)
    decreases i
  {
    if i > 0 {
      PairsBeforeLength(i - 1, n);
      RowMembers(i - 1, n);
      assert |Row(i - 1, n)| == n - i;
      RowCountStep(i, n);
    }
  }

  /** The arithmetic of one row: (i−1)(2n−i) + 2(n−i) = i(2n−i−1). */
  lemma RowCountStep(i: int, n: int)
    ensures (i - 1) * (2 * n - i) + 2 * (n - i) == i * (2 * n - i - 1)
  {
    assert (i - 1) * (2 * n - i) == i * (2 * n - i) - (2 * n - i);
    assert i * (2 * n - i) == i * (2 * n - i - 1) + i;
  }

  /** Every unordered pair of positions appears, and there are n·(n−1)/2 of them. */
  lemma CombinationsMembers(n: nat)
    ensures forall a: nat, b: nat :: (a, b) in Combinations(n) <==> a < b < n
    ensures 2 * |Combinations(n)| == n * (n - 1)
  {
    PairsBeforeMembers(n, n);
    PairsBeforeLength(n, n);
  }

  /** Pair k of `combinations(range(n), 2)` is a pair i < j < n. */
  lemma CombinationsAt(n: nat, k: nat)
    requires k < |Combinations(n)|
    ensures Combinations(n)[k].0 < Combinations(n)[k].1 < n
  {
    var p := Combinations(n)[k];
    assert p in Combinations(n);
    PairsBeforeMember(n, n, p.0, p.1);
  }

  /** Strict lexicographic order of pairs. */
  predicate LexLess(p: (nat, nat), q: (nat, nat))
  {
    p.0 < q.0 || (p.0 == q.0 && p.1 < q.1)
  }

  predicate LexIncreasing(s: seq<(nat, nat)>)
  {
    forall k, l :: 0 <= k < l < |s| ==> LexLess(s[k], s[l])
  }

  lemma {:induction false} RowIncreasing(i: nat, j: nat)
    ensures LexIncreasing(Row(i, j))
    decreases j
  {
    if j > i + 1 {
      RowIncreasing(i, j - 1);
      RowMembers(i, j - 1);
      var r := Row(i, j - 1);
      forall k | 0 <= k < |r| ensures LexLess(r[k], (i, j - 1)) {
        assert r[k] in r;
      }
    }
  }

  /** Two increasing runs, the first wholly below the second, make one. */
  lemma LexConcat(a: seq<(nat, nat)>, b: seq<(nat, nat)>)
    requires LexIncreasing(a) && LexIncreasing(b)
    requires forall k, l :: 0 <= k < |a| && 0 <= l < |b| ==> LexLess(a[k], b[l])
    ensures LexIncreasing(a + b)
  {
    var c := a + b;
    forall k, l | 0 <= k < l < |c| ensures LexLess(c[k], c[l]) {
      if l < |a| {
        assert c[k] == a[k] && c[l] == a[l];
      } else if k < |a| {
        assert c[k] == a[k] && c[l] == b[l - |a|];
      } else {
        assert c[k] == b[k - |a|] && c[l] == b[l - |a|];
      }
    }
  }

  /** Every pair of `s` has its first position below `i`. */
  predicate FirstBelow(s: seq<(nat, nat)>, i: nat)
  {
    forall k :: 0 <= k < |s| ==> s[k].0 < i
  }

  lemma {:induction false} RowFirst(i: nat, j: nat)
    ensures forall k :: 0 <= k < |Row(i, j)| ==> Row(i, j)[k].0 == i
    decreases j
  {
    if j > i + 1 {
      RowFirst(i, j - 1);
    }
  }

  lemma {:induction false} PairsBeforeFirstBelow(i: nat, n: nat)
    ensures FirstBelow(PairsBefore(i, n), i)
    decreases i
  {
    if i > 0 {
      PairsBeforeFirstBelow(i - 1, n);
      RowFirst(i - 1, n);
      var a, b := PairsBefore(i - 1, n), Row(i - 1, n);
      var c: seq<(nat, nat)> := a + b;
      assert PairsBefore(i, n) == c;
      forall k | 0 <= k < |c| ensures c[k].0 < i {
        if k < |a| {
          assert c[k] == a[k];
        } else {
          assert c[k] == b[k - |a|];
        }
      }
    }
  }

  lemma {:induction false} PairsBeforeIncreasing(i: nat, n: nat)
    ensures LexIncreasing(PairsBefore(i, n))
    decreases i
  {
    if i > 0 {
      PairsBeforeIncreasing(i - 1, n);
      RowIncreasing(i - 1, n);
      PairsBeforeFirstBelow(i - 1, n);
      RowFirst(i - 1, n);
      LexConcat(PairsBefore(i - 1, n), Row(i - 1, n));
    }
  }

  /** `combinations` lists the pairs in strictly increasing order, so each once. */
  lemma CombinationsIncreasing(n: nat)
    ensures LexIncreasing(Combinations(n))
  {
    PairsBeforeIncreasing(n, n);
  }

  // ---------------------------------------------------------------------------
  // The dict a loop over pairs fills: key -> score
  // ---------------------------------------------------------------------------

  /** The entry one pair contributes: its key and score, or the error looking it up raises. */
  function PairResult(ids: seq<int>, score: (nat, nat) -> Result<real>, p: (nat, nat)): Result<Entry>
  {
    if p.0 < |ids| && p.1 < |ids| then
      match score(p.0, p.1)
      case Failure(e) => Failure(e)
      case Success(v) => Success((Key(ids[p.0], ids[p.1]), v))
    else Failure(KeyError)
  }

  /**
   * The entries the loop `for u1, u2 in pairs: d[str(u1)+"_"+str(u2)] = score(u1, u2)`
   * appends, or the first error a score raises.
   */
  function PairTable(ids: seq<int>, score: (nat, nat) -> Result<real>, ps: seq<(nat, nat)>): Result<seq<Entry>>
    decreases |ps|
  {
    if |ps| == 0 then Success([])
    else
      match PairTable(ids, score, ps[..|ps| - 1])
      case Failure(e) => Failure(e)
      case Success(t) =>
        match PairResult(ids, score, ps[|ps| - 1])
        case Failure(e) => Failure(e)
        case Success(entry) => Success(t + [entry])
  }

  /** A pair whose entry can be made. */
  predicate PairOk(ids: seq<int>, score: (nat, nat) -> Result<real>, p: (nat, nat))
  {
    p.0 < |ids| && p.1 < |ids| && score(p.0, p.1).Success?
  }

  /** Every pair of `ps` can make its entry. */
  predicate AllPairsOk(ids: seq<int>, score: (nat, nat) -> Result<real>, ps: seq<(nat, nat)>)
  {
    forall k :: 0 <= k < |ps| ==> PairOk(ids, score, ps[k])
  }

  lemma AllPairsOkSnoc(ids: seq<int>, score: (nat, nat) -> Result<real>, ps: seq<(nat, nat)>)
    requires |ps| > 0
    ensures AllPairsOk(ids, score, ps) <==>
      AllPairsOk(ids, score, ps[..|ps| - 1]) && PairOk(ids, score, ps[|ps| - 1])
  {
    var init := ps[..|ps| - 1];
    if AllPairsOk(ids, score, init) && PairOk(ids, score, ps[|ps| - 1]) {
      forall k | 0 <= k < |ps| ensures PairOk(ids, score, ps[k]) {
        if k < |init| {
          assert ps[k] == init[k];
        }
      }
    }
  }

  /** The table fails exactly when some pair fails. */
  lemma {:induction false} PairTableFails(ids: seq<int>, score: (nat, nat) -> Result<real>, ps: seq<(nat, nat)>)
    ensures PairTable(ids, score, ps).Success? <==> AllPairsOk(ids, score, ps)
    decreases |ps|
  {
    if |ps| > 0 {
      var init, p := ps[..|ps| - 1], ps[|ps| - 1];
      PairTableFails(ids, score, init);
      AllPairsOkSnoc(ids, score, ps);
      assert PairResult(ids, score, p).Success? <==> PairOk(ids, score, p);
    }
  }

  /** Entry k of a successful table is pair k's key and score. */
  lemma {:induction false} PairTableEntries(ids: seq<int>, score: (nat, nat) -> Result<real>, ps: seq<(nat, nat)>)
    requires PairTable(ids, score, ps).Success?
    ensures var t := PairTable(ids, score, ps).value;
      |t| == |ps| &&
      forall k :: 0 <= k < |ps| ==>
        PairOk(ids, score, ps[k]) &&
        t[k] == (Key(ids[ps[k].0], ids[ps[k].1]), score(ps[k].0, ps[k].1).value)
    decreases |ps|
  {
    PairTableFails(ids, score, ps);
    if |ps| > 0 {
      var init, p := ps[..|ps| - 1], ps[|ps| - 1];
      assert PairTable(ids, score, init).Success?;
      PairTableEntries(ids, score, init);
      var ti := PairTable(ids, score, init).value;
      var t := PairTable(ids, score, ps).value;
      assert t == ti + [(Key(ids[p.0], ids[p.1]), score(p.0, p.1).value)];
      forall k | 0 <= k < |ps|
        ensures t[k] == (Key(ids[ps[k].0], ids[ps[k].1]), score(ps[k].0, ps[k].1).value)
      {
        if k < |init| { assert init[k] == ps[k]; }
      }
    }
  }

  /** Entry k of a successful table is pair k's key and score. */
  lemma PairTableEntry(ids: seq<int>, score: (nat, nat) -> Result<real>, ps: seq<(nat, nat)>, k: nat)
    requires PairTable(ids, score, ps).Success? && k < |ps|
    ensures |PairTable(ids, score, ps).value| == |ps|
    ensures PairOk(ids, score, ps[k])
    ensures PairTable(ids, score, ps).value[k] == (Key(ids[ps[k].0], ids[ps[k].1]), score(ps[k].0, ps[k].1).value)
  {
    PairTableEntries(ids, score, ps);
  }

  /** A pair whose entry cannot be made makes the table over any sequence holding it fail. */
  lemma PairTableFailure(ids: seq<int>, score: (nat, nat) -> Result<real>, ps: seq<(nat, nat)>, k: nat)
    requires k < |ps| && !PairOk(ids, score, ps[k])
    ensures PairTable(ids, score, ps).Failure?
  {
    PairTableFails(ids, score, ps);
  }

  /** A pair whose entry can be made extends a successful table by that entry. */
  lemma PairTableExtend(ids: seq<int>, score: (nat, nat) -> Result<real>, ps: seq<(nat, nat)>, p: (nat, nat),
                        t: seq<Entry>, entry: Entry)
    requires PairTable(ids, score, ps) == Success(t)
    requires PairResult(ids, score, p) == Success(entry)
    ensures PairTable(ids, score, ps + [p]) == Success(t + [entry])
  {
    assert (ps + [p])[..|ps + [p]| - 1] == ps;
  }

  /** With distinct ids, the table over `combinations` has distinct keys. */
  lemma PairTableKeysDistinct(ids: seq<int>, score: (nat, nat) -> Result<real>)
    requires forall i, j :: 0 <= i < j < |ids| ==> ids[i] != ids[j]
    requires PairTable(ids, score, Combinations(|ids|)).Success?
    ensures var t := PairTable(ids, score, Combinations(|ids|)).value;
      forall k, l :: 0 <= k < l < |t| ==> t[k].0 != t[l].0
  {
    var ps := Combinations(|ids|);
    PairTableEntries(ids, score, ps);
    CombinationsIncreasing(|ids|);
    CombinationsMembers(|ids|);
    var t := PairTable(ids, score, ps).value;
    forall k, l | 0 <= k < l < |t| ensures t[k].0 != t[l].0 {
      var p, q := ps[k], ps[l];
      assert p in ps && q in ps;
      assert LexLess(p, q);
      if t[k].0 == t[l].0 {
        KeyInjective(ids[p.0], ids[p.1], ids[q.0], ids[q.1]);
        assert false;
      }
    }
  }

  /** Over `combinations`, every pair i < j has its entry in a successful table. */
  lemma AllPairsTableHasPair(ids: seq<int>, score: (nat, nat) -> Result<real>, i: nat, j: nat)
    requires PairTable(ids, score, Combinations(|ids|)).Success?
    requires i < j < |ids|
    ensures score(i, j).Success?
    ensures (Key(ids[i], ids[j]), score(i, j).value) in PairTable(ids, score, Combinations(|ids|)).value
  {
    var ps := Combinations(|ids|);
    var t := PairTable(ids, score, ps).value;
    PairTableEntries(ids, score, ps);
    CombinationsMembers(|ids|);
    assert (i, j) in ps;
    var k :| 0 <= k < |ps| && ps[k] == (i, j);
    assert t[k] == (Key(ids[i], ids[j]), score(i, j).value);
  }

  /** Over `combinations`, every entry of a successful table is the entry of some pair i < j. */
  lemma AllPairsTableOnlyPairs(ids: seq<int>, score: (nat, nat) -> Result<real>, e: Entry) returns (i: nat, j: nat)
    requires PairTable(ids, score, Combinations(|ids|)).Success?
    requires e in PairTable(ids, score, Combinations(|ids|)).value
    ensures i < j < |ids| && score(i, j).Success? && e == (Key(ids[i], ids[j]), score(i, j).value)
  {
    var ps := Combinations(|ids|);
    var t := PairTable(ids, score, ps).value;
    PairTableEntries(ids, score, ps);
    CombinationsMembers(|ids|);
    var k :| 0 <= k < |t| && t[k] == e;
    assert ps[k] in ps;
    i, j := ps[k].0, ps[k].1;
  }
}
