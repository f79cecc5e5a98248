/**
 * `generate_random_hash_functions_and_compute_user_signatures`, which
 * `min_hash_similarity.py` and `lsh_similarity.py` both define with the same
 * body. The hash coefficients that the source draws with `random.sample`
 * are inputs here.
 */
module MinHashSignatures {
  import opened UserPairs

  /** The hash function `(a*x + b) % R`, for a modulus R > 0, so the floor and Euclidean remainders agree. */
  function Hash(a: int, b: int, R: int, x: int): (h: int)
    requires R > 0
    ensures 0 <= h < R
  {
    (a * x + b) % R
  }

  /** `random.sample(range(R), k)`: distinct values in [0, R). */
  predicate Sampled(coefficients: seq<int>, R: int)
  {
    && (forall i :: 0 <= i < |coefficients| ==> 0 <= coefficients[i] < R)
    && (forall i, j :: 0 <= i < j < |coefficients| ==> coefficients[i] != coefficients[j])
  }

  /** x minimises the hash over the set. */
  predicate Minimises(items: set<int>, a: int, b: int, R: int, x: int)
    requires R > 0
  {
    x in items && forall y :: y in items ==> Hash(a, b, R, x) <= Hash(a, b, R, y)
  }

  /** A member of a non-empty set, as a witness for `:|`. */
  lemma Member(s: set<int>) returns (x: int)
    requires s != {}
    ensures x in s
  {
    if forall y :: y !in s {
      assert false;
    }
    x :| x in s;
  }

  lemma {:induction false} MinimiserExists(items: set<int>, a: int, b: int, R: int)
    requires R > 0 && items != {}
    ensures exists x :: Minimises(items, a, b, R, x)
    decreases |items|
  {
    var z := Member(items);
    if items - {z} == {} {
      assert items == {z};
      assert Minimises(items, a, b, R, z);
    } else {
      MinimiserExists(items - {z}, a, b, R);
      var x :| Minimises(items - {z}, a, b, R, x);
      if Hash(a, b, R, z) < Hash(a, b, R, x) {
        assert Minimises(items, a, b, R, z);
      } else {
        assert Minimises(items, a, b, R, x);
      }
    }
  }

  /**
   * The final value of one signature entry: the least hash over the set, or
   * the sentinel R+1 that nothing lowered when the set is empty.
   */
  ghost function MinHash(items: set<int>, a: int, b: int, R: int): (v: int)
    requires R > 0
    ensures items == {} ==> v == R + 1
    ensures items != {} ==> 0 <= v < R
    ensures items != {} ==> (exists x :: x in items && v == Hash(a, b, R, x))
    ensures forall x :: x in items ==> v <= Hash(a, b, R, x)
  {
    if items == {} then R + 1
    else
      MinimiserExists(items, a, b, R);
      var x :| Minimises(items, a, b, R, x);
      Hash(a, b, R, x)
  }

  /** The entry after one comparison: lowered to the hash when that is smaller. */
  function Lower(entry: int, hash: int): int
  {
    if hash < entry then hash else entry
  }

  /** Adding an item lowers the entry to that item's hash when it is smaller. */
  lemma MinHashInsert(items: set<int>, x: int, a: int, b: int, R: int)
    requires R > 0
    ensures MinHash(items + {x}, a, b, R) == Lower(MinHash(items, a, b, R), Hash(a, b, R, x))
  {
    var v, w := MinHash(items + {x}, a, b, R), MinHash(items, a, b, R);
    var y :| y in items + {x} && v == Hash(a, b, R, y);
    if y != x {
      assert y in items;
    }
  }

  /** The entry of a union is the smaller of the two entries. */
  lemma MinHashUnion(s: set<int>, t: set<int>, a: int, b: int, R: int)
    requires R > 0 && s != {} && t != {}
    ensures MinHash(s + t, a, b, R) ==
      if MinHash(s, a, b, R) <= MinHash(t, a, b, R) then MinHash(s, a, b, R) else MinHash(t, a, b, R)
  {
    var v := MinHash(s + t, a, b, R);
    var y :| y in s + t && v == Hash(a, b, R, y);
    if y in s {
      assert v >= MinHash(s, a, b, R);
    } else {
      assert v >= MinHash(t, a, b, R);
    }
  }

  /** A user's signature: entry i is the MinHash of the item set under hash function i. */
  ghost function Signature(items: set<int>, as_: seq<int>, bs: seq<int>, R: int): (sig: seq<int>)
    requires R > 0 && |as_| == |bs|
    ensures |sig| == |as_|
  {
    seq(|as_|, i requires 0 <= i < |as_| => MinHash(items, as_[i], bs[i], R))
  }

  /** Duplicate items do not change the signature: it depends on `set(user_movies[u])` only. */
  lemma SignatureIgnoresDuplicates(movies: seq<int>, x: int, as_: seq<int>, bs: seq<int>, R: int)
    requires R > 0 && |as_| == |bs| && x in movies
    ensures Signature(Items(movies + [x]), as_, bs, R) == Signature(Items(movies), as_, bs, R)
  {
    assert Items(movies + [x]) == Items(movies);
  }

  /** Entry i stays at the sentinel R+1 exactly when the user has no items. */
  lemma SignatureSentinel(movies: seq<int>, as_: seq<int>, bs: seq<int>, R: int, i: nat)
    requires R > 0 && |as_| == |bs| && i < |as_|
    ensures Signature(Items(movies), as_, bs, R)[i] == R + 1 <==> movies == []
    ensures movies != [] ==> 0 <= Signature(Items(movies), as_, bs, R)[i] < R
  {
    if movies != [] {
      assert movies[0] in Items(movies);
    }
  }

  /**
   * One user's signature: the array starts at R+1 everywhere and, for each
   * item of the set in turn, each entry is lowered to the item's hash when
   * that is smaller.
   */
  method UserSignature(movies: seq<int>, as_: seq<int>, bs: seq<int>, R: int) returns (signature: seq<int>)
    requires R > 0 && |as_| == |bs|
    ensures signature == Signature(Items(movies), as_, bs, R)
  {
    var userSet := Items(movies);
    var sig := new int[|as_|](_ => R + 1);
    var remaining := userSet;
    while remaining != {}
      invariant remaining <= userSet
      invariant forall k :: 0 <= k < sig.Length ==> sig[k] == MinHash(userSet - remaining, as_[k], bs[k], R)
      decreases |remaining|
    {
      ghost var some := Member(remaining);
      var item :| item in remaining;
      ghost var done := userSet - remaining;
      ghost var before := sig[..];
      var i := 0;
      while i < sig.Length
        invariant 0 <= i <= sig.Length
        invariant forall k :: 0 <= k < i ==> sig[k] == Lower(before[k], Hash(as_[k], bs[k], R, item))
        invariant forall k :: i <= k < sig.Length ==> sig[k] == before[k]
      {
        var hashValue := (as_[i] * item + bs[i]) % R;
        if hashValue < sig[i] {
          sig[i] := hashValue;
        }
        i := i + 1;
      }
      forall k | 0 <= k < sig.Length ensures sig[k] == MinHash(done + {item}, as_[k], bs[k], R) {
        MinHashInsert(done, item, as_[k], bs[k], R);
      }
      assert done + {item} == userSet - (remaining - {item});
      remaining := remaining - {item};
    }
    assert userSet - remaining == userSet;
    signature := sig[..];
  }

  /** The signatures of all users, in the mapping's order. */
  ghost function AllSignatures(users: seq<UserMovies>, as_: seq<int>, bs: seq<int>, R: int): (sigs: seq<seq<int>>)
    requires R > 0 && |as_| == |bs|
    ensures |sigs| == |users|
    ensures forall u :: 0 <= u < |users| ==> |sigs[u]| == |as_|
  {
    seq(|users|, u requires 0 <= u < |users| => Signature(Items(users[u].movies), as_, bs, R))
  }

  /** One signature per user, appended in the mapping's iteration order. */
  method ComputeUserSignatures(users: seq<UserMovies>, as_: seq<int>, bs: seq<int>, R: int)
    returns (signatures: seq<seq<int>>)
    requires R > 0 && |as_| == |bs| && Sampled(as_, R) && Sampled(bs, R)
    ensures signatures == AllSignatures(users, as_, bs, R)
  {
    signatures := [];
    var u := 0;
    while u < |users|
      invariant 0 <= u <= |users|
      invariant signatures == AllSignatures(users[..u], as_, bs, R)
    {
      var signature := UserSignature(users[u].movies, as_, bs, R);
      assert users[..u + 1] == users[..u] + [users[u]];
      signatures := signatures + [signature];
      u := u + 1;
    }
    assert users[..u] == users;
  }
}
