/**
 * Word and document frequencies of the nouns in a list of reviews, and the
 * top-k words that appear in only one of two such frequency tables (pros
 * versus cons). Sentence splitting, tagging and lemmatisation are done by
 * the NLP pipeline: each review is given as the lemmas of its nouns, in
 * order.
 */
module Frequencies {
  import opened Strings
  import opened Ranking

  // ---------------------------------------------------------------------------
  // Counting
  // ---------------------------------------------------------------------------

  /** A noun lemma is counted when it is longer than 3 and, lower-cased, alphabetic and not a stop word. */
  predicate Counted(noun: string, stopWords: set<string>)
  {
    |noun| > 3 && IsAlpha(Lower(noun)) && Lower(noun) !in stopWords
  }

  /** The tokens of one review that are counted, lower-cased, in order. */
  function Tokens(nouns: seq<string>, stopWords: set<string>): seq<string>
    decreases |nouns|
  {
    if |nouns| == 0 then []
    else
      var init := Tokens(nouns[..|nouns| - 1], stopWords);
      var noun := nouns[|nouns| - 1];
      if Counted(noun, stopWords) then init + [Lower(noun)] else init
  }

  /** Every counted token is a lower-case alphabetic word longer than 3 that is not a stop word. */
  lemma {:induction false} TokensMeaning(nouns: seq<string>, stopWords: set<string>)
    ensures forall t :: t in Tokens(nouns, stopWords) ==>
      |t| > 3 && IsAlpha(t) && NoUpper(t) && t !in stopWords
    decreases |nouns|
  {
    if |nouns| > 0 {
      TokensMeaning(nouns[..|nouns| - 1], stopWords);
    }
  }

  /** How often `w` occurs among the counted tokens of all reviews. */
  function WordFrequency(reviews: seq<seq<string>>, stopWords: set<string>, w: string): nat
    decreases |reviews|
  {
    if |reviews| == 0 then 0
    else
      WordFrequency(reviews[..|reviews| - 1], stopWords, w)
      + multiset(Tokens(reviews[|reviews| - 1], stopWords))[w]
  }

  /** How many reviews have `w` among their counted tokens. */
  function DocFrequency(reviews: seq<seq<string>>, stopWords: set<string>, w: string): nat
    decreases |reviews|
  {
    if |reviews| == 0 then 0
    else
      DocFrequency(reviews[..|reviews| - 1], stopWords, w)
      + if w in Tokens(reviews[|reviews| - 1], stopWords) then 1 else 0
  }

  /**
   * A word counted at all is a lower-case alphabetic non-stop word longer
   * than 3; it appears in at most every review, and at least once in each
   * review it appears in.
   */
  lemma {:induction false} FrequencyBounds(reviews: seq<seq<string>>, stopWords: set<string>, w: string)
    ensures DocFrequency(reviews, stopWords, w) <= WordFrequency(reviews, stopWords, w)
    ensures DocFrequency(reviews, stopWords, w) <= |reviews|
    ensures DocFrequency(reviews, stopWords, w) == 0 <==> WordFrequency(reviews, stopWords, w) == 0
    ensures DocFrequency(reviews, stopWords, w) > 0 ==>
      |w| > 3 && IsAlpha(w) && NoUpper(w) && w !in stopWords
    decreases |reviews|
  {
    if |reviews| > 0 {
      var last := reviews[|reviews| - 1];
      FrequencyBounds(reviews[..|reviews| - 1], stopWords, w);
      TokensMeaning(last, stopWords);
      assert w in Tokens(last, stopWords) <==> multiset(Tokens(last, stopWords))[w] > 0;
    }
  }

  /** `d.get(key, 0)` */
  function GetOrZero(d: map<string, int>, key: string): int
  {
    if key in d then d[key] else 0
  }

  /**
   * The counts of one review: `freq_word_temp[token] += 1` for every counted
   * token.
   */
  method CountReview(nouns: seq<string>, stopWords: set<string>) returns (freqWordTemp: map<string, int>)
    ensures forall w :: w in freqWordTemp <==> w in Tokens(nouns, stopWords)
    ensures forall w :: w in freqWordTemp ==> freqWordTemp[w] == multiset(Tokens(nouns, stopWords))[w]
  {
    freqWordTemp := map[];
    for j := 0 to |nouns|
      invariant forall w :: w in freqWordTemp <==> w in Tokens(nouns[..j], stopWords)
      invariant forall w :: w in freqWordTemp ==> freqWordTemp[w] == multiset(Tokens(nouns[..j], stopWords))[w]
    {
      assert nouns[..j + 1][..j] == nouns[..j];
      var token := Lower(nouns[j]);
      if |nouns[j]| > 3 && IsAlpha(token) && token !in stopWords {
        freqWordTemp := freqWordTemp[token := GetOrZero(freqWordTemp, token) + 1];
      }
    }
    assert nouns[..|nouns|] == nouns;
  }

  /** `for key in keys: freq_doc[key] += 1` on a defaultdict. */
  method AddOnePerKey(freqDoc: map<string, int>, keys: set<string>) returns (r: map<string, int>)
    ensures r.Keys == freqDoc.Keys + keys
    ensures forall w :: w in r ==> r[w] == GetOrZero(freqDoc, w) + if w in keys then 1 else 0
  {
    r := freqDoc;
    var pending := keys;
    while pending != {}
      invariant pending <= keys
      invariant r.Keys == freqDoc.Keys + (keys - pending)
      invariant forall w :: w in r ==> r[w] == GetOrZero(freqDoc, w) + if w in keys && w !in pending then 1 else 0
      decreases pending
    {
      var key :| key in pending;
      r := r[key := GetOrZero(r, key) + 1];
      pending := pending - {key};
    }
  }

  /** One more review adds its token counts to the word frequency and one to the doc frequency of its tokens. */
  lemma FrequencyStep(reviews: seq<seq<string>>, stopWords: set<string>, i: nat, w: string)
    requires i < |reviews|
    ensures WordFrequency(reviews[..i + 1], stopWords, w)
      == WordFrequency(reviews[..i], stopWords, w) + multiset(Tokens(reviews[i], stopWords))[w]
    ensures DocFrequency(reviews[..i + 1], stopWords, w)
      == DocFrequency(reviews[..i], stopWords, w) + if w in Tokens(reviews[i], stopWords) then 1 else 0
  {
    assert reviews[..i + 1][..i] == reviews[..i];
  }

  /**
   * `count_word_frequencies`: the word frequency and the document frequency
   * of every counted word. Both dicts have the same keys, the words that
   * occur in some review.
   */
  method CountWordFrequencies(reviews: seq<seq<string>>, stopWords: set<string>)
    returns (freqWord: map<string, int>, freqDoc: map<string, int>)
    ensures freqWord.Keys == freqDoc.Keys
    ensures forall w :: w in freqWord <==> DocFrequency(reviews, stopWords, w) > 0
    ensures forall w :: w in freqWord ==>
      freqWord[w] == WordFrequency(reviews, stopWords, w) && freqDoc[w] == DocFrequency(reviews, stopWords, w)
    ensures forall w :: w in freqWord ==> 1 <= freqDoc[w] <= freqWord[w] && freqDoc[w] <= |reviews|
    ensures forall w :: w in freqWord ==> |w| > 3 && IsAlpha(w) && NoUpper(w) && w !in stopWords
  {
    freqWord, freqDoc := map[], map[];
    for i := 0 to |reviews|
      invariant freqWord.Keys == freqDoc.Keys
      invariant forall w :: w in freqWord <==> DocFrequency(reviews[..i], stopWords, w) > 0
      invariant forall w :: w in freqWord ==>
        freqWord[w] == WordFrequency(reviews[..i], stopWords, w) && freqDoc[w] == DocFrequency(reviews[..i], stopWords, w)
    {
      ghost var prevWord, prevDoc := freqWord, freqDoc;
      var freqWordTemp := CountReview(reviews[i], stopWords);
      freqWord := map key | key in freqWord.Keys + freqWordTemp.Keys :: GetOrZero(freqWord, key) + GetOrZero(freqWordTemp, key);
      freqDoc := AddOnePerKey(freqDoc, freqWordTemp.Keys);
      forall w
        ensures w in freqWord <==> DocFrequency(reviews[..i + 1], stopWords, w) > 0
        ensures w in freqWord ==>
          freqWord[w] == WordFrequency(reviews[..i + 1], stopWords, w) && freqDoc[w] == DocFrequency(reviews[..i + 1], stopWords, w)
      {
        FrequencyStep(reviews, stopWords, i, w);
        FrequencyBounds(reviews[..i], stopWords, w);
      }
    }
    assert reviews[..|reviews|] == reviews;
    forall w | w in freqWord
      ensures 1 <= freqDoc[w] <= freqWord[w] && freqDoc[w] <= |reviews|
      ensures |w| > 3 && IsAlpha(w) && NoUpper(w) && w !in stopWords
    {
      FrequencyBounds(reviews, stopWords, w);
    }
  }

  // ---------------------------------------------------------------------------
  // Words that only one table has
  // ---------------------------------------------------------------------------

  /** A row of a frequency table: a word and its word frequency. */
  type WordRow = (string, int)

  function Frequency(r: WordRow): real { r.1 as real }

  /** The words of a frequency table. */
  function Words(rows: seq<WordRow>): set<string>
  {
    set r | r in rows :: r.0
  }

  /** The rows of `rows1` whose word is not a word of `rows2`, in order. */
  function OnlyIn(rows1: seq<WordRow>, rows2: seq<WordRow>): seq<WordRow>
    decreases |rows1|
  {
    if |rows1| == 0 then []
    else
      var init := OnlyIn(rows1[..|rows1| - 1], rows2);
      var r := rows1[|rows1| - 1];
      if r.0 in Words(rows2) then init else init + [r]
  }

  /** The rows kept are exactly the rows of `rows1` with a word `rows2` lacks. */
  lemma {:induction false} OnlyInMembers(rows1: seq<WordRow>, rows2: seq<WordRow>)
    ensures forall r :: r in OnlyIn(rows1, rows2) <==> r in rows1 && r.0 !in Words(rows2)
    decreases |rows1|
  {
    if |rows1| > 0 {
      var init := rows1[..|rows1| - 1];
      OnlyInMembers(init, rows2);
      assert rows1 == init + [rows1[|rows1| - 1]];
    }
  }

  /** `w.capitalize() if len(w) > 3 else w.upper()` */
  function Display(w: string): string
  {
    if |w| > 3 then Capitalize(w) else Upper(w)
  }

  /**
   * The displayed word has the same letters, up to case, as the word: all
   * upper case when it has at most 3 characters, otherwise upper case
   * first and lower case after.
   */
  lemma DisplaySameWord(w: string)
    ensures |Display(w)| == |w|
    ensures Lower(Display(w)) == Lower(w)
    ensures |w| > 0 ==> !IsLower(Display(w)[0])
    ensures |w| <= 3 ==> forall i :: 0 <= i < |w| ==> !IsLower(Display(w)[i])
    ensures |w| > 3 ==> forall i :: 1 <= i < |w| ==> !IsUpper(Display(w)[i])
  {
    var d := Display(w);
    forall i | 0 <= i < |w| ensures LowerChar(d[i]) == LowerChar(w[i]) {
      LowerOfLowerCaseAgree(w[i]);
    }
  }

  lemma DisplayedWords(rows: seq<WordRow>)
    ensures forall i :: 0 <= i < |rows| ==>
      && |Display(rows[i].0)| == |rows[i].0|
      && Lower(Display(rows[i].0)) == Lower(rows[i].0)
      && (|rows[i].0| > 0 ==> !IsLower(Display(rows[i].0)[0]))
      && (|rows[i].0| <= 3 ==> forall c :: 0 <= c < |rows[i].0| ==> !IsLower(Display(rows[i].0)[c]))
      && (|rows[i].0| > 3 ==> forall c :: 1 <= c < |rows[i].0| ==> !IsUpper(Display(rows[i].0)[c]))
  {
    forall i | 0 <= i < |rows| {
      DisplaySameWord(rows[i].0);
    }
  }

  /**
   * The words of some rows, displayed: every row keeps its frequency and
   * its word up to case (all upper case up to 3 characters, otherwise
   * upper case first and lower case after), so the rows keep their order.
   */
  function DisplayRows(rows: seq<WordRow>): (r: seq<WordRow>)
    ensures |r| == |rows|
    ensures forall i :: 0 <= i < |r| ==> r[i].1 == rows[i].1
    ensures forall i :: 0 <= i < |r| ==> |r[i].0| == |rows[i].0| && Lower(r[i].0) == Lower(rows[i].0)
    ensures forall i :: 0 <= i < |r| && |r[i].0| > 0 ==> !IsLower(r[i].0[0])
    ensures forall i, c :: 0 <= i < |r| && |r[i].0| <= 3 && 0 <= c < |r[i].0| ==> !IsLower(r[i].0[c])
    ensures forall i, c :: 0 <= i < |r| && |r[i].0| > 3 && 1 <= c < |r[i].0| ==> !IsUpper(r[i].0[c])
    ensures SortedDesc(rows, Frequency) ==> SortedDesc(r, Frequency)
  {
    DisplayedWords(rows);
    seq(|rows|, i requires 0 <= i < |rows| => (Display(rows[i].0), rows[i].1))
  }

  /** The top `k` rows of `rows1` whose word `rows2` lacks, by frequency, before display. */
  function TopOnlyIn(rows1: seq<WordRow>, rows2: seq<WordRow>, k: int): seq<WordRow>
  {
    Slice(SortDesc(OnlyIn(rows1, rows2), Frequency), k)
  }

  /**
   * `get_top_k_distinct_pros_and_cons_words`: the top `k` words of each
   * table that the other table lacks, displayed.
   */
  function TopKDistinct(df1: seq<WordRow>, df2: seq<WordRow>, k: int): (seq<WordRow>, seq<WordRow>)
  {
    (DisplayRows(TopOnlyIn(df1, df2, k)), DisplayRows(TopOnlyIn(df2, df1, k)))
  }

  /**
   * The top rows are at most `k` when `k >= 0`, in non-increasing
   * frequency, rows of `rows1` whose word `rows2` lacks, and no such row
   * left out has a higher frequency than one kept.
   */
  lemma TopOnlyInMeaning(rows1: seq<WordRow>, rows2: seq<WordRow>, k: int)
    ensures var top := TopOnlyIn(rows1, rows2, k);
      && (0 <= k ==> |top| <= k)
      && SortedDesc(top, Frequency)
      && (forall r :: r in top ==> r in rows1 && r.0 !in Words(rows2))
      && (forall r, e :: r in rows1 && r.0 !in Words(rows2) && r !in top && e in top ==> r.1 <= e.1)
  {
    var only := OnlyIn(rows1, rows2);
    var sorted := SortDesc(only, Frequency);
    var top := Slice(sorted, k);
    OnlyInMembers(rows1, rows2);
    SortDescMembers(only, Frequency);
    SliceKeepsOrder(sorted, k, Frequency);
    forall r, e | r in rows1 && r.0 !in Words(rows2) && r !in top && e in top ensures r.1 <= e.1 {
      var a :| 0 <= a < |sorted| && sorted[a] == r;
      var b :| 0 <= b < |top| && top[b] == e;
      assert Frequency(sorted[b]) >= Frequency(sorted[a]);
    }
  }

  /**
   * A displayed top list of `rows1`: at most `k` rows when `k >= 0`, in
   * non-increasing frequency, and every row is, up to the case of its
   * word, a row of `rows1` whose word `rows2` lacks.
   */
  predicate DisplayedFrom(shown: seq<WordRow>, rows1: seq<WordRow>, rows2: seq<WordRow>, k: int)
  {
    && (0 <= k ==> |shown| <= k)
    && SortedDesc(shown, Frequency)
    && forall i :: 0 <= i < |shown| ==> ShownOnlyIn(shown[i], rows1, rows2)
  }

  /** A displayed row is, up to the case of its word, a row of `rows1` whose word `rows2` lacks. */
  predicate ShownOnlyIn(row: WordRow, rows1: seq<WordRow>, rows2: seq<WordRow>)
  {
    exists s :: s in rows1 && s.0 !in Words(rows2) && row.1 == s.1 && Lower(row.0) == Lower(s.0)
  }

  /** The displayed top rows of `rows1` are such a list. */
  lemma DisplayedTopOnlyIn(rows1: seq<WordRow>, rows2: seq<WordRow>, k: int)
    ensures DisplayedFrom(DisplayRows(TopOnlyIn(rows1, rows2, k)), rows1, rows2, k)
  {
    var top := TopOnlyIn(rows1, rows2, k);
    TopOnlyInMeaning(rows1, rows2, k);
    var shown := DisplayRows(top);
    assert 0 <= k ==> |shown| <= k;
    assert SortedDesc(shown, Frequency);
    forall i | 0 <= i < |shown| ensures ShownOnlyIn(shown[i], rows1, rows2) {
      var s := top[i];
      assert s in top;
      assert s in rows1 && s.0 !in Words(rows2) && shown[i].1 == s.1 && Lower(shown[i].0) == Lower(s.0);
    }
    assert DisplayedFrom(shown, rows1, rows2, k);
  }

  /**
   * `get_top_k_distinct_pros_and_cons_words` returns, for each table, at
   * most `k` displayed rows in non-increasing frequency, each a row of that
   * table, up to the case of its word, whose word the other table lacks.
   */
  lemma TopKDistinctMeaning(df1: seq<WordRow>, df2: seq<WordRow>, k: int)
    ensures DisplayedFrom(TopKDistinct(df1, df2, k).0, df1, df2, k)
    ensures DisplayedFrom(TopKDistinct(df1, df2, k).1, df2, df1, k)
  {
    DisplayedTopOnlyIn(df1, df2, k);
    DisplayedTopOnlyIn(df2, df1, k);
  }

  /** Neither list of top words shares a word with the other table, so the two lists share no word. */
  lemma TopKDistinctDisjoint(df1: seq<WordRow>, df2: seq<WordRow>, k: int)
    ensures forall r :: r in TopOnlyIn(df1, df2, k) ==> r.0 !in Words(df2)
    ensures forall r :: r in TopOnlyIn(df2, df1, k) ==> r.0 !in Words(df1)
    ensures forall r, s :: r in TopOnlyIn(df1, df2, k) && s in TopOnlyIn(df2, df1, k) ==> r.0 != s.0
  {
    TopOnlyInMeaning(df1, df2, k);
    TopOnlyInMeaning(df2, df1, k);
    forall r, s | r in TopOnlyIn(df1, df2, k) && s in TopOnlyIn(df2, df1, k) ensures r.0 != s.0 {
      assert s.0 in Words(df2);
    }
  }
}
