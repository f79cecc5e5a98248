/**
 * The literal string transforms of the Glassdoor review cleaner: colon and
 * semicolon replacement, comma-before-dot removal, the work-life-balance
 * spelling fixes, sentence capitalisation, and joining / splitting the
 * pros and cons of a review around a separator.
 */
module Preprocessing {
  import opened Results
  import opened Strings

  /** The marker `concat_pros_and_cons` puts between pros and cons. */
  const Separator: string := " *separator* "

  // ---------------------------------------------------------------------------
  // One-character replacements
  // ---------------------------------------------------------------------------

  function ReplaceColonsWithDots(review: string): string
  {
    Replace(review, ":", ".")
  }

  function ReplaceSemicolonsWithCommas(review: string): string
  {
    Replace(review, ";", ",")
  }

  /** Same length, no ':' left, and every other character unchanged. */
  lemma ReplaceColonsMeaning(review: string)
    ensures var r := ReplaceColonsWithDots(review);
      && |r| == |review|
      && ':' !in r
      && forall i :: 0 <= i < |review| ==> r[i] == if review[i] == ':' then '.' else review[i]
  {
    ReplaceOneChar(review, ':', '.');
  }

  /** Same length, no ';' left, and every other character unchanged. */
  lemma ReplaceSemicolonsMeaning(review: string)
    ensures var r := ReplaceSemicolonsWithCommas(review);
      && |r| == |review|
      && ';' !in r
      && forall i :: 0 <= i < |review| ==> r[i] == if review[i] == ';' then ',' else review[i]
  {
    ReplaceOneChar(review, ';', ',');
  }

  // ---------------------------------------------------------------------------
  // Comma-before-dot removal
  // ---------------------------------------------------------------------------

  function RemoveCommasBeforeDots(review: string): string
  {
    Replace(review, ",.", ".")
  }

  /** The number of `",."` occurrences one left-to-right pass of `replace` finds. */
  function Replacements(s: string, pat: string): nat
    requires |pat| > 0
    decreases |s|
  {
    if |s| < |pat| then 0
    else if s[..|pat|] == pat then 1 + Replacements(s[|pat|..], pat)
    else Replacements(s[1..], pat)
  }

  /**
   * Each replacement removes exactly one ',' and nothing else: the string
   * gets shorter by the number of replacements, loses that many commas and
   * keeps every dot.
   */
  lemma {:induction false} RemoveCommasMeaning(review: string)
    ensures |RemoveCommasBeforeDots(review)| + Replacements(review, ",.") == |review|
    ensures Count(RemoveCommasBeforeDots(review), ',') + Replacements(review, ",.") == Count(review, ',')
    ensures Count(RemoveCommasBeforeDots(review), '.') == Count(review, '.')
    decreases |review|
  {
    var r := RemoveCommasBeforeDots(review);
    if |review| < 2 {
    } else if review[..2] == ",." {
      var rest := review[2..];
      RemoveCommasMeaning(rest);
      assert review == ",." + rest;
      CountConcat(",.", rest, ',');
      CountConcat(",.", rest, '.');
      CountConcat(".", RemoveCommasBeforeDots(rest), ',');
      CountConcat(".", RemoveCommasBeforeDots(rest), '.');
    } else {
      var rest := review[1..];
      RemoveCommasMeaning(rest);
      assert review == [review[0]] + rest;
      CountConcat([review[0]], rest, ',');
      CountConcat([review[0]], rest, '.');
      CountConcat([review[0]], RemoveCommasBeforeDots(rest), ',');
      CountConcat([review[0]], RemoveCommasBeforeDots(rest), '.');
    }
  }

  /** `replace` makes one pass, so a comma freed by a removal is left in place. */
  lemma RemoveCommasIsOnePass()
    ensures RemoveCommasBeforeDots(",,.") == ",."
  {
    assert ",,."[..2][1] != ",."[1];
    assert ",,."[1..] == ",.";
    assert ",."[..2] == ",.";
    assert ",."[2..] == "";
  }

  // ---------------------------------------------------------------------------
  // Work-life-balance spellings
  // ---------------------------------------------------------------------------

  const WorkLifeBalance: string := "work life balance"

  /** Lower-cases the review and replaces eight spellings of "work life balance", lower-casing before each. */
  function FixWorkLifeBalanceCases(review: string): string
  {
    var r1 := Replace(Lower(review), "work lift balance", WorkLifeBalance);
    var r2 := Replace(Lower(r1), "working life balance", WorkLifeBalance);
    var r3 := Replace(Lower(r2), "work-life balance", WorkLifeBalance);
    var r4 := Replace(Lower(r3), "work-life balanced", WorkLifeBalance);
    var r5 := Replace(Lower(r4), "work/life balance", WorkLifeBalance);
    var r6 := Replace(Lower(r5), "work/life time", WorkLifeBalance);
    var r7 := Replace(Lower(r6), "worklife balance", WorkLifeBalance);
    Replace(Lower(r7), "wlb", WorkLifeBalance)
  }

  /** The fixed review has no upper-case letter. */
  lemma FixWorkLifeBalanceNoUpper(review: string)
    ensures NoUpper(FixWorkLifeBalanceCases(review))
  {
    var r1 := Replace(Lower(review), "work lift balance", WorkLifeBalance);
    var r2 := Replace(Lower(r1), "working life balance", WorkLifeBalance);
    var r3 := Replace(Lower(r2), "work-life balance", WorkLifeBalance);
    var r4 := Replace(Lower(r3), "work-life balanced", WorkLifeBalance);
    var r5 := Replace(Lower(r4), "work/life balance", WorkLifeBalance);
    var r6 := Replace(Lower(r5), "work/life time", WorkLifeBalance);
    var r7 := Replace(Lower(r6), "worklife balance", WorkLifeBalance);
    var low := Lower(r7);
    var r := Replace(low, "wlb", WorkLifeBalance);
    ReplaceCharsFrom(low, "wlb", WorkLifeBalance);
    forall i | 0 <= i < |r| ensures !IsUpper(r[i]) {
      assert r[i] in r;
      if r[i] in low {
        var k :| 0 <= k < |low| && low[k] == r[i];
      } else {
        var k :| 0 <= k < |WorkLifeBalance| && WorkLifeBalance[k] == r[i];
      }
    }
  }

  // ---------------------------------------------------------------------------
  // Sentence capitalisation
  // ---------------------------------------------------------------------------

  /** `sentence.strip()[:1].upper() + sentence.strip()[1:]` */
  function CapitalizeSentence(sentence: string): string
  {
    var t := Strip(sentence);
    if |t| == 0 then "" else Upper(t[..1]) + t[1..]
  }

  function CapitalizeAll(sentences: seq<string>): (r: seq<string>)
    ensures |r| == |sentences|
    ensures forall i :: 0 <= i < |r| ==> r[i] == CapitalizeSentence(sentences[i])
  {
    seq(|sentences|, i requires 0 <= i < |sentences| => CapitalizeSentence(sentences[i]))
  }

  /** `'. '.join(<each '.'-separated sentence, stripped and capitalised>).strip()` */
  function CapitalizeSentences(review: string): string
  {
    Strip(Join(". ", CapitalizeAll(Split(review, "."))))
  }

  /** Capitalising a sentence keeps its dots. */
  lemma CapitalizeSentenceCount(sentence: string)
    ensures Count(CapitalizeSentence(sentence), '.') == Count(sentence, '.')
  {
    var t := Strip(sentence);
    StripKeepsCount(sentence, '.');
    if |t| > 0 {
      assert t == t[..1] + t[1..];
      CountConcat(t[..1], t[1..], '.');
      CountConcat(Upper(t[..1]), t[1..], '.');
      assert Upper(t[..1]) == [UpperChar(t[0])];
      assert t[..1] == [t[0]];
    }
  }

  lemma SentenceSeparatorCount()
    ensures Count(". ", '.') == 1
  {
    assert ". "[1..] == " ";
    assert " "[1..] == "";
  }

  /** Capitalising the sentences keeps the number of '.' characters. */
  lemma CapitalizeSentencesKeepsDots(review: string)
    ensures Count(CapitalizeSentences(review), '.') == Count(review, '.')
  {
    var parts := Split(review, ['.']);
    SplitOnCharCounts(review, '.');
    var caps := CapitalizeAll(parts);
    forall i | 0 <= i < |caps| ensures Count(caps[i], '.') == 0 {
      CapitalizeSentenceCount(parts[i]);
    }
    SentenceSeparatorCount();
    JoinCountOne(". ", caps, '.');
    StripKeepsCount(Join(". ", caps), '.');
  }

  /** Joining `c`-free parts with a separator holding one `c` puts one `c` between each two parts. */
  lemma JoinCountOne(sep: string, parts: seq<string>, c: char)
    requires |parts| >= 1 && Count(sep, c) == 1
    requires forall i :: 0 <= i < |parts| ==> Count(parts[i], c) == 0
    ensures Count(Join(sep, parts), c) == |parts| - 1
  {
    JoinCount(sep, parts, c);
  }

  // ---------------------------------------------------------------------------
  // Pros and cons
  // ---------------------------------------------------------------------------

  /** `pros + ' *separator* ' + cons`, or `pros + ' ' + cons` without the separator. */
  function ConcatProsAndCons(pros: string, cons: string, separator: bool): string
  {
    if separator then pros + Separator + cons else pros + " " + cons
  }

  /** The stripped first and second pieces around the separator; an IndexError without a second piece. */
  function SplitProsAndCons(review: string): Result<(string, string)>
  {
    var parts := Split(review, Separator);
    if |parts| < 2 then Failure(IndexError)
    else Success((Strip(parts[0]), Strip(parts[1])))
  }

  /** Splitting fails, with an IndexError, exactly when the separator does not occur. */
  lemma SplitProsAndConsFailsIff(review: string)
    ensures SplitProsAndCons(review).Failure? <==> !Occurs(review, Separator)
    ensures SplitProsAndCons(review).Failure? ==> SplitProsAndCons(review).error == IndexError
  {
    SplitHasSecondPieceIffOccurs(review, Separator);
  }

  /** A string with neither leading nor trailing whitespace. */
  predicate Trimmed(s: string)
  {
    |s| > 0 ==> !IsWhitespace(s[0]) && !IsWhitespace(s[|s| - 1])
  }

  /**
   * Splitting a concatenation gives back the pros and the cons when
   * neither contains '*' and neither has leading or trailing whitespace.
   */
  lemma SplitConcatRoundTrip(pros: string, cons: string)
    requires '*' !in pros && '*' !in cons
    requires Trimmed(pros) && Trimmed(cons)
    ensures SplitProsAndCons(ConcatProsAndCons(pros, cons, true)) == Success((pros, cons))
  {
    var s := pros + Separator + cons;
    assert Separator[1] == '*' && Separator[0] == ' ';
    forall k: nat | k < |pros| ensures !OccursAt(s, Separator, k) {
      if k + 1 < |pros| {
        assert s[k + 1] == pros[k + 1];
        assert pros[k + 1] in pros;
      }
    }
    SplitAtFirstSeparator(pros, Separator, cons);
    MissingCharMeansNoOccurrence(cons, Separator, 1);
    SplitWithoutSeparator(cons, Separator);
    StripTrimmed(pros);
    StripTrimmed(cons);
  }
}
