/**
 * The few Python `str` operations the modelled code relies on:
 * `count`, `replace`, `split`, `join`, `strip`, `lower`, `upper`,
 * `capitalize`, `isalpha`, `str(int)` and `int(str)`.
 * Case mapping and character classes are modelled on ASCII only.
 */
module Strings {
  import opened Results

  // ---------------------------------------------------------------------------
  // Character classes and case mapping (ASCII)
  // ---------------------------------------------------------------------------

  predicate IsUpper(c: char) { 'A' <= c <= 'Z' }

  predicate IsLower(c: char) { 'a' <= c <= 'z' }

  predicate IsLetter(c: char) { IsUpper(c) || IsLower(c) }

  predicate IsDigit(c: char) { '0' <= c <= '9' }

  /** The ASCII characters Python's `str.isspace` accepts. */
  predicate IsWhitespace(c: char)
  {
    c == ' ' || c == '\t' || c == '\n' || c == '\r' || c == '\U{0B}' || c == '\U{0C}'
    || c == '\U{1C}' || c == '\U{1D}' || c == '\U{1E}' || c == '\U{1F}'
  }

  function LowerChar(c: char): (r: char)
    ensures !IsUpper(r)
    ensures IsLetter(c) <==> IsLetter(r)
    ensures !IsLetter(c) ==> r == c
  {
    if IsUpper(c) then (c as int + 32) as char else c
  }

  function UpperChar(c: char): (r: char)
    ensures !IsLower(r)
    ensures IsLetter(c) <==> IsLetter(r)
    ensures !IsLetter(c) ==> r == c
  {
    if IsLower(c) then (c as int - 32) as char else c
  }

  /** `str.lower()` */
  function Lower(s: string): (r: string)
    ensures |r| == |s|
    ensures forall i :: 0 <= i < |s| ==> r[i] == LowerChar(s[i])
  {
    seq(|s|, i requires 0 <= i < |s| => LowerChar(s[i]))
  }

  /** `str.upper()` */
  function Upper(s: string): (r: string)
    ensures |r| == |s|
    ensures forall i :: 0 <= i < |s| ==> r[i] == UpperChar(s[i])
  {
    seq(|s|, i requires 0 <= i < |s| => UpperChar(s[i]))
  }

  /** `str.capitalize()`: first character upper-cased, the rest lower-cased. */
  function Capitalize(s: string): (r: string)
    ensures |r| == |s|
    ensures |s| > 0 ==> r[0] == UpperChar(s[0])
    ensures forall i :: 1 <= i < |s| ==> r[i] == LowerChar(s[i])
  {
    if |s| == 0 then "" else [UpperChar(s[0])] + Lower(s[1..])
  }

  predicate NoUpper(s: string) { forall i :: 0 <= i < |s| ==> !IsUpper(s[i]) }

  /** `str.isalpha()`: non-empty and made of letters only. */
  predicate IsAlpha(s: string) { |s| > 0 && forall i :: 0 <= i < |s| ==> IsLetter(s[i]) }

  lemma LowerOfLowerCaseAgree(c: char)
    ensures LowerChar(UpperChar(c)) == LowerChar(c)
    ensures LowerChar(LowerChar(c)) == LowerChar(c)
  {
  }

  // ---------------------------------------------------------------------------
  // str.count for one character
  // ---------------------------------------------------------------------------

  function Count(s: string, c: char): (n: nat)
    ensures n <= |s|
  {
    if |s| == 0 then 0 else (if s[0] == c then 1 else 0) + Count(s[1..], c)
  }

  lemma {:induction false} CountConcat(a: string, b: string, c: char)
    ensures Count(a + b, c) == Count(a, c) + Count(b, c)
  {
    if |a| > 0 {
      assert (a + b)[1..] == a[1..] + b;
      CountConcat(a[1..], b, c);
    } else {
      assert a + b == b;
    }
  }

  lemma {:induction false} CountZero(s: string, c: char)
    ensures Count(s, c) == 0 <==> forall i :: 0 <= i < |s| ==> s[i] != c
  {
    if |s| > 0 {
      CountZero(s[1..], c);
      assert forall i :: 1 <= i < |s| ==> s[i] == s[1..][i - 1];
    }
  }

  // ---------------------------------------------------------------------------
  // str.replace(pat, rep): left to right, non-overlapping, one pass
  // ---------------------------------------------------------------------------

  function Replace(s: string, pat: string, rep: string): string
    requires |pat| > 0
    decreases |s|
  {
    if |s| < |pat| then s
    else if s[..|pat|] == pat then rep + Replace(s[|pat|..], pat, rep)
    else [s[0]] + Replace(s[1..], pat, rep)
  }

  /** Every character of the result comes from the input or from the replacement. */
  lemma {:induction false} ReplaceCharsFrom(s: string, pat: string, rep: string)
    requires |pat| > 0
    ensures forall c :: c in Replace(s, pat, rep) ==> c in s || c in rep
    decreases |s|
  {
    if |s| < |pat| {
    } else if s[..|pat|] == pat {
      ReplaceCharsFrom(s[|pat|..], pat, rep);
      forall c | c in s[|pat|..] ensures c in s {
        var k :| 0 <= k < |s[|pat|..]| && s[|pat|..][k] == c;
        assert s[k + |pat|] == c;
      }
    } else {
      ReplaceCharsFrom(s[1..], pat, rep);
      forall c | c in s[1..] ensures c in s {
        var k :| 0 <= k < |s[1..]| && s[1..][k] == c;
        assert s[k + 1] == c;
      }
    }
  }

  /** Replacing one character by one character keeps the length and maps each position. */
  lemma {:induction false} ReplaceOneChar(s: string, a: char, b: char)
    ensures |Replace(s, [a], [b])| == |s|
    ensures forall i :: 0 <= i < |s| ==> Replace(s, [a], [b])[i] == (if s[i] == a then b else s[i])
    decreases |s|
  {
    if |s| >= 1 {
      ReplaceOneChar(s[1..], a, b);
      var r := Replace(s, [a], [b]);
      var r' := Replace(s[1..], [a], [b]);
      assert r == [if s[0] == a then b else s[0]] + r';
      forall i | 0 <= i < |s| ensures r[i] == (if s[i] == a then b else s[i]) {
        if i > 0 { assert r[i] == r'[i - 1] && s[1..][i - 1] == s[i]; }
      }
    }
  }

  // ---------------------------------------------------------------------------
  // str.split(sep) for a non-empty separator
  // ---------------------------------------------------------------------------

  /** True if `sep` occurs in `s` starting at index `k`. */
  predicate OccursAt(s: string, sep: string, k: nat)
  {
    k + |sep| <= |s| && s[k..k + |sep|] == sep
  }

  /** True if `sep` occurs in `s`. */
  predicate Occurs(s: string, sep: string)
  {
    exists k: nat | k <= |s| :: OccursAt(s, sep, k)
  }

  lemma OccursAtShift(s: string, sep: string, k: nat)
    requires |s| > 0
    ensures OccursAt(s[1..], sep, k) <==> OccursAt(s, sep, k + 1)
  {
    if k + 1 + |sep| <= |s| {
      assert s[1..][k..k + |sep|] == s[k + 1..k + 1 + |sep|];
    }
  }

  function Split(s: string, sep: string): (parts: seq<string>)
    requires |sep| > 0
    ensures |parts| >= 1
    decreases |s|
  {
    if |s| < |sep| then [s]
    else if s[..|sep|] == sep then [""] + Split(s[|sep|..], sep)
    else
      var rest := Split(s[1..], sep);
      [[s[0]] + rest[0]] + rest[1..]
  }

  /** `split` produces a second piece exactly when the separator occurs. */
  lemma {:induction false} SplitHasSecondPieceIffOccurs(s: string, sep: string)
    requires |sep| > 0
    ensures |Split(s, sep)| >= 2 <==> Occurs(s, sep)
    decreases |s|
  {
    if |s| < |sep| {
    } else if s[..|sep|] == sep {
      assert OccursAt(s, sep, 0);
    } else {
      SplitHasSecondPieceIffOccurs(s[1..], sep);
      if Occurs(s, sep) {
        var k: nat :| OccursAt(s, sep, k);
        assert k != 0;
        OccursAtShift(s, sep, k - 1);
      }
      if Occurs(s[1..], sep) {
        var k: nat :| OccursAt(s[1..], sep, k);
        OccursAtShift(s, sep, k);
      }
    }
  }

  /** Without an occurrence of the separator, `split` returns the string itself. */
  lemma SplitWithoutSeparator(s: string, sep: string)
    requires |sep| > 0 && !Occurs(s, sep)
    ensures Split(s, sep) == [s]
  {
    SplitHasSecondPieceIffOccurs(s, sep);
    SplitFirstPiece(s, sep);
  }

  /** A single piece is the whole string. */
  lemma {:induction false} SplitFirstPiece(s: string, sep: string)
    requires |sep| > 0
    ensures |Split(s, sep)| == 1 ==> Split(s, sep)[0] == s
    decreases |s|
  {
    if |s| >= |sep| && s[..|sep|] != sep {
      SplitFirstPiece(s[1..], sep);
      var rest := Split(s[1..], sep);
      if |rest| == 1 { assert [s[0]] + s[1..] == s; }
    }
  }

  /** A string that lacks some character of `sep` has no occurrence of `sep`. */
  lemma MissingCharMeansNoOccurrence(s: string, sep: string, m: nat)
    requires m < |sep| && sep[m] !in s
    ensures !Occurs(s, sep)
  {
    forall k: nat | k + |sep| <= |s| ensures !OccursAt(s, sep, k) {
      assert s[k..k + |sep|][m] == s[k + m];
      assert s[k + m] in s;
    }
  }

  /**
   * When no occurrence of `sep` starts inside `x`, the first piece of
   * `x + sep + y` is `x` and the rest is the split of `y`.
   */
  lemma {:induction false} SplitAtFirstSeparator(x: string, sep: string, y: string)
    requires |sep| > 0
    requires forall k: nat :: k < |x| ==> !OccursAt(x + sep + y, sep, k)
    ensures Split(x + sep + y, sep) == [x] + Split(y, sep)
    decreases |x|
  {
    var s := x + sep + y;
    if |x| == 0 {
      assert s == sep + y && s[..|sep|] == sep && s[|sep|..] == y;
    } else {
      assert !OccursAt(s, sep, 0);
      var t := s[1..];
      assert t == x[1..] + sep + y;
      forall k: nat | k < |x[1..]| ensures !OccursAt(x[1..] + sep + y, sep, k) {
        assert !OccursAt(s, sep, k + 1);
        OccursAtShift(s, sep, k);
      }
      SplitAtFirstSeparator(x[1..], sep, y);
      var rest := Split(t, sep);
      assert rest == [x[1..]] + Split(y, sep);
      assert Split(s, sep) == [[s[0]] + rest[0]] + rest[1..];
      assert s[0] == x[0] && [x[0]] + x[1..] == x;
    }
  }

  /** With a one-character separator, the pieces are one more than the separators. */
  lemma {:induction false} SplitOnCharCounts(s: string, c: char)
    ensures |Split(s, [c])| == Count(s, c) + 1
    ensures forall i :: 0 <= i < |Split(s, [c])| ==> Count(Split(s, [c])[i], c) == 0
    decreases |s|
  {
    var sep := [c];
    if |s| < 1 {
    } else if s[..1] == sep {
      SplitOnCharCounts(s[1..], c);
      var parts := Split(s, sep);
      assert parts == [""] + Split(s[1..], sep);
      forall i | 0 <= i < |parts| ensures Count(parts[i], c) == 0 {
        if i > 0 { assert parts[i] == Split(s[1..], sep)[i - 1]; }
      }
    } else {
      SplitOnCharCounts(s[1..], c);
      var rest := Split(s[1..], sep);
      var parts := Split(s, sep);
      assert parts == [[s[0]] + rest[0]] + rest[1..];
      assert s[0] != c;
      CountConcat([s[0]], rest[0], c);
      forall i | 0 <= i < |parts| ensures Count(parts[i], c) == 0 {
        if i > 0 { assert parts[i] == rest[i]; }
      }
    }
  }

  // ---------------------------------------------------------------------------
  // sep.join(parts)
  // ---------------------------------------------------------------------------

  function Join(sep: string, parts: seq<string>): string
    decreases |parts|
  {
    if |parts| == 0 then ""
    else if |parts| == 1 then parts[0]
    else parts[0] + sep + Join(sep, parts[1..])
  }

  lemma MulStep(k: int, x: int)
    ensures k * x == (k - 1) * x + x
  {
  }

  /** Joining pieces free of `c` contributes only the separators' copies of `c`. */
  lemma {:induction false} JoinCount(sep: string, parts: seq<string>, c: char)
    requires |parts| >= 1
    requires forall i :: 0 <= i < |parts| ==> Count(parts[i], c) == 0
    ensures Count(Join(sep, parts), c) == (|parts| - 1) * Count(sep, c)
    decreases |parts|
  {
    if |parts| > 1 {
      var rest := Join(sep, parts[1..]);
      assert Join(sep, parts) == parts[0] + sep + rest;
      assert forall i :: 0 <= i < |parts[1..]| ==> parts[1..][i] == parts[i + 1];
      JoinCount(sep, parts[1..], c);
      CountConcat(parts[0] + sep, rest, c);
      CountConcat(parts[0], sep, c);
      assert Count(parts[0], c) == 0;
      MulStep(|parts| - 1, Count(sep, c));
    }
  }

  // ---------------------------------------------------------------------------
  // str.strip()
  // ---------------------------------------------------------------------------

  function StripLeft(s: string): (r: string)
    ensures |r| <= |s| && r == s[|s| - |r|..]
    ensures forall i :: 0 <= i < |s| - |r| ==> IsWhitespace(s[i])
    ensures |r| > 0 ==> !IsWhitespace(r[0])
    decreases |s|
  {
    if |s| > 0 && IsWhitespace(s[0]) then StripLeft(s[1..]) else s
  }

  function StripRight(s: string): (r: string)
    ensures |r| <= |s| && r == s[..|r|]
    ensures forall i :: |r| <= i < |s| ==> IsWhitespace(s[i])
    ensures |r| > 0 ==> !IsWhitespace(r[|r| - 1])
    decreases |s|
  {
    if |s| > 0 && IsWhitespace(s[|s| - 1]) then StripRight(s[..|s| - 1]) else s
  }

  function Strip(s: string): string
  {
    StripRight(StripLeft(s))
  }

  /** A string without leading or trailing whitespace is its own strip. */
  lemma StripTrimmed(s: string)
    requires |s| > 0 ==> !IsWhitespace(s[0]) && !IsWhitespace(s[|s| - 1])
    ensures Strip(s) == s
  {
  }

  /** Stripping removes whitespace only, so it keeps every other character's count. */
  lemma StripKeepsCount(s: string, c: char)
    requires !IsWhitespace(c)
    ensures Count(Strip(s), c) == Count(s, c)
  {
    StripLeftKeepsCount(s, c);
    StripRightKeepsCount(StripLeft(s), c);
  }

  lemma StripLeftKeepsCount(s: string, c: char)
    requires !IsWhitespace(c)
    ensures Count(StripLeft(s), c) == Count(s, c)
  {
    var l := StripLeft(s);
    var w := s[..|s| - |l|];
    assert s == w + l;
    CountConcat(w, l, c);
    WhitespaceCount(w, c);
  }

  lemma StripRightKeepsCount(s: string, c: char)
    requires !IsWhitespace(c)
    ensures Count(StripRight(s), c) == Count(s, c)
  {
    var r := StripRight(s);
    var w := s[|r|..];
    assert s == r + w;
    CountConcat(r, w, c);
    WhitespaceCount(w, c);
  }

  lemma WhitespaceCount(w: string, c: char)
    requires !IsWhitespace(c)
    requires forall i :: 0 <= i < |w| ==> IsWhitespace(w[i])
    ensures Count(w, c) == 0
  {
    CountZero(w, c);
  }

  // ---------------------------------------------------------------------------
  // str(int) and int(str)
  // ---------------------------------------------------------------------------

  function DigitChar(d: nat): (c: char)
    requires d < 10
    ensures IsDigit(c)
  {
    ('0' as int + d) as char
  }

  function NatToString(n: nat): (r: string)
    ensures |r| > 0
    ensures forall i :: 0 <= i < |r| ==> IsDigit(r[i])
    decreases n
  {
    if n < 10 then [DigitChar(n)] else NatToString(n / 10) + [DigitChar(n % 10)]
  }

  /** `str(i)` for an integer `i`. */
  function IntToString(i: int): (r: string)
    ensures |r| > 0
    ensures forall k :: 0 <= k < |r| ==> IsDigit(r[k]) || (k == 0 && r[k] == '-')
    decreases if i < 0 then 1 else 0
  {
    if i < 0 then "-" + IntToString(-i) else NatToString(i)
  }

  predicate AllDigits(s: string) { forall i :: 0 <= i < |s| ==> IsDigit(s[i]) }

  function DigitsValue(s: string): nat
    requires AllDigits(s)
    decreases |s|
  {
    if |s| == 0 then 0 else DigitsValue(s[..|s| - 1]) * 10 + (s[|s| - 1] as int - '0' as int)
  }

  /**
   * `int(s)`: surrounding whitespace is ignored, then an optional '+' or '-'
   * sign and one or more ASCII decimal digits; anything else is a
   * `ValueError`.
   */
  function ParseInt(s: string): Result<int>
  {
    var t := Strip(s);
    if |t| > 1 && (t[0] == '-' || t[0] == '+') && AllDigits(t[1..]) then
      var v := DigitsValue(t[1..]) as int;
      Success(if t[0] == '-' then -v else v)
    else if |t| > 0 && AllDigits(t) then Success(DigitsValue(t))
    else Failure(ValueError)
  }

  lemma {:induction false} DigitsOfNat(n: nat)
    ensures DigitsValue(NatToString(n)) == n
    decreases n
  {
    if n >= 10 {
      DigitsOfNat(n / 10);
      var s := NatToString(n);
      assert s[..|s| - 1] == NatToString(n / 10);
    }
  }

  /** `int(str(i)) == i` */
  lemma ParseIntRoundTrip(i: int)
    ensures ParseInt(IntToString(i)) == Success(i)
  {
    var s := IntToString(i);
    assert IsDigit(s[|s| - 1]) && (IsDigit(s[0]) || s[0] == '-');
    StripTrimmed(s);
    if i < 0 {
      DigitsOfNat(-i);
      assert IntToString(-i) == NatToString(-i);
      assert s == "-" + NatToString(-i);
      assert s[1..] == NatToString(-i);
    } else {
      DigitsOfNat(i);
    }
  }

}
