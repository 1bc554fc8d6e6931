/** ASCII character classes and the handful of Python string operations the
    scrapers and cleaners rely on: `str.lower`, `str.isupper`, `in`, `str.strip`,
    `str.split`, `str.replace`, `str.startswith`, and the regex tests `\b...\b`
    (whole word, optionally case-insensitive).  Python's Unicode case mapping and
    Unicode `\w`/`\d`/`\s` classes are restricted to ASCII throughout. */
module Text {

  predicate IsUpperChar(c: char) { 'A' <= c <= 'Z' }
  predicate IsLowerChar(c: char) { 'a' <= c <= 'z' }
  predicate IsDigitChar(c: char) { '0' <= c <= '9' }

  /** regex `\w` over ASCII: `[A-Za-z0-9_]` */
  predicate IsWordChar(c: char) { IsUpperChar(c) || IsLowerChar(c) || IsDigitChar(c) || c == '_' }

  /** `str.isspace` and regex `\s` over ASCII: space, \t \n \v \f \r and \x1c-\x1f */
  predicate IsSpaceChar(c: char) { c == ' ' || '\t' <= c <= '\r' || '\U{1C}' <= c <= '\U{1F}' }

  predicate AllDigits(s: string) { forall i | 0 <= i < |s| :: IsDigitChar(s[i]) }
  predicate AllSpace(s: string) { forall i | 0 <= i < |s| :: IsSpaceChar(s[i]) }

  function LowerChar(c: char): (r: char)
    ensures IsUpperChar(c) ==> IsLowerChar(r)
    ensures !IsUpperChar(c) ==> r == c
    ensures IsWordChar(r) == IsWordChar(c)
  {
    if IsUpperChar(c) then (c as int + 32) as char else c
  }

  /** `str.lower` over ASCII */
  function Lower(s: string): (r: string)
    ensures |r| == |s|
    ensures forall i | 0 <= i < |s| :: r[i] == LowerChar(s[i])
  {
    seq(|s|, i requires 0 <= i < |s| => LowerChar(s[i]))
  }

  lemma LowerSlice(s: string, i: int, j: int)
    requires 0 <= i <= j <= |s|
    ensures Lower(s)[i..j] == Lower(s[i..j])
  {
    assert forall k | 0 <= k < j - i :: Lower(s)[i..j][k] == Lower(s[i..j])[k];
  }

  /** `str.isupper` over ASCII: at least one cased character and no lower-case one */
  predicate IsUpper(s: string) {
    && (exists i | 0 <= i < |s| :: IsUpperChar(s[i]))
    && (forall i | 0 <= i < |s| :: !IsLowerChar(s[i]))
  }

  predicate StartsWith(s: string, prefix: string) { |prefix| <= |s| && s[..|prefix|] == prefix }
  predicate EndsWith(s: string, suffix: string) { |suffix| <= |s| && s[|s| - |suffix|..] == suffix }

  /** a prefix stays a prefix when more text is appended */
  lemma StartsWithAppend(s: string, prefix: string, more: string)
    requires StartsWith(s, prefix)
    ensures StartsWith(s + more, prefix)
  {
    assert (s + more)[..|prefix|] == s[..|prefix|];
  }

  predicate OccursAt(s: string, sub: string, i: int) {
    0 <= i && i + |sub| <= |s| && s[i..i + |sub|] == sub
  }

  /** Python's `sub in s` */
  predicate Contains(s: string, sub: string) {
    exists i | 0 <= i <= |s| :: OccursAt(s, sub, i)
  }

  predicate WordCharAt(s: string, p: int) { 0 <= p < |s| && IsWordChar(s[p]) }

  /** regex `\b` at position p (0 <= p <= |s|) */
  predicate Boundary(s: string, p: int) { WordCharAt(s, p - 1) != WordCharAt(s, p) }

  /** `word` occurs at index i of `text` with a word boundary on both sides,
      compared letter by letter or, when `ignoreCase`, after `Lower` */
  predicate WholeWordAt(text: string, word: string, i: int, ignoreCase: bool) {
    && 0 <= i && i + |word| <= |text|
    && (if ignoreCase then Lower(text[i..i + |word|]) == Lower(word) else text[i..i + |word|] == word)
    && Boundary(text, i) && Boundary(text, i + |word|)
  }

  /** `re.search(r'\b' + re.escape(word) + r'\b', text[, re.IGNORECASE])` succeeds */
  predicate ContainsWord(text: string, word: string, ignoreCase: bool) {
    exists i | 0 <= i <= |text| :: WholeWordAt(text, word, i, ignoreCase)
  }

  lemma {:induction false} CaseSensitiveWordIsCaseInsensitiveWord(text: string, word: string)
    requires ContainsWord(text, word, false)
    ensures ContainsWord(text, word, true)
  {
    var i :| 0 <= i <= |text| && WholeWordAt(text, word, i, false);
    assert WholeWordAt(text, word, i, true);
  }

  /** A case-insensitive occurrence is a case-insensitive substring occurrence. */
  lemma {:induction false} WordIsSubstringOfLower(text: string, word: string)
    requires ContainsWord(text, word, true)
    ensures Contains(Lower(text), Lower(word))
  {
    var i :| 0 <= i <= |text| && WholeWordAt(text, word, i, true);
    LowerSlice(text, i, i + |word|);
    assert OccursAt(Lower(text), Lower(word), i);
  }

  /** `str.rstrip()`: removes exactly the trailing whitespace */
  function RStrip(s: string): (r: string)
    ensures |r| <= |s| && r == s[..|r|]
    ensures |r| > 0 ==> !IsSpaceChar(r[|r| - 1])
    ensures forall i | |r| <= i < |s| :: IsSpaceChar(s[i])
    decreases |s|
  {
    if |s| > 0 && IsSpaceChar(s[|s| - 1]) then RStrip(s[..|s| - 1]) else s
  }

  /** `str.lstrip()`: removes exactly the leading whitespace */
  function LStrip(s: string): (r: string)
    ensures |r| <= |s| && r == s[|s| - |r|..]
    ensures |r| > 0 ==> !IsSpaceChar(r[0])
    ensures forall i | 0 <= i < |s| - |r| :: IsSpaceChar(s[i])
    decreases |s|
  {
    if |s| > 0 && IsSpaceChar(s[0]) then LStrip(s[1..]) else s
  }

  /** `str.strip()` */
  function Strip(s: string): (r: string)
    ensures |r| > 0 ==> !IsSpaceChar(r[0]) && !IsSpaceChar(r[|r| - 1])
    ensures AllSpace(s) ==> r == []
  {
    RStrip(LStrip(s))
  }

  /** stripping adds no character */
  lemma StripAddsNothing(s: string, x: char)
    requires x !in s
    ensures x !in Strip(s)
  {
    var l := LStrip(s);
    var t := RStrip(l);
    forall j | 0 <= j < |t| ensures t[j] != x {
      assert t[j] == l[j];
      assert l[j] == s[|s| - |l| + j];
    }
  }

  lemma RStripOfSpaces(a: string, w: string)
    requires AllSpace(w)
    ensures RStrip(a + w) == RStrip(a)
    decreases |w|
  {
    if w != [] {
      assert (a + w)[..|a + w| - 1] == a + w[..|w| - 1];
      RStripOfSpaces(a, w[..|w| - 1]);
    } else {
      assert a + w == a;
    }
  }

  /** Every occurrence of `c` removed: `s.replace(c, '')` for a one-character `c` */
  function RemoveChar(s: string, c: char): (r: string)
    ensures c !in r
    ensures |r| <= |s|
    ensures forall x | x in r :: x in s
  {
    if s == [] then [] else (if s[0] == c then [] else [s[0]]) + RemoveChar(s[1..], c)
  }

  /** `s.replace(pat, rep)`: left-to-right, non-overlapping */
  function ReplaceAll(s: string, pat: string, rep: string): string
    requires |pat| > 0
    decreases |s|
  {
    if |s| < |pat| then s
    else if s[..|pat|] == pat then rep + ReplaceAll(s[|pat|..], pat, rep)
    else [s[0]] + ReplaceAll(s[1..], pat, rep)
  }

  /** An occurrence in the tail is an occurrence one position later in the whole. */
  lemma OccursInTail(s: string, pat: string, i: int)
    requires |s| > 0 && 0 <= i
    ensures OccursAt(s[1..], pat, i) <==> OccursAt(s, pat, i + 1)
  {
    if i + 1 + |pat| <= |s| {
      assert s[1..][i..i + |pat|] == s[i + 1..i + 1 + |pat|];
    }
  }

  /** A string with no occurrence of the pattern is left unchanged. */
  lemma {:induction false} ReplaceAllAbsent(s: string, pat: string, rep: string)
    requires |pat| > 0 && !Contains(s, pat)
    ensures ReplaceAll(s, pat, rep) == s
    decreases |s|
  {
    if |s| >= |pat| {
      assert !OccursAt(s, pat, 0);
      assert !Contains(s[1..], pat) by {
        forall i | 0 <= i <= |s[1..]| ensures !OccursAt(s[1..], pat, i) {
          OccursInTail(s, pat, i);
        }
      }
      ReplaceAllAbsent(s[1..], pat, rep);
    }
  }

  /** Replacing a pattern by itself changes nothing. */
  lemma {:induction false} ReplaceAllIdentity(s: string, pat: string)
    requires |pat| > 0
    ensures ReplaceAll(s, pat, pat) == s
    decreases |s|
  {
    if |s| >= |pat| {
      if s[..|pat|] == pat {
        ReplaceAllIdentity(s[|pat|..], pat);
        assert s == s[..|pat|] + s[|pat|..];
      } else {
        ReplaceAllIdentity(s[1..], pat);
        assert s == [s[0]] + s[1..];
      }
    }
  }

  /** When the pattern occurs exactly once, at the very end, only that occurrence is rewritten. */
  lemma {:induction false} ReplaceAllOnlyAtEnd(s: string, pat: string, rep: string)
    requires |pat| > 0 && |pat| <= |s|
    requires OccursAt(s, pat, |s| - |pat|)
    requires forall i | 0 <= i < |s| - |pat| :: !OccursAt(s, pat, i)
    ensures ReplaceAll(s, pat, rep) == s[..|s| - |pat|] + rep
    decreases |s|
  {
    if |s| == |pat| {
      assert s[..|pat|] == pat && s[|pat|..] == [] && s[..|s| - |pat|] == [];
      assert ReplaceAll(s, pat, rep) == rep + ReplaceAll([], pat, rep);
    } else {
      var t := s[1..];
      OnlyAtEndInTail(s, pat);
      assert ReplaceAll(s, pat, rep) == [s[0]] + ReplaceAll(t, pat, rep);
      ReplaceAllOnlyAtEnd(t, pat, rep);
      assert [s[0]] + t[..|t| - |pat|] == s[..|s| - |pat|];
    }
  }

  /** a single occurrence at the end is not at the start of a longer string, and is
      the single occurrence of its tail */
  lemma OnlyAtEndInTail(s: string, pat: string)
    requires 0 < |pat| < |s|
    requires OccursAt(s, pat, |s| - |pat|)
    requires forall i | 0 <= i < |s| - |pat| :: !OccursAt(s, pat, i)
    ensures s[..|pat|] != pat
    ensures OccursAt(s[1..], pat, |s[1..]| - |pat|)
    ensures forall i | 0 <= i < |s[1..]| - |pat| :: !OccursAt(s[1..], pat, i)
  {
    assert !OccursAt(s, pat, 0);
    OccursInTail(s, pat, |s| - 1 - |pat|);
    forall i | 0 <= i < |s| - 1 - |pat| ensures !OccursAt(s[1..], pat, i) {
      OccursInTail(s, pat, i);
    }
  }

  function IndexOf(s: string, c: char): (k: nat)
    requires c in s
    ensures k < |s| && s[k] == c && c !in s[..k]
  {
    if s[0] == c then 0 else 1 + IndexOf(s[1..], c)
  }

  /** `s.split(sep)` for a one-character separator */
  function Split(s: string, sep: char): (parts: seq<string>)
    ensures |parts| >= 1
    ensures forall k | 0 <= k < |parts| :: sep !in parts[k]
    decreases |s|
  {
    if sep in s then
      var k := IndexOf(s, sep);
      [s[..k]] + Split(s[k + 1..], sep)
    else [s]
  }

  /** `sep.join(parts)` */
  function Join(parts: seq<string>, sep: char): string
    requires |parts| >= 1
  {
    if |parts| == 1 then parts[0] else parts[0] + [sep] + Join(parts[1..], sep)
  }

  lemma {:induction false} SplitAfterFirst(a: string, sep: char, b: string)
    requires sep !in a
    ensures Split(a + [sep] + b, sep) == [a] + Split(b, sep)
  {
    var s := a + [sep] + b;
    assert s[|a|] == sep;
    var k := IndexOf(s, sep);
    assert k == |a|;
    assert s[..k] == a;
    assert s[k + 1..] == b;
  }

  /** Joining what `Split` produced gives the input back. */
  lemma {:induction false} JoinSplit(s: string, sep: char)
    ensures Join(Split(s, sep), sep) == s
    decreases |s|
  {
    if sep in s {
      var k := IndexOf(s, sep);
      var a, b := s[..k], s[k + 1..];
      var parts := Split(s, sep);
      assert parts == [a] + Split(b, sep);
      assert |parts| > 1 && parts[0] == a && parts[1..] == Split(b, sep);
      JoinSplit(b, sep);
      assert Join(parts, sep) == a + [sep] + Join(Split(b, sep), sep);
      assert s == a + [sep] + b;
    }
  }

  /** Splitting a join of separator-free parts gives the parts back. */
  lemma {:induction false} SplitJoin(parts: seq<string>, sep: char)
    requires |parts| >= 1
    requires forall k | 0 <= k < |parts| :: sep !in parts[k]
    ensures Split(Join(parts, sep), sep) == parts
  {
    if |parts| > 1 {
      SplitJoin(parts[1..], sep);
      SplitAfterFirst(parts[0], sep, Join(parts[1..], sep));
      assert parts == [parts[0]] + parts[1..];
    }
  }

  function DigitChar(d: int): (c: char)
    requires 0 <= d <= 9
    ensures IsDigitChar(c)
  {
    ('0' as int + d) as char
  }

  function DigitValue(c: char): (d: int)
    requires IsDigitChar(c)
    ensures 0 <= d <= 9
  {
    c as int - '0' as int
  }

  /** `str(n)` for a natural number */
  function NatToString(n: nat): (s: string)
    ensures |s| >= 1 && AllDigits(s)
    decreases n
  {
    if n < 10 then [DigitChar(n)] else NatToString(n / 10) + [DigitChar(n % 10)]
  }

  /** `str(i)` for an integer */
  function IntToString(i: int): string {
    if i < 0 then "-" + NatToString(-i) else NatToString(i)
  }

  /** The value of a string of decimal digits. */
  function DecimalValue(s: string): (n: nat)
    requires AllDigits(s)
  {
    if s == [] then 0 else 10 * DecimalValue(s[..|s| - 1]) + DigitValue(s[|s| - 1])
  }

  /** Reading back what `NatToString` writes. */
  lemma {:induction false} DecimalValueOfNatToString(n: nat)
    ensures DecimalValue(NatToString(n)) == n
    decreases n
  {
    if n >= 10 {
      DecimalValueOfNatToString(n / 10);
      var s := NatToString(n);
      assert s[..|s| - 1] == NatToString(n / 10);
    }
  }

  /** `n` written with at least `width` digits, left-padded with '0' (`%02d`, `%04d`) */
  function ZeroPad(n: nat, width: nat): (s: string)
    ensures |s| >= width && AllDigits(s)
  {
    var d := NatToString(n);
    if |d| >= width then d else seq(width - |d|, _ => '0') + d
  }

  lemma {:induction false} DecimalValueLeadingZeros(z: string, d: string)
    requires AllDigits(d) && forall i | 0 <= i < |z| :: z[i] == '0'
    ensures AllDigits(z + d) && DecimalValue(z + d) == DecimalValue(d)
    decreases |d|
  {
    if d == [] {
      DecimalValueOfZeros(z);
      assert z + d == z;
    } else {
      DecimalValueLeadingZeros(z, d[..|d| - 1]);
      assert (z + d)[..|z + d| - 1] == z + d[..|d| - 1];
    }
  }

  lemma {:induction false} DecimalValueOfZeros(z: string)
    requires forall i | 0 <= i < |z| :: z[i] == '0'
    ensures AllDigits(z) && DecimalValue(z) == 0
    decreases |z|
  {
    if z != [] { DecimalValueOfZeros(z[..|z| - 1]); }
  }

  /** Reading back what `ZeroPad` writes. */
  lemma DecimalValueOfZeroPad(n: nat, width: nat)
    ensures DecimalValue(ZeroPad(n, width)) == n
  {
    DecimalValueOfNatToString(n);
    var d := NatToString(n);
    if |d| < width { DecimalValueLeadingZeros(seq(width - |d|, _ => '0'), d); }
  }

  lemma NatToStringLength(n: nat, k: nat)
    requires n < Pow10(k)
    ensures |NatToString(n)| <= if k == 0 then 1 else k
    decreases n
  {
    if n >= 10 { NatToStringLength(n / 10, k - 1); }
  }

  function Pow10(k: nat): (p: nat)
    ensures p >= 1
  {
    if k == 0 then 1 else 10 * Pow10(k - 1)
  }

  /** A number below 10^width is written with exactly `width` characters. */
  lemma ZeroPadLength(n: nat, width: nat)
    requires width >= 1 && n < Pow10(width)
    ensures |ZeroPad(n, width)| == width
  {
    NatToStringLength(n, width);
  }
}
