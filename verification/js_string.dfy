/**
  The few ECMAScript string built-ins the capture core and the room screen use,
  modelled on `seq<char>`: `trim`, `indexOf`/`includes`, `replace` with a string
  pattern, `substring`, `substr`, `toUpperCase` and the decimal rendering of a
  non-negative integer (`${n}` for a millisecond timestamp or an index).
*/
module JsString {
  import opened Wrappers

  // ---------------------------------------------------------------------------
  // Whitespace and trim
  // ---------------------------------------------------------------------------

  /** The characters `String.prototype.trim` strips: ECMAScript WhiteSpace
      (TAB, VT, FF, SP, NBSP, ZWNBSP and the space separators) and
      LineTerminator (LF, CR, LS, PS). */
  predicate IsWhitespace(c: char) {
    var n := c as int;
    n == 0x09 || n == 0x0A || n == 0x0B || n == 0x0C || n == 0x0D || n == 0x20
    || n == 0xA0 || n == 0x1680 || (0x2000 <= n <= 0x200A)
    || n == 0x2028 || n == 0x2029 || n == 0x202F || n == 0x205F
    || n == 0x3000 || n == 0xFEFF
  }

  predicate AllWhitespace(s: string) {
    forall i :: 0 <= i < |s| ==> IsWhitespace(s[i])
  }

  /** Neither end of `s` is whitespace (vacuously true of the empty string). */
  predicate Trimmed(s: string) {
    |s| > 0 ==> !IsWhitespace(s[0]) && !IsWhitespace(s[|s| - 1])
  }

  /** The first index at or after `i` that is not whitespace (or `|s|`):
      where the part `trim` keeps starts. */
  function SkipLeading(s: string, i: nat): (r: nat)
    requires i <= |s|
    decreases |s| - i
    ensures i <= r <= |s|
    ensures forall k :: i <= k < r ==> IsWhitespace(s[k])
    ensures r < |s| ==> !IsWhitespace(s[r])
  {
    if i < |s| && IsWhitespace(s[i]) then SkipLeading(s, i + 1) else i
  }

  /** The end of the kept part: the least `r` in [lo, j] with only whitespace
      in [r, j). */
  function SkipTrailing(s: string, lo: nat, j: nat): (r: nat)
    requires lo <= j <= |s|
    decreases j
    ensures lo <= r <= j
    ensures forall k :: r <= k < j ==> IsWhitespace(s[k])
    ensures r > lo ==> !IsWhitespace(s[r - 1])
  {
    if j > lo && IsWhitespace(s[j - 1]) then SkipTrailing(s, lo, j - 1) else j
  }

  /** Where the kept part of `s.trim()` starts: after the leading whitespace. */
  function TrimOffset(s: string): (i: nat)
    ensures i <= |s|
    ensures forall k :: 0 <= k < i ==> IsWhitespace(s[k])
  {
    SkipLeading(s, 0)
  }

  /** `s.trim()`: the longest infix of `s` with whitespace only outside it. */
  function Trim(s: string): (r: string)
    ensures Trimmed(r)
    ensures var i := TrimOffset(s);
            && i + |r| <= |s| && r == s[i..i + |r|]
            && (forall k :: 0 <= k < i ==> IsWhitespace(s[k]))
            && (forall k :: i + |r| <= k < |s| ==> IsWhitespace(s[k]))
  {
    var lo := SkipLeading(s, 0);
    var hi := SkipTrailing(s, lo, |s|);
    s[lo..hi]
  }

  /** A string trims to the empty string exactly when it is all whitespace. */
  lemma TrimEmptyIffBlank(s: string)
    ensures Trim(s) == [] <==> AllWhitespace(s)
  {
    var r := Trim(s);
    var i := TrimOffset(s);
    if r != [] {
      assert s[i] == r[0];
    }
  }

  /** Trimming a trimmed string changes nothing, so `trim` is idempotent. */
  lemma TrimOfTrimmed(s: string)
    requires Trimmed(s)
    ensures Trim(s) == s
  {
    assert SkipLeading(s, 0) == 0;
    assert SkipTrailing(s, 0, |s|) == |s|;
  }

  lemma TrimIdempotent(s: string)
    ensures Trim(Trim(s)) == Trim(s)
  {
    TrimOfTrimmed(Trim(s));
  }

  // ---------------------------------------------------------------------------
  // Searching and replacing
  // ---------------------------------------------------------------------------

  /** `pat` occurs in `s` starting at index `j`. */
  predicate MatchAt(s: string, pat: string, j: nat) {
    j + |pat| <= |s| && s[j..j + |pat|] == pat
  }

  /** `s.indexOf(pat, from)`: the first occurrence at or after `from`. */
  function IndexOfFrom(s: string, pat: string, from: nat): (r: Option<nat>)
    requires from <= |s|
    decreases |s| - from
    ensures r.Some? ==> from <= r.value && MatchAt(s, pat, r.value)
    ensures r.Some? ==> forall j :: from <= j < r.value ==> !MatchAt(s, pat, j)
    ensures r.None? ==> forall j :: from <= j ==> !MatchAt(s, pat, j)
  {
    if from + |pat| > |s| then None
    else if s[from..from + |pat|] == pat then Some(from)
    else IndexOfFrom(s, pat, from + 1)
  }

  /** `s.indexOf(pat)`, with JavaScript's -1 as `None`. */
  function IndexOf(s: string, pat: string): (r: Option<nat>)
    ensures r.Some? ==> MatchAt(s, pat, r.value)
    ensures r.Some? ==> forall j: nat :: j < r.value ==> !MatchAt(s, pat, j)
    ensures r.None? ==> forall j: nat :: !MatchAt(s, pat, j)
  {
    IndexOfFrom(s, pat, 0)
  }

  /** `s.includes(pat)`. */
  function Includes(s: string, pat: string): (r: bool)
    ensures r <==> exists j: nat :: MatchAt(s, pat, j)
  {
    IndexOf(s, pat).Some?
  }

  /** `s.replace(pat, rep)` with a string pattern: only the FIRST occurrence is
      replaced (`rep` is taken literally; the `$` forms do not arise here). */
  function ReplaceFirst(s: string, pat: string, rep: string): (r: string)
    ensures !Includes(s, pat) ==> r == s
    ensures Includes(s, pat) ==>
              var i := IndexOf(s, pat).value;
              && r == s[..i] + rep + s[i + |pat|..]
              && (|pat| > 0 ==> !Includes(s[..i], pat))
  {
    match IndexOf(s, pat)
    case None => s
    case Some(i) =>
      PrefixBeforeFirstHasNone(s, pat, i);
      s[..i] + rep + s[i + |pat|..]
  }

  /** Nothing before the first occurrence of a non-empty `pat` contains it. */
  lemma PrefixBeforeFirstHasNone(s: string, pat: string, i: nat)
    requires IndexOf(s, pat) == Some(i)
    ensures |pat| > 0 ==> !Includes(s[..i], pat)
  {
    if |pat| > 0 {
      forall j: nat | j + |pat| <= i ensures !MatchAt(s[..i], pat, j) {
        assert !MatchAt(s, pat, j);
        forall k | j <= k < j + |pat| ensures s[..i][k] == s[k] {
        }
        assert s[..i][j..j + |pat|] == s[j..j + |pat|];
      }
    }
  }

  /** Deleting the first occurrence of `pat` loses nothing: putting `pat` back at
      the same index gives the original string. */
  lemma RemoveFirstReinsert(s: string, pat: string)
    requires Includes(s, pat)
    ensures var i := IndexOf(s, pat).value;
            var r := ReplaceFirst(s, pat, "");
            r[..i] + pat + r[i..] == s
  {
    var i := IndexOf(s, pat).value;
    var r := ReplaceFirst(s, pat, "");
    assert r == s[..i] + s[i + |pat|..];
    assert r[..i] == s[..i];
    assert r[i..] == s[i + |pat|..];
    assert s == s[..i] + s[i..i + |pat|] + s[i + |pat|..];
  }

  /** A string lacking one of the characters of `pat` does not contain `pat`. */
  lemma MissingCharNoMatch(s: string, pat: string, m: nat)
    requires m < |pat| && forall k :: 0 <= k < |s| ==> s[k] != pat[m]
    ensures !Includes(s, pat)
  {
    forall j: nat | j + |pat| <= |s| ensures !MatchAt(s, pat, j) {
      assert s[j..j + |pat|][m] == s[j + m] != pat[m];
    }
  }

  /** No proper suffix of `pat` is also a prefix of it, so two occurrences of
      `pat` can never overlap. */
  predicate BorderFree(pat: string) {
    forall d :: 0 < d < |pat| ==> pat[d..] != pat[..|pat| - d]
  }

  lemma ZipExtensionBorderFree()
    ensures BorderFree(".zip")
  {
    var z := ".zip";
    forall d | 0 < d < |z| ensures z[d..] != z[..|z| - d] {
      // every proper suffix starts with a letter, the prefix with '.'
      assert z[d..][0] != '.' && z[..|z| - d][0] == '.';
    }
  }

  /** Two overlapping occurrences of `pat` expose a border of `pat`. */
  lemma OverlapIsBorder(s: string, pat: string, i: nat, j: nat)
    requires MatchAt(s, pat, i) && MatchAt(s, pat, j) && i < j < i + |pat|
    ensures pat[j - i..] == pat[..|pat| - (j - i)]
  {
    var d := j - i;
    forall k | 0 <= k < |pat| - d ensures pat[d..][k] == pat[..|pat| - d][k] {
      assert pat[d + k] == s[i..i + |pat|][d + k] == s[j + k] == s[j..j + |pat|][k];
    }
  }

  /** Removing a border-free `pat` from `b + pat` gives back `b` when `b` does
      not contain it. */
  lemma RemoveSuffixOccurrence(b: string, pat: string)
    requires BorderFree(pat) && !Includes(b, pat)
    ensures ReplaceFirst(b + pat, pat, "") == b
  {
    var s := b + pat;
    assert MatchAt(s, pat, |b|) by { assert s[|b|..|b| + |pat|] == pat; }
    var i := IndexOf(s, pat).value;
    if i < |b| {
      assert MatchAt(s, pat, i);
      if i + |pat| <= |b| {
        assert b[i..i + |pat|] == s[i..i + |pat|];
        assert MatchAt(b, pat, i);
        assert false;
      } else {
        // the occurrence at i would overlap the one at |b| by a proper border
        OverlapIsBorder(s, pat, i, |b|);
        assert false;
      }
    }
    assert i == |b|;
    assert s[..i] == b;
  }

  // ---------------------------------------------------------------------------
  // Slicing and case
  // ---------------------------------------------------------------------------

  function Min(a: int, b: int): int { if a <= b then a else b }
  function Max(a: int, b: int): int { if a <= b then b else a }

  /** `s.substring(a, b)` for non-negative arguments: both ends are clamped to
      the length and swapped if given in decreasing order. */
  function Substring(s: string, a: nat, b: nat): (r: string)
    ensures |r| == Min(Max(a, b), |s|) - Min(Min(a, b), |s|)
    ensures var lo := Min(Min(a, b), |s|);
            lo + |r| <= |s| && forall k :: 0 <= k < |r| ==> r[k] == s[lo + k]
  {
    s[Min(Min(a, b), |s|)..Min(Max(a, b), |s|)]
  }

  /** `s.substr(start, length)` for non-negative arguments. */
  function Substr(s: string, start: nat, length: nat): (r: string)
    ensures |r| == Min(start + length, |s|) - Min(start, |s|)
    ensures var lo := Min(start, |s|);
            lo + |r| <= |s| && forall k :: 0 <= k < |r| ==> r[k] == s[lo + k]
  {
    s[Min(start, |s|)..Min(start + length, |s|)]
  }

  predicate IsLowerAscii(c: char) { 'a' <= c <= 'z' }

  function UpperChar(c: char): (u: char)
    ensures !IsLowerAscii(u)
    ensures IsLowerAscii(c) ==> u as int == c as int - 32
    ensures !IsLowerAscii(c) ==> u == c
  {
    if IsLowerAscii(c) then (c as int - 32) as char else c
  }

  /** `s.toUpperCase()` on the ASCII letters. */
  function ToUpper(s: string): (r: string)
    ensures |r| == |s|
    ensures forall k :: 0 <= k < |s| ==> r[k] == UpperChar(s[k])
  {
    if |s| == 0 then [] else [UpperChar(s[0])] + ToUpper(s[1..])
  }

  // ---------------------------------------------------------------------------
  // Decimal rendering of non-negative integers
  // ---------------------------------------------------------------------------

  predicate IsDigit(c: char) { '0' <= c <= '9' }

  predicate AllDigits(s: string) {
    forall k :: 0 <= k < |s| ==> IsDigit(s[k])
  }

  function DigitChar(d: nat): (c: char)
    requires d < 10
    ensures IsDigit(c)
  {
    ('0' as int + d) as char
  }

  function DigitValue(c: char): (d: nat)
    requires IsDigit(c)
    ensures d < 10
  {
    c as int - '0' as int
  }

  /** Reads a string of decimal digits as a number. */
  function ParseDecimal(s: string): nat
    requires AllDigits(s)
  {
    if |s| == 0 then 0 else ParseDecimal(s[..|s| - 1]) * 10 + DigitValue(s[|s| - 1])
  }

  /** `${n}` for a non-negative integer below 10^21 (where JavaScript switches
      to exponent notation): its shortest decimal rendering. */
  function NatToString(n: nat): (r: string)
    ensures |r| > 0 && AllDigits(r)
    ensures |r| > 1 ==> r[0] != '0'
  {
    if n < 10 then [DigitChar(n)] else NatToString(n / 10) + [DigitChar(n % 10)]
  }

  /** The rendering reads back as the same number. */
  lemma {:induction false} ParseNatToString(n: nat)
    ensures ParseDecimal(NatToString(n)) == n
  {
    var r := NatToString(n);
    if n >= 10 {
      ParseNatToString(n / 10);
      assert r[..|r| - 1] == NatToString(n / 10);
    }
  }

  /** Distinct numbers render as distinct strings. */
  lemma NatToStringInjective(m: nat, n: nat)
    requires NatToString(m) == NatToString(n)
    ensures m == n
  {
    ParseNatToString(m);
    ParseNatToString(n);
  }
}
