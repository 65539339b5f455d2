/**
  Character and string primitives with the meaning Python 3 gives them:
  whitespace as `str.isspace` (which is also what `str.strip()`, `str.split()`
  and the regular-expression class `\s` use), ASCII lower-casing, substring
  search and the decimal rendering `str(n)` of a natural number.
 */
module Text {

  /** Python's `str.isspace`: the Unicode characters of bidirectional class
      WS, B or S, or of general category Zs. */
  predicate IsSpace(c: char) {
    || c == ' '
    || ('\t' <= c <= '\r')
    || ('\U{1c}' <= c <= '\U{1f}')
    || c == '\U{85}' || c == '\U{a0}' || c == '\U{1680}'
    || ('\U{2000}' <= c <= '\U{200a}')
    || c == '\U{2028}' || c == '\U{2029}' || c == '\U{202f}' || c == '\U{205f}' || c == '\U{3000}'
  }

  /** `s.lstrip()`: drops the leading whitespace and nothing else. */
  function LStrip(s: string): (r: string)
    ensures |r| <= |s| && r == s[|s| - |r|..]
    ensures forall i :: 0 <= i < |s| - |r| ==> IsSpace(s[i])
    ensures r == [] || !IsSpace(r[0])
  {
    if |s| > 0 && IsSpace(s[0]) then LStrip(s[1..]) else s
  }

  /** `s.rstrip()`: drops the trailing whitespace and nothing else. */
  function RStrip(s: string): (r: string)
    ensures |r| <= |s| && r == s[..|r|]
    ensures forall i :: |r| <= i < |s| ==> IsSpace(s[i])
    ensures r == [] || !IsSpace(r[|r| - 1])
  {
    if |s| > 0 && IsSpace(s[|s| - 1]) then RStrip(s[..|s| - 1]) else s
  }

  /** A non-empty string with no whitespace at either end. */
  predicate Trimmed(s: string) {
    s != [] && !IsSpace(s[0]) && !IsSpace(s[|s| - 1])
  }

  /** `r` is `s` with a whitespace prefix of length `i` and a whitespace
      suffix removed. */
  predicate TrimOf(s: string, i: nat, r: string) {
    && i + |r| <= |s| && r == s[i..i + |r|]
    && (forall k :: 0 <= k < i ==> IsSpace(s[k]))
    && (forall k :: i + |r| <= k < |s| ==> IsSpace(s[k]))
  }

  /** `s.strip()`: the input without its surrounding whitespace, and with no
      whitespace left at either end. */
  function Strip(s: string): (r: string)
    ensures |r| <= |s|
    ensures r == [] || Trimmed(r)
    ensures TrimOf(s, |s| - |LStrip(s)|, r)
  {
    var l := LStrip(s);
    TrimOfStrips(s, l, RStrip(l));
    RStrip(l)
  }

  /** Dropping a whitespace prefix and then a whitespace suffix trims. */
  lemma TrimOfStrips(s: string, l: string, r: string)
    requires |l| <= |s| && l == s[|s| - |l|..] && forall k :: 0 <= k < |s| - |l| ==> IsSpace(s[k])
    requires |r| <= |l| && r == l[..|r|] && forall k :: |r| <= k < |l| ==> IsSpace(l[k])
    ensures TrimOf(s, |s| - |l|, r)
  {
    var i := |s| - |l|;
    assert r == s[i..i + |r|];
    forall k | i + |r| <= k < |s| ensures IsSpace(s[k]) {
      assert s[k] == l[k - i];
    }
  }

  /** `s.strip()` adds no character. */
  lemma StripChars(s: string)
    ensures forall x :: x in Strip(s) ==> x in s
  {
    var l := LStrip(s);
    assert forall x :: x in RStrip(l) ==> x in l;
  }

  /** `s.strip()` is empty exactly when `s` is all whitespace. */
  lemma StripEmpty(s: string)
    ensures Strip(s) == [] <==> forall i :: 0 <= i < |s| ==> IsSpace(s[i])
  {
    var l := LStrip(s);
    if l != [] {
      assert !IsSpace(s[|s| - |l|]);
    }
  }

  /** The text of `s` with every whitespace character left out: what a pass
      that only adds, removes or moves whitespace keeps. */
  function NonSpace(s: string): (r: string)
    ensures |r| <= |s|
  {
    if |s| == 0 then "" else (if IsSpace(s[0]) then "" else [s[0]]) + NonSpace(s[1..])
  }

  lemma {:induction false} NonSpaceAppend(a: string, b: string)
    ensures NonSpace(a + b) == NonSpace(a) + NonSpace(b)
    decreases |a|
  {
    if |a| == 0 {
      assert a + b == b;
    } else {
      assert (a + b)[0] == a[0];
      assert (a + b)[1..] == a[1..] + b;
      NonSpaceAppend(a[1..], b);
    }
  }

  lemma {:induction false} NonSpaceOfSpaces(s: string)
    requires forall k :: 0 <= k < |s| ==> IsSpace(s[k])
    ensures NonSpace(s) == ""
    decreases |s|
  {
    if |s| > 0 {
      NonSpaceOfSpaces(s[1..]);
    }
  }

  /** Cutting a whitespace prefix and suffix keeps the text. */
  lemma TrimKeepsText(s: string, i: nat, r: string)
    requires TrimOf(s, i, r)
    ensures NonSpace(r) == NonSpace(s)
  {
    var pre, post := s[..i], s[i + |r|..];
    assert s == pre + (r + post);
    NonSpaceOfSpaces(pre);
    NonSpaceOfSpaces(post);
    NonSpaceAppend(pre, r + post);
    NonSpaceAppend(r, post);
  }

  /** `s.lstrip()` keeps the text. */
  lemma LStripKeepsText(s: string)
    ensures NonSpace(LStrip(s)) == NonSpace(s)
  {
    TrimKeepsText(s, |s| - |LStrip(s)|, LStrip(s));
  }

  /** `s.strip()` keeps the text. */
  lemma StripKeepsText(s: string)
    ensures NonSpace(Strip(s)) == NonSpace(s)
  {
    TrimKeepsText(s, |s| - |LStrip(s)|, Strip(s));
  }

  /** The first whitespace-delimited word of a string that does not start
      with whitespace: `s.split(None, 1)[0]` once `s` is stripped. */
  function FirstWord(s: string): (w: string)
    ensures |w| <= |s| && w == s[..|w|]
    ensures forall i :: 0 <= i < |w| ==> !IsSpace(w[i])
    ensures |w| == |s| || IsSpace(s[|w|])
  {
    if |s| == 0 || IsSpace(s[0]) then "" else [s[0]] + FirstWord(s[1..])
  }

  function AsciiLowerChar(c: char): char {
    if 'A' <= c <= 'Z' then (c as int + 32) as char else c
  }

  /** `s.lower()` on ASCII letters. For the two comparisons the program makes
      with lower-cased text (`== "select"` and containment of
      `json_validate_failed`) this agrees with full Unicode lower-casing: the
      only non-ASCII characters that lower-case to ASCII letters are U+212A
      (to `k`) and U+0130 (to `i` followed by U+0307), and neither can
      complete either word. */
  function AsciiLower(s: string): (r: string)
    ensures |r| == |s|
    ensures forall i :: 0 <= i < |s| ==> r[i] == AsciiLowerChar(s[i])
  {
    if |s| == 0 then "" else [AsciiLowerChar(s[0])] + AsciiLower(s[1..])
  }

  /** `needle in hay` for strings. */
  ghost predicate IsInfix(needle: string, hay: string) {
    exists i :: OccursAt(needle, hay, i)
  }

  predicate OccursAt(needle: string, hay: string, i: int) {
    0 <= i <= |hay| - |needle| && hay[i..i + |needle|] == needle
  }

  /** `needle in hay`, searched left to right. */
  function Contains(hay: string, needle: string): bool
    decreases |hay|
  {
    if |needle| <= |hay| && hay[..|needle|] == needle then true
    else if |hay| <= |needle| then false
    else Contains(hay[1..], needle)
  }

  /** The search decides `IsInfix`. */
  lemma {:induction false} ContainsIsInfix(hay: string, needle: string)
    ensures Contains(hay, needle) <==> IsInfix(needle, hay)
    decreases |hay|
  {
    if |needle| <= |hay| && hay[..|needle|] == needle {
      assert OccursAt(needle, hay, 0);
    } else if |hay| <= |needle| {
    } else {
      ContainsIsInfix(hay[1..], needle);
      if IsInfix(needle, hay[1..]) {
        var i :| OccursAt(needle, hay[1..], i);
        assert OccursAt(needle, hay, i + 1);
      }
      if IsInfix(needle, hay) {
        var i :| OccursAt(needle, hay, i);
        assert i != 0;
        assert OccursAt(needle, hay[1..], i - 1);
      }
    }
  }

  predicate IsDigit(c: char) { '0' <= c <= '9' }

  function DigitChar(d: nat): char
    requires d < 10
  {
    ('0' as int + d) as char
  }

  /** Python's `str(n)` for a non-negative integer. */
  function NatToString(n: nat): (s: string)
    ensures |s| > 0
    ensures forall i :: 0 <= i < |s| ==> IsDigit(s[i])
    ensures |s| > 1 ==> s[0] != '0'
    decreases n
  {
    if n < 10 then [DigitChar(n)] else NatToString(n / 10) + [DigitChar(n % 10)]
  }

  /** The value of a string of decimal digits: the reading of `NatToString`. */
  function DigitsValue(s: string): nat
    requires forall i :: 0 <= i < |s| ==> IsDigit(s[i])
  {
    if |s| == 0 then 0
    else
      assert IsDigit(s[|s| - 1]);
      10 * DigitsValue(s[..|s| - 1]) + (s[|s| - 1] as int - '0' as int)
  }

  /** The decimal rendering is read back as the number it renders, so the
      counts the agent writes into events and feedback are the true counts. */
  lemma {:induction false} NatToStringRoundTrip(n: nat)
    ensures DigitsValue(NatToString(n)) == n
    decreases n
  {
    if n >= 10 {
      var s := NatToString(n);
      assert s[..|s| - 1] == NatToString(n / 10);
      NatToStringRoundTrip(n / 10);
    }
  }

  lemma NatToStringInjective(m: nat, n: nat)
    ensures NatToString(m) == NatToString(n) ==> m == n
  {
    NatToStringRoundTrip(m);
    NatToStringRoundTrip(n);
  }
}
