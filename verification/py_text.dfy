/**
 * The few pieces of Python's `str` and slice semantics that the modelled
 * code relies on: `in`, `find`, `rfind`, `strip`, `lower`, `f"{n}"` for a
 * non-negative integer, and slicing with possibly negative bounds.
 * Whitespace and decimal digits are Python's Unicode classes; only
 * lower-casing is restricted to ASCII letters.
 */
module PyText {

  /** Python's `None` or a value. */
  datatype Option<T> = None | Some(value: T)

  /**
   * The characters `str.isspace()`, `str.strip()` and the regex class `\s`
   * treat as whitespace: the ASCII controls from tab to carriage return
   * and from U+001C to U+001F, the space, and the Unicode spaces and
   * separators.
   */
  predicate IsSpace(c: char) {
    if c <= '\U{7f}' then ('\t' <= c <= '\r') || ('\U{1c}' <= c <= ' ') else NonAsciiSpace(c)
  }

  /** The whitespace characters outside ASCII: Unicode spaces, separators and the next-line control. */
  predicate NonAsciiSpace(c: char) {
    || c == '\U{85}' || c == '\U{a0}' || c == '\U{1680}'
    || ('\U{2000}' <= c <= '\U{200a}') || c == '\U{2028}' || c == '\U{2029}'
    || c == '\U{202f}' || c == '\U{205f}' || c == '\U{3000}'
  }

  /**
   * A decimal digit (Unicode category Nd, Unicode 15) outside ASCII: the
   * digits come in runs of ten, from a zero to a nine, listed in ascending
   * order eight runs at a time.
   */
  predicate NonAsciiDigit(c: char) {
    if c <= '\U{b6f}' then
      ('\U{660}' <= c <= '\U{669}') || ('\U{6f0}' <= c <= '\U{6f9}')
      || ('\U{7c0}' <= c <= '\U{7c9}') || ('\U{966}' <= c <= '\U{96f}')
      || ('\U{9e6}' <= c <= '\U{9ef}') || ('\U{a66}' <= c <= '\U{a6f}')
      || ('\U{ae6}' <= c <= '\U{aef}') || ('\U{b66}' <= c <= '\U{b6f}')
    else if c <= '\U{f29}' then
      ('\U{be6}' <= c <= '\U{bef}') || ('\U{c66}' <= c <= '\U{c6f}')
      || ('\U{ce6}' <= c <= '\U{cef}') || ('\U{d66}' <= c <= '\U{d6f}')
      || ('\U{de6}' <= c <= '\U{def}') || ('\U{e50}' <= c <= '\U{e59}')
      || ('\U{ed0}' <= c <= '\U{ed9}') || ('\U{f20}' <= c <= '\U{f29}')
    else if c <= '\U{1a99}' then
      ('\U{1040}' <= c <= '\U{1049}') || ('\U{1090}' <= c <= '\U{1099}')
      || ('\U{17e0}' <= c <= '\U{17e9}') || ('\U{1810}' <= c <= '\U{1819}')
      || ('\U{1946}' <= c <= '\U{194f}') || ('\U{19d0}' <= c <= '\U{19d9}')
      || ('\U{1a80}' <= c <= '\U{1a89}') || ('\U{1a90}' <= c <= '\U{1a99}')
    else if c <= '\U{a9d9}' then
      ('\U{1b50}' <= c <= '\U{1b59}') || ('\U{1bb0}' <= c <= '\U{1bb9}')
      || ('\U{1c40}' <= c <= '\U{1c49}') || ('\U{1c50}' <= c <= '\U{1c59}')
      || ('\U{a620}' <= c <= '\U{a629}') || ('\U{a8d0}' <= c <= '\U{a8d9}')
      || ('\U{a900}' <= c <= '\U{a909}') || ('\U{a9d0}' <= c <= '\U{a9d9}')
    else if c <= '\U{110f9}' then
      ('\U{a9f0}' <= c <= '\U{a9f9}') || ('\U{aa50}' <= c <= '\U{aa59}')
      || ('\U{abf0}' <= c <= '\U{abf9}') || ('\U{ff10}' <= c <= '\U{ff19}')
      || ('\U{104a0}' <= c <= '\U{104a9}') || ('\U{10d30}' <= c <= '\U{10d39}')
      || ('\U{11066}' <= c <= '\U{1106f}') || ('\U{110f0}' <= c <= '\U{110f9}')
    else if c <= '\U{11739}' then
      ('\U{11136}' <= c <= '\U{1113f}') || ('\U{111d0}' <= c <= '\U{111d9}')
      || ('\U{112f0}' <= c <= '\U{112f9}') || ('\U{11450}' <= c <= '\U{11459}')
      || ('\U{114d0}' <= c <= '\U{114d9}') || ('\U{11650}' <= c <= '\U{11659}')
      || ('\U{116c0}' <= c <= '\U{116c9}') || ('\U{11730}' <= c <= '\U{11739}')
    else if c <= '\U{16ac9}' then
      ('\U{118e0}' <= c <= '\U{118e9}') || ('\U{11950}' <= c <= '\U{11959}')
      || ('\U{11c50}' <= c <= '\U{11c59}') || ('\U{11d50}' <= c <= '\U{11d59}')
      || ('\U{11da0}' <= c <= '\U{11da9}') || ('\U{11f50}' <= c <= '\U{11f59}')
      || ('\U{16a60}' <= c <= '\U{16a69}') || ('\U{16ac0}' <= c <= '\U{16ac9}')
    else if c <= '\U{1e2f9}' then
      ('\U{16b50}' <= c <= '\U{16b59}') || ('\U{1d7ce}' <= c <= '\U{1d7d7}')
      || ('\U{1d7d8}' <= c <= '\U{1d7e1}') || ('\U{1d7e2}' <= c <= '\U{1d7eb}')
      || ('\U{1d7ec}' <= c <= '\U{1d7f5}') || ('\U{1d7f6}' <= c <= '\U{1d7ff}')
      || ('\U{1e140}' <= c <= '\U{1e149}') || ('\U{1e2f0}' <= c <= '\U{1e2f9}')
    else
      ('\U{1e4f0}' <= c <= '\U{1e4f9}') || ('\U{1e950}' <= c <= '\U{1e959}')
      || ('\U{1fbf0}' <= c <= '\U{1fbf9}')
  }

  /** The regex class `\d` on `str`: a Unicode decimal digit. */
  predicate IsDigit(c: char) {
    if c <= '\U{7f}' then '0' <= c <= '9' else NonAsciiDigit(c)
  }

  /** No character is both whitespace and a decimal digit. */
  lemma SpaceIsNotDigit(c: char)
    requires IsSpace(c)
    ensures !IsDigit(c)
  {
    if c > '\U{7f}' {
      assert NonAsciiSpace(c);
      if c < '\U{660}' {
      } else if c == '\U{1680}' {
      } else {
        assert '\U{2000}' <= c <= '\U{3000}';
      }
    }
  }

  /** `str.lower()` on one character, restricted to ASCII letters. */
  function LowerChar(c: char): (r: char)
    ensures IsDigit(c) ==> r == c
    ensures !('A' <= c <= 'Z') ==> r == c
    ensures 'A' <= c <= 'Z' ==> 'a' <= r <= 'z'
  {
    if 'A' <= c <= 'Z' then (c as int + 32) as char else c
  }

  function Lower(s: string): (r: string)
    ensures |r| == |s|
    ensures forall i :: 0 <= i < |s| ==> r[i] == LowerChar(s[i])
  {
    seq(|s|, i requires 0 <= i < |s| => LowerChar(s[i]))
  }

  /** `t` occurs in `s` starting at index `i`. */
  predicate OccursAt(s: string, t: string, i: int) {
    0 <= i && i + |t| <= |s| && s[i..i + |t|] == t
  }

  /** An occurrence inside an occurrence is an occurrence. */
  lemma OccursWithin(s: string, m: string, r: string, a: int, b: int)
    requires OccursAt(s, m, a) && OccursAt(m, r, b)
    ensures OccursAt(s, r, a + b)
  {
    forall k | 0 <= k < |r| ensures s[a + b + k] == r[k] {
      assert s[a + b + k] == m[b + k];
    }
    assert s[a + b..a + b + |r|] == r;
  }

  /** `s.startswith(p)`. */
  predicate StartsWith(s: string, p: string) {
    OccursAt(s, p, 0)
  }

  /** `s.find(t, start)`: the first index at or after `start` where `t` occurs, or -1. */
  function Find(s: string, t: string, start: nat): (r: int)
    ensures r == -1 || (start <= r && OccursAt(s, t, r))
    ensures forall i :: start <= i && (r == -1 || i < r) ==> !OccursAt(s, t, i)
    decreases |s| - start
  {
    if start + |t| > |s| then -1
    else if s[start..start + |t|] == t then start
    else Find(s, t, start + 1)
  }

  /** Python's `t in s`. */
  predicate Contains(s: string, t: string) {
    Find(s, t, 0) >= 0
  }

  lemma ContainsIffOccurs(s: string, t: string)
    ensures Contains(s, t) <==> exists i :: OccursAt(s, t, i)
  {
    if Contains(s, t) {
      assert OccursAt(s, t, Find(s, t, 0));
    }
  }

  /** The last index at or below `i` where `t` occurs in `s`, or -1. */
  function LastAtOrBefore(s: string, t: string, i: int): (r: int)
    ensures r == -1 || (r <= i && OccursAt(s, t, r))
    ensures forall j :: r < j <= i ==> !OccursAt(s, t, j)
    decreases i + 1
  {
    if i < 0 then -1
    else if OccursAt(s, t, i) then i
    else LastAtOrBefore(s, t, i - 1)
  }

  /** `s.rfind(t)`: the last index where `t` occurs, or -1. */
  function RFind(s: string, t: string): (r: int)
    ensures r == -1 || OccursAt(s, t, r)
    ensures forall j :: r < j ==> !OccursAt(s, t, j)
  {
    LastAtOrBefore(s, t, |s| - |t|)
  }

  function StripLeft(s: string): (r: string)
    ensures |r| <= |s| && r == s[|s| - |r|..]
    ensures r == [] || !IsSpace(r[0])
    ensures forall i :: 0 <= i < |s| - |r| ==> IsSpace(s[i])
  {
    if |s| > 0 && IsSpace(s[0]) then StripLeft(s[1..]) else s
  }

  function StripRight(s: string): (r: string)
    ensures |r| <= |s| && r == s[..|r|]
    ensures r == [] || !IsSpace(r[|r| - 1])
    ensures forall i :: |r| <= i < |s| ==> IsSpace(s[i])
  {
    if |s| > 0 && IsSpace(s[|s| - 1]) then StripRight(s[..|s| - 1]) else s
  }

  /** `s.strip()`: the longest infix of `s` with no leading or trailing whitespace. */
  function Strip(s: string): (r: string)
    ensures r == [] || (!IsSpace(r[0]) && !IsSpace(r[|r| - 1]))
    ensures exists a :: OccursAt(s, r, a)
  {
    var right := StripRight(s);
    var r := StripLeft(right);
    assert OccursAt(s, r, |right| - |r|);
    r
  }

  /** Everything `strip` removes is whitespace, on either side of the result, which starts at index `a`. */
  lemma StripRemovesOnlySpace(s: string) returns (a: nat)
    ensures OccursAt(s, Strip(s), a)
    ensures forall i :: 0 <= i < a ==> IsSpace(s[i])
    ensures forall i :: a + |Strip(s)| <= i < |s| ==> IsSpace(s[i])
  {
    var right := StripRight(s);
    var r := StripLeft(right);
    assert Strip(s) == r;
    a := |right| - |r|;
    forall i | 0 <= i < a ensures IsSpace(s[i]) {
      assert s[i] == right[i];
    }
    assert s[a..a + |r|] == right[a..];
  }

  lemma StripUnchanged(s: string)
    requires s == [] || (!IsSpace(s[0]) && !IsSpace(s[|s| - 1]))
    ensures Strip(s) == s
  {
  }

  lemma StripIgnoresTrailingSpace(s: string, c: char)
    requires IsSpace(c)
    ensures Strip(s + [c]) == Strip(s)
  {
    assert (s + [c])[..|s|] == s;
  }

  /** Python's normalisation of a slice bound against a sequence of length `len`. */
  function ClampIndex(i: int, len: nat): (r: nat)
    ensures r <= len
    ensures 0 <= i ==> r == if i < len then i else len
  {
    if i < 0 then (if i + len < 0 then 0 else i + len)
    else if i < len then i else len
  }

  /** `s[a:b]` with Python's rules for negative and out-of-range bounds. */
  function Slice<T>(s: seq<T>, a: int, b: int): (r: seq<T>)
    ensures |r| <= |s|
    ensures ClampIndex(a, |s|) <= ClampIndex(b, |s|) ==> r == s[ClampIndex(a, |s|)..ClampIndex(b, |s|)]
    ensures ClampIndex(b, |s|) <= ClampIndex(a, |s|) ==> r == []
  {
    var lo, hi := ClampIndex(a, |s|), ClampIndex(b, |s|);
    if hi <= lo then [] else s[lo..hi]
  }

  /** `s[:n]`: a prefix of `s`, of length `min(n, |s|)` when `n` is not negative. */
  function Take<T>(s: seq<T>, n: int): (r: seq<T>)
    ensures |r| <= |s| && r == s[..|r|]
    ensures 0 <= n ==> |r| == if n < |s| then n else |s|
    ensures n < 0 ==> |r| == if |s| + n < 0 then 0 else |s| + n
  {
    Slice(s, 0, n)
  }

  function DigitChar(d: nat): (c: char)
    requires d < 10
    ensures IsDigit(c)
  {
    ('0' as int + d) as char
  }

  /** The number a string of ASCII digits denotes, most significant digit first. */
  function DigitsValue(s: string): int {
    if s == [] then 0 else DigitsValue(s[..|s| - 1]) * 10 + (s[|s| - 1] as int - '0' as int)
  }

  /** `f"{n}"` for a non-negative integer: its decimal digits. */
  function NatToString(n: nat): (r: string)
    ensures |r| >= 1
    ensures forall i :: 0 <= i < |r| ==> '0' <= r[i] <= '9' && IsDigit(r[i])
  {
    if n < 10 then [DigitChar(n)] else NatToString(n / 10) + [DigitChar(n % 10)]
  }

  /** The digits of `str(n)` denote `n`, and they start with `0` only for 0 itself. */
  lemma {:induction false} NatToStringValue(n: nat)
    ensures DigitsValue(NatToString(n)) == n
    ensures NatToString(n)[0] == '0' <==> n == 0
  {
    if n >= 10 {
      NatToStringValue(n / 10);
      var init := NatToString(n / 10);
      var r := NatToString(n);
      assert r == init + [DigitChar(n % 10)];
      assert r[..|r| - 1] == init;
      assert r[0] == init[0];
    }
  }

  /** Different numbers are written differently. */
  lemma NatToStringDiffers(a: nat, b: nat)
    requires a != b
    ensures NatToString(a) != NatToString(b)
  {
    NatToStringValue(a);
    NatToStringValue(b);
  }

  /** `a < b` on Python strings: lexicographic by code point, a proper prefix first. */
  predicate StrLess(a: string, b: string)
    decreases |a|
  {
    if a == [] then b != []
    else if b == [] then false
    else if a[0] != b[0] then a[0] < b[0]
    else StrLess(a[1..], b[1..])
  }

  lemma {:induction false} StrLessIrreflexive(a: string)
    ensures !StrLess(a, a)
  {
    if a != [] {
      StrLessIrreflexive(a[1..]);
    }
  }

  lemma {:induction false} StrLessTransitive(a: string, b: string, c: string)
    requires StrLess(a, b) && StrLess(b, c)
    ensures StrLess(a, c)
    decreases |a|
  {
    if a != [] && a[0] == b[0] && b[0] == c[0] {
      StrLessTransitive(a[1..], b[1..], c[1..]);
    }
  }

  /** Two different strings are ordered one way or the other. */
  lemma {:induction false} StrLessTotal(a: string, b: string)
    requires a != b
    ensures StrLess(a, b) || StrLess(b, a)
    decreases |a|
  {
    if a != [] && b != [] && a[0] == b[0] {
      assert a == [a[0]] + a[1..] && b == [b[0]] + b[1..];
      StrLessTotal(a[1..], b[1..]);
    }
  }
}
