/** Character-level string operations of Rust's standard library that the core relies on. */
module Text {

  /** `char::to_ascii_lowercase`: only 'A'..'Z' change. */
  function AsciiLower(c: char): (l: char)
    ensures 'A' <= c <= 'Z' ==> l as int == c as int + 32
    ensures !('A' <= c <= 'Z') ==> l == c
  {
    if 'A' <= c <= 'Z' then (c as int + 32) as char else c
  }

  function AsciiLowercase(s: string): (r: string)
    ensures |r| == |s|
    ensures forall i :: 0 <= i < |s| ==> r[i] == AsciiLower(s[i])
  {
    if s == [] then [] else [AsciiLower(s[0])] + AsciiLowercase(s[1..])
  }

  /** `str::eq_ignore_ascii_case`. */
  predicate EqIgnoreAsciiCase(a: string, b: string)
  {
    |a| == |b| && forall i :: 0 <= i < |a| ==> AsciiLower(a[i]) == AsciiLower(b[i])
  }

  /** Comparing ignoring ASCII case is comparing the ASCII-lowercased strings. */
  lemma EqIgnoreAsciiCaseIsLowercaseEquality(a: string, b: string)
    ensures EqIgnoreAsciiCase(a, b) <==> AsciiLowercase(a) == AsciiLowercase(b)
  {
    if AsciiLowercase(a) == AsciiLowercase(b) {
      assert |a| == |b|;
      forall i | 0 <= i < |a| ensures AsciiLower(a[i]) == AsciiLower(b[i]) {
        assert AsciiLowercase(a)[i] == AsciiLowercase(b)[i];
      }
    }
  }

  /** `char::is_whitespace`: the Unicode White_Space property. */
  predicate IsWhitespace(c: char)
  {
    var n := c as int;
    (0x09 <= n <= 0x0D) || n == 0x20 || n == 0x85 || n == 0xA0 || n == 0x1680
    || (0x2000 <= n <= 0x200A) || n == 0x2028 || n == 0x2029 || n == 0x202F
    || n == 0x205F || n == 0x3000
  }

  function TrimStart(s: string): (r: string)
    ensures |r| <= |s| && r == s[|s| - |r|..]
    ensures forall i :: 0 <= i < |s| - |r| ==> IsWhitespace(s[i])
    ensures r == [] || !IsWhitespace(r[0])
  {
    if s != [] && IsWhitespace(s[0]) then TrimStart(s[1..]) else s
  }

  function TrimEnd(s: string): (r: string)
    ensures |r| <= |s| && r == s[..|r|]
    ensures forall i :: |r| <= i < |s| ==> IsWhitespace(s[i])
    ensures r == [] || !IsWhitespace(r[|r| - 1])
  {
    if s != [] && IsWhitespace(s[|s| - 1]) then TrimEnd(s[..|s| - 1]) else s
  }

  /** `s` is `k` whitespace characters, then `r`, then only whitespace. */
  predicate PaddedAt(s: string, r: string, k: nat)
  {
    k + |r| <= |s| && r == s[k..k + |r|]
    && (forall i :: 0 <= i < k ==> IsWhitespace(s[i]))
    && (forall i :: k + |r| <= i < |s| ==> IsWhitespace(s[i]))
  }

  /** `str::trim`: `s` is leading whitespace, then `r`, then trailing whitespace, and `r`
      neither starts nor ends with whitespace. */
  function Trim(s: string): (r: string)
    ensures exists k :: PaddedAt(s, r, k)
    ensures r == [] || (!IsWhitespace(r[0]) && !IsWhitespace(r[|r| - 1]))
  {
    var t := TrimStart(s);
    var r := TrimEnd(t);
    var k := |s| - |t|;
    assert r == s[k..k + |r|];
    assert PaddedAt(s, r, k);
    r
  }

  /** `sub` occurs in `s` starting at index `i`. */
  predicate OccursAt(s: string, sub: string, i: nat)
  {
    i + |sub| <= |s| && s[i..i + |sub|] == sub
  }

  /** `str::contains` for a string pattern. */
  predicate Contains(s: string, sub: string)
  {
    exists i :: 0 <= i <= |s| - |sub| && OccursAt(s, sub, i)
  }

  /** `sub` occurs in `x + sub + y` right after `x`. */
  lemma OccursInMiddle(x: string, sub: string, y: string)
    ensures Contains(x + sub + y, sub)
  {
    assert (x + sub + y)[|x|..|x| + |sub|] == sub;
    assert OccursAt(x + sub + y, sub, |x|);
  }

  /** Leading whitespace is dropped one character at a time. */
  lemma TrimStartWhitespace(c: char, s: string)
    requires IsWhitespace(c)
    ensures TrimStart([c] + s) == TrimStart(s)
  {
    assert ([c] + s)[1..] == s;
  }

  /** Trimming stops at the first character that is not whitespace. */
  lemma TrimStartStops(s: string)
    requires s != [] && !IsWhitespace(s[0])
    ensures TrimStart(s) == s
  {
  }
}
