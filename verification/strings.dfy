/** Text primitives the scraper relies on: Python's `str.strip`,
    `str.capitalize`, `in` on strings, `str.replace` with one-character
    arguments, `str(int)` and the decimal digit strings that `pd.to_numeric`
    turns into integers. */
module Strings {

  import opened Outcomes

  /** Python's `str.isspace` for one character. */
  predicate IsSpace(c: char) {
    || c == ' '
    || ('\t' <= c <= '\r')
    || ('\U{1C}' <= c <= '\U{1F}')
    || c == '\U{85}'
    || c == '\U{A0}'
    || c == '\U{1680}'
    || ('\U{2000}' <= c <= '\U{200A}')
    || c == '\U{2028}'
    || c == '\U{2029}'
    || c == '\U{202F}'
    || c == '\U{205F}'
    || c == '\U{3000}'
  }

  /** Number of white-space characters at the start of `s`. */
  function LeadingSpace(s: string): (n: nat)
    ensures n <= |s|
    ensures forall k :: 0 <= k < n ==> IsSpace(s[k])
    ensures n < |s| ==> !IsSpace(s[n])
  {
    if |s| > 0 && IsSpace(s[0]) then
      var n := 1 + LeadingSpace(s[1..]);
      assert forall k :: 1 <= k < n ==> s[k] == s[1..][k - 1];
      n
    else 0
  }

  /** Number of white-space characters at the end of `s`. */
  function TrailingSpace(s: string): (n: nat)
    ensures n <= |s|
    ensures forall k :: |s| - n <= k < |s| ==> IsSpace(s[k])
    ensures n < |s| ==> !IsSpace(s[|s| - n - 1])
  {
    if |s| > 0 && IsSpace(s[|s| - 1]) then
      var n := 1 + TrailingSpace(s[..|s| - 1]);
      assert forall k :: |s| - n <= k < |s| - 1 ==> s[k] == s[..|s| - 1][k];
      n
    else 0
  }

  /** Python's `str.strip()` with no argument: the slice of `s` left once
      the white space at both ends is cut off. */
  function Strip(s: string): (r: string)
    ensures r == [] || (!IsSpace(r[0]) && !IsSpace(r[|r| - 1]))
    ensures |r| <= |s|
  {
    var t := s[LeadingSpace(s)..];
    t[..|t| - TrailingSpace(t)]
  }

  /** With no leading white space, `strip` keeps a prefix. */
  lemma StripKeepsPrefix(t: string)
    requires t == [] || !IsSpace(t[0])
    ensures Strip(t) == t[..|Strip(t)|]
  {
    assert LeadingSpace(t) == 0;
    assert t[0..] == t;
  }

  /** Strip keeps a contiguous slice of its input and removes only white
      space around it; it empties exactly the all-space strings. */
  lemma StripSlice(s: string)
    ensures var r := Strip(s);
      exists i :: SliceAt(s, r, i)
        && (forall k :: 0 <= k < i ==> IsSpace(s[k]))
        && (forall k :: i + |r| <= k < |s| ==> IsSpace(s[k]))
    ensures Strip(s) == [] <==> forall k :: 0 <= k < |s| ==> IsSpace(s[k])
  {
    var i := LeadingSpace(s);
    var t := s[i..];
    var r := Strip(s);
    assert s[i..i + |r|] == r;
    assert SliceAt(s, r, i);
    assert forall k :: i + |r| <= k < |s| ==> s[k] == t[k - i];
    if r != [] {
      assert !IsSpace(s[i]);
    }
  }

  /** Stripping twice changes nothing. */
  lemma StripIdempotent(s: string)
    ensures Strip(Strip(s)) == Strip(s)
  {
    var r := Strip(s);
    if r != [] {
      assert LeadingSpace(r) == 0;
      assert TrailingSpace(r) == 0;
    }
  }

  /** `sub` occurs in `s` at position `i`. */
  predicate SliceAt(s: string, sub: string, i: int) {
    0 <= i && i + |sub| <= |s| && s[i..i + |sub|] == sub
  }

  /** Upper case of the letters of Latin-1 (ASCII and U+00C0 to U+00FE);
      every other character is left alone. */
  function Upper(c: char): (u: char)
    ensures IsSpace(u) <==> IsSpace(c)
  {
    if 'a' <= c <= 'z' || ('\U{E0}' <= c <= '\U{FE}' && c != '\U{F7}') then
      (c as int - 32) as char
    else c
  }

  /** Lower case of the letters of Latin-1; the inverse of `Upper` on them. */
  function Lower(c: char): (l: char)
    ensures IsSpace(l) <==> IsSpace(c)
  {
    if 'A' <= c <= 'Z' || ('\U{C0}' <= c <= '\U{DE}' && c != '\U{D7}') then
      (c as int + 32) as char
    else c
  }

  function LowerAll(s: string): (r: string)
    ensures |r| == |s|
    ensures forall k :: 0 <= k < |s| ==> r[k] == Lower(s[k])
  {
    seq(|s|, k requires 0 <= k < |s| => Lower(s[k]))
  }

  /** Python's `str.capitalize()`: the first character in upper case, all
      the others in lower case. */
  function Capitalize(s: string): (r: string)
    ensures |r| == |s|
    ensures |s| > 0 ==> r[0] == Upper(s[0])
    ensures forall k :: 0 < k < |s| ==> r[k] == Lower(s[k])
  {
    if s == [] then [] else [Upper(s[0])] + LowerAll(s[1..])
  }

  /** `sub in s` on Python strings. */
  function Contains(s: string, sub: string): (b: bool)
    ensures b <==> exists i :: SliceAt(s, sub, i)
    decreases |s|
  {
    if |s| < |sub| then
      false
    else if s[..|sub|] == sub then
      assert SliceAt(s, sub, 0);
      true
    else
      assert !SliceAt(s, sub, 0);
      assert forall i :: SliceAt(s, sub, i) ==> SliceAt(s[1..], sub, i - 1) by {
        forall i | SliceAt(s, sub, i) ensures SliceAt(s[1..], sub, i - 1) {
          assert i > 0;
          forall k | 0 <= k < |sub| ensures s[1..][i - 1..i - 1 + |sub|][k] == sub[k] {
            assert s[i..i + |sub|][k] == sub[k];
          }
        }
      }
      var b := Contains(s[1..], sub);
      if b then
        var i :| SliceAt(s[1..], sub, i);
        assert s[1..][i..i + |sub|] == s[i + 1..i + 1 + |sub|];
        assert SliceAt(s, sub, i + 1);
        b
      else b
  }

  /** `s.replace(c, "")` for a one-character `c`: every occurrence removed. */
  function RemoveAll(s: string, c: char): (r: string)
    ensures c !in r
    ensures |r| <= |s|
    ensures forall x :: x in r <==> x in s && x != c
  {
    if s == [] then []
    else (if s[0] == c then [] else [s[0]]) + RemoveAll(s[1..], c)
  }

  /** `s.replace(c, d)` for one-character `c` and `d`: every occurrence of
      `c` replaced in place. */
  function ReplaceAll(s: string, c: char, d: char): (r: string)
    ensures |r| == |s|
    ensures forall k :: 0 <= k < |s| ==> r[k] == (if s[k] == c then d else s[k])
  {
    seq(|s|, k requires 0 <= k < |s| => if s[k] == c then d else s[k])
  }

  lemma RemoveAllAppend(a: string, b: string, c: char)
    ensures RemoveAll(a + b, c) == RemoveAll(a, c) + RemoveAll(b, c)
  {
    if a == [] {
      assert a + b == b;
    } else {
      assert (a + b)[0] == a[0];
      assert (a + b)[1..] == a[1..] + b;
      RemoveAllAppend(a[1..], b, c);
    }
  }

  lemma RemoveAllAbsent(s: string, c: char)
    requires c !in s
    ensures RemoveAll(s, c) == s
  {
    if s != [] {
      RemoveAllAbsent(s[1..], c);
    }
  }

  // ---------------------------------------------------------------- digits

  predicate IsDigit(c: char) {
    '0' <= c <= '9'
  }

  predicate AllDigits(s: string) {
    forall k :: 0 <= k < |s| ==> IsDigit(s[k])
  }

  function DigitChar(d: nat): (c: char)
    requires d < 10
    ensures IsDigit(c) && c as int - '0' as int == d
  {
    ('0' as int + d) as char
  }

  function DigitOf(c: char): (d: nat)
    requires IsDigit(c)
    ensures d < 10 && DigitChar(d) == c
  {
    c as int - '0' as int
  }

  function Pow10(k: nat): (p: nat)
    ensures p >= 1
  {
    if k == 0 then 1 else 10 * Pow10(k - 1)
  }

  /** The number a string of decimal digits denotes (most significant
      first, leading zeros allowed). */
  function DigitsValue(s: string): (n: nat)
    requires AllDigits(s)
    ensures n < Pow10(|s|)
  {
    if s == [] then 0
    else DigitsValue(s[..|s| - 1]) * 10 + DigitOf(s[|s| - 1])
  }

  /** Python's `str(n)` for a natural number. */
  function NatToString(n: nat): (s: string)
    ensures |s| >= 1 && AllDigits(s)
  {
    if n < 10 then [DigitChar(n)]
    else NatToString(n / 10) + [DigitChar(n % 10)]
  }

  /** Python's `str(i)` for any integer. */
  function IntToString(i: int): (s: string)
    ensures |s| >= 1
    ensures s[0] == '-' <==> i < 0
    ensures forall k :: 0 <= k < |s| ==> IsDigit(s[k]) || s[k] == '-'
  {
    if i < 0 then "-" + NatToString(-i) else NatToString(i)
  }

  /** A non-empty digit string parses to the number it denotes; anything else
      does not parse. */
  function ParseNat(s: string): (r: Option<nat>)
    ensures r.Some? <==> |s| > 0 && AllDigits(s)
  {
    if |s| > 0 && AllDigits(s) then Some(DigitsValue(s)) else None
  }

  lemma {:induction false} DigitsValueOfNatToString(n: nat)
    ensures DigitsValue(NatToString(n)) == n
  {
    if n >= 10 {
      var s := NatToString(n);
      assert s[..|s| - 1] == NatToString(n / 10);
      DigitsValueOfNatToString(n / 10);
    }
  }

  /** Reading back what `str(n)` printed gives `n`. */
  lemma ParseNatRoundTrip(n: nat)
    ensures ParseNat(NatToString(n)) == Some(n)
  {
    DigitsValueOfNatToString(n);
  }

  /** Different integers print differently. */
  lemma IntToStringInjective(a: int, b: int)
    requires IntToString(a) == IntToString(b)
    ensures a == b
  {
    if a < 0 && b < 0 {
      assert NatToString(-a) == IntToString(a)[1..];
      assert NatToString(-b) == IntToString(b)[1..];
      ParseNatRoundTrip(-a);
      ParseNatRoundTrip(-b);
    } else if a >= 0 && b >= 0 {
      ParseNatRoundTrip(a);
      ParseNatRoundTrip(b);
    }
  }

  lemma AllDigitsAppend(a: string, b: string)
    requires AllDigits(a) && AllDigits(b)
    ensures AllDigits(a + b)
  {
    forall k | 0 <= k < |a + b| ensures IsDigit((a + b)[k]) {
      if k < |a| { assert (a + b)[k] == a[k]; } else { assert (a + b)[k] == b[k - |a|]; }
    }
  }

  /** Digits written after `a` shift its value by a power of ten. */
  lemma {:induction false} DigitsValueAppend(a: string, b: string)
    requires AllDigits(a) && AllDigits(b)
    ensures AllDigits(a + b)
    ensures DigitsValue(a + b) == DigitsValue(a) * Pow10(|b|) + DigitsValue(b)
  {
    AllDigitsAppend(a, b);
    if b == [] {
      assert a + b == a;
    } else {
      var b' := b[..|b| - 1];
      LastOfAppend(a, b);
      DigitsValueAppend(a, b');
      ShiftDigit(DigitsValue(a + b), DigitsValue(a + b'), DigitsValue(a), Pow10(|b'|),
                 DigitsValue(b'), DigitOf(b[|b| - 1]), DigitsValue(b), Pow10(|b|));
    }
  }

  /** Dropping the last digit of `a + b` drops the last digit of `b`. */
  lemma LastOfAppend(a: string, b: string)
    requires AllDigits(a) && AllDigits(b) && AllDigits(a + b) && b != []
    ensures AllDigits(a + b[..|b| - 1])
    ensures DigitsValue(a + b) == DigitsValue(a + b[..|b| - 1]) * 10 + DigitOf(b[|b| - 1])
  {
    var ab := a + b;
    assert ab[..|ab| - 1] == a + b[..|b| - 1];
    assert ab[|ab| - 1] == b[|b| - 1];
  }

  lemma ShiftDigit(ab: int, ab': int, x: int, p: int, y: int, d: int, bv: int, q: int)
    requires ab == ab' * 10 + d && ab' == x * p + y
    requires bv == y * 10 + d && q == 10 * p
    ensures ab == x * q + bv
  {
  }

  // ------------------------------------------------------- splitting at marks

  /** No character of `s` is a mark. */
  predicate MarkFree(s: string, mark: char -> bool) {
    forall k :: 0 <= k < |s| ==> !mark(s[k])
  }

  /** The position of the first mark, or the length when there is none. */
  function FirstMark(s: string, mark: char -> bool): (k: nat)
    ensures k <= |s|
  {
    if s == [] then 0 else if mark(s[0]) then 0 else 1 + FirstMark(s[1..], mark)
  }

  lemma {:induction false} FirstMarkAfter(x: string, y: string, mark: char -> bool)
    requires MarkFree(x, mark) && |y| > 0 && mark(y[0])
    ensures FirstMark(x + y, mark) == |x|
    decreases |x|
  {
    if x == [] {
      assert x + y == y;
    } else {
      assert (x + y)[1..] == x[1..] + y;
      FirstMarkAfter(x[1..], y, mark);
    }
  }

  /** Two ways of writing one string as a mark-free part followed by a part
      that starts with a mark are the same way. */
  lemma SplitAtMark(x: string, y: string, x2: string, y2: string, mark: char -> bool)
    requires MarkFree(x, mark) && MarkFree(x2, mark) && x + y == x2 + y2
    requires |y| > 0 && mark(y[0])
    requires |y2| > 0 && mark(y2[0])
    ensures x == x2 && y == y2
  {
    FirstMarkAfter(x, y, mark);
    FirstMarkAfter(x2, y2, mark);
    assert x == (x + y)[..|x|];
    assert x2 == (x2 + y2)[..|x|];
    assert y == (x + y)[|x|..];
    assert y2 == (x2 + y2)[|x|..];
  }

  lemma CancelPrefix(p: string, u: string, v: string)
    requires p + u == p + v
    ensures u == v
  {
    assert u == (p + u)[|p|..];
    assert v == (p + v)[|p|..];
  }

  /** A string without surrounding white space is left alone by `strip`. */
  lemma StripUnspaced(s: string)
    requires s == [] || (!IsSpace(s[0]) && !IsSpace(s[|s| - 1]))
    ensures Strip(s) == s
  {
    if s != [] {
      assert LeadingSpace(s) == 0;
      assert TrailingSpace(s) == 0;
    }
  }

  /** A string that lacks the first character of `sub` does not contain
      it. */
  lemma LeadAbsent(s: string, sub: string)
    requires |sub| > 0 && sub[0] !in s
    ensures !Contains(s, sub)
  {
    assert forall i :: SliceAt(s, sub, i) ==> s[i..i + |sub|][0] == s[i];
  }
}
