/** The one optional-value type the model needs: Python's `None` or a value. */
module Wrappers {
  datatype Option<+T> = None | Some(value: T)
}

/**
 * The small part of Python's `str` behaviour that the three services rely on:
 * `str.strip()`, `str.isdigit()`, `int()` on a digit string, zero-padded
 * decimal formatting, `in` on strings, `split(c)[0]`, `replace`, and `str()`
 * of an arbitrary value.
 */
module Text {

  /**
   * A Python value as the services see it: `None`, or some other object, which
   * is known only through the text `str()` gives for it.
   */
  datatype Value = PyNone | PyObj(text: string)

  /** Python's `str(v)`. */
  function Str(v: Value): string
  {
    match v
    case PyNone => "None"
    case PyObj(t) => t
  }

  /** Python's `str.isspace()` for one character (its full list of whitespace code points). */
  predicate IsSpace(c: char)
  {
    || ('\t' <= c <= '\r')
    || ('\U{1C}' <= c <= ' ')
    || c == '\U{85}' || c == '\U{A0}' || c == '\U{1680}'
    || ('\U{2000}' <= c <= '\U{200A}')
    || c == '\U{2028}' || c == '\U{2029}' || c == '\U{202F}' || c == '\U{205F}' || c == '\U{3000}'
  }

  /** `s.lstrip()`: the suffix of `s` after its leading whitespace. */
  function StripLeft(s: string): (r: string)
    ensures |r| <= |s|
    ensures forall c :: c in r ==> c in s
    ensures r == [] || !IsSpace(r[0])
    ensures r != [] ==> r[|r| - 1] == s[|s| - 1]
    ensures forall i :: 0 <= i < |s| - |r| ==> IsSpace(s[i])
  {
    if s != [] && IsSpace(s[0]) then StripLeft(s[1..]) else s
  }

  /** `s.rstrip()`: the prefix of `s` before its trailing whitespace. */
  function StripRight(s: string): (r: string)
    ensures |r| <= |s|
    ensures forall c :: c in r ==> c in s
    ensures r == [] || !IsSpace(r[|r| - 1])
    ensures r != [] ==> r[0] == s[0]
    ensures forall i :: |r| <= i < |s| ==> IsSpace(s[i])
  {
    if s != [] && IsSpace(s[|s| - 1]) then StripRight(s[..|s| - 1]) else s
  }

  /** `s.strip()`. */
  function Strip(s: string): (r: string)
    ensures r == [] || (!IsSpace(r[0]) && !IsSpace(r[|r| - 1]))
    ensures forall c :: c in r ==> c in s
  {
    var left := StripLeft(s);
    assert forall c :: c in StripRight(left) ==> c in left;
    StripRight(left)
  }

  /** What `lstrip()` keeps is a suffix of its input. */
  lemma {:induction false} StripLeftIsSuffix(s: string)
    ensures StripLeft(s) == s[|s| - |StripLeft(s)|..]
  {
    if s != [] && IsSpace(s[0]) {
      StripLeftIsSuffix(s[1..]);
    }
  }

  /** What `rstrip()` keeps is a prefix of its input. */
  lemma {:induction false} StripRightIsPrefix(s: string)
    ensures StripRight(s) == s[..|StripRight(s)|]
  {
    if s != [] && IsSpace(s[|s| - 1]) {
      StripRightIsPrefix(s[..|s| - 1]);
    }
  }

  /** Stripping whitespace twice is stripping it once. */
  lemma {:induction false} StripIdempotent(s: string)
    ensures Strip(Strip(s)) == Strip(s)
  {
    var r := Strip(s);
    if r != [] {
      assert StripLeft(r) == r;
      assert StripRight(r) == r;
    }
  }

  /** Leading whitespace is invisible to `strip()`. */
  lemma {:induction false} StripIgnoresLeadingSpace(c: char, s: string)
    requires IsSpace(c)
    ensures Strip([c] + s) == Strip(s)
  {
    assert ([c] + s)[1..] == s;
  }

  /** A digit string has no whitespace for `strip()` to remove. */
  lemma DigitsUnstripped(s: string)
    requires IsDigits(s)
    ensures Strip(s) == s
  {
    assert !IsSpace(s[0]) && !IsSpace(s[|s| - 1]);
  }

  predicate IsDigit(c: char)
  {
    '0' <= c <= '9'
  }

  /** Python's `s.isdigit()` (ASCII digits): true for a non-empty string of digits only. */
  predicate IsDigits(s: string)
  {
    |s| > 0 && forall i :: 0 <= i < |s| ==> IsDigit(s[i])
  }

  function DigitValue(c: char): nat
    requires IsDigit(c)
  {
    (c as int) - ('0' as int)
  }

  function DigitChar(d: nat): char
    requires d < 10
  {
    (('0' as int) + d) as char
  }

  /** `int(s)` for a string of decimal digits. */
  function ParseNat(s: string): (n: nat)
    requires forall i :: 0 <= i < |s| ==> IsDigit(s[i])
    ensures n < Pow10(|s|)
  {
    if s == [] then 0
    else
      var init := ParseNat(s[..|s| - 1]);
      assert init + 1 <= Pow10(|s| - 1);
      init * 10 + DigitValue(s[|s| - 1])
  }

  /** `str(n)` for a natural number. */
  function NatToString(n: nat): (s: string)
    ensures IsDigits(s)
    ensures |s| > 1 ==> s[0] != '0'
  {
    if n < 10 then [DigitChar(n)] else NatToString(n / 10) + [DigitChar(n % 10)]
  }

  function Pow10(k: nat): (p: nat)
    ensures p >= 1
  {
    if k == 0 then 1 else 10 * Pow10(k - 1)
  }

  /** `int(str(n)) == n`: decimal printing and parsing are inverse. */
  lemma {:induction false} ParseNatToString(n: nat)
    ensures ParseNat(NatToString(n)) == n
  {
    if n >= 10 {
      ParseNatToString(n / 10);
      var s := NatToString(n);
      assert s[..|s| - 1] == NatToString(n / 10);
    }
  }

  /** `str(n)` has more than `k` characters exactly when `n >= 10^k`. */
  lemma {:induction false} NatToStringLength(n: nat, k: nat)
    requires k >= 1
    ensures |NatToString(n)| > k <==> n >= Pow10(k)
  {
    if n >= 10 && k > 1 {
      NatToStringLength(n / 10, k - 1);
    }
  }

  /** `"%0*d" % (width, n)`: `n` in decimal, left-padded with zeros to `width` characters. */
  function ZeroPad(n: nat, width: nat): (s: string)
    ensures IsDigits(s) && ParseNat(s) == n
    ensures |s| == if |NatToString(n)| < width then width else |NatToString(n)|
  {
    var digits := NatToString(n);
    ParseNatToString(n);
    if |digits| < width then ZeroPrefixed(digits, width - |digits|) else digits
  }

  /** Leading zeros do not change the value of a digit string. */
  function ZeroPrefixed(digits: string, k: nat): (s: string)
    requires IsDigits(digits)
    ensures IsDigits(s) && |s| == |digits| + k && ParseNat(s) == ParseNat(digits)
    decreases |digits|
  {
    if |digits| == 1 then
      assert ParseNat(digits[..0]) == 0;
      ZerosThen(k, digits[0])
    else
      var s := ZeroPrefixed(digits[..|digits| - 1], k) + [digits[|digits| - 1]];
      assert s[..|s| - 1] == ZeroPrefixed(digits[..|digits| - 1], k);
      s
  }

  /** `k` zeros followed by the digit `d`. */
  function ZerosThen(k: nat, d: char): (s: string)
    requires IsDigit(d)
    ensures IsDigits(s) && |s| == k + 1 && ParseNat(s) == DigitValue(d)
  {
    if k == 0 then
      assert [d][..0] == [];
      [d]
    else
      var s := ['0'] + ZerosThen(k - 1, d);
      ZeroHeadValue(s);
      s
  }

  /** A leading zero contributes nothing to the value of a digit string. */
  lemma {:induction false} ZeroHeadValue(s: string)
    requires IsDigits(s) && |s| >= 2 && s[0] == '0'
    ensures ParseNat(s) == ParseNat(s[1..])
  {
    var init := s[..|s| - 1];
    if |s| == 2 {
      assert init == ['0'];
      assert init[..0] == [];
      assert s[1..] == [s[1]];
      assert s[1..][..0] == [];
    } else {
      ZeroHeadValue(init);
      assert init[1..] == s[1..][..|s| - 2];
    }
  }

  /** `needle in hay` for strings: `needle` occurs as a contiguous piece of `hay`. */
  predicate Contains(hay: string, needle: string)
    ensures Contains(hay, needle) ==> |needle| <= |hay|
    ensures needle == [] ==> Contains(hay, needle)
    decreases |hay|
  {
    (|needle| <= |hay| && hay[..|needle|] == needle) || (hay != [] && Contains(hay[1..], needle))
  }

  /** A string contains every string it has as a piece, wherever that piece sits. */
  lemma {:induction false} ContainsPiece(front: string, needle: string, back: string)
    ensures Contains(front + needle + back, needle)
    decreases |front|
  {
    if front == [] {
      assert (needle + back)[..|needle|] == needle;
      assert front + needle + back == needle + back;
    } else {
      assert (front + needle + back)[1..] == front[1..] + needle + back;
      ContainsPiece(front[1..], needle, back);
    }
  }

  /** A string holding no `c` does not contain any string that holds `c`. */
  lemma {:induction false} NotContainsMissingChar(hay: string, needle: string, c: char)
    requires c in needle && c !in hay
    ensures !Contains(hay, needle)
    decreases |hay|
  {
    if hay != [] {
      assert forall x :: x in hay[1..] ==> x in hay;
      NotContainsMissingChar(hay[1..], needle, c);
    }
  }

  /** `s.startswith(p)`. */
  predicate StartsWith(s: string, p: string)
  {
    |p| <= |s| && s[..|p|] == p
  }

  /** `s.split(c)[0]`: everything before the first `c`, or all of `s` when it has none. */
  function BeforeFirst(s: string, c: char): (r: string)
    ensures |r| <= |s| && r == s[..|r|]
    ensures c !in r
    ensures |r| < |s| ==> s[|r|] == c
    ensures forall x :: x in r ==> x in s
  {
    if s == [] || s[0] == c then [] else [s[0]] + BeforeFirst(s[1..], c)
  }

  /** `s.replace(a, b)` for single characters. */
  function ReplaceChar(s: string, a: char, b: char): (r: string)
    ensures |r| == |s|
    ensures forall i :: 0 <= i < |s| ==> r[i] == (if s[i] == a then b else s[i])
    ensures a != b ==> a !in r
    ensures forall x :: x in r && x != b ==> x in s
  {
    if s == [] then [] else [if s[0] == a then b else s[0]] + ReplaceChar(s[1..], a, b)
  }
}
