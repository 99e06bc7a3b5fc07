/**
 * The Python string operations the core relies on: str() and int() of
 * integers, str.zfill, str.title, str.strip and the ordering `<` on
 * strings. Characters are code points; only the ASCII cases of digits,
 * letters and white space are modelled.
 */
module Text {
  import opened Common

  predicate IsDigit(c: char) { '0' <= c <= '9' }

  predicate AllDigits(s: string)
  {
    forall i :: 0 <= i < |s| ==> IsDigit(s[i])
  }

  /** The text t stands in s from position i on. */
  predicate OccursAt(s: string, i: nat, t: string)
  {
    i + |t| <= |s| && forall k :: 0 <= k < |t| ==> s[i + k] == t[k]
  }

  function DigitChar(d: nat): (c: char)
    requires d < 10
    ensures IsDigit(c)
  {
    ['0', '1', '2', '3', '4', '5', '6', '7', '8', '9'][d]
  }

  function DigitValue(c: char): (d: nat)
    requires IsDigit(c)
    ensures d < 10 && DigitChar(d) == c
  {
    (c as int) - ('0' as int)
  }

  function Pow10(k: nat): (p: nat)
    ensures p >= 1
  {
    if k == 0 then 1 else 10 * Pow10(k - 1)
  }

  /** `str(n)` for a non-negative integer: its decimal digits, no leading zero. */
  function NatToString(n: nat): (s: string)
    ensures |s| > 0 && AllDigits(s)
    ensures |s| > 1 ==> s[0] != '0'
  {
    if n < 10 then [DigitChar(n)] else NatToString(n / 10) + [DigitChar(n % 10)]
  }

  /** `str(i)` for any integer: a minus sign before the digits of a negative one. */
  function IntToString(i: int): (s: string)
    ensures |s| > 0
    ensures (i < 0) == (s[0] == '-')
    ensures IsDigit(s[0]) || s[0] == '-'
    ensures forall k :: 1 <= k < |s| ==> IsDigit(s[k])
  {
    if i < 0 then
      var digits := NatToString(-i);
      assert forall k :: 1 <= k < |digits| + 1 ==> ("-" + digits)[k] == digits[k - 1];
      "-" + digits
    else NatToString(i)
  }

  /** The number a run of decimal digits denotes, leading zeros allowed. */
  function DigitsValue(s: string): nat
    requires AllDigits(s)
  {
    if s == [] then 0 else DigitsValue(s[..|s| - 1]) * 10 + DigitValue(s[|s| - 1])
  }

  lemma {:induction false} DigitsValueOfNatToString(n: nat)
    ensures DigitsValue(NatToString(n)) == n
  {
    if n >= 10 {
      var s := NatToString(n);
      assert s[..|s| - 1] == NatToString(n / 10);
      DigitsValueOfNatToString(n / 10);
    }
  }

  /** A run of k digits denotes a number below 10^k. */
  lemma {:induction false} DigitsValueBound(s: string)
    requires AllDigits(s)
    ensures DigitsValue(s) < Pow10(|s|)
  {
    if s != [] {
      DigitsValueBound(s[..|s| - 1]);
    }
  }

  /** Two digit runs of the same length that denote the same number are the same text. */
  lemma {:induction false} DigitsValueInjective(s: string, t: string)
    requires AllDigits(s) && AllDigits(t) && |s| == |t|
    requires DigitsValue(s) == DigitsValue(t)
    ensures s == t
  {
    if s != [] {
      var n := |s| - 1;
      assert DigitValue(s[n]) == DigitsValue(s) % 10;
      assert DigitValue(t[n]) == DigitsValue(t) % 10;
      DigitsValueInjective(s[..n], t[..n]);
      assert s == s[..n] + [s[n]];
      assert t == t[..n] + [t[n]];
    }
  }

  function Zeros(k: nat): (z: string)
    ensures |z| == k && AllDigits(z)
    ensures forall i :: 0 <= i < k ==> z[i] == '0'
  {
    seq(k, _ => '0')
  }

  /** Leading zeros do not change the number a digit run denotes. */
  lemma {:induction false} LeadingZeros(k: nat, s: string)
    requires AllDigits(s)
    ensures DigitsValue(Zeros(k) + s) == DigitsValue(s)
  {
    if s == [] {
      assert Zeros(k) + s == Zeros(k);
      ZerosValue(k);
    } else {
      var n := |s| - 1;
      assert (Zeros(k) + s)[..k + n] == Zeros(k) + s[..n];
      LeadingZeros(k, s[..n]);
    }
  }

  lemma {:induction false} ZerosValue(k: nat)
    ensures DigitsValue(Zeros(k)) == 0
  {
    if k > 0 {
      assert Zeros(k)[..k - 1] == Zeros(k - 1);
      ZerosValue(k - 1);
    }
  }

  /**
   * `s.zfill(width)`: pad on the left with zeros up to `width`, keeping a
   * leading sign in front; a string already that long is returned as it is.
   */
  function ZFill(s: string, width: int): (r: string)
    ensures |r| == if |s| >= width then |s| else width
  {
    if |s| >= width then s
    else if |s| > 0 && (s[0] == '+' || s[0] == '-') then [s[0]] + Zeros(width - |s|) + s[1..]
    else Zeros(width - |s|) + s
  }

  /** Zero-padding the digits of n never truncates and still denotes n. */
  lemma ZFillNat(n: nat, width: int)
    ensures AllDigits(ZFill(NatToString(n), width))
    ensures DigitsValue(ZFill(NatToString(n), width)) == n
    ensures |ZFill(NatToString(n), width)| >= |NatToString(n)|
  {
    var s := NatToString(n);
    DigitsValueOfNatToString(n);
    if |s| < width {
      LeadingZeros(width - |s|, s);
    }
  }

  /** Hence padded indices are pairwise distinct: zfill is injective on naturals. */
  lemma ZFillNatInjective(a: nat, b: nat, width: int)
    requires ZFill(NatToString(a), width) == ZFill(NatToString(b), width)
    ensures a == b
  {
    ZFillNat(a, width);
    ZFillNat(b, width);
  }

  /** A natural number below 10^k has at most k digits (and at least one). */
  lemma {:induction false} NatToStringLength(n: nat, k: nat)
    requires k >= 1 && n < Pow10(k)
    ensures |NatToString(n)| <= k
  {
    if n >= 10 {
      NatToStringLength(n / 10, k - 1);
    }
  }

  /** Padding the number of a fixed-width digit run back to that width restores the run. */
  lemma FixedWidthDigits(t: string)
    requires |t| >= 1 && AllDigits(t)
    ensures ZFill(NatToString(DigitsValue(t)), |t|) == t
  {
    var v := DigitsValue(t);
    DigitsValueBound(t);
    NatToStringLength(v, |t|);
    ZFillNat(v, |t|);
    DigitsValueInjective(ZFill(NatToString(v), |t|), t);
  }

  /** White space as `str.strip()` and `int()` see it: the characters `str.isspace()` accepts. */
  predicate IsSpace(c: char)
  {
    || c == ' ' || 9 <= c as int <= 13 || 28 <= c as int <= 31
    || c as int == 0x85 || c as int == 0xA0 || c as int == 0x1680
    || 0x2000 <= c as int <= 0x200A || c as int == 0x2028 || c as int == 0x2029
    || c as int == 0x202F || c as int == 0x205F || c as int == 0x3000
  }

  /** r sits at position i of s with nothing but white space before and after it. */
  predicate TrimmedAt(s: string, r: string, i: nat)
  {
    && i + |r| <= |s| && s[i..i + |r|] == r
    && (forall k :: 0 <= k < i ==> IsSpace(s[k]))
    && (forall k :: i + |r| <= k < |s| ==> IsSpace(s[k]))
  }

  lemma TrimmedAfterSpace(s: string, r: string)
    requires s != [] && IsSpace(s[0]) && exists i: nat :: TrimmedAt(s[1..], r, i)
    ensures exists i: nat :: TrimmedAt(s, r, i)
  {
    var i: nat :| TrimmedAt(s[1..], r, i);
    assert TrimmedAt(s, r, i + 1);
  }

  lemma TrimmedBeforeSpace(s: string, init: string, r: string)
    requires s != [] && IsSpace(s[|s| - 1]) && init == s[..|s| - 1]
    requires exists i: nat :: TrimmedAt(init, r, i)
    ensures exists i: nat :: TrimmedAt(s, r, i)
  {
    var i: nat :| TrimmedAt(init, r, i);
    assert TrimmedAt(s, r, i);
  }

  /**
   * `s.strip()`: the part of s left once the white space at both ends is
   * gone; it neither starts nor ends with white space, so it is empty only
   * when s is all white space.
   */
  function Strip(s: string): (r: string)
    ensures exists i: nat :: TrimmedAt(s, r, i)
    ensures r != [] ==> !IsSpace(r[0]) && !IsSpace(r[|r| - 1])
  {
    if s == [] then
      assert TrimmedAt(s, s, 0);
      []
    else if IsSpace(s[0]) then
      var r := Strip(s[1..]);
      TrimmedAfterSpace(s, r);
      r
    else if IsSpace(s[|s| - 1]) then
      var r := Strip(s[..|s| - 1]);
      TrimmedBeforeSpace(s, s[..|s| - 1], r);
      r
    else
      assert TrimmedAt(s, s, 0);
      s
  }

  /** Stripping is idempotent, and text without white space at its ends is left as it is. */
  lemma StripIdempotent(s: string)
    ensures Strip(Strip(s)) == Strip(s)
  {
    var r := Strip(s);
    if r != [] {
      StripUnpadded(r);
    }
  }

  /** Digits, optionally in groups joined by single underscores: `1_000`. */
  predicate ValidDigitGroups(s: string)
  {
    && |s| > 0
    && IsDigit(s[0]) && IsDigit(s[|s| - 1])
    && (forall i :: 0 <= i < |s| ==> IsDigit(s[i]) || s[i] == '_')
    && (forall i :: 0 <= i < |s| - 1 ==> !(s[i] == '_' && s[i + 1] == '_'))
  }

  function RemoveUnderscores(s: string): (r: string)
    requires forall i :: 0 <= i < |s| ==> IsDigit(s[i]) || s[i] == '_'
    ensures AllDigits(r)
  {
    if s == [] then []
    else (if s[0] == '_' then [] else [s[0]]) + RemoveUnderscores(s[1..])
  }

  lemma {:induction false} RemoveUnderscoresOfDigits(s: string)
    requires AllDigits(s)
    ensures RemoveUnderscores(s) == s
  {
    if s != [] {
      RemoveUnderscoresOfDigits(s[1..]);
    }
  }

  /** The magnitude part of `int()`: digit groups, else ValueError. */
  function ParseMagnitude(s: string): Result<nat>
  {
    if ValidDigitGroups(s) then Ok(DigitsValue(RemoveUnderscores(s))) else Err(ValueError)
  }

  /** Some character of s is a decimal digit. */
  predicate HasDigit(s: string)
  {
    exists i :: 0 <= i < |s| && IsDigit(s[i])
  }

  /**
   * `int(s)` for a string in base 10: surrounding white space is ignored,
   * one optional sign, then digits (underscores allowed between digits);
   * anything else raises ValueError.
   */
  function ParseInt(s: string): (r: Result<int>)
    ensures r.Ok? ==> HasDigit(s)
  {
    var t := Strip(s);
    var r: Result<int> :=
      if t == [] then Err(ValueError)
      else if t[0] == '-' then
        (match ParseMagnitude(t[1..]) case Ok(m) => Ok(-(m as int)) case Err(e) => Err(e))
      else if t[0] == '+' then
        (match ParseMagnitude(t[1..]) case Ok(m) => Ok(m as int) case Err(e) => Err(e))
      else
        (match ParseMagnitude(t) case Ok(m) => Ok(m as int) case Err(e) => Err(e));
    if r.Ok? then ParsedHasDigit(t); StripKeepsDigit(s); r else r
  }

  /** What ParseInt accepts after stripping holds a digit. */
  lemma ParsedHasDigit(t: string)
    requires t != []
    requires (t[0] == '-' || t[0] == '+') ==> ParseMagnitude(t[1..]).Ok?
    requires !(t[0] == '-' || t[0] == '+') ==> ParseMagnitude(t).Ok?
    ensures HasDigit(t)
  {
    if t[0] == '-' || t[0] == '+' {
      assert IsDigit(t[1..][0]);
      assert IsDigit(t[1]);
    } else {
      assert IsDigit(t[0]);
    }
  }

  lemma {:induction false} StripKeepsDigit(s: string)
    ensures HasDigit(Strip(s)) ==> HasDigit(s)
  {
    if s != [] && HasDigit(Strip(s)) {
      if IsSpace(s[0]) {
        StripKeepsDigit(s[1..]);
        var j :| 0 <= j < |s[1..]| && IsDigit(s[1..][j]);
        assert IsDigit(s[j + 1]);
      } else if IsSpace(s[|s| - 1]) {
        StripKeepsDigit(s[..|s| - 1]);
        var j :| 0 <= j < |s[..|s| - 1]| && IsDigit(s[..|s| - 1][j]);
        assert IsDigit(s[j]);
      }
    }
  }

  /** Text with no white space at either end is left as it is. */
  lemma StripUnpadded(s: string)
    requires s != [] && !IsSpace(s[0]) && !IsSpace(s[|s| - 1])
    ensures Strip(s) == s
  {
  }

  /** A plain run of digits is a valid magnitude denoting its value. */
  lemma ParseMagnitudeOfDigits(digits: string)
    requires |digits| > 0 && AllDigits(digits)
    ensures ParseMagnitude(digits) == Ok(DigitsValue(digits))
  {
    RemoveUnderscoresOfDigits(digits);
    assert ValidDigitGroups(digits);
  }

  /** Unsigned text without surrounding white space parses as its magnitude. */
  lemma ParseUnsigned(digits: string, v: nat)
    requires |digits| > 0 && IsDigit(digits[0]) && ParseMagnitude(digits) == Ok(v)
    ensures ParseInt(digits) == Ok(v)
  {
    assert IsDigit(digits[|digits| - 1]);
    StripUnpadded(digits);
  }

  /** A minus sign before a magnitude parses as its negation. */
  lemma ParseNegated(digits: string, v: nat)
    requires |digits| > 0 && ParseMagnitude(digits) == Ok(v)
    ensures ParseInt("-" + digits) == Ok(-(v as int))
  {
    var s := "-" + digits;
    assert s[1..] == digits;
    assert IsDigit(s[|s| - 1]);
    StripUnpadded(s);
  }

  /** `int(str(i)) == i`: decimal text of an integer reads back as that integer. */
  lemma ParseIntToString(i: int)
    ensures ParseInt(IntToString(i)) == Ok(i)
  {
    var m: nat := if i < 0 then -i else i;
    var digits := NatToString(m);
    DigitsValueOfNatToString(m);
    ParseMagnitudeOfDigits(digits);
    if i < 0 {
      ParseNegated(digits, m);
    } else {
      ParseUnsigned(digits, m);
    }
  }

  /** Python's `a < b` on strings: lexicographic by code point, a proper prefix first. */
  predicate StrLess(a: string, b: string)
  {
    if a == [] then b != []
    else if b == [] then false
    else if a[0] != b[0] then a[0] < b[0]
    else StrLess(a[1..], b[1..])
  }

  lemma {:induction false} StrLessIrreflexive(a: string)
    ensures !StrLess(a, a)
  {
    if a != [] {
      StrLessIrreflexive(a[1..]);
    }
  }

  lemma {:induction false} StrLessTransitive(a: string, b: string, c: string)
    requires StrLess(a, b) && StrLess(b, c)
    ensures StrLess(a, c)
  {
    if a != [] && b != [] && c != [] && a[0] == b[0] && b[0] == c[0] {
      StrLessTransitive(a[1..], b[1..], c[1..]);
    }
  }

  /** Any two different strings are ordered one way round. */
  lemma {:induction false} StrLessTotal(a: string, b: string)
    requires a != b
    ensures StrLess(a, b) || StrLess(b, a)
  {
    if a != [] && b != [] && a[0] == b[0] {
      assert a == [a[0]] + a[1..] && b == [b[0]] + b[1..];
      StrLessTotal(a[1..], b[1..]);
    }
  }

  lemma {:induction false} StrLessAsymmetric(a: string, b: string)
    requires StrLess(a, b)
    ensures !StrLess(b, a)
  {
    if a != [] && b != [] && a[0] == b[0] {
      StrLessAsymmetric(a[1..], b[1..]);
    }
  }

  predicate IsUpper(c: char) { 'A' <= c <= 'Z' }
  predicate IsLower(c: char) { 'a' <= c <= 'z' }
  predicate IsLetter(c: char) { IsUpper(c) || IsLower(c) }

  function ToUpper(c: char): char { if IsLower(c) then (c as int - 32) as char else c }
  function ToLower(c: char): char { if IsUpper(c) then (c as int + 32) as char else c }

  /** The character `s.title()` puts at position i: upper case after a non-letter, else lower. */
  function TitleChar(s: string, i: nat): char
    requires i < |s|
  {
    if i > 0 && IsLetter(s[i - 1]) then ToLower(s[i]) else ToUpper(s[i])
  }

  /** `s.title()`: each word starts with a capital, its other letters are small. */
  function Title(s: string): (r: string)
    ensures |r| == |s|
    ensures forall i :: 0 <= i < |s| ==> r[i] == TitleChar(s, i)
  {
    seq(|s|, i requires 0 <= i < |s| => TitleChar(s, i))
  }

  /** Title case is stable: a title-cased string is its own title. */
  lemma TitleIdempotent(s: string)
    ensures Title(Title(s)) == Title(s)
  {
    var t := Title(s);
    forall i | 0 <= i < |s|
      ensures Title(t)[i] == t[i]
    {
      if i > 0 {
        assert IsLetter(t[i - 1]) == IsLetter(s[i - 1]);
      }
    }
  }
}
