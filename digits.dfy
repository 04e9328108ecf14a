/** Decimal digits: Python's `int(s)`, `str(n)`, the `:02d` format and the
    first digit run that `re.search(r'\d+', tag)` finds. */
module Digits {
  import opened Wrappers
  import opened PyText

  predicate IsDigit(c: char) {
    '0' <= c <= '9'
  }

  predicate AllDigits(s: string) {
    forall k :: 0 <= k < |s| ==> IsDigit(s[k])
  }

  function DigitValue(c: char): nat
    requires IsDigit(c)
  {
    (c as int) - ('0' as int)
  }

  function DigitChar(d: nat): (c: char)
    requires d < 10
    ensures IsDigit(c) && DigitValue(c) == d
  {
    (('0' as int) + d) as char
  }

  /** The value of a run of decimal digits (leading zeros allowed). */
  function DigitsValue(s: string): nat
    requires AllDigits(s)
  {
    if s == [] then 0 else DigitsValue(s[..|s| - 1]) * 10 + DigitValue(s[|s| - 1])
  }

  /** `str(n)` for `n >= 0`: the decimal digits, no leading zero. */
  function NatToDigits(n: nat): (s: string)
    ensures |s| >= 1 && AllDigits(s)
    ensures s[0] == '0' ==> n == 0 && |s| == 1
  {
    if n < 10 then [DigitChar(n)] else NatToDigits(n / 10) + [DigitChar(n % 10)]
  }

  lemma {:induction false} ValueOfNatToDigits(n: nat)
    ensures DigitsValue(NatToDigits(n)) == n
  {
    if n >= 10 {
      var s := NatToDigits(n);
      var q := n / 10;
      ValueOfNatToDigits(q);
      assert s[..|s| - 1] == NatToDigits(q);
    }
  }

  lemma {:induction false} LeadingDigitBound(s: string)
    requires |s| >= 1 && AllDigits(s)
    ensures DigitsValue(s) >= DigitValue(s[0])
  {
    if |s| > 1 {
      var p := s[..|s| - 1];
      LeadingDigitBound(p);
    }
  }

  /** A digit string without a superfluous leading zero is what `str`
      prints for its value. */
  lemma {:induction false} NatToDigitsOfValue(s: string)
    requires |s| >= 1 && AllDigits(s)
    requires s[0] == '0' ==> |s| == 1
    ensures NatToDigits(DigitsValue(s)) == s
  {
    if |s| > 1 {
      var p := s[..|s| - 1];
      LeadingDigitBound(p);
      NatToDigitsOfValue(p);
      var v := DigitsValue(s);
      assert v / 10 == DigitsValue(p) && v % 10 == DigitValue(s[|s| - 1]);
      assert s == p + [s[|s| - 1]];
    }
  }

  /** Python's `int(s)` on text: optional surrounding whitespace, an optional
      sign, then one or more ASCII digits; anything else is a `ValueError`. */
  function ParseInt(s: string): Option<int> {
    var t := Strip(s);
    if |t| >= 2 && (t[0] == '-' || t[0] == '+') && AllDigits(t[1..]) then
      Some(if t[0] == '-' then -(DigitsValue(t[1..]) as int) else DigitsValue(t[1..]))
    else if |t| >= 1 && AllDigits(t) then
      Some(DigitsValue(t))
    else
      None
  }

  /** Python's `f"{n}"` / `str(n)` for any integer. */
  function IntToString(n: int): string {
    if n < 0 then "-" + NatToDigits(-n) else NatToDigits(n)
  }

  /** No decimal digit is whitespace. */
  lemma DigitNotSpace(c: char)
    requires IsDigit(c)
    ensures !IsSpace(c)
  {
  }

  /** `int` of a run of digits is its value. */
  lemma ParseDigits(d: string)
    requires |d| >= 1 && AllDigits(d)
    ensures ParseInt(d) == Some(DigitsValue(d))
  {
    DigitNotSpace(d[0]);
    DigitNotSpace(d[|d| - 1]);
    StripUntouched(d);
    assert IsDigit(d[0]);
  }

  /** A minus sign followed by a run of digits has no whitespace to strip,
      and the digits follow the sign. */
  lemma MinusDigitsShape(d: string)
    requires |d| >= 1 && AllDigits(d)
    ensures ("-" + d)[1..] == d && Strip("-" + d) == "-" + d
  {
    var s := "-" + d;
    assert s[1..] == d;
    var last := d[|d| - 1];
    assert s[|s| - 1] == last;
    DigitNotSpace(last);
    StripUntouched(s);
  }

  /** `int` of a minus sign followed by a run of digits is the negated
      value of the digits. */
  lemma ParseMinusDigits(d: string)
    requires |d| >= 1 && AllDigits(d)
    ensures ParseInt("-" + d) == Some(-(DigitsValue(d) as int))
  {
    MinusDigitsShape(d);
    ParseMinus("-" + d);
  }

  /** `int` of a minus sign followed by a run of digits, when there is
      nothing to strip. */
  lemma ParseMinus(s: string)
    requires |s| >= 2 && s[0] == '-' && AllDigits(s[1..]) && Strip(s) == s
    ensures ParseInt(s) == Some(-(DigitsValue(s[1..]) as int))
  {
  }

  /** `int(str(n)) == n` for `n >= 0`. */
  lemma ParseNatString(n: nat)
    ensures ParseInt(NatToDigits(n)) == Some(n)
  {
    ValueOfNatToDigits(n);
    ParseDigits(NatToDigits(n));
  }

  /** `int(str(-m)) == -m` for `m >= 0`. */
  lemma ParseNegString(m: nat)
    ensures ParseInt("-" + NatToDigits(m)) == Some(-(m as int))
  {
    ValueOfNatToDigits(m);
    ParseMinusDigits(NatToDigits(m));
  }

  /** `int(str(n)) == n`. */
  lemma ParseIntToString(n: int)
    ensures ParseInt(IntToString(n)) == Some(n)
  {
    if n < 0 {
      var m: nat := -n;
      ParseNegString(m);
      assert IntToString(n) == "-" + NatToDigits(m);
    } else {
      ParseNatString(n);
      assert IntToString(n) == NatToDigits(n);
    }
  }

  /** Python's `f"{n:02d}"` for `0 <= n < 100`. */
  function Pad2(n: nat): (s: string)
    requires n < 100
    ensures |s| == 2 && AllDigits(s) && DigitsValue(s) == n
  {
    assert DigitsValue([DigitChar(n / 10)]) == n / 10;
    [DigitChar(n / 10), DigitChar(n % 10)]
  }

  /** The longest run of digits at the start of `s`. */
  function DigitPrefix(s: string): (d: string)
    ensures |d| <= |s| && d == s[..|d|] && AllDigits(d)
    ensures |d| < |s| ==> !IsDigit(s[|d|])
  {
    if s != [] && IsDigit(s[0]) then [s[0]] + DigitPrefix(s[1..]) else []
  }

  /** `int(re.search(r'\d+', s).group())`, with `None` where `re.search`
      finds no digit (the source then fails on `None.group()`). */
  function FirstDigitRun(s: string): (r: Option<nat>)
    ensures r.None? <==> forall k :: 0 <= k < |s| ==> !IsDigit(s[k])
  {
    if s == [] then None
    else if IsDigit(s[0]) then Some(DigitsValue(DigitPrefix(s)))
    else FirstDigitRun(s[1..])
  }

  /** The karaoke duration tags `\kf50`, `\k12` and the like: after a
      digit-free prefix, the first maximal digit run is read back exactly. */
  lemma {:induction false} FirstDigitRunOf(prefix: string, digits: string, rest: string)
    requires forall k :: 0 <= k < |prefix| ==> !IsDigit(prefix[k])
    requires |digits| >= 1 && AllDigits(digits)
    requires rest == [] || !IsDigit(rest[0])
    ensures FirstDigitRun(prefix + digits + rest) == Some(DigitsValue(digits))
  {
    var s := prefix + digits + rest;
    if prefix == [] {
      DigitPrefixOf(digits, rest);
      assert s == digits + rest;
    } else {
      var p := prefix[1..];
      assert forall k :: 0 <= k < |p| ==> p[k] == prefix[k + 1];
      FirstDigitRunOf(p, digits, rest);
      assert s[0] == prefix[0] && !IsDigit(s[0]);
      assert s[1..] == p + digits + rest;
    }
  }

  lemma {:induction false} DigitPrefixOf(digits: string, rest: string)
    requires AllDigits(digits)
    requires rest == [] || !IsDigit(rest[0])
    ensures DigitPrefix(digits + rest) == digits
  {
    if digits != [] {
      var d := digits[1..];
      DigitPrefixOf(d, rest);
      assert (digits + rest)[1..] == d + rest;
    }
  }
}
