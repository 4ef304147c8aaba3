/**
 * Python's integer presentation types as used by the dashboard:
 * `{:,d}` (decimal digits grouped in threes with commas, `-` for negatives)
 * and `{:+,d}` (the same, with an explicit sign for every value).
 */
module Decimal {
  import opened Wrappers

  predicate IsDigit(c: char) {
    '0' <= c <= '9'
  }

  predicate AllDigits(s: string) {
    forall i :: 0 <= i < |s| ==> IsDigit(s[i])
  }

  /** A decimal numeral without superfluous leading zeros. */
  predicate Canonical(s: string) {
    |s| >= 1 && AllDigits(s) && (s[0] != '0' || |s| == 1)
  }

  function DigitChar(d: nat): (c: char)
    requires d < 10
    ensures IsDigit(c)
  {
    ('0' as int + d) as char
  }

  function DigitValue(c: char): (d: nat)
    requires IsDigit(c)
    ensures d < 10 && DigitChar(d) == c
  {
    c as int - '0' as int
  }

  function Abs(n: int): nat {
    if n < 0 then -n else n
  }

  /** `str(n)` for a non-negative `n`: the decimal digits, most significant first. */
  function Digits(n: nat): (s: string)
    ensures Canonical(s)
    ensures n == 0 <==> s == "0"
    decreases n
  {
    if n < 10 then [DigitChar(n)] else Digits(n / 10) + [DigitChar(n % 10)]
  }

  /** The value of a string of decimal digits (the empty string reads as 0). */
  function Parse(s: string): nat
    requires AllDigits(s)
    decreases |s|
  {
    if s == [] then 0 else Parse(s[..|s| - 1]) * 10 + DigitValue(s[|s| - 1])
  }

  /** `str(n)` for any Python int: a `-` in front of the digits of a negative number. */
  function IntText(n: int): (s: string)
    ensures |s| >= 1
  {
    if n < 0 then "-" + Digits(-n) else Digits(n)
  }

  lemma {:induction false} ParseDigits(n: nat)
    ensures Parse(Digits(n)) == n
    decreases n
  {
    if n >= 10 {
      var s := Digits(n);
      assert s[..|s| - 1] == Digits(n / 10);
      ParseDigits(n / 10);
    }
  }

  lemma {:induction false} ParsePositive(s: string)
    requires Canonical(s) && s[0] != '0'
    ensures Parse(s) >= 1
    decreases |s|
  {
    if |s| > 1 {
      ParsePositive(s[..|s| - 1]);
    }
  }

  /** Every canonical numeral is the rendering of the number it denotes. */
  lemma {:induction false} DigitsParse(s: string)
    requires Canonical(s)
    ensures Digits(Parse(s)) == s
    decreases |s|
  {
    if |s| > 1 {
      var t := s[..|s| - 1];
      ParsePositive(t);
      DigitsParse(t);
      assert s == t + [s[|s| - 1]];
    }
  }

  lemma DigitsInjective(a: nat, b: nat)
    requires Digits(a) == Digits(b)
    ensures a == b
  {
    ParseDigits(a);
    ParseDigits(b);
  }

  /** Distinct integers have distinct `str` renderings. */
  lemma IntTextInjective(a: int, b: int)
    requires IntText(a) == IntText(b)
    ensures a == b
  {
    if a < 0 && b < 0 {
      assert Digits(-a) == IntText(a)[1..];
      DigitsInjective(-a, -b);
    } else if a >= 0 && b >= 0 {
      DigitsInjective(a, b);
    }
  }

  /** The `,` option: a comma before every group of three digits counted from the right. */
  function Group(ds: string): string
    decreases |ds|
  {
    if |ds| <= 3 then ds else Group(ds[..|ds| - 3]) + "," + ds[|ds| - 3..]
  }

  /**
   * Thousands grouping, stated position by position: counting from the right
   * end, every fourth character is a comma and all others are digits, and the
   * string does not begin with a comma. Equivalently: a first group of one to
   * three digits, then groups of exactly three digits, each after one comma.
   */
  predicate WellGrouped(s: string) {
    |s| % 4 != 0
    && forall i :: 0 <= i < |s| ==> if (|s| - i) % 4 == 0 then s[i] == ',' else IsDigit(s[i])
  }

  function StripCommas(s: string): (r: string)
    ensures forall i :: 0 <= i < |r| ==> r[i] != ','
    decreases |s|
  {
    if s == [] then [] else (if s[0] == ',' then [] else [s[0]]) + StripCommas(s[1..])
  }

  lemma {:induction false} StripCommasConcat(a: string, b: string)
    ensures StripCommas(a + b) == StripCommas(a) + StripCommas(b)
    decreases |a|
  {
    if a != [] {
      var h: string := if a[0] == ',' then [] else [a[0]];
      assert (a + b)[0] == a[0];
      assert (a + b)[1..] == a[1..] + b;
      assert StripCommas(a + b) == h + StripCommas(a[1..] + b);
      StripCommasConcat(a[1..], b);
      assert StripCommas(a) == h + StripCommas(a[1..]);
    } else {
      assert a + b == b;
    }
  }

  lemma {:induction false} StripCommasDigits(s: string)
    requires AllDigits(s)
    ensures StripCommas(s) == s
    decreases |s|
  {
    if s != [] {
      StripCommasDigits(s[1..]);
    }
  }

  /** Grouping puts the commas in the right places. */
  lemma {:induction false} GroupWellGrouped(ds: string)
    requires |ds| >= 1 && AllDigits(ds)
    ensures WellGrouped(Group(ds))
    ensures |Group(ds)| == |ds| + (|ds| - 1) / 3
    decreases |ds|
  {
    if |ds| > 3 {
      var pre, tail := ds[..|ds| - 3], ds[|ds| - 3..];
      var g := Group(pre);
      GroupWellGrouped(pre);
      var r := g + "," + tail;
      assert Group(ds) == r;
      assert |r| == |g| + 4;
      forall i | 0 <= i < |r|
        ensures if (|r| - i) % 4 == 0 then r[i] == ',' else IsDigit(r[i])
      {
        if i < |g| {
          GroupedAt(g, i);
          assert r[i] == g[i];
        } else if i > |g| {
          assert r[i] == tail[i - |g| - 1];
        }
      }
    }
  }

  lemma GroupedAt(g: string, i: int)
    requires WellGrouped(g) && 0 <= i < |g|
    ensures (|g| + 4 - i) % 4 == 0 ==> g[i] == ','
    ensures (|g| + 4 - i) % 4 != 0 ==> IsDigit(g[i])
  {
    assert (|g| + 4 - i) % 4 == (|g| - i) % 4;
  }

  /** Grouping only inserts commas: removing them gives the digits back. */
  lemma {:induction false} GroupStripCommas(ds: string)
    requires AllDigits(ds)
    ensures StripCommas(Group(ds)) == ds
    decreases |ds|
  {
    if |ds| <= 3 {
      StripCommasDigits(ds);
    } else {
      var pre, tail := ds[..|ds| - 3], ds[|ds| - 3..];
      var g := Group(pre);
      GroupStripCommas(pre);
      StripCommasConcat(g + ",", tail);
      StripCommasConcat(g, ",");
      StripCommasDigits(tail);
      assert ds == pre + tail;
    }
  }

  /** Python `f"{n:,d}"`. */
  function FormatGrouped(n: int): (s: string)
    ensures |s| >= 1
  {
    (if n < 0 then "-" else "") + Group(Digits(Abs(n)))
  }

  /** Python `f"{n:+,d}"`: like `{:,d}` but non-negative values get a `+`. */
  function FormatSigned(n: int): (s: string)
    ensures |s| >= 2
    ensures s[0] == (if n >= 0 then '+' else '-')
    ensures WellGrouped(s[1..])
    ensures StripCommas(s[1..]) == Digits(Abs(n))
    ensures n >= 0 ==> s == "+" + FormatGrouped(n)
    ensures n < 0 ==> s == FormatGrouped(n)
  {
    GroupWellGrouped(Digits(Abs(n)));
    GroupStripCommas(Digits(Abs(n)));
    var body := Group(Digits(Abs(n)));
    assert ((if n >= 0 then "+" else "-") + body)[1..] == body;
    (if n >= 0 then "+" else "-") + body
  }

  /**
   * Reads a rendering back: a sign, then digits possibly interspersed with
   * commas. This is the inverse used to state that nothing is lost.
   */
  function ParseSigned(s: string): (r: Option<int>)
    ensures r.Some? ==> |s| >= 2 && (s[0] == '-' <==> r.value < 0)
  {
    if |s| < 2 || !(s[0] == '+' || s[0] == '-') then None
    else
      var ds := StripCommas(s[1..]);
      if ds == [] || !AllDigits(ds) then None
      else if s[0] == '+' then Some(Parse(ds))
      else if Parse(ds) == 0 then None
      else var v := -(Parse(ds) as int); Some(v)
  }

  /** Round trip: dropping the sign and the commas and reading the digits gives `n` back. */
  lemma FormatSignedRoundTrip(n: int)
    ensures ParseSigned(FormatSigned(n)) == Some(n)
  {
    var s := FormatSigned(n);
    ParseDigits(Abs(n));
    assert StripCommas(s[1..]) == Digits(Abs(n));
  }
}
