/**
  The string operations the alarm core relies on: decimal rendering of integers
  (template literals `${n}`), `padStart(2, "0")`, `parseInt(s, 10)` and ASCII
  `toLowerCase`.
*/
module Text {
  import opened Wrappers

  predicate IsDigit(c: char) { '0' <= c <= '9' }

  predicate AllDigits(s: string) { forall i :: 0 <= i < |s| ==> IsDigit(s[i]) }

  function DigitChar(d: int): (c: char)
    requires 0 <= d < 10
    ensures IsDigit(c)
  {
    (('0' as int) + d) as char
  }

  function DigitValue(c: char): int
    requires IsDigit(c)
  {
    (c as int) - ('0' as int)
  }

  function Pow10(k: nat): (r: nat)
    ensures r >= 1
  {
    if k == 0 then 1 else 10 * Pow10(k - 1)
  }

  /** Decimal digits of n, most significant first, without leading zeros ("0" for 0) */
  function NatToString(n: nat): (s: string)
    ensures |s| >= 1 && AllDigits(s)
    ensures n < 10 <==> |s| == 1
    decreases n
  {
    if n < 10 then [DigitChar(n)] else NatToString(n / 10) + [DigitChar(n % 10)]
  }

  /** String(n) for an integer n */
  function IntToString(n: int): string {
    if n < 0 then "-" + NatToString(-n) else NatToString(n)
  }

  /** The value of a string of decimal digits */
  function DigitsValue(s: string): (n: nat)
    requires AllDigits(s)
  {
    if s == [] then 0 else DigitsValue(s[..|s| - 1]) * 10 + DigitValue(s[|s| - 1])
  }

  /** The longest prefix of s made of decimal digits */
  function DigitPrefix(s: string): (p: string)
    ensures AllDigits(p) && p <= s
    ensures |p| < |s| ==> !IsDigit(s[|p|])
  {
    if s == [] || !IsDigit(s[0]) then [] else [s[0]] + DigitPrefix(s[1..])
  }

  /** parseInt(s, 10) for strings without leading white space: an optional sign, then the
      longest run of digits; None stands for NaN (no digits). */
  function ParseInt(s: string): (r: Option<int>)
    ensures r.Some? ==> (|s| > 0 && (s[0] == '-' || s[0] == '+' || IsDigit(s[0])))
    ensures r.None? <==> !((|s| > 0 && IsDigit(s[0])) || (|s| > 1 && (s[0] == '-' || s[0] == '+') && IsDigit(s[1])))
  {
    if |s| > 0 && (s[0] == '-' || s[0] == '+') then
      var p := DigitPrefix(s[1..]);
      if p == [] then None else Some(if s[0] == '-' then -(DigitsValue(p) as int) else DigitsValue(p) as int)
    else
      var p := DigitPrefix(s);
      if p == [] then None else Some(DigitsValue(p))
  }

  /** s.padStart(2, "0") */
  function PadStart2(s: string): (r: string)
    ensures |s| >= 2 ==> r == s
    ensures |s| < 2 ==> |r| == 2
  {
    if |s| >= 2 then s else seq(2 - |s|, _ => '0') + s
  }

  function LowerChar(c: char): char {
    if 'A' <= c <= 'Z' then ((c as int) - ('A' as int) + ('a' as int)) as char else c
  }

  /** toLowerCase, for the ASCII letters */
  function Lower(s: string): (r: string)
    ensures |r| == |s|
    ensures forall i :: 0 <= i < |s| ==> r[i] == LowerChar(s[i])
  {
    seq(|s|, i requires 0 <= i < |s| => LowerChar(s[i]))
  }

  // Properties

  /** Reading digits back gives the number that was rendered. */
  lemma {:induction false} NatToStringValue(n: nat)
    ensures DigitsValue(NatToString(n)) == n
    decreases n
  {
    var s := NatToString(n);
    if n >= 10 {
      NatToStringValue(n / 10);
      assert s[..|s| - 1] == NatToString(n / 10);
    }
  }

  /** The value of a concatenation of digit strings. */
  lemma {:induction false} DigitsValueAppend(s: string, t: string)
    requires AllDigits(s) && AllDigits(t)
    ensures AllDigits(s + t)
    ensures DigitsValue(s + t) == DigitsValue(s) * Pow10(|t|) + DigitsValue(t)
    decreases |t|
  {
    if t == [] {
      assert s + t == s;
    } else {
      var t' := t[..|t| - 1];
      var c := t[|t| - 1];
      assert (s + t)[..|s + t| - 1] == s + t';
      assert (s + t)[|s + t| - 1] == c;
      DigitsValueAppend(s, t');
      var a, b, p := DigitsValue(s), DigitsValue(t'), Pow10(|t'|);
      assert DigitsValue(s + t) == DigitsValue(s + t') * 10 + DigitValue(c);
      assert DigitsValue(t) == b * 10 + DigitValue(c);
      assert Pow10(|t|) == 10 * p;
      ScaleByTen(a, p);
    }
  }

  lemma ScaleByTen(a: int, p: int)
    ensures a * (10 * p) == (a * p) * 10
  {
  }

  /** A number from 0 to 99, rendered and padded to two digits, reads back as itself. */
  lemma Pad2Value(n: nat)
    requires n < 100
    ensures |PadStart2(NatToString(n))| == 2 && AllDigits(PadStart2(NatToString(n)))
    ensures DigitsValue(PadStart2(NatToString(n))) == n
  {
    var s := NatToString(n);
    NatToStringValue(n);
    if n < 10 {
      var p := PadStart2(s);
      assert p == "0" + s;
      DigitsValueAppend("0", s);
    } else {
      assert NatToString(n / 10) == [DigitChar(n / 10)];
    }
  }

  /** parseInt reads back a rendered integer when nothing but digits follows it. */
  lemma ParseIntDigits(s: string)
    requires |s| > 0 && AllDigits(s)
    ensures ParseInt(s) == Some(DigitsValue(s))
  {
    DigitPrefixAll(s);
  }

  lemma ParseIntNegative(s: string)
    requires |s| > 0 && AllDigits(s)
    ensures ParseInt("-" + s) == Some(-(DigitsValue(s) as int))
  {
    assert ("-" + s)[1..] == s;
    DigitPrefixAll(s);
  }

  /** The two forms above, for a string whose value is already known */
  lemma ParseDigits(u: string, v: int)
    requires |u| > 0 && AllDigits(u) && DigitsValue(u) == v
    ensures ParseInt(u) == Some(v)
  {
    ParseIntDigits(u);
  }

  lemma ParseMinus(u: string, w: string, v: int)
    requires u == "-" + w && |w| > 0 && AllDigits(w) && DigitsValue(w) == v
    ensures ParseInt(u) == Some(-v)
  {
    ParseIntNegative(w);
  }

  /** parseInt reads back every rendered integer. */
  lemma ParseIntToString(n: int)
    ensures ParseInt(IntToString(n)) == Some(n)
  {
    if n < 0 {
      NegativeToString(n);
    } else {
      NatToStringValue(n);
      ParseDigits(IntToString(n), n);
    }
  }

  lemma NegativeToString(n: int)
    requires n < 0
    ensures ParseInt(IntToString(n)) == Some(n)
  {
    var m: nat := -n;
    var w := NatToString(m);
    NatToStringValue(m);
    assert IntToString(n) == "-" + w;
    ParseMinus(IntToString(n), w, m);
  }

  /** A digit run followed by a non-digit is exactly the digit prefix. */
  lemma {:induction false} DigitPrefixStops(d: string, rest: string)
    requires AllDigits(d)
    requires |rest| > 0 && !IsDigit(rest[0])
    ensures DigitPrefix(d + rest) == d
    decreases |d|
  {
    if d == [] {
      assert d + rest == rest;
    } else {
      assert (d + rest)[1..] == d[1..] + rest;
      DigitPrefixStops(d[1..], rest);
    }
  }

  /** parseInt stops at the first non-digit after a rendered natural number. */
  lemma ParseNatThenText(n: nat, rest: string)
    requires |rest| > 0 && !IsDigit(rest[0])
    ensures ParseInt(NatToString(n) + rest) == Some(n)
  {
    var d := NatToString(n);
    DigitPrefixStops(d, rest);
    NatToStringValue(n);
    assert (d + rest)[0] == d[0];
  }

  lemma DropPrefix<T>(a: seq<T>, b: seq<T>)
    ensures (a + b)[|a|..] == b
  {
  }

  lemma {:induction false} DigitPrefixAll(s: string)
    requires AllDigits(s)
    ensures DigitPrefix(s) == s
    decreases |s|
  {
    if s != [] {
      DigitPrefixAll(s[1..]);
    }
  }

  /** Lower-casing is idempotent. */
  lemma LowerIdempotent(s: string)
    ensures Lower(Lower(s)) == Lower(s)
  {
  }
}
