/** Decimal rendering of naturals as the source's template strings produce it
    (`${n}`, `n.toString().padStart(2, '0')`), with a parser that inverts it and
    the facts needed to read a rendered label back apart. */
module Text {

  predicate IsDigit(c: char) {
    '0' <= c <= '9'
  }

  predicate AllDigits(s: string) {
    forall i :: 0 <= i < |s| ==> IsDigit(s[i])
  }

  function DigitChar(d: nat): (c: char)
    requires d < 10
    ensures IsDigit(c)
  {
    "0123456789"[d]
  }

  function DigitValue(c: char): (d: nat)
    requires IsDigit(c)
    ensures d < 10
  {
    (c as int - '0' as int) as nat
  }

  lemma DigitValueChar(d: nat)
    requires d < 10
    ensures DigitValue(DigitChar(d)) == d
  {
  }

  /** `${n}` for a non-negative integer: the shortest decimal numeral. */
  function NatToString(n: nat): (s: string)
    ensures 1 <= |s|
    ensures AllDigits(s)
    ensures |s| > 1 ==> s[0] != '0'
    ensures n < 10 <==> |s| == 1
    decreases n
  {
    if n < 10 then [DigitChar(n)] else NatToString(n / 10) + [DigitChar(n % 10)]
  }

  /** The value of a string of decimal digits (the empty string reads as 0). */
  function ParseNat(s: string): nat
    requires AllDigits(s)
    decreases |s|
  {
    if |s| == 0 then 0 else 10 * ParseNat(s[..|s| - 1]) + DigitValue(s[|s| - 1])
  }

  /** Parsing inverts rendering. */
  lemma {:induction false} ParseNatToString(n: nat)
    ensures ParseNat(NatToString(n)) == n
    decreases n
  {
    var s := NatToString(n);
    if n < 10 {
      assert s[..0] == [];
      DigitValueChar(n);
    } else {
      ParseNatToString(n / 10);
      assert s[..|s| - 1] == NatToString(n / 10);
      DigitValueChar(n % 10);
    }
  }

  /** Distinct naturals render as distinct strings. */
  lemma NatToStringInjective(a: nat, b: nat)
    ensures NatToString(a) == NatToString(b) <==> a == b
  {
    if NatToString(a) == NatToString(b) {
      ParseNatToString(a);
      ParseNatToString(b);
    }
  }

  /** A leading zero does not change the value read. */
  lemma {:induction false} ParseNatLeadingZero(s: string)
    requires AllDigits(s)
    ensures AllDigits("0" + s)
    ensures ParseNat("0" + s) == ParseNat(s)
    decreases |s|
  {
    var t := "0" + s;
    assert AllDigits(t) by {
      forall i | 0 <= i < |t|
        ensures IsDigit(t[i])
      {
        if i > 0 {
          assert t[i] == s[i - 1];
        }
      }
    }
    if |s| == 0 {
      assert t[..0] == [];
    } else {
      assert t[..|t| - 1] == "0" + s[..|s| - 1];
      ParseNatLeadingZero(s[..|s| - 1]);
    }
  }

  /** `n.toString().padStart(2, '0')`. */
  function PadTwo(n: nat): (s: string)
    ensures AllDigits(s)
    ensures 2 <= |s|
    ensures ParseNat(s) == n
  {
    var d := NatToString(n);
    ParseNatToString(n);
    if |d| < 2 then
      ParseNatLeadingZero(d);
      "0" + d
    else
      d
  }

  /** Index of the first non-digit character (the length when there is none). */
  function FirstNonDigit(s: string): (k: nat)
    ensures k <= |s|
  {
    if |s| == 0 || !IsDigit(s[0]) then 0 else 1 + FirstNonDigit(s[1..])
  }

  lemma {:induction false} FirstNonDigitAfterDigits(x: string, rest: string)
    requires AllDigits(x)
    requires |rest| > 0 && !IsDigit(rest[0])
    ensures FirstNonDigit(x + rest) == |x|
    decreases |x|
  {
    if |x| == 0 {
      assert x + rest == rest;
    } else {
      assert (x + rest)[1..] == x[1..] + rest;
      FirstNonDigitAfterDigits(x[1..], rest);
    }
  }

  /** Two digit strings each followed by the same non-digit separator split at
      that separator: the digit prefixes and the remainders agree. */
  lemma SplitAtSeparator(x: string, y: string, x': string, y': string, sep: char)
    requires AllDigits(x) && AllDigits(x')
    requires !IsDigit(sep)
    requires x + [sep] + y == x' + [sep] + y'
    ensures x == x' && y == y'
  {
    var s := x + [sep] + y;
    assert s == x + ([sep] + y);
    assert x' + [sep] + y' == x' + ([sep] + y');
    FirstNonDigitAfterDigits(x, [sep] + y);
    FirstNonDigitAfterDigits(x', [sep] + y');
    assert x == s[..|x|] == x';
    assert y == s[|x| + 1..] == y';
  }

  /** Reading a digit string followed by a separator back: the first
      non-digit is the separator, the digits before it are the digit string,
      and what follows it is the rest. */
  lemma ReadBackAtSeparator(x: string, y: string, sep: char)
    requires AllDigits(x)
    requires !IsDigit(sep)
    ensures var s, k := x + [sep] + y, FirstNonDigit(x + [sep] + y);
      k == |x| && k < |s| && s[k] == sep && s[..k] == x && s[k + 1..] == y
  {
    var s := x + [sep] + y;
    assert s == x + ([sep] + y);
    FirstNonDigitAfterDigits(x, [sep] + y);
    assert s[..|x|] == x;
    assert s[|x| + 1..] == y;
  }

  /** A string that carries a non-digit is not a digit string. */
  lemma SeparatorNotDigits(p: string, q: string, sep: char)
    requires !IsDigit(sep)
    ensures !AllDigits(p + [sep] + q)
  {
    assert (p + [sep] + q)[|p|] == sep;
  }
}
