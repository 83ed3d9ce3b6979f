/**
 * The integer conversions of `vsnprintf` that the firmware's format
 * strings use (`%d`, `%ld`, `%03d`, `%03ld`, `%2d`), together with the
 * decoders that read such text back.
 */
module Decimal {
  import opened Wrappers

  predicate IsDigit(c: char) {
    '0' <= c <= '9'
  }

  /** Every character of `s` is a decimal digit (stated from the end, as `DigitsValue` reads). */
  predicate AllDigits(s: string) {
    s == [] || (AllDigits(s[..|s| - 1]) && IsDigit(s[|s| - 1]))
  }

  function DigitValue(c: char): (d: nat)
    requires IsDigit(c)
    ensures d < 10
  {
    c as int - '0' as int
  }

  function DigitChar(d: nat): (c: char)
    requires d < 10
    ensures IsDigit(c) && DigitValue(c) == d
  {
    (d + '0' as int) as char
  }

  /** The number a string of decimal digits denotes (leading zeros allowed). */
  function DigitsValue(s: string): nat
    requires AllDigits(s)
  {
    if s == [] then 0 else DigitsValue(s[..|s| - 1]) * 10 + DigitValue(s[|s| - 1])
  }

  function Pow10(k: nat): (p: nat)
    ensures p >= 1
  {
    if k == 0 then 1 else 10 * Pow10(k - 1)
  }

  /** `%u`: the shortest decimal text of `n`; it denotes `n`. */
  function NatText(n: nat): (s: string)
    ensures |s| >= 1 && AllDigits(s) && IsDigit(s[0])
    ensures DigitsValue(s) == n
    ensures s[0] == '0' <==> n == 0
    ensures n == 0 ==> s == "0"
  {
    if n < 10 then
      assert [DigitChar(n)][..0] == [];
      [DigitChar(n)]
    else
      var s := NatText(n / 10) + [DigitChar(n % 10)];
      assert s[..|s| - 1] == NatText(n / 10);
      s
  }

  /** `%d`/`%ld`: a minus sign for negative values, then the magnitude. */
  function IntText(n: int): (s: string)
    ensures |s| >= 1
    ensures (s[0] == '-') <==> n < 0
  {
    if n < 0 then "-" + NatText(-n) else NatText(n)
  }

  /** `%03d`: for values below 1000, exactly three digits denoting the value. */
  function Zero3(n: nat): (s: string)
    requires n < 1000
    ensures |s| == 3 && AllDigits(s)
    ensures DigitsValue(s) == n
  {
    NatTextLength(n, 3);
    if n < 10 then
      NatTextLength(n, 1);
      LeadingZeros("00", NatText(n));
      "00" + NatText(n)
    else if n < 100 then
      NatTextLength(n, 2);
      LeadingZeros("0", NatText(n));
      "0" + NatText(n)
    else
      NatText(n)
  }

  /** `%2d`: the decimal text of `n`, right-aligned in two columns (never truncated). */
  function Width2(n: int): string
  {
    var t := IntText(n);
    if |t| < 2 then [' '] + t else t
  }

  lemma {:induction false} NatTextLength(n: nat, k: nat)
    requires n < Pow10(k) && k >= 1
    ensures |NatText(n)| <= k
  {
    if n >= 10 {
      NatTextLength(n / 10, k - 1);
    }
  }

  lemma {:induction false} DigitsValueAppend(a: string, b: string)
    requires AllDigits(a) && AllDigits(b)
    ensures AllDigits(a + b)
    ensures DigitsValue(a + b) == DigitsValue(a) * Pow10(|b|) + DigitsValue(b)
  {
    var ab := a + b;
    if b == [] {
      assert ab == a;
    } else {
      var b' := b[..|b| - 1];
      var last := b[|b| - 1];
      assert ab[..|ab| - 1] == a + b';
      assert ab[|ab| - 1] == last;
      DigitsValueAppend(a, b');
      assert AllDigits(b');
      Distribute(DigitsValue(a), Pow10(|b'|), DigitsValue(b'), DigitValue(last));
    }
  }

  lemma Distribute(va: int, p: int, vb: int, d: int)
    ensures (va * p + vb) * 10 + d == va * (10 * p) + (vb * 10 + d)
  {
  }

  lemma {:induction false} ZerosValue(z: string)
    requires forall i :: 0 <= i < |z| ==> z[i] == '0'
    ensures AllDigits(z) && DigitsValue(z) == 0
  {
    if z != [] {
      ZerosValue(z[..|z| - 1]);
    }
  }

  /** Zero padding does not change the number a digit string denotes. */
  lemma LeadingZeros(z: string, s: string)
    requires forall i :: 0 <= i < |z| ==> z[i] == '0'
    requires AllDigits(s)
    ensures AllDigits(z + s) && DigitsValue(z + s) == DigitsValue(s)
  {
    ZerosValue(z);
    DigitsValueAppend(z, s);
  }

  /** Reads a non-empty run of digits. */
  function DecodeNat(s: string): Option<nat>
  {
    if |s| >= 1 && AllDigits(s) then Some(DigitsValue(s)) else None
  }

  /** Reads an optional minus sign followed by digits. */
  function DecodeInt(s: string): Option<int>
  {
    if |s| >= 1 && s[0] == '-' then
      match DecodeNat(s[1..])
      case Some(m) => Some(-(m as int))
      case None => None
    else
      match DecodeNat(s)
      case Some(m) => Some(m as int)
      case None => None
  }

  /** Drops the characters `c` at the front of `s`. */
  function TrimLeft(s: string, c: char): (r: string)
    ensures |r| <= |s|
    ensures r != [] ==> r[0] != c
  {
    if s != [] && s[0] == c then TrimLeft(s[1..], c) else s
  }

  lemma DecodeNatText(n: nat)
    ensures DecodeNat(NatText(n)) == Some(n)
  {
  }

  lemma DecodeIntText(n: int)
    ensures DecodeInt(IntText(n)) == Some(n)
  {
    if n < 0 {
      assert IntText(n)[1..] == NatText(-n);
    }
  }

  /** `%2d` of a value from 1 to 99 is two columns that read back as the value. */
  lemma Width2RoundTrip(n: int)
    requires 1 <= n <= 99
    ensures |Width2(n)| == 2
    ensures DecodeNat(TrimLeft(Width2(n), ' ')) == Some(n)
  {
    NatTextLength(n, 2);
    var t := NatText(n);
    assert IntText(n) == t && IsDigit(t[0]);
    assert TrimLeft(t, ' ') == t;
    if |t| == 1 {
      var w := [' '] + t;
      assert w[1..] == t;
      assert TrimLeft(w, ' ') == t;
    }
  }
}
