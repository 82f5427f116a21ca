/** The pieces of Python's text handling the codec relies on: `str()` of an
    integer, `int()` of a run of digits, slicing with clamped bounds and
    `str.upper()` on the alphabet titles are written in. */
module Text {

  predicate IsDigit(c: char) { '0' <= c <= '9' }

  predicate AllDigits(s: string) {
    forall i :: 0 <= i < |s| ==> IsDigit(s[i])
  }

  function DigitChar(d: nat): (c: char)
    requires d < 10
    ensures IsDigit(c) && c as int == '0' as int + d
  {
    ('0' as int + d) as char
  }

  function DigitValue(c: char): (d: nat)
    requires IsDigit(c)
    ensures d < 10 && DigitChar(d) == c
  {
    c as int - '0' as int
  }

  /** Python's `int(s)` for a run of ASCII digits; the empty run gives 0. */
  function DigitsValue(s: string): nat
    requires AllDigits(s)
  {
    if s == [] then 0 else DigitsValue(s[..|s| - 1]) * 10 + DigitValue(s[|s| - 1])
  }

  /** Python's `str(n)` for a non-negative integer: the shortest decimal
      numeral, with a leading zero only for 0 itself. */
  function NatToString(n: nat): (s: string)
    ensures 1 <= |s| && AllDigits(s)
    ensures s[0] == '0' <==> n == 0
  {
    if n < 10 then [DigitChar(n)] else NatToString(n / 10) + [DigitChar(n % 10)]
  }

  /** Python's `str(n)` for any integer: a minus sign before the numeral of -n. */
  function IntToString(n: int): (s: string)
    ensures 1 <= |s|
    ensures n >= 0 <==> AllDigits(s)
  {
    if n < 0 then
      var s := "-" + NatToString(-n);
      assert !IsDigit(s[0]);
      s
    else NatToString(n)
  }

  function Pow10(k: nat): (p: nat)
    ensures p >= 1
  {
    if k == 0 then 1 else 10 * Pow10(k - 1)
  }

  /** `int(str(n)) == n`. */
  lemma {:induction false} NatToStringRoundTrip(n: nat)
    ensures DigitsValue(NatToString(n)) == n
  {
    if n >= 10 {
      NatToStringRoundTrip(n / 10);
      var s := NatToString(n);
      assert s[..|s| - 1] == NatToString(n / 10);
    }
  }

  /** A run of k digits is worth less than 10^k. */
  lemma {:induction false} DigitsValueBound(s: string)
    requires AllDigits(s)
    ensures DigitsValue(s) < Pow10(|s|)
  {
    if s != [] {
      DigitsValueBound(s[..|s| - 1]);
    }
  }

  /** Digits read left to right: the value of a + b is that of a shifted by
      the length of b, plus that of b. */
  lemma {:induction false} DigitsValueConcat(a: string, b: string)
    requires AllDigits(a) && AllDigits(b)
    ensures AllDigits(a + b)
    ensures DigitsValue(a + b) == DigitsValue(a) * Pow10(|b|) + DigitsValue(b)
  {
    if b == [] {
      assert a + b == a;
    } else {
      var s, b' := a + b, b[..|b| - 1];
      assert s[..|s| - 1] == a + b';
      assert s[|s| - 1] == b[|b| - 1];
      DigitsValueConcat(a, b');
      ShiftStep(DigitsValue(a), Pow10(|b'|), DigitsValue(b'), DigitValue(b[|b| - 1]));
    }
  }

  /** The arithmetic of one more digit after a shifted numeral. */
  lemma ShiftStep(x: int, p: int, y: int, d: int)
    ensures (x * p + y) * 10 + d == x * (10 * p) + (y * 10 + d)
  {
  }

  /** The numeral of n has at most k digits exactly when n < 10^k. */
  lemma {:induction false} NatToStringLength(n: nat, k: nat)
    requires 1 <= k
    ensures |NatToString(n)| <= k <==> n < Pow10(k)
  {
    if n >= 10 {
      assert |NatToString(n)| == |NatToString(n / 10)| + 1;
      if k > 1 {
        NatToStringLength(n / 10, k - 1);
        assert n / 10 < Pow10(k - 1) <==> n < Pow10(k);
      }
    }
  }

  /** `len(str(p)) == 4` holds for the four-digit years and, because of the
      minus sign, for -999 .. -100 as well. */
  lemma IntToStringLength4(p: int)
    ensures |IntToString(p)| == 4 <==> (1000 <= p <= 9999 || -999 <= p <= -100)
  {
    assert Pow10(2) == 100 && Pow10(3) == 1000 && Pow10(4) == 10000;
    if p >= 0 {
      NatToStringLength(p, 4);
      NatToStringLength(p, 3);
    } else {
      NatToStringLength(-p, 3);
      NatToStringLength(-p, 2);
    }
  }

  /** Two decimal digits for 0 <= y < 100, with a leading zero when y < 10. */
  function Pad2(y: nat): (s: string)
    requires y < 100
    ensures |s| == 2 && AllDigits(s)
  {
    [DigitChar(y / 10), DigitChar(y % 10)]
  }

  lemma Pad2Value(y: nat)
    requires y < 100
    ensures DigitsValue(Pad2(y)) == y
  {
    var s := Pad2(y);
    assert s[..1] == [DigitChar(y / 10)];
    assert s[..1][..0] == [];
    assert DigitsValue(s[..1]) == y / 10;
    assert DigitsValue(s) == DigitsValue(s[..1]) * 10 + DigitValue(s[1]);
  }

  /** The numeral of a four-digit year is its century and its year of the
      century, two digits each. */
  lemma FourDigitNumeral(p: nat)
    requires 1000 <= p <= 9999
    ensures NatToString(p) == Pad2(p / 100) + Pad2(p % 100)
  {
    var a, b, c, d := p / 1000, (p / 100) % 10, (p / 10) % 10, p % 10;
    assert p / 10 / 10 == p / 100;
    assert p / 100 / 10 == a;
    assert NatToString(p / 100) == [DigitChar(a), DigitChar(b)];
    assert NatToString(p / 10) == [DigitChar(a), DigitChar(b), DigitChar(c)];
    assert NatToString(p) == [DigitChar(a), DigitChar(b), DigitChar(c), DigitChar(d)];
    assert (p % 100) / 10 == c;
  }

  function Min(a: nat, b: nat): nat { if a <= b then a else b }

  /** Python's `s[i:j]` for non-negative bounds: both are clamped to |s|. */
  function Slice(s: string, i: nat, j: nat): string {
    var lo, hi := Min(i, |s|), Min(j, |s|);
    if lo <= hi then s[lo..hi] else []
  }

  /** The two halves of the numeral of a four-digit year. */
  lemma NumeralSlices(p: int)
    requires 1000 <= p <= 9999
    ensures Slice(IntToString(p), 2, 4) == Pad2(p % 100)
    ensures Slice(IntToString(p), 0, 2) == Pad2(p / 100)
  {
    FourDigitNumeral(p);
    var s := IntToString(p);
    assert s[2..4] == Pad2(p % 100);
    assert s[0..2] == Pad2(p / 100);
  }

  /** `str(10000)[2:4]` is 00. */
  lemma TenThousandSlice(q: int)
    requires q == 10000
    ensures Slice(IntToString(q), 2, 4) == Pad2(0)
  {
    assert NatToString(1) == "1";
    assert NatToString(10) == "10";
    assert NatToString(100) == "100";
    assert NatToString(1000) == "1000";
    assert NatToString(10000) == "10000";
  }

  /** The last two digits of `str(p)` for a four-digit year, and those of
      `str(p + 1)`, which for 9999 is the five-digit 10000. */
  lemma YearSlices(p: int)
    requires 1000 <= p <= 9999
    ensures Slice(IntToString(p), 2, 4) == Pad2(p % 100)
    ensures Slice(IntToString(p + 1), 2, 4) == Pad2((p + 1) % 100)
    ensures Slice(IntToString(p), 0, 2) == Pad2(p / 100)
  {
    NumeralSlices(p);
    if p + 1 <= 9999 {
      NumeralSlices(p + 1);
    } else {
      TenThousandSlice(p + 1);
    }
  }

  /** The slice `str(p)[2:4]` of a period that passes `len(str(p)) == 4`
      only because of its minus sign. */
  lemma NegativeYearSlice(p: int)
    requires -999 <= p <= -100
    ensures Slice(IntToString(p), 2, 4) == Pad2((-p) % 100)
  {
    var n := -p;
    assert n / 10 / 10 == n / 100;
    assert NatToString(n / 10) == [DigitChar(n / 100), DigitChar((n / 10) % 10)];
    assert NatToString(n) == [DigitChar(n / 100), DigitChar((n / 10) % 10), DigitChar(n % 10)];
    assert (n % 100) / 10 == (n / 10) % 10;
  }

  /** Python's `str.upper()` on one character of the modelled alphabet. */
  function UpperChar(c: char): char {
    if 'a' <= c <= 'z' then (c as int - 32) as char
    else if c == 'æ' then 'Æ'
    else if c == 'ø' then 'Ø'
    else if c == 'å' then 'Å'
    else c
  }

  function Upper(s: string): (r: string)
    ensures |r| == |s|
    ensures forall i :: 0 <= i < |s| ==> r[i] == UpperChar(s[i])
  {
    seq(|s|, i requires 0 <= i < |s| => UpperChar(s[i]))
  }

  /** Upper-casing twice changes nothing more. */
  lemma UpperIdempotent(s: string)
    ensures Upper(Upper(s)) == Upper(s)
  {
  }

  /** The characters on which UpperChar agrees with Python's `str.upper()`:
      ASCII, the Danish letters and the superscript digits. */
  predicate CaseModelledChar(c: char) {
    c < 128 as char || c in "æøåÆØÅ⁰¹²³⁴⁵⁶⁷⁸⁹"
  }

  predicate CaseModelled(s: string) {
    forall i :: 0 <= i < |s| ==> CaseModelledChar(s[i])
  }
}
