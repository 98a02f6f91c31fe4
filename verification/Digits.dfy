/** Decimal text of natural numbers and integers, as Python's `str` and `int` read and write it. */
module Digits {

  /** v * 10^k, the number v followed by k zeros. */
  function Shift(v: int, k: nat): (r: int)
    ensures v >= 0 ==> r >= v
    ensures v > 0 <==> r > 0
    ensures v < 0 <==> r < 0
  {
    if k == 0 then v else 10 * Shift(v, k - 1)
  }

  predicate IsDigit(c: char) {
    '0' <= c <= '9'
  }

  predicate AllDigits(s: string) {
    forall i :: 0 <= i < |s| ==> IsDigit(s[i])
  }

  function DigitValue(c: char): (v: nat)
    requires IsDigit(c)
    ensures v < 10
  {
    c as int - '0' as int
  }

  function DigitChar(v: nat): (c: char)
    requires v < 10
    ensures IsDigit(c) && DigitValue(c) == v
  {
    '0' + v as char
  }

  /** The number a digit string denotes, leading zeros allowed; the empty string denotes 0. */
  function ValueOf(s: string): nat
    requires AllDigits(s)
  {
    if s == "" then 0 else ValueOf(s[..|s| - 1]) * 10 + DigitValue(s[|s| - 1])
  }

  /** `str(n)` for a natural number. */
  function Text(n: nat): (s: string)
    ensures |s| >= 1 && AllDigits(s)
  {
    if n < 10 then [DigitChar(n)] else Text(n / 10) + [DigitChar(n % 10)]
  }

  /** `str(i)` for an integer. */
  function IntText(i: int): (s: string)
    ensures |s| >= 1
  {
    if i < 0 then "-" + Text(-i) else Text(i)
  }

  lemma {:induction false} TextValue(n: nat)
    ensures ValueOf(Text(n)) == n
  {
    if n >= 10 {
      TextValue(n / 10);
      assert Text(n)[..|Text(n)| - 1] == Text(n / 10);
    } else {
      assert Text(n)[..0] == "";
    }
  }

  lemma TextInjective(m: nat, n: nat)
    requires Text(m) == Text(n)
    ensures m == n
  {
    TextValue(m);
    TextValue(n);
  }

  lemma IntTextSign(i: int)
    ensures IntText(i)[0] == '-' <==> i < 0
  {
    assert i >= 0 ==> IsDigit(Text(i)[0]);
  }

  lemma IntTextInjective(i: int, j: int)
    requires IntText(i) == IntText(j)
    ensures i == j
  {
    IntTextSign(i);
    IntTextSign(j);
    if i < 0 {
      assert IntText(i)[1..] == Text(-i) && IntText(j)[1..] == Text(-j);
      TextInjective(-i, -j);
    } else {
      TextInjective(i, j);
    }
  }

  lemma {:induction false} ValueBound(s: string)
    requires AllDigits(s)
    ensures ValueOf(s) < Shift(1, |s|)
  {
    if s != "" {
      ValueBound(s[..|s| - 1]);
    }
  }

  lemma {:induction false} ValueConcat(a: string, b: string)
    requires AllDigits(a) && AllDigits(b)
    ensures AllDigits(a + b)
    ensures ValueOf(a + b) == Shift(ValueOf(a), |b|) + ValueOf(b)
  {
    if b == "" {
      assert a + b == a;
    } else {
      var init := b[..|b| - 1];
      ValueConcat(a, init);
      assert (a + b)[..|a + b| - 1] == a + init;
      assert (a + b)[|a + b| - 1] == b[|b| - 1];
    }
  }

  lemma {:induction false} ShiftMonotone(m: nat, n: nat)
    requires m <= n
    ensures Shift(1, m) <= Shift(1, n)
    decreases n
  {
    if m < n {
      ShiftMonotone(m, n - 1);
    }
  }

  lemma {:induction false} ShiftShift(v: int, m: nat, n: nat)
    ensures Shift(Shift(v, m), n) == Shift(v, m + n)
  {
    if n > 0 {
      ShiftShift(v, m, n - 1);
    }
  }

  lemma {:induction false} ShiftNegated(v: int, k: nat)
    ensures Shift(-v, k) == -Shift(v, k)
  {
    if k > 0 {
      ShiftNegated(v, k - 1);
    }
  }

  /** A number below 10^k prints in at most k digits (one digit for zero). */
  lemma {:induction false} TextLength(n: nat, k: nat)
    requires k >= 1 && n < Shift(1, k)
    ensures |Text(n)| <= k
  {
    if n >= 10 {
      assert Shift(1, 1) == 10;
      TextLength(n / 10, k - 1);
    }
  }

  /** The same bound read the other way: the digits of a number bound its size. */
  lemma TextBound(n: nat)
    ensures n < Shift(1, |Text(n)|)
  {
    TextValue(n);
    ValueBound(Text(n));
  }

  /** `s.rstrip("0")`. */
  function StripZeros(s: string): (r: string)
    requires AllDigits(s)
    ensures |r| <= |s| && r == s[..|r|]
    ensures AllDigits(r)
    ensures r != "" ==> r[|r| - 1] != '0'
  {
    if s != "" && s[|s| - 1] == '0' then StripZeros(s[..|s| - 1]) else s
  }

  lemma {:induction false} StripZerosValue(s: string)
    requires AllDigits(s)
    ensures ValueOf(s) == Shift(ValueOf(StripZeros(s)), |s| - |StripZeros(s)|)
    ensures StripZeros(s) != "" ==> ValueOf(StripZeros(s)) % 10 != 0
    ensures StripZeros(s) == "" <==> ValueOf(s) == 0
  {
    if s != "" && s[|s| - 1] == '0' {
      StripZerosValue(s[..|s| - 1]);
    } else if s != "" {
      assert DigitValue(s[|s| - 1]) != 0;
    }
  }

  lemma ShiftDivisible(v: int, k: nat)
    ensures k > 0 ==> Shift(v, k) % 10 == 0
  {
  }

  /** A number that ten does not divide and the zeros behind it are determined by the whole. */
  lemma {:induction false} NormalFormUnique(v: nat, a: nat, w: nat, b: nat)
    requires v % 10 != 0 && w % 10 != 0
    requires Shift(v, a) == Shift(w, b)
    ensures v == w && a == b
  {
    ShiftDivisible(v, a);
    ShiftDivisible(w, b);
    if a > 0 {
      NormalFormUnique(v, a - 1, w, b - 1);
    }
  }

  /** A digit string without redundant leading zeros is the text of its value. */
  predicate Plain(s: string) {
    |s| >= 1 && AllDigits(s) && (|s| == 1 || s[0] != '0')
  }

  lemma {:induction false} TextIsPlain(n: nat)
    ensures Plain(Text(n))
    ensures n > 0 ==> Text(n)[0] != '0'
  {
    if n >= 10 {
      TextIsPlain(n / 10);
      assert Text(n)[0] == Text(n / 10)[0];
    }
  }
}
