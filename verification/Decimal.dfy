/**
 Decimal notation: the digits of a number, the number that digits stand for, and the number of digits.
 */
module Decimal {
  const UINT32_RANGE := 0x1_0000_0000

  type uint32 = x: int | 0 <= x < UINT32_RANGE

  predicate IsDigit(c: char) { '0' <= c <= '9' }

  predicate AllDigits(s: string) {
    forall i :: 0 <= i < |s| ==> IsDigit(s[i])
  }

  function Digit(d: nat): (c: char)
    requires d < 10
    ensures IsDigit(c) && c as int == '0' as int + d
  {
    ('0' as int + d) as char
  }

  function Digits(n: nat): (s: string)
    ensures s != [] && AllDigits(s)
  {
    if n < 10 then [Digit(n)] else Digits(n / 10) + [Digit(n % 10)]
  }

  function Value(s: string): nat
    requires AllDigits(s)
  {
    if s == [] then 0 else 10 * Value(s[..|s| - 1]) + (s[|s| - 1] as int - '0' as int)
  }

  predicate Canonical(s: string) {
    s != [] && AllDigits(s) && (s[0] == '0' ==> |s| == 1)
  }

  /** The digits of n stand for n, and begin with a zero only if n is zero. */
  lemma {:induction false} DigitsOfValue(n: nat)
    ensures Value(Digits(n)) == n && Canonical(Digits(n)) && (Digits(n)[0] == '0' ==> n == 0)
  {
    var s := Digits(n);
    if n < 10 {
      assert s[..0] == [];
    } else {
      DigitsOfValue(n / 10);
      assert s[..|s| - 1] == Digits(n / 10);
    }
  }

  lemma {:induction false} CanonicalIsPositive(s: string)
    requires Canonical(s) && s[0] != '0'
    ensures Value(s) > 0
    decreases |s|
  {
    if |s| == 1 {
      assert Value(s[..0]) == 0;
    } else {
      CanonicalIsPositive(s[..|s| - 1]);
    }
  }

  /** There is no other notation without leading zeros. */
  lemma {:induction false} CanonicalIsUnique(s: string)
    requires Canonical(s)
    ensures s == Digits(Value(s))
    decreases |s|
  {
    var last := s[|s| - 1] as int - '0' as int;
    if |s| == 1 {
      assert Value(s[..0]) == 0;
      assert Digits(Value(s)) == [Digit(last)];
    } else {
      var front := s[..|s| - 1];
      CanonicalIsPositive(front);
      CanonicalIsUnique(front);
      assert Value(s) == 10 * Value(front) + last;
      assert s == front + [Digit(last)];
    }
  }

  function Power10(k: nat): (p: nat)
    ensures p > 0
  {
    if k == 0 then 1 else 10 * Power10(k - 1)
  }

  /** A number has k digits exactly if it lies between two powers of ten. */
  lemma {:induction false} DigitCount(n: nat)
    ensures n < Power10(|Digits(n)|) && (|Digits(n)| > 1 ==> Power10(|Digits(n)| - 1) <= n)
  {
    if n >= 10 {
      DigitCount(n / 10);
    } else {
      assert Power10(1) == 10 * Power10(0);
    }
  }

  lemma {:induction false} PowersGrow(j: nat, k: nat)
    requires j <= k
    ensures Power10(j) <= Power10(k)
    decreases k
  {
    if j < k {
      PowersGrow(j, k - 1);
    }
  }

  lemma CountIs(n: nat, k: nat)
    requires k > 0 && n < Power10(k) && (k > 1 ==> Power10(k - 1) <= n)
    ensures |Digits(n)| == k
  {
    DigitCount(n);
    var m := |Digits(n)|;
    if m < k {
      PowersGrow(m, k - 1);
    } else if k < m {
      PowersGrow(k, m - 1);
    }
  }

  lemma CountIsMonotone(m: nat, n: nat)
    requires m <= n
    ensures |Digits(m)| <= |Digits(n)|
  {
    hide Digits, Power10;
    DigitCount(m);
    DigitCount(n);
    if |Digits(n)| < |Digits(m)| {
      PowersGrow(|Digits(n)|, |Digits(m)| - 1);
    }
  }

  lemma Powers()
    ensures Power10(0) == 1 && Power10(1) == 10 && Power10(2) == 100 && Power10(3) == 1000
    ensures Power10(4) == 10000 && Power10(5) == 100000 && Power10(6) == 1000000
    ensures Power10(7) == 10000000 && Power10(8) == 100000000
    ensures Power10(9) == 1000000000 && Power10(10) == 10000000000
  {
    assert Power10(1) == 10 * Power10(0);
    assert Power10(2) == 10 * Power10(1);
    assert Power10(3) == 10 * Power10(2);
    assert Power10(4) == 10 * Power10(3);
    assert Power10(5) == 10 * Power10(4);
    assert Power10(6) == 10 * Power10(5);
    assert Power10(7) == 10 * Power10(6);
    assert Power10(8) == 10 * Power10(7);
    assert Power10(9) == 10 * Power10(8);
    assert Power10(10) == 10 * Power10(9);
  }

  /**
   The number of digits of every 32-bit number. The tenth power of ten does not fit, and the test for
   overflow does not notice it, because what is left of it is above the ninth; but no number needs an
   eleventh digit, and the next overflow is noticed.
   */
  method NumDigits(value: uint32) returns (nDigits: nat)
    ensures nDigits == |Digits(value)|
  {
    Powers();
    hide Power10, Digits;
    var base: uint32 := 10;
    nDigits := 1;
    var compare: uint32 := base;
    while compare <= value
      invariant 1 <= nDigits <= 10
      invariant compare == if nDigits < 10 then Power10(nDigits) else 1410065408
      invariant nDigits > 1 ==> Power10(nDigits - 1) <= value
      decreases 10 - nDigits
    {
      var next: uint32 := compare * base % UINT32_RANGE;
      if next < compare {
        CountIs(value, nDigits);
        return;
      }
      nDigits := nDigits + 1;
      compare := next;
    }
    CountIs(value, nDigits);
  }
}
