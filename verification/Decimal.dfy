/** Decimal digits as bytes on a serial line. */
module Decimal {

  type Byte = b: int | 0 <= b < 256

  const ZERO: Byte := 48
  const NINE: Byte := 57

  predicate IsDigits(ds: seq<Byte>) {
    forall i :: 0 <= i < |ds| ==> ZERO <= ds[i] <= NINE
  }

  /** Decimal representation without leading zeros, as Python's `str` and C's `%d`. */
  function Digits(n: nat): (ds: seq<Byte>)
    ensures ds != [] && IsDigits(ds)
  {
    if n < 10 then [ZERO + n] else Digits(n / 10) + [ZERO + n % 10]
  }

  function Number(ds: seq<Byte>): nat
    requires IsDigits(ds)
  {
    if ds == [] then 0 else 10 * Number(ds[..|ds| - 1]) + (ds[|ds| - 1] - ZERO)
  }

  /** C's `%04d` for a non-negative number: zeros in front until there are four digits. */
  function Padded(n: nat): (ds: seq<Byte>)
    ensures IsDigits(ds)
  {
    ZeroDigits(4 - |Digits(n)|) + Digits(n)
  }

  function ZeroDigits(k: int): (ds: seq<Byte>)
    ensures IsDigits(ds)
    ensures |ds| == if k <= 0 then 0 else k
  {
    if k <= 0 then [] else [ZERO] + ZeroDigits(k - 1)
  }

  lemma {:induction false} NumberOfDigits(n: nat)
    ensures Number(Digits(n)) == n
  {
    if n >= 10 {
      NumberOfDigits(n / 10);
      assert Digits(n)[..|Digits(n)| - 1] == Digits(n / 10);
    }
  }

  /** No zero in front, except for zero itself; with NumberOfDigits this determines the digits. */
  lemma {:induction false} NoLeadingZero(n: nat)
    ensures Digits(n)[0] == ZERO <==> n == 0
    ensures n < 10 <==> |Digits(n)| == 1
  {
    if n >= 10 {
      NoLeadingZero(n / 10);
    }
  }

  /** The last digit written is the number modulo ten. */
  lemma LastDigit(n: nat)
    ensures Digits(n)[|Digits(n)| - 1] == ZERO + n % 10
  {
  }

  lemma {:induction false} LeadingZero(ds: seq<Byte>)
    requires IsDigits(ds)
    ensures Number([ZERO] + ds) == Number(ds)
  {
    if ds != [] {
      LeadingZero(ds[..|ds| - 1]);
      assert ([ZERO] + ds)[..|ds|] == [ZERO] + ds[..|ds| - 1];
    }
  }

  lemma ZeroInFront(k: int, ds: seq<Byte>)
    requires k > 0
    ensures ZeroDigits(k) + ds == [ZERO] + (ZeroDigits(k - 1) + ds)
  {
    assert ZeroDigits(k) == [ZERO] + ZeroDigits(k - 1);
  }

  lemma {:induction false} LeadingZeros(k: int, ds: seq<Byte>)
    requires IsDigits(ds)
    ensures Number(ZeroDigits(k) + ds) == Number(ds)
  {
    hide Number;
    if k <= 0 {
      assert ZeroDigits(k) + ds == ds;
    } else {
      LeadingZeros(k - 1, ds);
      LeadingZero(ZeroDigits(k - 1) + ds);
      ZeroInFront(k, ds);
    }
  }

  lemma {:induction false} DigitsLength(n: nat, k: nat)
    requires n < Power10(k) && k > 0
    ensures |Digits(n)| <= k
  {
    if n >= 10 {
      DigitsLength(n / 10, k - 1);
    }
  }

  function Power10(k: nat): (p: nat)
    ensures p > 0
  {
    if k == 0 then 1 else 10 * Power10(k - 1)
  }

  /** Below 10000 the padded form is always exactly four digits, and keeps the value. */
  lemma PaddedIsFourDigits(n: nat)
    requires n < 10000
    ensures |Padded(n)| == 4
    ensures Number(Padded(n)) == n
  {
    assert Power10(2) == 100;
    assert Power10(4) == 10000;
    DigitsLength(n, 4);
    LeadingZeros(4 - |Digits(n)|, Digits(n));
    NumberOfDigits(n);
  }

  lemma MoveFactor(n: nat, d: nat, p: nat, m: nat)
    ensures 10 * (n * p + m) + d == n * (10 * p) + (10 * m + d)
  {
  }

  lemma {:induction false} NumberConcat(a: seq<Byte>, b: seq<Byte>)
    requires IsDigits(a) && IsDigits(b)
    ensures IsDigits(a + b) && Number(a + b) == Number(a) * Power10(|b|) + Number(b)
    decreases |b|
  {
    if b == [] {
      assert a + b == a;
    } else {
      var c, d := b[..|b| - 1], b[|b| - 1];
      NumberConcat(a, c);
      assert (a + b)[..|a + b| - 1] == a + c;
      MoveFactor(Number(a), d - ZERO, Power10(|c|), Number(c));
    }
  }

  lemma {:induction false} NumberBound(ds: seq<Byte>)
    requires IsDigits(ds)
    ensures Number(ds) < Power10(|ds|)
  {
    if ds != [] {
      NumberBound(ds[..|ds| - 1]);
    }
  }

  lemma MultiplesApart(n: int, q: int, p: nat)
    requires n > q
    ensures n * p >= q * p + p
  {
    var d := n - q - 1;
    assert d * p >= 0;
    assert n * p == q * p + p + d * p;
  }

  /** Only one split into a multiple of p and a remainder exists. */
  lemma SplitUnique(n: int, m: int, q: int, r: int, p: int)
    requires 0 <= m < p && 0 <= r < p && n * p + m == q * p + r
    ensures m == r
  {
    if n > q {
      MultiplesApart(n, q, p);
    } else if n < q {
      MultiplesApart(q, n, p);
    }
  }

  lemma Remainder(x: nat, n: nat, p: nat, m: nat)
    requires m < p && x == n * p + m
    ensures x % p == m
  {
    SplitUnique(n, m, x / p, x % p, p);
  }

  /** The last digits are the number modulo that power of ten. */
  lemma LastDigits(ds: seq<Byte>, n: nat)
    requires IsDigits(ds) && n <= |ds|
    ensures Number(ds[|ds| - n..]) == Number(ds) % Power10(n)
  {
    hide Number, Power10;
    var a, b := ds[..|ds| - n], ds[|ds| - n..];
    assert ds == a + b;
    NumberConcat(a, b);
    NumberBound(b);
    Remainder(Number(ds), Number(a), Power10(n), Number(b));
  }
}
