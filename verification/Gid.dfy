/**
  The generation number in a global transaction identifier (src/commit.c): printed in decimal and
  scanned in hexadecimal, into 64 bits.  The two agree for single digits, and for the greatest number,
  where the scan saturates; the model's transactions carry the number itself.
 */
module Gid {

  type Digit = d: nat | d < 10

  /** UINT64_FORMAT: the decimal digits of n, the most significant first. */
  function Decimal(n: nat): (ds: seq<Digit>)
    ensures |ds| > 0
  {
    if n < 10 then [n] else Decimal(n / 10) + [n % 10]
  }

  /** The number that digits stand for in a base. */
  function Value(ds: seq<Digit>, base: nat): nat {
    if ds == [] then 0 else Value(ds[..|ds| - 1], base) * base + ds[|ds| - 1]
  }

  /** A 64-bit number. */
  const MAX_NUM: nat := 0xFFFF_FFFF_FFFF_FFFF

  /** MtmGenerateGid's last field, read back by MtmGidParseGenNum; a value that does not fit is scanned as the greatest one. */
  function ParsedGenNum(n: nat): nat {
    var v := Value(Decimal(n), 16);
    if v <= MAX_NUM then v else MAX_NUM
  }

  lemma ValueOfOne(d: Digit, base: nat)
    ensures Value([d], base) == d
  {
    assert [d][..0] == [];
  }

  lemma ValueOfMore(ds: seq<Digit>, d: Digit, base: nat)
    ensures Value(ds + [d], base) == Value(ds, base) * base + d
  {
    assert (ds + [d])[..|ds|] == ds;
  }

  /** Scanned in decimal, the number would come back. */
  lemma {:induction false} DecimalRoundTrip(n: nat)
    ensures Value(Decimal(n), 10) == n
  {
    if n < 10 {
      ValueOfOne(n, 10);
    } else {
      DecimalRoundTrip(n / 10);
      ValueOfMore(Decimal(n / 10), n % 10, 10);
    }
  }

  /** Scanned in hexadecimal, it never comes back smaller, and bigger from two digits on. */
  lemma {:induction false} HexAtLeast(n: nat)
    ensures Value(Decimal(n), 16) >= n && (n >= 10 ==> Value(Decimal(n), 16) > n)
  {
    if n < 10 {
      ValueOfOne(n, 16);
    } else {
      HexAtLeast(n / 10);
      ValueOfMore(Decimal(n / 10), n % 10, 16);
    }
  }

  /** The number comes back if and only if it is a single digit or the greatest number. */
  lemma ParsedIffDigit(n: nat)
    requires n <= MAX_NUM
    ensures ParsedGenNum(n) == n <==> n <= 9 || n == MAX_NUM
  {
    HexAtLeast(n);
    if n <= 9 {
      ValueOfOne(n, 16);
    }
  }

  /** The first generation whose number is misread. */
  lemma TenIsReadAsSixteen()
    ensures ParsedGenNum(10) == 16
  {
    assert Decimal(10) == [1] + [0];
    ValueOfOne(1, 16);
    ValueOfMore([1], 0, 16);
  }
}
