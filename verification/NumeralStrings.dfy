/**
 Numbers and the numerals that spell them, as FF1 converts them
 (bauta/masking/fpe.py): NUM and STR of NIST SP 800-38G Rev. 1, section 4.5,
 bytes being the numerals of radix 256, and exclusive or on integers.
 */
module NumeralStrings {

  predicate AreNumerals(radix: nat, numerals: seq<int>) {
    forall k :: 0 <= k < |numerals| ==> 0 <= numerals[k] < radix
  }

  function Pow(base: nat, exponent: nat): (p: nat)
    ensures base > 0 ==> p > 0
  {
    if exponent == 0 then 1 else PowStep(base, Pow(base, exponent - 1))
  }

  function PowStep(base: nat, power: nat): (p: nat)
    ensures base > 0 && power > 0 ==> p > 0
  {
    base * power
  }

  lemma PowNext(base: nat, exponent: nat)
    ensures Pow(base, exponent + 1) == base * Pow(base, exponent)
  {
  }

  lemma PowNothing(base: nat)
    ensures Pow(base, 0) == 1
  {
  }

  lemma ProductsAssociate(x: nat, y: nat, z: nat)
    ensures x * (y * z) == (x * y) * z
  {
  }

  lemma {:induction false} PowSum(base: nat, a: nat, b: nat)
    ensures Pow(base, a + b) == Pow(base, a) * Pow(base, b)
  {
    if a == 0 {
      PowNothing(base);
    } else {
      hide Pow;
      PowSum(base, a - 1, b);
      PowNext(base, a - 1);
      PowNext(base, a - 1 + b);
      ProductsAssociate(base, Pow(base, a - 1), Pow(base, b));
      assert a - 1 + b + 1 == a + b;
    }
  }

  lemma {:induction false} PowOrder(base: nat, a: nat, b: nat)
    requires base > 0 && a <= b
    ensures Pow(base, a) <= Pow(base, b)
  {
    if a < b {
      PowOrder(base, a, b - 1);
      Scaled(base, Pow(base, b - 1));
    }
  }

  lemma Scaled(base: nat, x: nat)
    requires base > 0
    ensures base * x >= x
  {
  }

  lemma {:induction false} BytesAreEightBits(bytes: nat)
    ensures Pow(256, bytes) == Pow(2, 8 * bytes)
  {
    if bytes > 0 {
      BytesAreEightBits(bytes - 1);
      PowSum(2, 8, 8 * (bytes - 1));
      assert Pow(2, 4) == 16;
      PowSum(2, 4, 4);
    }
  }

  /** NUM_radix: the number some numerals spell, the first the most significant. */
  function Number(radix: nat, numerals: seq<int>): nat
    requires AreNumerals(radix, numerals)
  {
    if numerals == [] then 0
    else NumberStep(radix, Number(radix, numerals[..|numerals| - 1]), numerals[|numerals| - 1])
  }

  function NumberStep(radix: nat, value: nat, numeral: nat): nat {
    value * radix + numeral
  }

  /** STR_radix: the `length` numerals that spell a number. */
  function Numerals(radix: nat, value: nat, length: nat): (numerals: seq<int>)
    requires radix >= 2
    ensures |numerals| == length && AreNumerals(radix, numerals)
  {
    if length == 0 then [] else Numerals(radix, value / radix, length - 1) + [value % radix]
  }

  lemma NumberStepBound(radix: nat, value: nat, numeral: nat, bound: nat)
    requires value < bound && numeral < radix
    ensures NumberStep(radix, value, numeral) < radix * bound
  {
    assert (value + 1) * radix <= bound * radix;
  }

  lemma {:induction false} NumberBound(radix: nat, numerals: seq<int>)
    requires radix >= 2 && AreNumerals(radix, numerals)
    ensures Number(radix, numerals) < Pow(radix, |numerals|)
  {
    if numerals != [] {
      var n := |numerals| - 1;
      NumberBound(radix, numerals[..n]);
      NumberStepBound(radix, Number(radix, numerals[..n]), numerals[n], Pow(radix, n));
    }
  }

  lemma MulOrder(radix: nat, x: int, y: int)
    requires x <= y
    ensures radix * x <= radix * y
  {
    assert radix * (y - x) >= 0;
  }

  lemma MulNext(radix: nat, x: int)
    ensures radix * (x + 1) == radix * x + radix
  {
  }

  lemma QuotientIsUnique(radix: nat, q: int, m: nat, q': int, m': nat)
    requires m < radix && m' < radix && radix * q + m == radix * q' + m'
    ensures q == q' && m == m'
  {
    MulNext(radix, q);
    MulNext(radix, q');
    if q < q' {
      MulOrder(radix, q + 1, q');
    } else if q' < q {
      MulOrder(radix, q' + 1, q);
    }
  }

  lemma DivModStep(radix: nat, value: nat, numeral: nat)
    requires numeral < radix
    ensures NumberStep(radix, value, numeral) / radix == value
    ensures NumberStep(radix, value, numeral) % radix == numeral
  {
    var x := NumberStep(radix, value, numeral);
    assert x == radix * (x / radix) + x % radix;
    QuotientIsUnique(radix, value, numeral, x / radix, x % radix);
  }

  lemma {:induction false} NumeralsOfNumber(radix: nat, numerals: seq<int>)
    requires radix >= 2 && AreNumerals(radix, numerals)
    ensures Numerals(radix, Number(radix, numerals), |numerals|) == numerals
  {
    if numerals != [] {
      var n := |numerals| - 1;
      NumeralsOfNumber(radix, numerals[..n]);
      DivModStep(radix, Number(radix, numerals[..n]), numerals[n]);
    }
  }

  lemma QuotientBound(radix: nat, value: nat, bound: nat)
    requires radix > 0 && value < radix * bound
    ensures value / radix < bound
    ensures NumberStep(radix, value / radix, value % radix) == value
  {
    var q := value / radix;
    assert value == radix * q + value % radix;
    if q >= bound {
      MulOrder(radix, bound, q);
    }
  }

  lemma {:induction false} NumberOfNumerals(radix: nat, value: nat, length: nat)
    requires radix >= 2 && value < Pow(radix, length)
    ensures Number(radix, Numerals(radix, value, length)) == value
  {
    if length > 0 {
      QuotientBound(radix, value, Pow(radix, length - 1));
      var front := Numerals(radix, value / radix, length - 1);
      NumberOfNumerals(radix, value / radix, length - 1);
      NumberOfAppended(radix, front, value % radix);
    }
  }

  lemma NumberOfAppended(radix: nat, front: seq<int>, last: nat)
    requires AreNumerals(radix, front) && last < radix
    ensures Number(radix, front + [last]) == NumberStep(radix, Number(radix, front), last)
  {
    assert (front + [last])[..|front|] == front;
  }

  /** The loop of FF1._numerals: the numerals filled in from the last. */
  method FillNumerals(radix: nat, value: nat, length: nat) returns (numerals: array<int>)
    requires radix >= 2
    ensures fresh(numerals) && numerals[..] == Numerals(radix, value, length)
  {
    numerals := new int[length](_ => 0);
    var left: nat, position := value, length;
    while position > 0
      invariant 0 <= position <= length
      invariant Numerals(radix, left, position) + numerals[position..] == Numerals(radix, value, length)
    {
      position := position - 1;
      ghost var after := numerals[position + 1..];
      numerals[position] := left % radix;
      assert numerals[position..] == [left % radix] + after;
      left := left / radix;
    }
    assert numerals[0..] == numerals[..];
  }

  /** The loop of FF1._number. */
  method SumNumerals(radix: nat, numerals: seq<int>) returns (value: nat)
    requires AreNumerals(radix, numerals)
    ensures value == Number(radix, numerals)
  {
    value := 0;
    for k := 0 to |numerals|
      invariant value == Number(radix, numerals[..k])
    {
      assert numerals[..k + 1][..k] == numerals[..k];
      value := value * radix + numerals[k];
    }
    assert numerals[..|numerals|] == numerals;
  }

  /** int.to_bytes(length, 'big'), which raises for a number that does not fit. */
  function ToBytes(value: nat, length: nat): (bytes: seq<int>)
    requires value < Pow(256, length)
    ensures |bytes| == length && AreNumerals(256, bytes)
  {
    Numerals(256, value, length)
  }

  /** int.bit_length. */
  function BitLength(value: nat): (bits: nat)
    ensures value < Pow(2, bits)
    ensures bits > 0 ==> Pow(2, bits - 1) <= value
  {
    if value == 0 then 0
    else
      var half := BitLength(value / 2);
      PowNext(2, half);
      if half > 0 then PowNext(2, half - 1); half + 1 else half + 1
  }

  /** Exclusive or of two integers, bit by bit. */
  function Xor(a: nat, b: nat): nat
  {
    if a == 0 && b == 0 then 0 else 2 * Xor(a / 2, b / 2) + (if a % 2 == b % 2 then 0 else 1)
  }

  lemma {:induction false} XorFits(a: nat, b: nat, bits: nat)
    requires a < Pow(2, bits) && b < Pow(2, bits)
    ensures Xor(a, b) < Pow(2, bits)
  {
    if bits > 0 && (a != 0 || b != 0) {
      XorFits(a / 2, b / 2, bits - 1);
    }
  }

  /** How many values a 16-byte block has. */
  const BLOCK_SPACE: nat := 0x1_0000_0000_0000_0000_0000_0000_0000_0000

  lemma BlockSpace()
    ensures Pow(256, 16) == BLOCK_SPACE && Pow(2, 128) == BLOCK_SPACE
  {
    assert Pow(256, 2) == 0x1_0000;
    PowSum(256, 2, 2);
    PowSum(256, 4, 4);
    PowSum(256, 8, 8);
    BytesAreEightBits(16);
  }

  /** The 16 bytes of a number below 2^128. */
  function ToBlock(value: nat): (bytes: seq<int>)
    requires value < BLOCK_SPACE
    ensures |bytes| == 16 && AreNumerals(256, bytes)
  {
    BlockSpace();
    ToBytes(value, 16)
  }

  /** The number 16 bytes spell. */
  function FromBlock(bytes: seq<int>): (value: nat)
    requires |bytes| == 16 && AreNumerals(256, bytes)
    ensures value < BLOCK_SPACE
  {
    BlockSpace();
    NumberBound(256, bytes);
    Number(256, bytes)
  }

  /** Blocks' exclusive or is a block's number again. */
  function XorBlocks(a: nat, b: nat): (r: nat)
    requires a < BLOCK_SPACE && b < BLOCK_SPACE
    ensures r < BLOCK_SPACE
  {
    BlockSpace();
    XorFits(a, b, 128);
    Xor(a, b)
  }
}
