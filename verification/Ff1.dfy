/**
 FF1 format-preserving encryption (bauta/masking/fpe.py), as NIST SP 800-38G
 Rev. 1, section 5.1, gives it. AES is an arbitrary function from block to
 block; the decryption the repository does not ship is here as a function,
 to state that encryption is one-to-one.
 */
module Ff1 {
  import opened Wrappers
  import opened NumeralStrings

  const MINIMUM_DOMAIN_SIZE := 1_000_000
  const ROUNDS := 10
  const LENGTH_LIMIT := 0x1_0000_0000

  type Block = b: seq<int> | |b| == 16 && AreNumerals(256, b) witness seq(16, _ => 0)

  /** A ValueError for too few numerals or for what is no numeral string, and
      the OverflowError of a length that does not fit its four bytes. */
  datatype Error = TooShort | NotNumerals | LengthOverflow

  /** What the steps before the rounds settle for one call. */
  datatype Settings = Settings(radix: nat, u: nat, v: nat, tweak: seq<int>, byteCount: nat, d: nat, p: seq<int>)

  predicate ValidRadix(radix: nat) {
    2 <= radix <= 65536
  }

  function ByteCount(radix: nat, v: nat): nat
    requires radix >= 1
  {
    (BitLength(Pow(radix, v) - 1) + 7) / 8
  }

  /** Step 5: P, its lengths in three and four bytes. */
  function Header(radix: nat, n: nat, tweakLength: nat): (p: seq<int>)
    requires ValidRadix(radix) && n < LENGTH_LIMIT && tweakLength < LENGTH_LIMIT
    ensures |p| == 16 && AreNumerals(256, p)
  {
    FourBytes();
    [1, 2, 1] + ToBytes(radix, 3) + [10, n / 2 % 256] + ToBytes(n, 4) + ToBytes(tweakLength, 4)
  }

  function SettingsFor(radix: nat, n: nat, tweak: seq<int>): Settings
    requires ValidRadix(radix) && n < LENGTH_LIMIT && |tweak| < LENGTH_LIMIT
  {
    var u := n / 2;
    var v := n - u;
    var byteCount := ByteCount(radix, v);
    Settings(radix, u, v, tweak, byteCount, 4 * ((byteCount + 3) / 4) + 4, Header(radix, n, |tweak|))
  }

  lemma FourBytes()
    ensures Pow(256, 3) == 0x100_0000 && Pow(256, 4) == LENGTH_LIMIT
  {
    assert Pow(256, 2) == 0x1_0000;
    PowNext(256, 2);
    PowNext(256, 3);
  }

  /** What every round relies on: the numbers fit the bytes they are written in. */
  ghost predicate ValidSettings(s: Settings) {
    && ValidRadix(s.radix)
    && s.u <= s.v <= s.u + 1 && s.u + s.v < LENGTH_LIMIT
    && AreNumerals(256, s.tweak)
    && |s.p| == 16 && AreNumerals(256, s.p)
    && Pow(s.radix, s.v) <= Pow(256, s.byteCount)
    && s.d < BLOCK_SPACE
  }

  lemma {:induction false} PowBaseOrder(a: nat, b: nat, exponent: nat)
    requires 0 < a <= b
    ensures Pow(a, exponent) <= Pow(b, exponent)
  {
    if exponent > 0 {
      PowBaseOrder(a, b, exponent - 1);
      var x, y := Pow(a, exponent - 1), Pow(b, exponent - 1);
      MulOrder(a, x, y);
      MulOrder(y, a, b);
      assert a * y == y * a && b * y == y * b;
    }
  }

  lemma {:induction false} WordsAreSixteenBits(exponent: nat)
    ensures Pow(65536, exponent) == Pow(2, 16 * exponent)
  {
    if exponent > 0 {
      WordsAreSixteenBits(exponent - 1);
      PowSum(2, 16, 16 * (exponent - 1));
      assert Pow(2, 4) == 16;
      PowSum(2, 4, 4);
      PowSum(2, 8, 8);
    }
  }

  lemma BitsNeeded(power: nat, limit: nat)
    requires 0 < power <= Pow(2, limit)
    ensures var bits := BitLength(power - 1); power <= Pow(2, bits) && bits <= limit
  {
    hide Pow, BitLength;
    var bits := BitLength(power - 1);
    if bits > limit {
      PowOrder(2, limit, bits - 1);
    }
  }

  lemma BytesSuffice(radix: nat, v: nat)
    requires ValidRadix(radix)
    ensures Pow(radix, v) <= Pow(256, ByteCount(radix, v))
    ensures ByteCount(radix, v) <= 2 * v
  {
    hide Pow, BitLength;
    PowBaseOrder(radix, 65536, v);
    WordsAreSixteenBits(v);
    BytesSufficeFor(Pow(radix, v), v);
  }

  lemma BytesSufficeFor(power: nat, v: nat)
    requires 0 < power <= Pow(2, 16 * v)
    ensures var bytes := (BitLength(power - 1) + 7) / 8; power <= Pow(256, bytes) && bytes <= 2 * v
  {
    hide Pow, BitLength;
    BitsNeeded(power, 16 * v);
    BytesHoldBits(BitLength(power - 1));
  }

  lemma BytesHoldBits(bits: nat)
    ensures Pow(2, bits) <= Pow(256, (bits + 7) / 8)
  {
    hide Pow;
    BytesAreEightBits((bits + 7) / 8);
    PowOrder(2, bits, 8 * ((bits + 7) / 8));
  }

  lemma SettingsAreValid(radix: nat, n: nat, tweak: seq<int>)
    requires ValidRadix(radix) && n < LENGTH_LIMIT && |tweak| < LENGTH_LIMIT && AreNumerals(256, tweak)
    ensures ValidSettings(SettingsFor(radix, n, tweak))
  {
    hide Pow, Header, ByteCount;
    var s := SettingsFor(radix, n, tweak);
    BytesSuffice(radix, s.v);
  }

  // ---------- The round function ----------

  function Enciphered(cipher: Block -> Block, block: nat): (r: nat)
    requires block < BLOCK_SPACE
    ensures r < BLOCK_SPACE
  {
    FromBlock(cipher(ToBlock(block)))
  }

  /** CBC-MAC over whole blocks, from `state`. */
  function Cbc(cipher: Block -> Block, state: nat, data: seq<int>): (r: nat)
    requires state < BLOCK_SPACE && AreNumerals(256, data) && |data| % 16 == 0
    ensures r < BLOCK_SPACE
    decreases |data|
  {
    if data == [] then state
    else Cbc(cipher, Enciphered(cipher, XorBlocks(state, FromBlock(data[..16]))), data[16..])
  }

  lemma CbcStep(cipher: Block -> Block, state: nat, data: seq<int>, offset: nat)
    requires state < BLOCK_SPACE && AreNumerals(256, data) && |data| % 16 == 0
    requires offset < |data| && offset % 16 == 0
    ensures offset + 16 <= |data|
    ensures FromBlock(data[offset..offset + 16]) == Number(256, data[offset..offset + 16])
    ensures Cbc(cipher, state, data[offset..]) ==
            Cbc(cipher, Enciphered(cipher, XorBlocks(state, FromBlock(data[offset..offset + 16]))), data[offset + 16..])
  {
    hide Enciphered, XorBlocks, Number;
    var left := data[offset..];
    assert left[..16] == data[offset..offset + 16];
    assert left[16..] == data[offset + 16..];
  }

  lemma CbcEnd(cipher: Block -> Block, state: nat)
    requires state < BLOCK_SPACE
    ensures Cbc(cipher, state, []) == state
  {
  }

  /** Step 6.iii: further blocks until there are `d` bytes. */
  function Expanded(cipher: Block -> Block, r: nat, s: seq<int>, d: nat): (e: seq<int>)
    requires r < BLOCK_SPACE && d < BLOCK_SPACE
    requires AreNumerals(256, s) && |s| % 16 == 0
    ensures AreNumerals(256, e) && |e| >= d
    decreases d - |s|
  {
    if |s| >= d then s else Expanded(cipher, r, s + cipher(ToBlock(XorBlocks(r, |s| / 16))), d)
  }

  /** The tweak and the zeros that make the round's input whole blocks. */
  function Padded(tweak: seq<int>, byteCount: nat): (r: seq<int>)
    requires AreNumerals(256, tweak)
    ensures AreNumerals(256, r) && (|r| + 1 + byteCount) % 16 == 0
  {
    tweak + seq((-|tweak| - byteCount - 1) % 16, _ => 0)
  }

  /** Step 6.i: what the round gives the pseudorandom function, after P. */
  function RoundInput(s: Settings, i: nat, b: seq<int>): (q: seq<int>)
    requires ValidSettings(s) && i < ROUNDS
    requires |b| <= s.v && AreNumerals(s.radix, b)
    ensures AreNumerals(256, q)
    ensures (|s.p| + |q|) % 16 == 0
  {
    NumberFits(s, b);
    Padded(s.tweak, s.byteCount) + [i] + ToBytes(Number(s.radix, b), s.byteCount)
  }

  /** NUM(b) fits the bytes it is written in. */
  lemma NumberFits(s: Settings, b: seq<int>)
    requires ValidSettings(s)
    requires |b| <= s.v && AreNumerals(s.radix, b)
    ensures Number(s.radix, b) < Pow(256, s.byteCount)
  {
    NumberBound(s.radix, b);
    PowOrder(s.radix, |b|, s.v);
  }

  /** Steps 6.i to 6.iv: y, from the half the round leaves as it is. */
  function RoundNumber(cipher: Block -> Block, s: Settings, i: nat, b: seq<int>): nat
    requires ValidSettings(s) && i < ROUNDS
    requires |b| <= s.v && AreNumerals(s.radix, b)
  {
    var r := Cbc(cipher, 0, s.p + RoundInput(s, i, b));
    Number(256, Expanded(cipher, r, ToBlock(r), s.d)[..s.d])
  }

  datatype Halves = Halves(a: seq<int>, b: seq<int>)

  /** The round function of one call: y of the round, for a half it can be given. */
  function RoundFunction(cipher: Block -> Block, s: Settings): (nat, seq<int>) -> nat
    requires ValidSettings(s)
  {
    (i: nat, b: seq<int>) =>
      if i < ROUNDS && |b| <= s.v && AreNumerals(s.radix, b) then RoundNumber(cipher, s, i, b) else 0
  }

  predicate ValidHalves(radix: nat, h: Halves) {
    AreNumerals(radix, h.a) && AreNumerals(radix, h.b)
  }

  /** Steps 6.vi to 6.ix: the first half masked with `y`, and the halves exchanged. */
  function Mixed(radix: nat, h: Halves, y: nat): (r: Halves)
    requires radix >= 2 && ValidHalves(radix, h)
    ensures r.a == h.b && |r.b| == |h.a| && AreNumerals(radix, r.b)
  {
    Halves(h.b, Numerals(radix, (Number(radix, h.a) + y) % Pow(radix, |h.a|), |h.a|))
  }

  /** The standard's decryption step, which the repository leaves out. */
  function Unmixed(radix: nat, h: Halves, y: nat): (r: Halves)
    requires radix >= 2 && ValidHalves(radix, h)
    ensures r.b == h.a && |r.a| == |h.b| && AreNumerals(radix, r.a)
  {
    Halves(Numerals(radix, (Number(radix, h.b) - y) % Pow(radix, |h.b|), |h.b|), h.a)
  }

  /** Step 6, the first `i` rounds, for any round function: the half a round
      leaves as it is decides how it masks the other. */
  function Rounds(radix: nat, f: (nat, seq<int>) -> nat, i: nat, h: Halves): (r: Halves)
    requires radix >= 2 && ValidHalves(radix, h)
    ensures ValidHalves(radix, r)
    ensures if i % 2 == 0 then |r.a| == |h.a| && |r.b| == |h.b| else |r.a| == |h.b| && |r.b| == |h.a|
  {
    if i == 0 then h
    else
      var before := Rounds(radix, f, i - 1, h);
      Mixed(radix, before, f(i - 1, before.b))
  }

  /** The standard's decryption: the rounds undone, the last first. */
  function UndoRounds(radix: nat, f: (nat, seq<int>) -> nat, i: nat, h: Halves): (r: Halves)
    requires radix >= 2 && ValidHalves(radix, h)
    ensures ValidHalves(radix, r)
    ensures if i % 2 == 0 then |r.a| == |h.a| && |r.b| == |h.b| else |r.a| == |h.b| && |r.b| == |h.a|
  {
    if i == 0 then h else UndoRounds(radix, f, i - 1, Unmixed(radix, h, f(i - 1, h.a)))
  }

  lemma MultipleRemains(x: int, modulus: nat, times: int)
    requires modulus > 0 && 0 <= x < modulus
    ensures (x + modulus * times) % modulus == x
  {
    var sum := x + modulus * times;
    assert sum == modulus * (sum / modulus) + sum % modulus;
    MulNext(modulus, times);
    MulNext(modulus, sum / modulus);
    if sum / modulus < times {
      MulOrder(modulus, sum / modulus + 1, times);
    } else if times < sum / modulus {
      MulOrder(modulus, times + 1, sum / modulus);
    }
  }

  lemma AddedThenTaken(x: int, y: int, modulus: nat)
    requires modulus > 0 && 0 <= x < modulus
    ensures ((x + y) % modulus - y) % modulus == x
    ensures ((x - y) % modulus + y) % modulus == x
  {
    MultipleRemains(x, modulus, -((x + y) / modulus));
    assert (x + y) == modulus * ((x + y) / modulus) + (x + y) % modulus;
    assert modulus * -((x + y) / modulus) == -(modulus * ((x + y) / modulus));
    MultipleRemains(x, modulus, -((x - y) / modulus));
    assert (x - y) == modulus * ((x - y) / modulus) + (x - y) % modulus;
    assert modulus * -((x - y) / modulus) == -(modulus * ((x - y) / modulus));
  }

  lemma MixingUndone(radix: nat, h: Halves, y: nat)
    requires radix >= 2 && ValidHalves(radix, h)
    ensures Unmixed(radix, Mixed(radix, h, y), y) == h
  {
    hide Pow, Number, Numerals;
    var modulus, x := Pow(radix, |h.a|), Number(radix, h.a);
    NumberBound(radix, h.a);
    AddedThenTaken(x, y, modulus);
    NumberOfNumerals(radix, (x + y) % modulus, |h.a|);
    NumeralsOfNumber(radix, h.a);
  }

  lemma MixingRedone(radix: nat, h: Halves, y: nat)
    requires radix >= 2 && ValidHalves(radix, h)
    ensures Mixed(radix, Unmixed(radix, h, y), y) == h
  {
    hide Pow, Number, Numerals;
    var modulus, x := Pow(radix, |h.b|), Number(radix, h.b);
    NumberBound(radix, h.b);
    AddedThenTaken(x, y, modulus);
    NumberOfNumerals(radix, (x - y) % modulus, |h.b|);
    NumeralsOfNumber(radix, h.b);
  }

  lemma {:induction false} RoundsUndone(radix: nat, f: (nat, seq<int>) -> nat, i: nat, h: Halves)
    requires radix >= 2 && ValidHalves(radix, h)
    ensures UndoRounds(radix, f, i, Rounds(radix, f, i, h)) == h
  {
    hide Mixed, Unmixed;
    if i > 0 {
      var before := Rounds(radix, f, i - 1, h);
      MixingUndone(radix, before, f(i - 1, before.b));
      RoundsUndone(radix, f, i - 1, h);
    }
  }

  lemma {:induction false} RoundsRedone(radix: nat, f: (nat, seq<int>) -> nat, i: nat, h: Halves)
    requires radix >= 2 && ValidHalves(radix, h)
    ensures Rounds(radix, f, i, UndoRounds(radix, f, i, h)) == h
  {
    hide Mixed, Unmixed;
    if i > 0 {
      MixingRedone(radix, h, f(i - 1, h.a));
      RoundsRedone(radix, f, i - 1, Unmixed(radix, h, f(i - 1, h.a)));
    }
  }

  // ---------- Encryption and the inverse it has ----------

  /** What one key and radix can encrypt under a tweak: numerals long enough, with lengths that fit four bytes. */
  ghost predicate Encryptable(radix: nat, minimum: nat, tweak: seq<int>, numerals: seq<int>) {
    && ValidRadix(radix)
    && minimum <= |numerals| < LENGTH_LIMIT && |tweak| < LENGTH_LIMIT
    && AreNumerals(radix, numerals) && AreNumerals(256, tweak)
  }

  ghost function Encrypted(cipher: Block -> Block, radix: nat, tweak: seq<int>, numerals: seq<int>): (r: seq<int>)
    requires Encryptable(radix, 0, tweak, numerals)
    ensures Encryptable(radix, 0, tweak, r) && |r| == |numerals|
  {
    var s := SettingsFor(radix, |numerals|, tweak);
    SettingsAreValid(radix, |numerals|, tweak);
    var h := Rounds(radix, RoundFunction(cipher, s), ROUNDS, Halves(numerals[..s.u], numerals[s.u..]));
    h.a + h.b
  }

  ghost function Decrypted(cipher: Block -> Block, radix: nat, tweak: seq<int>, numerals: seq<int>): (r: seq<int>)
    requires Encryptable(radix, 0, tweak, numerals)
    ensures Encryptable(radix, 0, tweak, r) && |r| == |numerals|
  {
    var s := SettingsFor(radix, |numerals|, tweak);
    SettingsAreValid(radix, |numerals|, tweak);
    var h := UndoRounds(radix, RoundFunction(cipher, s), ROUNDS, Halves(numerals[..s.u], numerals[s.u..]));
    h.a + h.b
  }

  /** For every radix, length, tweak and block function, encryption is a
      permutation of the numeral strings of that length. */
  lemma EncryptionIsAPermutation(cipher: Block -> Block, radix: nat, tweak: seq<int>, numerals: seq<int>)
    requires Encryptable(radix, 0, tweak, numerals)
    ensures Decrypted(cipher, radix, tweak, Encrypted(cipher, radix, tweak, numerals)) == numerals
    ensures Encrypted(cipher, radix, tweak, Decrypted(cipher, radix, tweak, numerals)) == numerals
  {
    var s := SettingsFor(radix, |numerals|, tweak);
    SettingsAreValid(radix, |numerals|, tweak);
    var h := Halves(numerals[..s.u], numerals[s.u..]);
    var f := RoundFunction(cipher, s);
    RoundsUndone(radix, f, ROUNDS, h);
    RoundsRedone(radix, f, ROUNDS, h);
    var forth, back := Rounds(radix, f, ROUNDS, h), UndoRounds(radix, f, ROUNDS, h);
    assert (forth.a + forth.b)[..s.u] == forth.a && (forth.a + forth.b)[s.u..] == forth.b;
    assert (back.a + back.b)[..s.u] == back.a && (back.a + back.b)[s.u..] == back.b;
  }

  /** minimumLength: the fewest numerals whose strings number a million. */
  method MinimumLength(radix: nat) returns (length: nat)
    requires radix >= 2
    ensures length >= 1 && Pow(radix, length) >= MINIMUM_DOMAIN_SIZE
    ensures forall shorter: nat :: 1 <= shorter < length ==> Pow(radix, shorter) < MINIMUM_DOMAIN_SIZE
  {
    length := 1;
    while Pow(radix, length) < MINIMUM_DOMAIN_SIZE
      invariant length >= 1
      invariant forall shorter: nat :: 1 <= shorter < length ==> Pow(radix, shorter) < MINIMUM_DOMAIN_SIZE
      decreases MINIMUM_DOMAIN_SIZE - Pow(radix, length)
    {
      MulOrder(Pow(radix, length), 2, radix);
      length := length + 1;
    }
  }

  class FF1 {
    const cipher: Block -> Block
    const radix: nat
    const minimumLength: nat

    ghost predicate Valid() {
      ValidRadix(radix)
    }

    constructor (cipher: Block -> Block, radix: nat)
      requires ValidRadix(radix)
      ensures Valid() && this.cipher == cipher && this.radix == radix
      ensures minimumLength >= 1 && Pow(radix, minimumLength) >= MINIMUM_DOMAIN_SIZE
      ensures forall shorter: nat :: 1 <= shorter < minimumLength ==> Pow(radix, shorter) < MINIMUM_DOMAIN_SIZE
    {
      this.cipher := cipher;
      this.radix := radix;
      var length := MinimumLength(radix);
      minimumLength := length;
    }

    /** _prf: a block at a time. */
    method Prf(data: seq<int>) returns (r: nat)
      requires AreNumerals(256, data) && |data| % 16 == 0
      ensures r < BLOCK_SPACE && r == Cbc(cipher, 0, data)
    {
      hide Cbc, Enciphered, XorBlocks, FromBlock, Number;
      r := 0;
      var offset := 0;
      assert data[0..] == data;
      while offset < |data|
        invariant 0 <= offset <= |data| && offset % 16 == 0
        invariant r < BLOCK_SPACE
        invariant Cbc(cipher, r, data[offset..]) == Cbc(cipher, 0, data)
      {
        CbcStep(cipher, r, data, offset);
        var block := SumNumerals(256, data[offset..offset + 16]);
        r := Enciphered(cipher, XorBlocks(r, block));
        offset := offset + 16;
      }
      CbcEnd(cipher, r);
    }

    /** Steps 6.i to 6.iv. */
    method Whiten(s: Settings, i: nat, b: seq<int>) returns (y: nat)
      requires ValidSettings(s) && i < ROUNDS
      requires |b| <= s.v && AreNumerals(s.radix, b)
      ensures y == RoundNumber(cipher, s, i, b)
    {
      var r := Prf(s.p + RoundInput(s, i, b));
      var bytes := Expand(r, s.d);
      y := SumNumerals(256, bytes[..s.d]);
    }

    method Expand(r: nat, d: nat) returns (bytes: seq<int>)
      requires r < BLOCK_SPACE && d < BLOCK_SPACE
      ensures bytes == Expanded(cipher, r, ToBlock(r), d)
    {
      hide XorBlocks, ToBlock;
      bytes := ToBlock(r);
      var j := 1;
      while |bytes| < d
        invariant |bytes| == 16 * j && AreNumerals(256, bytes)
        invariant Expanded(cipher, r, bytes, d) == Expanded(cipher, r, ToBlock(r), d)
        decreases d - |bytes|
      {
        bytes := bytes + cipher(ToBlock(XorBlocks(r, j)));
        j := j + 1;
      }
    }

    /** One round: steps 6.i to 6.ix. */
    method RunRound(s: Settings, i: nat, h: Halves) returns (r: Halves)
      requires Valid() && ValidSettings(s) && s.radix == radix && i < ROUNDS
      requires ValidHalves(radix, h) && |h.a| == (if i % 2 == 0 then s.u else s.v) && |h.b| <= s.v
      ensures r == Mixed(radix, h, RoundFunction(cipher, s)(i, h.b))
    {
      var y := Whiten(s, i, h.b);
      var m := if i % 2 == 0 then s.u else s.v;
      var value := SumNumerals(radix, h.a);
      var c := (value + y) % Pow(radix, m);
      var filled := FillNumerals(radix, c, m);
      r := Halves(h.b, filled[..]);
    }

    /** Step 6: the ten rounds. */
    method RunRounds(s: Settings, start: Halves) returns (end: Halves)
      requires Valid() && ValidSettings(s) && s.radix == radix
      requires ValidHalves(radix, start) && |start.a| == s.u && |start.b| == s.v
      ensures end == Rounds(radix, RoundFunction(cipher, s), ROUNDS, start)
    {
      end := start;
      ghost var f := RoundFunction(cipher, s);
      var i := 0;
      while i < ROUNDS
        invariant 0 <= i <= ROUNDS
        invariant end == Rounds(radix, f, i, start)
      {
        end := RunRound(s, i, end);
        i := i + 1;
      }
    }

    method Encrypt(numerals: seq<int>, tweak: seq<int>) returns (result: Result<seq<int>, Error>)
      requires Valid() && AreNumerals(256, tweak)
      ensures result.Ok? <==> Encryptable(radix, minimumLength, tweak, numerals)
      ensures result.Ok? ==> result.value == Encrypted(cipher, radix, tweak, numerals)
      ensures result == Err(TooShort) <==> |numerals| < minimumLength
      ensures result == Err(LengthOverflow) <==>
                && minimumLength <= |numerals| <= LENGTH_LIMIT && AreNumerals(radix, numerals)
                && (|numerals| == LENGTH_LIMIT || |tweak| >= LENGTH_LIMIT)
    {
      var n := |numerals|;
      if n < minimumLength {
        return Err(TooShort);
      }
      if n > LENGTH_LIMIT || !AreNumerals(radix, numerals) {
        return Err(NotNumerals);
      }
      if n >= LENGTH_LIMIT || |tweak| >= LENGTH_LIMIT {
        return Err(LengthOverflow);
      }
      var s := SettingsFor(radix, n, tweak);
      SettingsAreValid(radix, n, tweak);
      var h := RunRounds(s, Halves(numerals[..s.u], numerals[s.u..]));
      return Ok(h.a + h.b);
    }
  }
}
