/**
 The mathematics of the chunkserver's CRC-32: a bit-serial reference, and the linear
 algebra that makes table-driven and combined checksums agree with it. Everything is
 stated for an arbitrary polynomial.
 */
module CrcSpec {
  import opened Words

  // ----- The reference: a shift register that eats one message bit at a time.

  function FeedBit(poly: Word, c: Word, bit: bool): Word {
    if c[0] != bit then Xor(poly, Shr(c, 1)) else Shr(c, 1)
  }

  function FeedBits(poly: Word, c: Word, bits: seq<bool>): Word
    decreases |bits|
  {
    if bits == [] then c else FeedBits(poly, FeedBit(poly, c, bits[0]), bits[1..])
  }

  /** The message as a bit string: bytes in order, least significant bit of each byte first. */
  function MessageBits(data: seq<Byte>): seq<bool> {
    if data == [] then [] else Digits(data[0], 8) + MessageBits(data[1..])
  }

  /** CRC-32 of `data`, continuing from the checksum `seed`, computed bit by bit. */
  function Crc32(poly: Word, seed: Word, data: seq<Byte>): Word {
    Xor(FeedBits(poly, Xor(seed, ONES), MessageBits(data)), ONES)
  }

  function Zeros(n: nat): (z: seq<Byte>)
    ensures |z| == n
  {
    seq(n, i => 0)
  }

  function XorBytes(a: seq<Byte>, b: seq<Byte>): (x: seq<Byte>)
    requires |a| == |b|
    ensures |x| == |a|
  {
    seq(|a|, i requires 0 <= i < |a| => XorByte(a[i], b[i]))
  }

  // ----- Feeding zero bits is a linear map.

  /** One turn of the register: `(c & 1) ? (poly ^ (c >> 1)) : (c >> 1)`. */
  function Step(poly: Word, c: Word): Word {
    if c[0] then Xor(poly, Shr(c, 1)) else Shr(c, 1)
  }

  /** The register after `n` zero bits. */
  function Advance(poly: Word, c: Word, n: nat): Word
    decreases n, |c|
  {
    if n == 0 then c else Advance(poly, Step(poly, c), n - 1)
  }

  lemma StepLinear(poly: Word, a: Word, b: Word)
    ensures Step(poly, Xor(a, b)) == Xor(Step(poly, a), Step(poly, b))
  {
  }

  lemma {:induction false} AdvanceLinear(poly: Word, a: Word, b: Word, n: nat)
    ensures Advance(poly, Xor(a, b), n) == Xor(Advance(poly, a, n), Advance(poly, b, n))
    decreases n
  {
    if n != 0 {
      StepLinear(poly, a, b);
      AdvanceLinear(poly, Step(poly, a), Step(poly, b), n - 1);
    }
  }

  lemma {:induction false} AdvanceAdd(poly: Word, c: Word, m: nat, n: nat)
    ensures Advance(poly, c, m + n) == Advance(poly, Advance(poly, c, m), n)
    decreases m
  {
    hide Step;
    if m != 0 {
      AdvanceAdd(poly, Step(poly, c), m - 1, n);
    }
  }

  lemma {:induction false} AdvanceZero(poly: Word, n: nat)
    ensures Advance(poly, ZERO, n) == ZERO
    decreases n
  {
    if n != 0 {
      assert Step(poly, ZERO) == ZERO;
      AdvanceZero(poly, n - 1);
    }
  }

  /** While only zero bits are shifted out, the register is shifted and nothing else. */
  lemma {:induction false} AdvanceShl(poly: Word, c: Word, n: nat)
    requires forall i :: 0 <= i < WIDTH && i + n >= WIDTH ==> !c[i]
    ensures Advance(poly, Shl(c, n), n) == c
    decreases n
  {
    if n == 0 {
      assert Shl(c, 0) == c;
    } else {
      assert Step(poly, Shl(c, n)) == Shl(c, n - 1);
      AdvanceShl(poly, c, n - 1);
    }
  }

  // ----- A byte at a time.

  function FeedByte(poly: Word, c: Word, b: Byte): Word {
    Advance(poly, Xor(c, FromByte(b)), 8)
  }

  function FeedBytes(poly: Word, c: Word, data: seq<Byte>): Word
    decreases |data|
  {
    if data == [] then c else FeedBytes(poly, FeedByte(poly, c, data[0]), data[1..])
  }

  /** `bits` in the low end of a word. */
  function Embed(bits: seq<bool>): (w: Word)
    requires |bits| <= WIDTH
  {
    bits + seq(WIDTH - |bits|, i => false)
  }

  /** Feeding message bits is the same as first adding them to the register. */
  lemma {:induction false} FeedBitsIsAdvance(poly: Word, c: Word, bits: seq<bool>)
    requires |bits| <= WIDTH
    ensures FeedBits(poly, c, bits) == Advance(poly, Xor(c, Embed(bits)), |bits|)
    decreases |bits|
  {
    if bits == [] {
      assert Xor(c, Embed(bits)) == c;
    } else {
      assert Step(poly, Xor(c, Embed(bits))) == Xor(FeedBit(poly, c, bits[0]), Embed(bits[1..]));
      FeedBitsIsAdvance(poly, FeedBit(poly, c, bits[0]), bits[1..]);
    }
  }

  lemma {:induction false} FeedBitsConcat(poly: Word, c: Word, a: seq<bool>, b: seq<bool>)
    ensures FeedBits(poly, c, a + b) == FeedBits(poly, FeedBits(poly, c, a), b)
    decreases |a|
  {
    if a == [] {
      assert a + b == b;
    } else {
      assert (a + b)[1..] == a[1..] + b;
      FeedBitsConcat(poly, FeedBit(poly, c, a[0]), a[1..], b);
    }
  }

  /** Byte-wise feeding is bit-serial feeding of the same message. */
  lemma {:induction false} FeedBytesIsBitSerial(poly: Word, c: Word, data: seq<Byte>)
    ensures FeedBytes(poly, c, data) == FeedBits(poly, c, MessageBits(data))
    decreases |data|
  {
    if data != [] {
      var bits := Digits(data[0], 8);
      FeedBitsConcat(poly, c, bits, MessageBits(data[1..]));
      FeedBitsIsAdvance(poly, c, bits);
      assert Embed(bits) == FromByte(data[0]);
      FeedBytesIsBitSerial(poly, FeedByte(poly, c, data[0]), data[1..]);
    }
  }

  lemma {:induction false} FeedBytesConcat(poly: Word, c: Word, a: seq<Byte>, b: seq<Byte>)
    ensures FeedBytes(poly, c, a + b) == FeedBytes(poly, FeedBytes(poly, c, a), b)
    decreases |a|
  {
    if a == [] {
      assert a + b == b;
    } else {
      assert (a + b)[1..] == a[1..] + b;
      FeedBytesConcat(poly, FeedByte(poly, c, a[0]), a[1..], b);
    }
  }

  /** The register is affine in its start: the start only adds its own zero-fed image. */
  lemma {:induction false} FeedBytesAffine(poly: Word, c: Word, d: Word, data: seq<Byte>)
    ensures FeedBytes(poly, Xor(c, d), data) == Xor(Advance(poly, c, 8 * |data|), FeedBytes(poly, d, data))
    decreases |data|
  {
    hide Step, Xor;
    if data != [] {
      var b := FromByte(data[0]);
      XorAssoc(c, d, b);
      AdvanceLinear(poly, c, Xor(d, b), 8);
      FeedBytesAffine(poly, Advance(poly, c, 8), FeedByte(poly, d, data[0]), data[1..]);
      AdvanceAdd(poly, c, 8, 8 * |data[1..]|);
    }
  }

  lemma {:induction false} FeedBytesLinear(poly: Word, c: Word, d: Word, a: seq<Byte>, b: seq<Byte>)
    requires |a| == |b|
    ensures FeedBytes(poly, Xor(c, d), XorBytes(a, b)) == Xor(FeedBytes(poly, c, a), FeedBytes(poly, d, b))
    decreases |a|
  {
    hide Step;
    if a != [] {
      var x := XorBytes(a, b);
      FromByteXorByte(a[0], b[0]);
      XorSwap(c, d, FromByte(a[0]), FromByte(b[0]));
      AdvanceLinear(poly, Xor(c, FromByte(a[0])), Xor(d, FromByte(b[0])), 8);
      assert x[1..] == XorBytes(a[1..], b[1..]);
      FeedBytesLinear(poly, FeedByte(poly, c, a[0]), FeedByte(poly, d, b[0]), a[1..], b[1..]);
    }
  }

  lemma {:induction false} FeedZeros(poly: Word, c: Word, n: nat)
    ensures FeedBytes(poly, c, Zeros(n)) == Advance(poly, c, 8 * n)
    decreases n
  {
    hide Step;
    if n != 0 {
      assert Digits(0, 8) == seq(8, i => false);
      assert Xor(c, FromByte(0)) == c;
      assert Zeros(n)[1..] == Zeros(n - 1);
      FeedZeros(poly, Advance(poly, c, 8), n - 1);
      AdvanceAdd(poly, c, 8, 8 * (n - 1));
    }
  }

  /** The CRC in byte form; the definition used by every proof below. */
  lemma Crc32ByBytes(poly: Word, seed: Word, data: seq<Byte>)
    ensures Crc32(poly, seed, data) == Xor(FeedBytes(poly, Xor(seed, ONES), data), ONES)
  {
    FeedBytesIsBitSerial(poly, Xor(seed, ONES), data);
  }

  // ----- What the checksum operations mean.

  /** `mycrc32_combine`: advance the first checksum over the second string's length, then add. */
  function Combine(poly: Word, crc1: Word, crc2: Word, leng2: nat): Word {
    Xor(Advance(poly, crc1, 8 * leng2), crc2)
  }

  /** `mycrc32_zeroblock` */
  function ZeroBlock(poly: Word, crc: Word, zeros: nat): Word {
    Combine(poly, Xor(crc, ONES), ONES, zeros)
  }

  /** `mycrc32_zeroexpanded` */
  function ZeroExpanded(poly: Word, crc: Word, block: seq<Byte>, zeros: nat): Word {
    ZeroBlock(poly, Crc32(poly, crc, block), zeros)
  }

  /** `mycrc32_xorblocks` */
  function XorBlocks(poly: Word, crc: Word, crcblock1: Word, crcblock2: Word, leng: nat): Word {
    Xor(Xor(crcblock1, crcblock2), ZeroBlock(poly, crc, leng))
  }

  /** A checksum continued over a second string is the checksum of the concatenation. */
  lemma Crc32Continues(poly: Word, seed: Word, a: seq<Byte>, b: seq<Byte>)
    ensures Crc32(poly, Crc32(poly, seed, a), b) == Crc32(poly, seed, a + b)
  {
    Crc32ByBytes(poly, seed, a);
    Crc32ByBytes(poly, Crc32(poly, seed, a), b);
    Crc32ByBytes(poly, seed, a + b);
    FeedBytesConcat(poly, Xor(seed, ONES), a, b);
    var r := FeedBytes(poly, Xor(seed, ONES), a);
    assert Xor(Xor(r, ONES), ONES) == r;
  }

  /** Combining the checksums of two strings gives the checksum of their concatenation. */
  lemma CombineIsConcat(poly: Word, seed: Word, a: seq<Byte>, b: seq<Byte>)
    ensures Combine(poly, Crc32(poly, seed, a), Crc32(poly, ZERO, b), |b|) == Crc32(poly, seed, a + b)
  {
    var r := FeedBytes(poly, Xor(seed, ONES), a);
    Crc32ByBytes(poly, seed, a);
    Crc32ByBytes(poly, ZERO, b);
    Crc32ByBytes(poly, seed, a + b);
    FeedBytesConcat(poly, Xor(seed, ONES), a, b);
    XorZero(ONES);
    var n := 8 * |b|;
    var z := FeedBytes(poly, ZERO, b);
    AdvanceLinear(poly, r, ONES, n);
    FeedBytesAffine(poly, r, ZERO, b);
    FeedBytesAffine(poly, ONES, ZERO, b);
    XorZero(r);
    CancelMiddle(Advance(poly, r, n), Advance(poly, ONES, n), z);
  }

  lemma CancelMiddle(r: Word, s: Word, z: Word)
    ensures Xor(Xor(r, s), Xor(Xor(s, z), ONES)) == Xor(Xor(r, z), ONES)
  {
  }

  /** `mycrc32_zeroblock(crc(a), n)` is the checksum of `a` followed by `n` zero bytes. */
  lemma ZeroBlockIsZeroExtension(poly: Word, seed: Word, a: seq<Byte>, n: nat)
    ensures ZeroBlock(poly, Crc32(poly, seed, a), n) == Crc32(poly, seed, a + Zeros(n))
    ensures ZeroBlock(poly, seed, n) == Crc32(poly, seed, Zeros(n))
  {
    ZeroBlockFromSeed(poly, seed, n);
    ZeroBlockFromSeed(poly, Crc32(poly, seed, a), n);
    Crc32Continues(poly, seed, a, Zeros(n));
  }

  lemma ZeroBlockFromSeed(poly: Word, seed: Word, n: nat)
    ensures ZeroBlock(poly, seed, n) == Crc32(poly, seed, Zeros(n))
  {
    Crc32ByBytes(poly, seed, Zeros(n));
    FeedZeros(poly, Xor(seed, ONES), n);
  }

  /** `mycrc32_xorblocks` of two checksums is the checksum of the xored blocks. */
  lemma XorBlocksIsXor(poly: Word, seed: Word, a: seq<Byte>, b: seq<Byte>)
    requires |a| == |b|
    ensures XorBlocks(poly, seed, Crc32(poly, seed, a), Crc32(poly, seed, b), |a|) == Crc32(poly, seed, XorBytes(a, b))
  {
    var s := Xor(seed, ONES);
    Crc32ByBytes(poly, seed, a);
    Crc32ByBytes(poly, seed, b);
    Crc32ByBytes(poly, seed, XorBytes(a, b));
    XorZero(s);
    FeedBytesLinear(poly, s, s, a, b);
    var x := FeedBytes(poly, ZERO, XorBytes(a, b));
    FeedBytesAffine(poly, s, ZERO, XorBytes(a, b));
    CancelSeeds(FeedBytes(poly, s, a), FeedBytes(poly, s, b), Advance(poly, s, 8 * |a|));
  }

  lemma CancelSeeds(p: Word, q: Word, z: Word)
    ensures Xor(Xor(Xor(p, ONES), Xor(q, ONES)), Xor(z, ONES)) == Xor(Xor(z, Xor(p, q)), ONES)
  {
  }

  // ----- The checksum of 2^k zero bytes is not zero.

  /** `Step + 1` as a linear map. */
  function Turn(poly: Word, c: Word): Word {
    Xor(Step(poly, c), c)
  }

  function Turns(poly: Word, c: Word, n: nat): Word
    decreases n, |c|
  {
    if n == 0 then c else Turns(poly, Turn(poly, c), n - 1)
  }

  lemma {:induction false} TurnsAdd(poly: Word, c: Word, m: nat, n: nat)
    ensures Turns(poly, c, m + n) == Turns(poly, Turns(poly, c, m), n)
    decreases m
  {
    hide Turn;
    if m != 0 {
      TurnsAdd(poly, Turn(poly, c), m - 1, n);
    }
  }

  lemma OneTurn(poly: Word, c: Word)
    ensures Turns(poly, c, 1) == Xor(Advance(poly, c, 1), c)
  {
    hide Step, Xor;
    assert Turns(poly, Turn(poly, c), 0) == Turn(poly, c) && Advance(poly, Step(poly, c), 0) == Step(poly, c);
  }

  /** In characteristic 2, `(s + 1)^(2^k) == s^(2^k) + 1`. */
  lemma {:induction false} TurnsPow2(poly: Word, c: Word, k: nat)
    ensures Turns(poly, c, Pow2(k)) == Xor(Advance(poly, c, Pow2(k)), c)
    decreases k
  {
    hide Turn, Step, Turns, Advance, Xor;
    if k == 0 {
      OneTurn(poly, c);
    } else {
      var n := Pow2(k - 1);
      var a, b := Advance(poly, c, n), Xor(Advance(poly, c, n), c);
      TurnsPow2(poly, c, k - 1);
      TurnsPow2(poly, b, k - 1);
      TurnsAdd(poly, c, n, n);
      AdvanceAdd(poly, c, n, n);
      AdvanceLinear(poly, a, c, n);
      CancelDouble(Advance(poly, a, n), a, c);
    }
  }

  lemma CancelDouble(p: Word, q: Word, c: Word)
    ensures Xor(Xor(p, q), Xor(q, c)) == Xor(p, c)
  {
  }

  /** Whether an odd number of bits is set. */
  function Parity(bits: seq<bool>): bool {
    if bits == [] then false else bits[0] != Parity(bits[1..])
  }

  /** The same for the `n` low bits of a number. */
  function OddOnes(v: nat, n: nat): bool
    decreases n
  {
    if n == 0 then false else (v % 2 == 1) != OddOnes(v / 2, n - 1)
  }

  lemma {:induction false} ParityDigits(v: nat, n: nat)
    ensures Parity(Digits(v, n)) == OddOnes(v, n)
    decreases n
  {
    if n != 0 {
      ParityDigits(v / 2, n - 1);
      assert Digits(v, n)[1..] == Digits(v / 2, n - 1);
    }
  }

  /** A register with its low bit set that a turn does not change is fixed by the polynomial. */
  lemma {:induction false} FixedBits(poly: Word, c: Word, i: nat)
    requires Xor(poly, Shr(c, 1)) == c && i < WIDTH
    ensures c[i] == Parity(poly[i..])
    decreases WIDTH - i
  {
    assert Xor(poly, Shr(c, 1))[i] == (poly[i] != Shr(c, 1)[i]);
    assert poly[i..][1..] == poly[i + 1..];
    if i + 1 < WIDTH {
      FixedBits(poly, c, i + 1);
    } else {
      assert Parity(poly[WIDTH..]) == false;
    }
  }

  lemma {:induction false} ShiftedBits(c: Word, i: nat)
    requires Shr(c, 1) == c && i < WIDTH
    ensures !c[i]
    decreases WIDTH - i
  {
    assert Shr(c, 1)[i] == c[i];
    if i + 1 < WIDTH {
      ShiftedBits(c, i + 1);
    }
  }

  lemma TurnInjective(poly: Word, c: Word)
    requires !Parity(poly) && Turn(poly, c) == ZERO
    ensures c == ZERO
  {
    SameIfCancelled(Step(poly, c), c);
    assert poly[0..] == poly;
    if c[0] {
      FixedBits(poly, c, 0);
    } else {
      forall i | 0 <= i < WIDTH
        ensures !c[i]
      {
        ShiftedBits(c, i);
      }
    }
  }

  lemma SameIfCancelled(a: Word, b: Word)
    requires Xor(a, b) == ZERO
    ensures a == b
  {
    assert forall i :: 0 <= i < WIDTH ==> Xor(a, b)[i] == (a[i] != b[i]);
  }

  lemma {:induction false} TurnsInjective(poly: Word, c: Word, n: nat)
    requires !Parity(poly) && Turns(poly, c, n) == ZERO
    ensures c == ZERO
    decreases n
  {
    hide Parity, Turn;
    if n > 0 {
      TurnsInjective(poly, Turn(poly, c), n - 1);
      TurnInjective(poly, c);
    }
  }

  /** No register but zero comes back after 2^k turns. */
  lemma NoReturn(poly: Word, c: Word, k: nat)
    requires !Parity(poly) && Advance(poly, c, Pow2(k)) == c
    ensures c == ZERO
  {
    TurnsPow2(poly, c, k);
    XorZero(c);
    TurnsInjective(poly, c, Pow2(k));
  }

  /** With such a polynomial the checksum of 2^k zero bytes is not zero. */
  lemma ZeroBlockNotZero(poly: Word, k: nat)
    requires !Parity(poly)
    ensures ZeroBlock(poly, ZERO, Pow2(k)) != ZERO
  {
    hide Parity, Advance;
    assert Pow2(k + 1) == 2 * Pow2(k) && Pow2(k + 2) == 2 * Pow2(k + 1);
    assert Pow2(k + 3) == 8 * Pow2(k);
    XorZero(ONES);
    assert ONES[0] != ZERO[0];
    if ZeroBlock(poly, ZERO, Pow2(k)) == ZERO {
      SameIfCancelled(Advance(poly, ONES, Pow2(k + 3)), ONES);
      NoReturn(poly, ONES, k + 3);
    }
  }

  // ----- A string with the checksum of all ones.

  /** The word with its `m` low bits set. */
  function LowOnes(m: nat): (w: Word)
    ensures forall i {:trigger w[i]} :: 0 <= i < WIDTH ==> w[i] == (i < m)
  {
    seq(WIDTH, i => i < m)
  }

  lemma AllOnesByte()
    ensures FromByte(255) == LowOnes(8)
  {
    assert Digits(255, 8) == seq(8, i => true);
  }

  lemma FeedOnes(poly: Word, m: nat)
    requires 8 <= m <= WIDTH
    ensures FeedByte(poly, LowOnes(m), 255) == LowOnes(m - 8)
  {
    hide Advance;
    AllOnesByte();
    assert Xor(LowOnes(m), FromByte(255)) == Shl(LowOnes(m - 8), 8) by {
      hide FromByte;
    }
    AdvanceShl(poly, LowOnes(m - 8), 8);
  }

  /** Four bytes 255 clear the register, and zeros leave it so. */
  lemma OnesThenZeros(poly: Word, n: nat)
    ensures Crc32(poly, ZERO, [255, 255, 255, 255] + Zeros(n)) == ONES
  {
    hide FeedByte, Advance;
    var f: seq<Byte> := [255, 255, 255, 255];
    Crc32ByBytes(poly, ZERO, f + Zeros(n));
    XorZero(ONES);
    FeedBytesConcat(poly, ONES, f, Zeros(n));
    assert FeedBytes(poly, ONES, f) == ZERO by {
      assert ONES == LowOnes(32) && ZERO == LowOnes(0);
      FeedOnes(poly, 32);
      FeedOnes(poly, 24);
      FeedOnes(poly, 16);
      FeedOnes(poly, 8);
      FourBytes(poly, ONES, 255, 255, 255, 255);
    }
    FeedZeros(poly, ZERO, n);
    AdvanceZero(poly, 8 * n);
  }

  lemma FourBytes(poly: Word, c: Word, p: Byte, q: Byte, r: Byte, s: Byte)
    ensures FeedBytes(poly, c, [p, q, r, s]) == FeedByte(poly, FeedByte(poly, FeedByte(poly, FeedByte(poly, c, p), q), r), s)
  {
    hide FeedByte;
    assert [p, q, r, s][1..] == [q, r, s] && [q, r, s][1..] == [r, s] && [r, s][1..] == [s];
    var c1 := FeedByte(poly, c, p);
    var c2 := FeedByte(poly, c1, q);
    var c3 := FeedByte(poly, c2, r);
    assert FeedBytes(poly, c, [p, q, r, s]) == FeedBytes(poly, c1, [q, r, s]);
    assert FeedBytes(poly, c1, [q, r, s]) == FeedBytes(poly, c2, [r, s]);
    assert FeedBytes(poly, c2, [r, s]) == FeedBytes(poly, c3, [s]);
  }
}
