/**
 Machine words as vectors over GF(2). A `Word` models `uint32_t`; a `Byte` models `uint8_t`.
 Bits are listed least significant first, so `w[0]` is `w & 1`.
 */
module Words {

  const WIDTH: nat := 32

  type Word = w: seq<bool> | |w| == WIDTH witness seq(WIDTH, i => false)
  type Byte = b: int | 0 <= b < 256

  function Fill(bit: bool): (w: Word)
    ensures forall i {:trigger w[i]} :: 0 <= i < WIDTH ==> w[i] == bit
  {
    seq(WIDTH, i => bit)
  }

  const ZERO: Word := Fill(false)
  const ONES: Word := Fill(true)

  function Xor(a: Word, b: Word): (x: Word)
    ensures forall i {:trigger x[i]} :: 0 <= i < WIDTH ==> x[i] == (a[i] != b[i])
  {
    seq(WIDTH, i requires 0 <= i < WIDTH => a[i] != b[i])
  }

  /** `w >> k` */
  function Shr(w: Word, k: nat): (x: Word)
    ensures forall i {:trigger x[i]} :: 0 <= i < WIDTH ==> x[i] == (i + k < WIDTH && w[i + k])
  {
    seq(WIDTH, i requires 0 <= i < WIDTH => i + k < WIDTH && w[i + k])
  }

  /** `w << k` */
  function Shl(w: Word, k: nat): (x: Word)
    ensures forall i {:trigger x[i]} :: 0 <= i < WIDTH ==> x[i] == (k <= i && w[i - k])
  {
    seq(WIDTH, i requires 0 <= i < WIDTH => k <= i && w[i - k])
  }

  /** `1 << k` */
  function Basis(k: nat): (x: Word)
    ensures forall i {:trigger x[i]} :: 0 <= i < WIDTH ==> x[i] == (i == k)
  {
    seq(WIDTH, i => i == k)
  }

  /** The number whose binary digits, least significant first, are `bits`. */
  function Value(bits: seq<bool>): (v: nat)
    ensures v < Pow2(|bits|)
  {
    if bits == [] then 0 else (if bits[0] then 1 else 0) + 2 * Value(bits[1..])
  }

  /** The `n` least significant binary digits of `v`. */
  function Digits(v: nat, n: nat): (bits: seq<bool>)
    ensures |bits| == n
    decreases n, v
  {
    if n == 0 then [] else [v % 2 == 1] + Digits(v / 2, n - 1)
  }

  function FromByte(b: Byte): (w: Word) {
    Digits(b, 8) + seq(WIDTH - 8, i => false)
  }

  /** `(w >> 8 * k) & 0xff` as a table index. */
  function ByteAt(w: Word, k: nat): (b: Byte)
    requires k < 4
  {
    assert Pow2(8) == 256;
    Value(w[8 * k..8 * k + 8])
  }

  /** `a ^ b` on bytes. */
  function XorByte(a: Byte, b: Byte): (x: Byte) {
    ByteAt(Xor(FromByte(a), FromByte(b)), 0)
  }

  function Pow2(n: nat): (p: nat)
    ensures p > 0
  {
    if n == 0 then 1 else 2 * Pow2(n - 1)
  }

  lemma {:induction false} DigitsOfValue(bits: seq<bool>)
    ensures Digits(Value(bits), |bits|) == bits
    decreases |bits|
  {
    if bits != [] {
      DigitsOfValue(bits[1..]);
      assert bits == [bits[0]] + bits[1..];
    }
  }

  lemma {:induction false} ValueOfDigits(v: nat, n: nat)
    requires v < Pow2(n)
    ensures Value(Digits(v, n)) == v
    decreases n
  {
    if n != 0 {
      ValueOfDigits(v / 2, n - 1);
      assert Digits(v, n)[1..] == Digits(v / 2, n - 1);
    }
  }

  lemma XorAssoc(a: Word, b: Word, c: Word)
    ensures Xor(Xor(a, b), c) == Xor(a, Xor(b, c))
  {
  }

  lemma XorComm(a: Word, b: Word)
    ensures Xor(a, b) == Xor(b, a)
  {
  }

  lemma XorZero(a: Word)
    ensures Xor(a, ZERO) == a && Xor(ZERO, a) == a && Xor(a, a) == ZERO
  {
  }

  /** `(a ^ b) ^ (c ^ d) == (a ^ c) ^ (b ^ d)` */
  lemma XorSwap(a: Word, b: Word, c: Word, d: Word)
    ensures Xor(Xor(a, b), Xor(c, d)) == Xor(Xor(a, c), Xor(b, d))
  {
  }

  /** `w & 0xff` */
  function LowByte(w: Word): (x: Word)
    ensures forall i {:trigger x[i]} :: 0 <= i < WIDTH ==> x[i] == (i < 8 && w[i])
  {
    seq(WIDTH, i requires 0 <= i < WIDTH => i < 8 && w[i])
  }

  lemma ByteAtBits(w: Word, k: nat)
    requires k < 4
    ensures FromByte(ByteAt(w, k)) == LowByte(Shr(w, 8 * k))
  {
    DigitsOfValue(w[8 * k..8 * k + 8]);
    assert forall i :: 0 <= i < WIDTH ==> FromByte(ByteAt(w, k))[i] == LowByte(Shr(w, 8 * k))[i];
  }

  lemma SplitBytes(w: Word)
    ensures w == Xor(Xor(Shl(LowByte(Shr(w, 24)), 24), Shl(LowByte(Shr(w, 16)), 16)),
                     Xor(Shl(LowByte(Shr(w, 8)), 8), LowByte(Shr(w, 0))))
  {
  }

  /** A word is the sum of its four bytes, each in its place. */
  lemma WordIsItsBytes(w: Word)
    ensures w == Xor(Xor(Shl(FromByte(ByteAt(w, 3)), 24), Shl(FromByte(ByteAt(w, 2)), 16)),
                     Xor(Shl(FromByte(ByteAt(w, 1)), 8), FromByte(ByteAt(w, 0))))
  {

    ByteAtBits(w, 0);
    ByteAtBits(w, 1);
    ByteAtBits(w, 2);
    ByteAtBits(w, 3);
    SplitBytes(w);
  }

  /** `ByteAt` inverts placing a byte at the bottom of a word. */
  lemma ByteAtFromByte(b: Byte)
    ensures ByteAt(FromByte(b), 0) == b
  {
    assert Pow2(8) == 256;
    ValueOfDigits(b, 8);
    assert FromByte(b)[0..8] == Digits(b, 8);
  }

  lemma FromByteXorByte(a: Byte, b: Byte)
    ensures FromByte(XorByte(a, b)) == Xor(FromByte(a), FromByte(b))
  {
    var x := Xor(FromByte(a), FromByte(b));
    DigitsOfValue(x[0..8]);
    assert forall i :: 0 <= i < WIDTH ==> FromByte(XorByte(a, b))[i] == x[i];
  }
}
