/**
 Chunks cut into stripes: block `b` of a chunk is block `b / d` of data part `b % d`, and the
 parity part holds the xor of each stripe. Blocks behind the end of a chunk count as zero.
 */
module Striping {
  import opened Words
  import opened ChunkLayout

  type Block = b: seq<Byte> | |b| == BLOCK_SIZE witness seq(BLOCK_SIZE, _ => 0)

  function Zero(): (z: Block)
    ensures forall i {:trigger z[i]} :: 0 <= i < BLOCK_SIZE ==> z[i] == 0
  {
    seq(BLOCK_SIZE, _ => 0)
  }

  /** `blockXor` */
  function XorBlock(a: Block, b: Block): (x: Block)
    ensures forall i {:trigger x[i]} :: 0 <= i < BLOCK_SIZE ==> x[i] == XorByte(a[i], b[i])
  {
    seq(BLOCK_SIZE, i requires 0 <= i < BLOCK_SIZE => XorByte(a[i], b[i]))
  }

  // ----- Xor of blocks.

  lemma FromByteZero()
    ensures FromByte(0) == ZERO
  {
    DigitsZero(8);
  }

  lemma {:induction false} DigitsZero(n: nat)
    ensures forall i {:trigger Digits(0, n)[i]} :: 0 <= i < n ==> !Digits(0, n)[i]
  {
    if n > 0 {
      DigitsZero(n - 1);
    }
  }

  lemma XorByteLaws(a: Byte, b: Byte, c: Byte)
    ensures XorByte(a, 0) == a && XorByte(0, a) == a && XorByte(a, a) == 0 && XorByte(a, b) == XorByte(b, a)
    ensures XorByte(XorByte(a, b), c) == XorByte(a, XorByte(b, c))
  {
    hide FromByte, ByteAt, Xor;
    FromByteZero();
    Words.XorZero(FromByte(a));
    ByteAtFromByte(a);
    ByteAtFromByte(0);
    XorComm(FromByte(a), FromByte(b));
    FromByteXorByte(a, b);
    FromByteXorByte(b, c);
    XorAssoc(FromByte(a), FromByte(b), FromByte(c));
  }

  lemma XorZero(a: Block)
    ensures XorBlock(a, Zero()) == a && XorBlock(Zero(), a) == a
  {
    hide XorByte, XorBlock, Zero;
    forall i | 0 <= i < BLOCK_SIZE
      ensures XorBlock(a, Zero())[i] == a[i] && XorBlock(Zero(), a)[i] == a[i]
    {
      XorByteLaws(a[i], 0, 0);
    }
  }

  lemma XorSelf(a: Block)
    ensures XorBlock(a, a) == Zero()
  {
    hide XorByte, XorBlock, Zero;
    forall i | 0 <= i < BLOCK_SIZE
      ensures XorBlock(a, a)[i] == Zero()[i]
    {
      XorByteLaws(a[i], 0, 0);
    }
  }

  lemma XorBlockComm(a: Block, b: Block)
    ensures XorBlock(a, b) == XorBlock(b, a)
  {
    hide XorByte, XorBlock;
    forall i | 0 <= i < BLOCK_SIZE
      ensures XorBlock(a, b)[i] == XorBlock(b, a)[i]
    {
      XorByteLaws(a[i], b[i], 0);
    }
  }

  lemma XorBlockAssoc(a: Block, b: Block, c: Block)
    ensures XorBlock(XorBlock(a, b), c) == XorBlock(a, XorBlock(b, c))
  {
    hide XorByte, XorBlock;
    forall i | 0 <= i < BLOCK_SIZE
      ensures XorBlock(XorBlock(a, b), c)[i] == XorBlock(a, XorBlock(b, c))[i]
    {
      XorByteLaws(a[i], b[i], c[i]);
    }
  }

  // ----- The layout.

  type Chunk = seq<Block>

  function BlockOf(chunk: Chunk, b: nat): Block {
    if b < |chunk| then chunk[b] else Zero()
  }

  /** Block `s` of data part `q` when there are `d` data parts. */
  function PartBlock(chunk: Chunk, d: nat, q: nat, s: nat): Block {
    BlockOf(chunk, s * d + q)
  }

  /** The xor of `n` blocks from block `from` on. */
  function XorRange(chunk: Chunk, from: nat, n: nat): Block {
    if n == 0 then Zero() else XorBlock(XorRange(chunk, from, n - 1), BlockOf(chunk, from + n - 1))
  }

  /** Block `s` of the parity part. */
  function ParityBlock(chunk: Chunk, d: nat, s: nat): Block {
    XorRange(chunk, s * d, d)
  }

  /** `getNumberOfBlocks` for data part `q`, and with q = 0 for the parity part */
  function NumberOfBlocks(d: nat, q: nat, blocks: nat): nat
    requires q < d
  {
    (blocks + (d - q - 1)) / d
  }

  // ----- Division.

  lemma MulNext(d: nat, k: nat)
    ensures d * (k + 1) == d * k + d
  {
  }

  lemma {:induction false} MulGap(d: nat, a: nat, b: nat)
    requires a < b
    ensures d * a + d <= d * b
    decreases b
  {
    MulNext(d, b - 1);
    if a < b - 1 {
      MulGap(d, a, b - 1);
    }
  }

  lemma DivUnique(d: nat, k: nat, x: nat)
    requires x < d
    ensures (d * k + x) / d == k && (d * k + x) % d == x
  {
    var b := d * k + x;
    DivMod(b, d);
    if b / d < k {
      MulGap(d, b / d, k);
    } else if b / d > k {
      MulGap(d, k, b / d);
    }
  }

  lemma DivMod(b: nat, d: nat)
    requires d > 0
    ensures b == d * (b / d) + b % d && 0 <= b % d < d
  {
  }

  /** `b` blocks are `b / d` full stripes and a part of one more. */
  lemma BlocksOfPart(d: nat, q: nat, b: nat)
    requires q < d
    ensures NumberOfBlocks(d, q, b) == b / d + if q < b % d then 1 else 0
  {
    var k, r := b / d, b % d;
    DivMod(b, d);
    if q < r {
      assert b + (d - q - 1) == d * (k + 1) + (r - q - 1);
      DivUnique(d, k + 1, r - q - 1);
    } else {
      assert b + (d - q - 1) == d * k + (r + d - q - 1);
      DivUnique(d, k, r + d - q - 1);
    }
  }

  lemma Quotient(b: nat, d: nat, k: nat, x: nat)
    requires x < d && b == d * k + x
    ensures b / d == k && b % d == x
  {
    DivUnique(d, k, x);
  }

  lemma NextInStripe(b: nat, d: nat)
    requires d > 0
    ensures b % d < d - 1 ==> (b + 1) / d == b / d && (b + 1) % d == b % d + 1
    ensures b % d == d - 1 ==> (b + 1) / d == b / d + 1 && (b + 1) % d == 0
  {
    var k, x := b / d, b % d;
    DivMod(b, d);
    if x < d - 1 {
      Quotient(b + 1, d, k, x + 1);
    } else {
      MulNext(d, k);
      Quotient(b + 1, d, k + 1, 0);
    }
  }

  /** The first block of the stripe of block `b`. */
  function StripeStart(b: nat, d: nat): (s: nat)
    requires d > 0
    ensures s + b % d == b
  {
    b - b % d
  }

  lemma StripeBegins(b: nat, d: nat)
    requires d > 0
    ensures b / d * d == StripeStart(b, d)
  {
    DivMod(b, d);
  }

  // ----- The striping loop.

  /** What is in data part `q` after the first `b` blocks. */
  function PartUpTo(chunk: Chunk, d: nat, q: nat, b: nat): seq<Block>
    requires q < d
  {
    seq(NumberOfBlocks(d, q, b), s requires 0 <= s => PartBlock(chunk, d, q, s))
  }

  lemma PartGrows(chunk: Chunk, d: nat, q: nat, b: nat)
    requires q < d && b < |chunk|
    ensures PartUpTo(chunk, d, q, b + 1) == PartUpTo(chunk, d, q, b) + if b % d == q then [chunk[b]] else []
  {
    PartCount(d, q, b);
    if b % d == q {
      PartAt(chunk, d, b);
    }
    hide PartBlock, NumberOfBlocks;
  }

  lemma PartCount(d: nat, q: nat, b: nat)
    requires q < d
    ensures NumberOfBlocks(d, q, b + 1) == NumberOfBlocks(d, q, b) + if b % d == q then 1 else 0
    ensures b % d == q ==> NumberOfBlocks(d, q, b) == b / d
  {
    BlocksOfPart(d, q, b);
    BlocksOfPart(d, q, b + 1);
    NextInStripe(b, d);
  }

  lemma PartAt(chunk: Chunk, d: nat, b: nat)
    requires d > 0
    ensures PartBlock(chunk, d, b % d, b / d) == BlockOf(chunk, b)
  {
    DivMod(b, d);
  }

  /** The parity blocks of the first `n` stripes. */
  function ParityUpTo(chunk: Chunk, d: nat, n: nat): seq<Block> {
    seq(n, s requires 0 <= s => ParityBlock(chunk, d, s))
  }

  ghost predicate Dispensed(parts: seq<seq<Block>>, chunk: Chunk, d: nat, b: nat) {
    |parts| == d && forall q :: 0 <= q < d ==> parts[q] == PartUpTo(chunk, d, q, b)
  }

  lemma DispenseNone(chunk: Chunk, d: nat)
    requires d > 0
    ensures Dispensed(seq(d, _ => []), chunk, d, 0) && ParityUpTo(chunk, d, 0 / d) == [] && XorRange(chunk, StripeStart(0, d), 0 % d) == Zero()
  {
    DivUnique(d, 0, 0);
    var none: seq<seq<Block>> := seq(d, _ => []);
    forall q | 0 <= q < d
      ensures none[q] == PartUpTo(chunk, d, q, 0)
    {
      BlocksOfPart(d, q, 0);
    }
  }

  lemma DispenseNext(parts: seq<seq<Block>>, chunk: Chunk, d: nat, b: nat)
    requires 0 < d && Dispensed(parts, chunk, d, b) && b < |chunk|
    ensures Dispensed(parts[b % d := parts[b % d] + [chunk[b]]], chunk, d, b + 1)
  {
    hide PartUpTo;
    var next := parts[b % d := parts[b % d] + [chunk[b]]];
    forall q | 0 <= q < d
      ensures next[q] == PartUpTo(chunk, d, q, b + 1)
    {
      PartGrows(chunk, d, q, b);
    }
  }

  lemma XorRangeNext(chunk: Chunk, from: nat, n: nat)
    ensures XorRange(chunk, from, n + 1) == XorBlock(XorRange(chunk, from, n), BlockOf(chunk, from + n))
    ensures XorRange(chunk, from, 0) == Zero()
  {
    hide XorBlock, Zero;
  }

  /** The running xor covers the begun stripe; at its end it is the stripe's parity. */
  lemma XorNext(chunk: Chunk, d: nat, b: nat)
    requires 0 < d && b < |chunk|
    ensures b % d < d - 1 ==>
              XorBlock(XorRange(chunk, StripeStart(b, d), b % d), chunk[b]) == XorRange(chunk, StripeStart(b + 1, d), (b + 1) % d) &&
              (b + 1) / d == b / d
    ensures b % d == d - 1 ==>
              XorBlock(XorRange(chunk, StripeStart(b, d), b % d), chunk[b]) == ParityBlock(chunk, d, b / d) &&
              (b + 1) / d == b / d + 1 && XorRange(chunk, StripeStart(b + 1, d), (b + 1) % d) == Zero()
  {
    hide XorBlock, Zero, XorRange;
    NextInStripe(b, d);
    StripeBegins(b, d);
    XorRangeNext(chunk, StripeStart(b, d), b % d);
    XorRangeNext(chunk, StripeStart(b + 1, d), b % d);
  }

  lemma ParityNext(chunk: Chunk, d: nat, n: nat)
    ensures ParityUpTo(chunk, d, n + 1) == ParityUpTo(chunk, d, n) + [ParityBlock(chunk, d, n)]
  {
    hide ParityBlock;
  }

  /** Zeros at the end do not matter: a short last stripe has the same xor as the padded one. */
  lemma {:induction false} XorShort(chunk: Chunk, from: nat, n: nat, m: nat)
    requires n <= m && from + n >= |chunk|
    ensures XorRange(chunk, from, m) == XorRange(chunk, from, n)
    decreases m
  {
    hide XorBlock, Zero, XorRange;
    if n < m {
      XorShort(chunk, from, n, m - 1);
      XorRangeNext(chunk, from, m - 1);
      XorZero(XorRange(chunk, from, n));
    }
  }

  /** After the last block the running xor is the parity of the begun stripe, if one is begun. */
  lemma LastStripe(chunk: Chunk, d: nat)
    requires d > 0
    ensures NumberOfBlocks(d, 0, |chunk|) == |chunk| / d + if |chunk| % d > 0 then 1 else 0
    ensures XorRange(chunk, StripeStart(|chunk|, d), |chunk| % d) == ParityBlock(chunk, d, |chunk| / d)
  {
    hide XorRange;
    BlocksOfPart(d, 0, |chunk|);
    StripeBegins(|chunk|, d);
    XorShort(chunk, StripeStart(|chunk|, d), |chunk| % d, d);
  }

  const MAX_BLOCKS := 1024

  /** Where the loop stands after `b` blocks. */
  ghost predicate Striped(parts: seq<seq<Block>>, parity: seq<Block>, acc: Block, chunk: Chunk, d: nat, b: nat)
    requires d > 0
  {
    Dispensed(parts, chunk, d, b) && parity == ParityUpTo(chunk, d, b / d) && acc == XorRange(chunk, StripeStart(b, d), b % d)
  }

  lemma StripeNext(parts: seq<seq<Block>>, parity: seq<Block>, acc: Block, chunk: Chunk, d: nat, b: nat)
    requires 0 < d && Striped(parts, parity, acc, chunk, d, b) && b < |chunk|
    ensures var next := parts[b % d := parts[b % d] + [chunk[b]]];
            if b % d == d - 1 then Striped(next, parity + [XorBlock(acc, chunk[b])], Zero(), chunk, d, b + 1)
            else Striped(next, parity, XorBlock(acc, chunk[b]), chunk, d, b + 1)
    ensures b % d == d - 1 <==> (b + 1) % d == 0
  {
    hide PartUpTo, ParityUpTo, XorRange, XorBlock, Zero, ParityBlock;
    DispenseNext(parts, chunk, d, b);
    XorNext(chunk, d, b);
    ParityNext(chunk, d, b / d);
    NextInStripe(b, d);
  }

  lemma StripedAll(parts: seq<seq<Block>>, parity: seq<Block>, acc: Block, chunk: Chunk, d: nat)
    requires 0 < d && Striped(parts, parity, acc, chunk, d, |chunk|)
    ensures ParityUpTo(chunk, d, NumberOfBlocks(d, 0, |chunk|)) == if |chunk| % d == 0 then parity else parity + [acc]
  {
    hide PartUpTo, ParityUpTo, XorRange, NumberOfBlocks, XorBlock, Zero, ParityBlock;
    LastStripe(chunk, d);
    ParityNext(chunk, d, |chunk| / d);
  }

  /** The block loop of `chunk_converter`: the data parts and the parity part of a whole chunk. */
  method Stripe(chunk: Chunk, d: nat) returns (ok: bool, parts: seq<seq<Block>>, parity: seq<Block>)
    requires d > 0
    ensures ok <==> |chunk| <= MAX_BLOCKS
    ensures ok ==> |parts| == d && forall q :: 0 <= q < d ==> parts[q] == PartUpTo(chunk, d, q, |chunk|)
    ensures ok ==> parity == ParityUpTo(chunk, d, NumberOfBlocks(d, 0, |chunk|))
  {
    parts, parity := seq(d, _ => []), [];
    DispenseNone(chunk, d);
    ok := true;
    var acc := Zero();
    var b: nat, current: nat := 0, 0;
    assert Striped(parts, parity, acc, chunk, d, b);
    hide Striped, PartUpTo, ParityUpTo, NumberOfBlocks, XorBlock, Zero;
    while b < |chunk|
      invariant b <= |chunk| && b <= MAX_BLOCKS && Striped(parts, parity, acc, chunk, d, b)
      invariant b > 0 ==> (current == d - 1 <==> b % d == 0)
      invariant |parts| == d
    {
      StripeNext(parts, parity, acc, chunk, d, b);
      current := b % d;
      acc := XorBlock(acc, chunk[b]);
      parts := parts[current := parts[current] + [chunk[b]]];
      b := b + 1;
      if b > MAX_BLOCKS {
        return false, parts, parity;
      }
      if current == d - 1 {
        parity := parity + [acc];
        acc := Zero();
      }
    }
    StripedAll(parts, parity, acc, chunk, d);
    StripedParts(parts, parity, acc, chunk, d);
    if b > 0 && current != d - 1 {
      parity := parity + [acc];
    }
  }

  lemma StripedParts(parts: seq<seq<Block>>, parity: seq<Block>, acc: Block, chunk: Chunk, d: nat)
    requires 0 < d && Striped(parts, parity, acc, chunk, d, |chunk|)
    ensures |parts| == d && forall q :: 0 <= q < d ==> parts[q] == PartUpTo(chunk, d, q, |chunk|)
  {
    hide PartUpTo;
  }
}
