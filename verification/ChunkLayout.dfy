/**
 Files and the two on-disk chunk layouts: `MooseFS` keeps all block checksums in a header,
 `Interleaved` stores each checksum in front of its block.
 */
module ChunkLayout {
  import opened Words
  import opened CrcSpec

  const BLOCK_SIZE: nat := 65536
  const BLOCKS_IN_CHUNK: nat := 1024
  const CHUNK_SIZE: nat := 67108864
  const CRC_SIZE: nat := 4
  const SIGNATURE_BLOCK_SIZE: nat := 1024
  const DISK_BLOCK_SIZE: nat := 4096

  // ----- Block checksums.

  function CrcPoly(): Word {
    Digits(0xEDB8_8320, WIDTH)
  }

  /** `mycrc32(0, data, |data|)` */
  function BlockCrc(data: seq<Byte>): Word {
    Crc32(CrcPoly(), ZERO, data)
  }

  /** `mycrc32_combine` */
  function CombineCrc(crc1: Word, crc2: Word, leng2: nat): Word {
    Combine(CrcPoly(), crc1, crc2, leng2)
  }

  /** `mycrc32_zeroblock(0, zeros)` */
  function ZerosCrc(zeros: nat): Word {
    ZeroBlock(CrcPoly(), ZERO, zeros)
  }

  /** `mycrc32_zeroexpanded(0, block, |block|, zeros)` */
  function ZeroExpandedCrc(block: seq<Byte>, zeros: nat): Word {
    ZeroExpanded(CrcPoly(), ZERO, block, zeros)
  }

  lemma CombineCrcIsConcat(a: seq<Byte>, b: seq<Byte>)
    ensures CombineCrc(BlockCrc(a), BlockCrc(b), |b|) == BlockCrc(a + b)
  {
    CombineIsConcat(CrcPoly(), ZERO, a, b);
  }

  lemma ZerosCrcIsCrc(n: nat)
    ensures ZerosCrc(n) == BlockCrc(Zeros(n))
  {
    ZeroBlockFromSeed(CrcPoly(), ZERO, n);
  }

  lemma ZeroExpandedCrcIsCrc(a: seq<Byte>, n: nat)
    ensures ZeroExpandedCrc(a, n) == BlockCrc(a + Zeros(n))
  {
    ZeroBlockIsZeroExtension(CrcPoly(), ZERO, a, n);
  }

  /** The polynomial has 14 low bits. */
  lemma CrcPolyEven()
    ensures !Parity(CrcPoly())
  {
    hide Digits;
    ParityDigits(0xEDB8_8320, WIDTH);
    assert !OddOnes(0xED, 8) && !OddOnes(0xEDB8, 16);
    assert OddOnes(0xED_B883, 24);
  }

  lemma BlockSizeIsPower()
    ensures BLOCK_SIZE == Pow2(16)
  {
    assert Pow2(4) == 16;
    assert Pow2(8) == 256;
    assert Pow2(12) == 4096;
  }

  /** `emptyblockcrc` is not zero. */
  lemma EmptyBlockCrcNotZero()
    ensures BlockCrc(Zeros(BLOCK_SIZE)) != ZERO
  {
    hide Digits, Parity;
    CrcPolyEven();
    BlockSizeIsPower();
    ZeroBlockNotZero(CrcPoly(), 16);
    ZerosCrcIsCrc(BLOCK_SIZE);
  }

  /** `put32bit` */
  function Put32(w: Word): (d: seq<Byte>)
    ensures |d| == CRC_SIZE
  {
    [ByteAt(w, 3), ByteAt(w, 2), ByteAt(w, 1), ByteAt(w, 0)]
  }

  /** `get32bit` */
  function Get32(d: seq<Byte>): Word
    requires |d| == CRC_SIZE
  {
    Xor(Xor(Shl(FromByte(d[0]), 24), Shl(FromByte(d[1]), 16)), Xor(Shl(FromByte(d[2]), 8), FromByte(d[3])))
  }

  lemma GetPut32(w: Word)
    ensures Get32(Put32(w)) == w
  {
    WordIsItsBytes(w);
  }

  lemma PutGet32(d: seq<Byte>)
    requires |d| == CRC_SIZE
    ensures Put32(Get32(d)) == d
  {
    var w := Get32(d);
    var b0, b1, b2, b3 := FromByte(d[3]), FromByte(d[2]), FromByte(d[1]), FromByte(d[0]);
    DigitsAreByte(w, 0, d[3]);
    DigitsAreByte(w, 1, d[2]);
    DigitsAreByte(w, 2, d[1]);
    DigitsAreByte(w, 3, d[0]);
  }

  lemma DigitsAreByte(w: Word, k: nat, b: Byte)
    requires k < 4
    requires forall i :: 0 <= i < 8 ==> w[8 * k + i] == FromByte(b)[i]
    ensures ByteAt(w, k) == b
  {
    assert w[8 * k..8 * k + 8] == FromByte(b)[0..8];
    ByteAtFromByte(b);
  }

  lemma ZeroBytesAreZero()
    ensures Get32(Zeros(CRC_SIZE)) == ZERO
  {
    assert Digits(0, 8) == seq(8, i => false);
  }

  // ----- Files.

  /** `pwrite`, which leaves a zero-filled hole when it starts beyond the end. */
  function Pwrite(file: seq<Byte>, off: nat, d: seq<Byte>): (r: seq<Byte>)
    ensures d == [] ==> r == file
    ensures d != [] ==> |r| == if off + |d| > |file| then off + |d| else |file|
    ensures forall i {:trigger r[i]} :: 0 <= i < |r| ==>
      r[i] == if off <= i < off + |d| then d[i - off] else if i < |file| then file[i] else 0
  {
    if d == [] then file
    else
      (if |file| < off then file + Zeros(off - |file|) else file[..off]) + d +
      (if off + |d| < |file| then file[off + |d|..] else [])
  }

  /** `ftruncate` */
  function Ftruncate(file: seq<Byte>, size: nat): (r: seq<Byte>)
    ensures |r| == size
    ensures forall i {:trigger r[i]} :: 0 <= i < |r| ==> r[i] == if i < |file| then file[i] else 0
  {
    if size <= |file| then file[..size] else file + Zeros(size - |file|)
  }

  // ----- Layouts.

  datatype Format = MooseFS | Interleaved

  /** What a chunk's format and part type fix: header size and the number of block slots. */
  datatype Layout = Layout(format: Format, dataParts: nat, standard: bool) {

    predicate Valid() {
      1 <= dataParts <= BLOCKS_IN_CHUNK && (standard ==> dataParts == 1)
    }

    /** `maxBlocksInFile` */
    function MaxBlocks(): (n: nat)
      requires Valid()
      ensures 1 <= n <= BLOCKS_IN_CHUNK
      ensures standard ==> n == BLOCKS_IN_CHUNK
    {
      (BLOCKS_IN_CHUNK + dataParts - 1) / dataParts
    }

    /** `getHeaderSize` */
    function HeaderSize(): (n: nat)
      requires Valid()
      ensures n >= SIGNATURE_BLOCK_SIZE + CRC_SIZE * MaxBlocks()
    {
      var required := SIGNATURE_BLOCK_SIZE + CRC_SIZE * MaxBlocks();
      if standard then required
      else (required + DISK_BLOCK_SIZE - 1) / DISK_BLOCK_SIZE * DISK_BLOCK_SIZE
    }

    /** `getBlockOffset` */
    function BlockOffset(b: nat): nat
      requires Valid()
    {
      if format.MooseFS? then HeaderSize() + BLOCK_SIZE * b else b * (BLOCK_SIZE + CRC_SIZE)
    }

    /** `getFileSizeFromBlockCount` */
    function FileSize(n: nat): nat
      requires Valid()
    {
      BlockOffset(n)
    }

    /** Where the bytes of block `b` start; the interleaved checksum comes before them. */
    function DataOffset(b: nat): nat
      requires Valid()
    {
      BlockOffset(b) + if format.MooseFS? then 0 else CRC_SIZE
    }

    function Block(file: seq<Byte>, b: nat): (d: seq<Byte>)
      requires Valid() && FileSize(b + 1) <= |file|
      ensures |d| == BLOCK_SIZE
    {
      file[DataOffset(b)..DataOffset(b) + BLOCK_SIZE]
    }

    /** The checksum field of block `b` in the file. */
    function CrcOffset(b: nat): nat
      requires Valid()
    {
      if format.MooseFS? then SIGNATURE_BLOCK_SIZE + CRC_SIZE * b else BlockOffset(b)
    }

    function CrcField(file: seq<Byte>, b: nat): (d: seq<Byte>)
      requires Valid() && CrcOffset(b) + CRC_SIZE <= |file|
      ensures |d| == CRC_SIZE
    {
      file[CrcOffset(b)..CrcOffset(b) + CRC_SIZE]
    }
  }
}
