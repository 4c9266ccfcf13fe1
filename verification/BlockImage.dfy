/**
 What a chunk file means: a zero-extended byte array cut into blocks, each with its checksum.
 The lemmas say how the file operations of the chunkserver change that meaning.
 */
module BlockImage {
  import opened Words
  import opened CrcSpec
  import opened ChunkLayout

  /** Block `b` of a file holding `n` blocks; everything past the end reads as zeros. */
  function BlockAt(l: Layout, file: seq<Byte>, n: nat, b: nat): (d: seq<Byte>)
    requires l.Valid() && |file| == l.FileSize(n)
    ensures |d| == BLOCK_SIZE
  {
    if b < n then l.Block(file, b) else Zeros(BLOCK_SIZE)
  }

  /** Byte `i` of the chunk as one zero-extended array. */
  function View(l: Layout, file: seq<Byte>, n: nat, i: nat): Byte
    requires l.Valid() && |file| == l.FileSize(n)
  {
    BlockAt(l, file, n, i / BLOCK_SIZE)[i % BLOCK_SIZE]
  }

  /** A range inside one block, byte by byte. */
  lemma RangeIsView(l: Layout, file: seq<Byte>, n: nat, offset: nat, size: nat)
    requires l.Valid() && |file| == l.FileSize(n) && offset % BLOCK_SIZE + size <= BLOCK_SIZE
    ensures var within := offset % BLOCK_SIZE;
            var d := BlockAt(l, file, n, offset / BLOCK_SIZE)[within..within + size];
            |d| == size && forall k :: 0 <= k < size ==> d[k] == View(l, file, n, offset + k)
  {
    hide BlockAt;
    var within := offset % BLOCK_SIZE;
    var d := BlockAt(l, file, n, offset / BLOCK_SIZE)[within..within + size];
    forall k | 0 <= k < size
      ensures d[k] == View(l, file, n, offset + k)
    {
      assert (offset + k) / BLOCK_SIZE == offset / BLOCK_SIZE && (offset + k) % BLOCK_SIZE == within + k;
    }
  }

  /** The stored checksum of block `b` is right; a sparse interleaved block may hold zero instead. */
  predicate BlockOk(l: Layout, file: seq<Byte>, crcs: seq<Word>, b: nat)
    requires l.Valid() && l.FileSize(b + 1) <= |file| && (l.format.MooseFS? ==> b < |crcs|)
  {
    if l.format.MooseFS? then crcs[b] == BlockCrc(l.Block(file, b))
    else
      || l.CrcField(file, b) == Put32(BlockCrc(l.Block(file, b)))
      || (l.CrcField(file, b) == Zeros(CRC_SIZE) && l.Block(file, b) == Zeros(BLOCK_SIZE))
  }

  /** An interleaved slot is its checksum field followed by its block. */
  lemma SlotIsFieldAndBlock(l: Layout, file: seq<Byte>, n: nat, b: nat)
    requires l.Valid() && l.format.Interleaved? && |file| == l.FileSize(n) && b < n
    ensures l.BlockOffset(b) + CRC_SIZE + BLOCK_SIZE <= |file| && l.FileSize(b + 1) <= |file| && l.CrcOffset(b) + CRC_SIZE <= |file|
    ensures var raw := file[l.BlockOffset(b)..l.BlockOffset(b) + CRC_SIZE + BLOCK_SIZE];
            raw[..CRC_SIZE] == l.CrcField(file, b) && raw[CRC_SIZE..] == l.Block(file, b)
  {
    hide Layout.HeaderSize, Layout.MaxBlocks;
  }

  /** How a reader of an interleaved block judges its checksum field. */
  lemma InterleavedVerdict(l: Layout, file: seq<Byte>, crcs: seq<Word>, b: nat)
    requires l.Valid() && l.format.Interleaved? && l.FileSize(b + 1) <= |file|
    ensures var field, d := l.CrcField(file, b), l.Block(file, b);
            && BlockOk(l, file, crcs, b) ==
                 ((field == Zeros(CRC_SIZE) && d == Zeros(BLOCK_SIZE)) || Get32(field) == BlockCrc(d))
            && (field == Zeros(CRC_SIZE) ==> Get32(field) == ZERO)
            && (Get32(field) == ZERO ==> field == Zeros(CRC_SIZE))
  {
    hide BlockCrc, Put32, Get32;
    var field, d := l.CrcField(file, b), l.Block(file, b);
    GetPut32(BlockCrc(d));
    PutGet32(field);
    ZeroBytesAreZero();
    PutGet32(Zeros(CRC_SIZE));
  }

  /** `crcs` is the in-memory checksum table of the `MooseFS` format. */
  ghost predicate Consistent(l: Layout, file: seq<Byte>, n: nat, crcs: seq<Word>) {
    && l.Valid()
    && |file| == l.FileSize(n)
    && (l.format.MooseFS? ==> |crcs| == BLOCKS_IN_CHUNK && n <= BLOCKS_IN_CHUNK)
    && forall b :: 0 <= b < n ==> BlockOk(l, file, crcs, b)
  }

  /** The header has room for the checksum of block `b`. */
  predicate Slotted(l: Layout, b: nat)
    requires l.Valid()
  {
    l.format.MooseFS? ==> b < l.MaxBlocks()
  }

  /** As `Consistent`, but only blocks with a slot in the header need the right checksum. */
  ghost predicate Backed(l: Layout, file: seq<Byte>, n: nat, crcs: seq<Word>) {
    && l.Valid()
    && |file| == l.FileSize(n)
    && (l.format.MooseFS? ==> |crcs| == BLOCKS_IN_CHUNK && n <= BLOCKS_IN_CHUNK)
    && forall b :: 0 <= b < n && Slotted(l, b) ==> BlockOk(l, file, crcs, b)
  }

  /** Two tables that agree on every slot. */
  ghost predicate SameSlots(l: Layout, a: seq<Word>, b: seq<Word>) {
    l.Valid() && l.format.MooseFS? ==>
      |a| == |b| == BLOCKS_IN_CHUNK && forall i :: 0 <= i < l.MaxBlocks() ==> a[i] == b[i]
  }

  /** The table with the right checksums for the blocks that have no slot. */
  ghost function Completed(l: Layout, file: seq<Byte>, n: nat, crcs: seq<Word>): (r: seq<Word>)
    requires Backed(l, file, n, crcs)
    ensures l.format.Interleaved? ==> r == crcs
    ensures l.format.MooseFS? ==> |r| == BLOCKS_IN_CHUNK
    ensures l.format.MooseFS? ==>
      forall b {:trigger r[b]} :: 0 <= b < BLOCKS_IN_CHUNK ==> r[b] == if l.MaxBlocks() <= b < n then BlockCrc(l.Block(file, b)) else crcs[b]
  {
    if l.format.Interleaved? then crcs
    else
      seq(BLOCKS_IN_CHUNK, b requires 0 <= b < BLOCKS_IN_CHUNK =>
        if l.MaxBlocks() <= b < n then BlockCrc(l.Block(file, b)) else crcs[b])
  }

  lemma CompletedIsConsistent(l: Layout, file: seq<Byte>, n: nat, crcs: seq<Word>)
    requires Backed(l, file, n, crcs)
    ensures Consistent(l, file, n, Completed(l, file, n, crcs)) && SameSlots(l, Completed(l, file, n, crcs), crcs)
  {
    hide BlockCrc, Completed;
    var ideal := Completed(l, file, n, crcs);
    forall b | 0 <= b < n
      ensures BlockOk(l, file, ideal, b)
    {
      if Slotted(l, b) {
        assert BlockOk(l, file, crcs, b);
      }
    }
  }

  lemma BackedBelow(l: Layout, file: seq<Byte>, n: nat, ideal: seq<Word>, crcs: seq<Word>)
    requires Consistent(l, file, n, ideal)
    requires l.format.MooseFS? ==> |crcs| == BLOCKS_IN_CHUNK && forall i :: 0 <= i < n && i < l.MaxBlocks() ==> ideal[i] == crcs[i]
    ensures Backed(l, file, n, crcs)
  {
    hide BlockCrc;
    forall b | 0 <= b < n && Slotted(l, b)
      ensures BlockOk(l, file, crcs, b)
    {
      assert BlockOk(l, file, ideal, b);
    }
  }

  lemma BackedBy(l: Layout, file: seq<Byte>, n: nat, ideal: seq<Word>, crcs: seq<Word>)
    requires Consistent(l, file, n, ideal) && SameSlots(l, ideal, crcs)
    ensures Backed(l, file, n, crcs)
  {
    hide BlockCrc;
    forall b | 0 <= b < n && Slotted(l, b)
      ensures BlockOk(l, file, crcs, b)
    {
      assert BlockOk(l, file, ideal, b);
    }
  }

  /** With a slot for every block there is no difference. */
  lemma BackedFits(l: Layout, file: seq<Byte>, n: nat, crcs: seq<Word>)
    ensures Consistent(l, file, n, crcs) ==> Backed(l, file, n, crcs)
    ensures Backed(l, file, n, crcs) && (l.format.MooseFS? ==> n <= l.MaxBlocks()) ==> Consistent(l, file, n, crcs)
  {
    hide BlockOk;
  }

  /** Behind the blocks that have a slot the chunk stands for zeros. */
  ghost predicate TailZero(l: Layout, file: seq<Byte>, n: nat)
    requires l.Valid() && |file| == l.FileSize(n)
  {
    l.format.MooseFS? ==> forall i: nat :: i >= l.MaxBlocks() * BLOCK_SIZE ==> View(l, file, n, i) == 0
  }

  /** Files with the same blocks stand for the same bytes. */
  lemma BlocksAreView(l: Layout, file: seq<Byte>, file': seq<Byte>, n: nat)
    requires l.Valid() && |file| == l.FileSize(n) && |file'| == l.FileSize(n)
    requires forall b: nat :: BlockAt(l, file', n, b) == BlockAt(l, file, n, b)
    ensures forall i: nat :: View(l, file', n, i) == View(l, file, n, i)
    ensures TailZero(l, file, n) ==> TailZero(l, file', n)
  {
    hide BlockAt;
    forall i: nat
      ensures View(l, file', n, i) == View(l, file, n, i)
    {
      assert BlockAt(l, file', n, i / BLOCK_SIZE) == BlockAt(l, file, n, i / BLOCK_SIZE);
    }
    hide View;
  }

  // ----- Small operations on blocks.

  function Patch(block: seq<Byte>, off: nat, d: seq<Byte>): (r: seq<Byte>)
    requires off + |d| <= |block|
    ensures |r| == |block|
  {
    block[..off] + d + block[off + |d|..]
  }

  /** The first `keep` bytes of a block, then zeros. */
  function Clip(block: seq<Byte>, keep: int): (r: seq<Byte>)
    ensures |r| == |block|
  {
    if keep <= 0 then Zeros(|block|)
    else if keep >= |block| then block
    else block[..keep] + Zeros(|block| - keep)
  }

  function FillEmpty(crcs: seq<Word>, from: nat, to: nat): (r: seq<Word>)
    ensures |r| == |crcs|
    ensures forall b {:trigger r[b]} :: 0 <= b < |r| ==> r[b] == if from <= b < to then ZerosCrc(BLOCK_SIZE) else crcs[b]
  {
    if crcs == [] then []
    else
      var last := |crcs| - 1;
      FillEmpty(crcs[..last], from, to) + [if from <= last < to then ZerosCrc(BLOCK_SIZE) else crcs[last]]
  }

  // ----- Growing.

  lemma GrowConsistent(l: Layout, file: seq<Byte>, n: nat, crcs: seq<Word>, m: nat)
    requires Consistent(l, file, n, crcs) && n <= m <= BLOCKS_IN_CHUNK
    ensures Consistent(l, Ftruncate(file, l.FileSize(m)), m, FillEmpty(crcs, n, m))
    ensures forall b: nat :: BlockAt(l, Ftruncate(file, l.FileSize(m)), m, b) == BlockAt(l, file, n, b)
  {
    hide BlockCrc, ZerosCrc;
    var grown, filled := Ftruncate(file, l.FileSize(m)), FillEmpty(crcs, n, m);
    ZerosCrcIsCrc(BLOCK_SIZE);
    forall b | 0 <= b < m
      ensures BlockOk(l, grown, filled, b)
      ensures l.Block(grown, b) == BlockAt(l, file, n, b)
    {
      assert l.Block(grown, b) == BlockAt(l, file, n, b);
      if b < n {
        assert BlockOk(l, file, crcs, b);
        assert l.format.Interleaved? ==> l.CrcField(grown, b) == l.CrcField(file, b);
      } else {
        assert l.format.Interleaved? ==> l.CrcField(grown, b) == Zeros(CRC_SIZE);
      }
    }
  }

  // ----- Writing inside a block.

  /** The file after the data, and in the interleaved format the checksum, of block `b` are written. */
  function Rewritten(l: Layout, file: seq<Byte>, b: nat, off: nat, d: seq<Byte>, crc: Word): seq<Byte>
    requires l.Valid()
  {
    if l.format.MooseFS? then Pwrite(file, l.DataOffset(b) + off, d)
    else Pwrite(Pwrite(file, l.CrcOffset(b), Put32(crc)), l.DataOffset(b) + off, d)
  }

  lemma PwriteInside(file: seq<Byte>, off: nat, d: seq<Byte>, lo: nat, hi: nat)
    requires lo <= off && off + |d| <= hi <= |file|
    ensures |Pwrite(file, off, d)| == |file|
    ensures Pwrite(file, off, d)[lo..hi] == Patch(file[lo..hi], off - lo, d)
  {
    var x, y := Pwrite(file, off, d), Patch(file[lo..hi], off - lo, d);
    hide Pwrite;
    assert |x| == |file| && |x[lo..hi]| == |y|;
    forall i | 0 <= i < hi - lo
      ensures x[lo..hi][i] == y[i]
    {
      assert x[lo + i] == if off <= lo + i < off + |d| then d[lo + i - off] else file[lo + i];
    }
  }

  lemma PwriteOutside(file: seq<Byte>, off: nat, d: seq<Byte>, lo: nat, hi: nat)
    requires off + |d| <= |file| && lo <= hi <= |file| && (hi <= off || off + |d| <= lo)
    ensures |Pwrite(file, off, d)| == |file|
    ensures Pwrite(file, off, d)[lo..hi] == file[lo..hi]
  {
    var x := Pwrite(file, off, d);
    hide Pwrite;
    forall i | lo <= i < hi
      ensures x[i] == file[i]
    {
    }
  }

  /** One block after `d` is written into block `b`. */
  lemma WriteIntoBlock(l: Layout, file: seq<Byte>, n: nat, b: nat, off: nat, d: seq<Byte>, h: nat)
    requires l.Valid() && |file| == l.FileSize(n) && b < n && h < n && off + |d| <= BLOCK_SIZE
    ensures var file' := Pwrite(file, l.DataOffset(b) + off, d);
            && |file'| == |file|
            && l.FileSize(h + 1) <= |file|
            && l.Block(file', h) == if h == b then Patch(l.Block(file, b), off, d) else l.Block(file, h)
  {
    hide Pwrite, Patch;
    var lo := l.DataOffset(h);
    if h == b {
      PwriteInside(file, l.DataOffset(b) + off, d, lo, lo + BLOCK_SIZE);
    } else {
      PwriteOutside(file, l.DataOffset(b) + off, d, lo, lo + BLOCK_SIZE);
    }
  }

  /** Interleaved checksum fields are not touched by a write into a block. */
  lemma WriteKeepsCrcField(l: Layout, file: seq<Byte>, n: nat, b: nat, off: nat, d: seq<Byte>, h: nat)
    requires l.Valid() && l.format.Interleaved? && |file| == l.FileSize(n) && b < n && h < n && off + |d| <= BLOCK_SIZE
    ensures var file' := Pwrite(file, l.DataOffset(b) + off, d);
            |file'| == |file| && l.CrcField(file', h) == l.CrcField(file, h)
  {
    hide Pwrite;
    PwriteOutside(file, l.DataOffset(b) + off, d, l.CrcOffset(h), l.CrcOffset(h) + CRC_SIZE);
  }

  /** Writing an interleaved checksum field changes that field and no block. */
  lemma WriteCrcField(l: Layout, file: seq<Byte>, n: nat, b: nat, crc: seq<Byte>, h: nat)
    requires l.Valid() && l.format.Interleaved? && |file| == l.FileSize(n) && b < n && h < n && |crc| == CRC_SIZE
    ensures var file' := Pwrite(file, l.CrcOffset(b), crc);
            && |file'| == |file|
            && l.Block(file', h) == l.Block(file, h)
            && l.CrcField(file', h) == if h == b then crc else l.CrcField(file, h)
  {
    hide Pwrite;
    PwriteOutside(file, l.CrcOffset(b), crc, l.DataOffset(h), l.DataOffset(h) + BLOCK_SIZE);
    if h == b {
      PwriteInside(file, l.CrcOffset(b), crc, l.CrcOffset(h), l.CrcOffset(h) + CRC_SIZE);
    } else {
      PwriteOutside(file, l.CrcOffset(b), crc, l.CrcOffset(h), l.CrcOffset(h) + CRC_SIZE);
    }
  }

  /** One block of the rewritten file, and its interleaved checksum field. */
  lemma RewriteBlock(l: Layout, file: seq<Byte>, n: nat, b: nat, off: nat, d: seq<Byte>, crc: Word, h: nat)
    requires l.Valid() && |file| == l.FileSize(n) && b < n && h < n && off + |d| <= BLOCK_SIZE
    ensures var file' := Rewritten(l, file, b, off, d, crc);
            && |file'| == |file|
            && l.FileSize(h + 1) <= |file|
            && l.Block(file', h) == (if h == b then Patch(l.Block(file, b), off, d) else l.Block(file, h))
            && (l.format.Interleaved? ==> l.CrcField(file', h) == if h == b then Put32(crc) else l.CrcField(file, h))
  {
    hide Pwrite, Put32, Patch, Layout.Block, Layout.CrcField;
    if l.format.MooseFS? {
      WriteIntoBlock(l, file, n, b, off, d, h);
    } else {
      var mid := Pwrite(file, l.CrcOffset(b), Put32(crc));
      WriteCrcField(l, file, n, b, Put32(crc), h);
      WriteCrcField(l, file, n, b, Put32(crc), b);
      WriteIntoBlock(l, mid, n, b, off, d, h);
      WriteKeepsCrcField(l, mid, n, b, off, d, h);
    }
  }

  lemma RewriteConsistent(l: Layout, file: seq<Byte>, n: nat, crcs: seq<Word>, b: nat, off: nat, d: seq<Byte>, crc: Word)
    requires Consistent(l, file, n, crcs) && b < n && off + |d| <= BLOCK_SIZE
    requires crc == BlockCrc(Patch(l.Block(file, b), off, d))
    ensures |Rewritten(l, file, b, off, d, crc)| == |file|
    ensures Consistent(l, Rewritten(l, file, b, off, d, crc), n, if l.format.MooseFS? then crcs[b := crc] else crcs)
    ensures forall h: nat :: BlockAt(l, Rewritten(l, file, b, off, d, crc), n, h) ==
                             if h == b then Patch(l.Block(file, b), off, d) else BlockAt(l, file, n, h)
  {
    hide BlockCrc, Put32, Rewritten, Patch, Layout.BlockOffset;
    var file' := Rewritten(l, file, b, off, d, crc);
    var crcs' := if l.format.MooseFS? then crcs[b := crc] else crcs;
    RewriteBlock(l, file, n, b, off, d, crc, b);
    forall h | 0 <= h < n
      ensures l.FileSize(h + 1) <= |file'| && BlockOk(l, file', crcs', h)
      ensures l.Block(file', h) == if h == b then Patch(l.Block(file, b), off, d) else l.Block(file, h)
    {
      RewriteBlock(l, file, n, b, off, d, crc, h);
      assert BlockOk(l, file, crcs, h);
    }
  }

  /** Writing a whole block past the end grows the file first: the hole reads as zeros. */
  lemma RewritePastEnd(l: Layout, file: seq<Byte>, n: nat, b: nat, d: seq<Byte>, crc: Word)
    requires l.Valid() && |file| == l.FileSize(n) && n <= b && |d| == BLOCK_SIZE
    ensures Rewritten(l, file, b, 0, d, crc) == Rewritten(l, Ftruncate(file, l.FileSize(b + 1)), b, 0, d, crc)
  {
    hide Put32;
  }

  // ----- Shrinking.

  /** The file after the two `ftruncate` calls of a shrink to `length` bytes. */
  function Cut(l: Layout, file: seq<Byte>, length: nat): seq<Byte>
    requires l.Valid()
  {
    var full, part := length / BLOCK_SIZE, length % BLOCK_SIZE;
    if part == 0 then Ftruncate(file, l.FileSize(full))
    else Ftruncate(Ftruncate(file, l.DataOffset(full) + part), l.FileSize(full + 1))
  }

  function BlockCount(length: nat): nat {
    (length + BLOCK_SIZE - 1) / BLOCK_SIZE
  }

  lemma BlockCountSplit(length: nat)
    ensures BlockCount(length) == length / BLOCK_SIZE + if length % BLOCK_SIZE == 0 then 0 else 1
    ensures length <= CHUNK_SIZE ==> BlockCount(length) <= BLOCKS_IN_CHUNK
  {
  }

  /** How much of the file a cut keeps. */
  function Kept(l: Layout, length: nat): nat
    requires l.Valid()
  {
    var full, part := length / BLOCK_SIZE, length % BLOCK_SIZE;
    if part == 0 then l.FileSize(full) else l.DataOffset(full) + part
  }

  /** A cut keeps the front of the file; a begun last block is filled up with zeros. */
  lemma CutShape(l: Layout, file: seq<Byte>, n: nat, length: nat)
    requires l.Valid() && |file| == l.FileSize(n) && BlockCount(length) <= n
    ensures |Cut(l, file, length)| == l.FileSize(BlockCount(length))
    ensures Kept(l, length) <= |Cut(l, file, length)| && Kept(l, length) <= |file|
    ensures Cut(l, file, length)[..Kept(l, length)] == file[..Kept(l, length)]
    ensures Cut(l, file, length)[Kept(l, length)..] == Zeros(|Cut(l, file, length)| - Kept(l, length))
  {
    BlockCountSplit(length);
  }

  lemma PrefixSlice(s: seq<Byte>, t: seq<Byte>, k: nat, lo: nat, hi: nat)
    requires k <= |s| && k <= |t| && s[..k] == t[..k] && lo <= hi <= k
    ensures s[lo..hi] == t[lo..hi]
  {
    SliceOfSlice(s, 0, k, lo, hi);
    SliceOfSlice(t, 0, k, lo, hi);
  }

  lemma PaddedSlice(s: seq<Byte>, t: seq<Byte>, k: nat, lo: nat, hi: nat)
    requires lo <= k <= hi <= |s| && hi <= |t| && s[..k] == t[..k] && s[k..] == Zeros(|s| - k)
    ensures s[lo..hi] == t[lo..hi][..k - lo] + Zeros(hi - k)
  {
    var x, y := s[lo..hi], t[lo..hi][..k - lo] + Zeros(hi - k);
    forall i | 0 <= i < hi - lo
      ensures x[i] == y[i]
    {
      if lo + i < k {
        assert s[..k][lo + i] == t[..k][lo + i];
      } else {
        assert s[k..][lo + i - k] == 0;
      }
    }
  }

  lemma CutFullBlock(l: Layout, file: seq<Byte>, n: nat, length: nat, b: nat)
    requires l.Valid() && |file| == l.FileSize(n) && BlockCount(length) <= n && b < length / BLOCK_SIZE
    ensures l.FileSize(b + 1) <= |Cut(l, file, length)|
    ensures l.Block(Cut(l, file, length), b) == l.Block(file, b)
    ensures l.format.Interleaved? ==> l.CrcField(Cut(l, file, length), b) == l.CrcField(file, b)
  {
    hide Cut;
    BlockCountSplit(length);
    CutShape(l, file, n, length);
    assert l.FileSize(b + 1) <= Kept(l, length);
    PrefixSlice(Cut(l, file, length), file, Kept(l, length), l.DataOffset(b), l.DataOffset(b) + BLOCK_SIZE);
    if l.format.Interleaved? {
      PrefixSlice(Cut(l, file, length), file, Kept(l, length), l.CrcOffset(b), l.CrcOffset(b) + CRC_SIZE);
    }
  }

  lemma CutLastBlock(l: Layout, file: seq<Byte>, n: nat, length: nat)
    requires l.Valid() && |file| == l.FileSize(n) && BlockCount(length) <= n && length % BLOCK_SIZE > 0
    ensures l.FileSize(length / BLOCK_SIZE + 1) <= |Cut(l, file, length)| && length / BLOCK_SIZE < n
    ensures l.Block(Cut(l, file, length), length / BLOCK_SIZE) == Clip(l.Block(file, length / BLOCK_SIZE), length % BLOCK_SIZE)
  {
    hide Cut;
    BlockCountSplit(length);
    CutShape(l, file, n, length);
    var full := length / BLOCK_SIZE;
    PaddedSlice(Cut(l, file, length), file, Kept(l, length), l.DataOffset(full), l.DataOffset(full) + BLOCK_SIZE);
  }

  /** How much of block `b` a cut at `length` keeps. */
  lemma Remaining(length: nat, b: nat)
    ensures b < length / BLOCK_SIZE ==> length - b * BLOCK_SIZE >= BLOCK_SIZE
    ensures b == length / BLOCK_SIZE ==> length - b * BLOCK_SIZE == length % BLOCK_SIZE
    ensures b > length / BLOCK_SIZE ==> length - b * BLOCK_SIZE <= 0
  {
  }

  lemma CutBlock(l: Layout, file: seq<Byte>, n: nat, length: nat, b: nat)
    requires l.Valid() && |file| == l.FileSize(n) && BlockCount(length) <= n && |Cut(l, file, length)| == l.FileSize(BlockCount(length))
    ensures BlockAt(l, Cut(l, file, length), BlockCount(length), b) == Clip(BlockAt(l, file, n, b), length - b * BLOCK_SIZE)
  {
    BlockCountSplit(length);
    Remaining(length, b);
    hide Cut, BlockCount, Layout.Block, Layout.BlockOffset, Layout.FileSize;
    if b < length / BLOCK_SIZE {
      CutFullBlock(l, file, n, length, b);
    } else if b < BlockCount(length) {
      CutLastBlock(l, file, n, length);
    }
  }

  lemma CutBlocks(l: Layout, file: seq<Byte>, n: nat, length: nat)
    requires l.Valid() && |file| == l.FileSize(n) && BlockCount(length) <= n
    ensures |Cut(l, file, length)| == l.FileSize(BlockCount(length))
    ensures forall b: nat :: BlockAt(l, Cut(l, file, length), BlockCount(length), b) ==
                        Clip(BlockAt(l, file, n, b), length - b * BLOCK_SIZE)
    ensures l.format.Interleaved? ==> forall b :: 0 <= b < length / BLOCK_SIZE ==>
              l.CrcField(Cut(l, file, length), b) == l.CrcField(file, b)
  {
    hide Cut, BlockAt, Clip, BlockCount;
    CutShape(l, file, n, length);
    forall b: nat
      ensures BlockAt(l, Cut(l, file, length), BlockCount(length), b) == Clip(BlockAt(l, file, n, b), length - b * BLOCK_SIZE)
    {
      CutBlock(l, file, n, length, b);
    }
    forall b | 0 <= b < length / BLOCK_SIZE && l.format.Interleaved?
      ensures l.CrcField(Cut(l, file, length), b) == l.CrcField(file, b)
    {
      CutFullBlock(l, file, n, length, b);
    }
  }

  /** What a shrink to `length` leaves of the file and the checksum table. */
  ghost predicate Shrunk(l: Layout, file: seq<Byte>, n: nat, crcs: seq<Word>, length: nat,
                         file': seq<Byte>, crcs': seq<Word>)
    requires l.Valid()
  {
    var full, part, cut := length / BLOCK_SIZE, length % BLOCK_SIZE, Cut(l, file, length);
    && |crcs'| == |crcs|
    && (l.format.MooseFS? ==> full <= |crcs| && crcs'[..full] == crcs[..full])
    && if part == 0 then file' == cut
       else
         var off := l.DataOffset(full);
         && off + part <= |cut|
         && var crc := ZeroExpandedCrc(cut[off..off + part], BLOCK_SIZE - part);
         if l.format.MooseFS? then file' == cut && full < |crcs| && crcs'[full] == crc
         else file' == Pwrite(cut, l.CrcOffset(full), Put32(crc))
  }

  /** The partial last block of a shrunk file carries the checksum of its zero-extended bytes. */
  lemma ShrunkLastBlock(l: Layout, file: seq<Byte>, n: nat, crcs: seq<Word>, length: nat,
                        file': seq<Byte>, crcs': seq<Word>)
    requires l.Valid() && |file| == l.FileSize(n) && BlockCount(length) <= n
    requires Shrunk(l, file, n, crcs, length, file', crcs') && length % BLOCK_SIZE != 0
    requires l.format.MooseFS? ==> n <= |crcs|
    ensures |file'| == l.FileSize(BlockCount(length)) == l.FileSize(length / BLOCK_SIZE + 1)
    ensures BlockOk(l, file', crcs', length / BLOCK_SIZE)
    ensures l.Block(file', length / BLOCK_SIZE) == l.Block(Cut(l, file, length), length / BLOCK_SIZE)
  {
    hide BlockCrc, Put32, ZeroExpandedCrc, ZerosCrc, Pwrite, FillEmpty, Cut, BlockAt, Layout.Block, Layout.HeaderSize, Layout.MaxBlocks;
    BlockCountSplit(length);
    CutLast(l, file, n, length);
    var full, part, cut := length / BLOCK_SIZE, length % BLOCK_SIZE, Cut(l, file, length);
    var off := l.DataOffset(full);
    var head := cut[off..off + part];
    ZeroExpandedCrcIsCrc(head, BLOCK_SIZE - part);
    if l.format.Interleaved? {
      WriteCrcField(l, cut, BlockCount(length), full, Put32(ZeroExpandedCrc(head, BLOCK_SIZE - part)), full);
    }
  }

  /** The last block of a cut file: what is left of it, then zeros. */
  lemma CutLast(l: Layout, file: seq<Byte>, n: nat, length: nat)
    requires l.Valid() && |file| == l.FileSize(n) && BlockCount(length) <= n && length % BLOCK_SIZE != 0
    ensures |Cut(l, file, length)| == l.FileSize(BlockCount(length)) == l.FileSize(length / BLOCK_SIZE + 1)
    ensures var full, part, cut := length / BLOCK_SIZE, length % BLOCK_SIZE, Cut(l, file, length);
            var off := l.DataOffset(full);
            off + part <= |cut| && l.Block(cut, full) == cut[off..off + part] + Zeros(BLOCK_SIZE - part)
  {
    hide Cut, Layout.HeaderSize, Layout.MaxBlocks;
    BlockCountSplit(length);
    CutBlocks(l, file, n, length);
    var full, part, cut := length / BLOCK_SIZE, length % BLOCK_SIZE, Cut(l, file, length);
    var off := l.DataOffset(full);
    assert l.Block(cut, full) == BlockAt(l, cut, BlockCount(length), full);
    assert l.Block(cut, full)[..part] == cut[off..off + part];
  }

  lemma FullBlockKept(l: Layout, file: seq<Byte>, n: nat, length: nat, b: nat)
    requires l.Valid() && |file| == l.FileSize(n) && BlockCount(length) <= n && b < length / BLOCK_SIZE
    ensures |Cut(l, file, length)| == l.FileSize(BlockCount(length)) && b < BlockCount(length)
    ensures l.Block(Cut(l, file, length), b) == l.Block(file, b)
  {
    hide Cut;
    BlockCountSplit(length);
    CutBlocks(l, file, n, length);
    assert l.Block(Cut(l, file, length), b) == BlockAt(l, Cut(l, file, length), BlockCount(length), b);
    assert l.Block(file, b) == BlockAt(l, file, n, b);
  }

  lemma ShrunkFullBlock(l: Layout, file: seq<Byte>, n: nat, crcs: seq<Word>, length: nat,
                        file': seq<Byte>, crcs': seq<Word>, b: nat)
    requires Consistent(l, file, n, crcs) && BlockCount(length) <= n && b < length / BLOCK_SIZE
    requires Shrunk(l, file, n, crcs, length, file', crcs')
    ensures |file'| == l.FileSize(BlockCount(length)) && l.FileSize(b + 1) <= |file'|
    ensures l.format.MooseFS? ==> b < |crcs'|
    ensures BlockOk(l, file', crcs', b)
    ensures l.Block(file', b) == l.Block(Cut(l, file, length), b)
  {
    hide BlockCrc, Put32, ZeroExpandedCrc, ZerosCrc, Pwrite, FillEmpty, Cut, Layout.Block, BlockAt;
    BlockCountSplit(length);
    CutBlocks(l, file, n, length);
    var full, part, cut, m := length / BLOCK_SIZE, length % BLOCK_SIZE, Cut(l, file, length), BlockCount(length);
    assert BlockOk(l, file, crcs, b);
    FullBlockKept(l, file, n, length, b);
    if l.format.MooseFS? {
      assert crcs'[b] == crcs'[..full][b] == crcs[b];
    }
    if part != 0 && l.format.Interleaved? {
      var off := l.DataOffset(full);
      WriteCrcField(l, cut, m, full, Put32(ZeroExpandedCrc(cut[off..off + part], BLOCK_SIZE - part)), b);
    }
  }

  lemma ShrunkBlock(l: Layout, file: seq<Byte>, n: nat, crcs: seq<Word>, length: nat,
                    file': seq<Byte>, crcs': seq<Word>, b: nat)
    requires Consistent(l, file, n, crcs) && BlockCount(length) <= n && b < BlockCount(length)
    requires Shrunk(l, file, n, crcs, length, file', crcs')
    ensures |file'| == l.FileSize(BlockCount(length)) && l.FileSize(b + 1) <= |file'|
    ensures l.format.MooseFS? ==> b < |crcs'|
    ensures BlockOk(l, file', crcs', b)
    ensures l.Block(file', b) == Clip(BlockAt(l, file, n, b), length - b * BLOCK_SIZE)
  {
    hide BlockCrc, BlockOk, Cut, Clip, Shrunk;
    BlockCountSplit(length);
    CutBlocks(l, file, n, length);
    ShrunkSizes(l, file, n, crcs, length, file', crcs');
    assert BlockAt(l, Cut(l, file, length), BlockCount(length), b) == l.Block(Cut(l, file, length), b);
    if b < length / BLOCK_SIZE {
      ShrunkFullBlock(l, file, n, crcs, length, file', crcs', b);
    } else {
      ShrunkLastBlock(l, file, n, crcs, length, file', crcs');
    }
  }

  lemma ShrunkSizes(l: Layout, file: seq<Byte>, n: nat, crcs: seq<Word>, length: nat,
                    file': seq<Byte>, crcs': seq<Word>)
    requires Consistent(l, file, n, crcs) && BlockCount(length) <= n
    requires Shrunk(l, file, n, crcs, length, file', crcs')
    ensures |file'| == l.FileSize(BlockCount(length)) && |crcs'| == |crcs|
  {
    hide BlockCrc, BlockOk, Cut, Clip;
    BlockCountSplit(length);
    CutBlocks(l, file, n, length);
    if length % BLOCK_SIZE != 0 {
      ShrunkLastBlock(l, file, n, crcs, length, file', crcs');
    }
  }

  lemma ShrinkConsistent(l: Layout, file: seq<Byte>, n: nat, crcs: seq<Word>, length: nat,
                         file': seq<Byte>, crcs': seq<Word>)
    requires Consistent(l, file, n, crcs) && BlockCount(length) <= n
    requires Shrunk(l, file, n, crcs, length, file', crcs')
    ensures Consistent(l, file', BlockCount(length), crcs')
    ensures forall b: nat :: BlockAt(l, file', BlockCount(length), b) ==
                             Clip(BlockAt(l, file, n, b), length - b * BLOCK_SIZE)
  {
    hide BlockOk, Clip, Shrunk, BlockCount, Layout.Block, Layout.FileSize;
    ShrunkSizes(l, file, n, crcs, length, file', crcs');
    forall b | 0 <= b < BlockCount(length)
      ensures l.FileSize(b + 1) <= |file'| && (l.format.MooseFS? ==> b < |crcs'|)
      ensures BlockOk(l, file', crcs', b)
      ensures BlockAt(l, file', BlockCount(length), b) == Clip(BlockAt(l, file, n, b), length - b * BLOCK_SIZE)
    {
      ShrunkBlock(l, file, n, crcs, length, file', crcs', b);
    }
    forall b: nat | BlockCount(length) <= b
      ensures Zeros(BLOCK_SIZE) == Clip(BlockAt(l, file, n, b), length - b * BLOCK_SIZE)
    {
      ClipPastEnd(BlockAt(l, file, n, b), length, b);
    }
  }

  lemma ClipPastEnd(block: seq<Byte>, length: nat, b: nat)
    requires |block| == BLOCK_SIZE && BlockCount(length) <= b
    ensures Clip(block, length - b * BLOCK_SIZE) == Zeros(BLOCK_SIZE)
  {
  }

  // ----- The checksum table in the header of the `MooseFS` format.

  /** The `MooseFS` checksum table as the header holds it. */
  function EncodeCrcs(crcs: seq<Word>): (d: seq<Byte>)
    ensures |d| == CRC_SIZE * |crcs|
  {
    if crcs == [] then [] else EncodeCrcs(crcs[..|crcs| - 1]) + Put32(crcs[|crcs| - 1])
  }

  /** Entry `b` of the checksum table on disk. */
  function DiskCrc(l: Layout, file: seq<Byte>, b: nat): Word
    requires l.Valid() && l.format.MooseFS? && l.HeaderSize() <= |file| && b < l.MaxBlocks()
  {
    Get32(l.CrcField(file, b))
  }

  /** The in-memory table agrees with the header on every entry the header has room for. */
  ghost predicate Flushed(l: Layout, file: seq<Byte>, crcs: seq<Word>) {
    l.Valid() && l.format.MooseFS? ==>
      && l.HeaderSize() <= |file|
      && |crcs| == BLOCKS_IN_CHUNK
      && forall b :: 0 <= b < l.MaxBlocks() ==> DiskCrc(l, file, b) == crcs[b]
  }

  lemma {:induction false} EncodedEntry(crcs: seq<Word>, b: nat)
    requires b < |crcs|
    ensures EncodeCrcs(crcs)[CRC_SIZE * b..CRC_SIZE * b + CRC_SIZE] == Put32(crcs[b])
    decreases |crcs|
  {
    hide Put32;
    var last := |crcs| - 1;
    if b < last {
      EncodedEntry(crcs[..last], b);
      assert EncodeCrcs(crcs)[CRC_SIZE * b..CRC_SIZE * b + CRC_SIZE] ==
             EncodeCrcs(crcs[..last])[CRC_SIZE * b..CRC_SIZE * b + CRC_SIZE];
    }
  }

  /** Writing the table back puts every entry on disk and touches no block. */
  lemma FlushCrcs(l: Layout, file: seq<Byte>, n: nat, crcs: seq<Word>)
    requires Consistent(l, file, n, crcs) && l.format.MooseFS?
    ensures var file' := Pwrite(file, SIGNATURE_BLOCK_SIZE, EncodeCrcs(crcs[..l.MaxBlocks()]));
            && Flushed(l, file', crcs)
            && Consistent(l, file', n, crcs)
            && forall b: nat :: BlockAt(l, file', n, b) == BlockAt(l, file, n, b)
  {
    hide BlockCrc, EncodeCrcs, Pwrite, Put32, Get32;
    var table := EncodeCrcs(crcs[..l.MaxBlocks()]);
    var file' := Pwrite(file, SIGNATURE_BLOCK_SIZE, table);
    assert |file'| == |file| by {
      PwriteOutside(file, SIGNATURE_BLOCK_SIZE, table, 0, 0);
    }
    forall b | 0 <= b < l.MaxBlocks()
      ensures DiskCrc(l, file', b) == crcs[b]
    {
      var lo := l.CrcOffset(b);
      EncodedEntry(crcs[..l.MaxBlocks()], b);
      PwriteCovers(file, SIGNATURE_BLOCK_SIZE, table, lo, lo + CRC_SIZE);
      GetPut32(crcs[b]);
    }
    forall b | 0 <= b < n
      ensures l.Block(file', b) == l.Block(file, b)
      ensures BlockOk(l, file', crcs, b)
    {
      PwriteOutside(file, SIGNATURE_BLOCK_SIZE, table, l.DataOffset(b), l.DataOffset(b) + BLOCK_SIZE);
      assert BlockOk(l, file, crcs, b);
    }
  }

  /** Writing inside the signature area leaves the checksum table and every block alone. */
  lemma SignatureWrite(l: Layout, file: seq<Byte>, n: nat, crcs: seq<Word>, off: nat, d: seq<Byte>)
    requires Consistent(l, file, n, crcs) && l.format.MooseFS? && off + |d| <= SIGNATURE_BLOCK_SIZE
    ensures var file' := Pwrite(file, off, d);
            && Consistent(l, file', n, crcs)
            && (Flushed(l, file, crcs) ==> Flushed(l, file', crcs))
            && forall b: nat :: BlockAt(l, file', n, b) == BlockAt(l, file, n, b)
  {
    hide BlockCrc, Pwrite, Put32, Get32;
    var file' := Pwrite(file, off, d);
    assert |file'| == |file| by {
      PwriteOutside(file, off, d, off + |d|, off + |d|);
    }
    forall b | 0 <= b < l.MaxBlocks()
      ensures l.CrcField(file', b) == l.CrcField(file, b)
    {
      PwriteOutside(file, off, d, l.CrcOffset(b), l.CrcOffset(b) + CRC_SIZE);
    }
    if Flushed(l, file, crcs) {
      forall b | 0 <= b < l.MaxBlocks()
        ensures DiskCrc(l, file', b) == crcs[b]
      {
        assert DiskCrc(l, file, b) == crcs[b];
      }
    }
    forall b | 0 <= b < n
      ensures l.Block(file', b) == l.Block(file, b)
      ensures BlockOk(l, file', crcs, b)
    {
      PwriteOutside(file, off, d, l.DataOffset(b), l.DataOffset(b) + BLOCK_SIZE);
      assert BlockOk(l, file, crcs, b);
    }
  }

  lemma SlotsPrefix(l: Layout, a: seq<Word>, b: seq<Word>)
    requires SameSlots(l, a, b) && l.Valid() && l.format.MooseFS?
    ensures a[..l.MaxBlocks()] == b[..l.MaxBlocks()]
  {
  }

  lemma FlushBacked(l: Layout, file: seq<Byte>, n: nat, crcs: seq<Word>)
    requires Backed(l, file, n, crcs) && l.format.MooseFS?
    ensures var file' := Pwrite(file, SIGNATURE_BLOCK_SIZE, EncodeCrcs(crcs[..l.MaxBlocks()]));
            && Flushed(l, file', crcs) && Backed(l, file', n, crcs)
            && (Consistent(l, file, n, crcs) ==> Consistent(l, file', n, crcs))
            && forall b: nat :: BlockAt(l, file', n, b) == BlockAt(l, file, n, b)
  {
    hide Consistent, Pwrite, EncodeCrcs, BlockAt, Completed;
    CompletedIsConsistent(l, file, n, crcs);
    var ideal := Completed(l, file, n, crcs);
    SlotsPrefix(l, ideal, crcs);
    FlushCrcs(l, file, n, ideal);
    var file' := Pwrite(file, SIGNATURE_BLOCK_SIZE, EncodeCrcs(crcs[..l.MaxBlocks()]));
    BackedBy(l, file', n, ideal, crcs);
    SlotsFlushed(l, file', ideal, crcs);
    if Consistent(l, file, n, crcs) {
      FlushCrcs(l, file, n, crcs);
    }
  }

  lemma SlotsFlushed(l: Layout, file: seq<Byte>, a: seq<Word>, b: seq<Word>)
    requires SameSlots(l, a, b) && Flushed(l, file, a)
    ensures Flushed(l, file, b)
  {
    hide DiskCrc;
  }

  lemma SignatureBacked(l: Layout, file: seq<Byte>, n: nat, crcs: seq<Word>, off: nat, d: seq<Byte>)
    requires Backed(l, file, n, crcs) && l.format.MooseFS? && off + |d| <= SIGNATURE_BLOCK_SIZE
    ensures var file' := Pwrite(file, off, d);
            && Backed(l, file', n, crcs)
            && (Consistent(l, file, n, crcs) ==> Consistent(l, file', n, crcs))
            && (Flushed(l, file, crcs) ==> Flushed(l, file', crcs))
            && forall b: nat :: BlockAt(l, file', n, b) == BlockAt(l, file, n, b)
  {
    hide Consistent, Pwrite, BlockAt, Flushed, Completed;
    CompletedIsConsistent(l, file, n, crcs);
    var ideal := Completed(l, file, n, crcs);
    SignatureWrite(l, file, n, ideal, off, d);
    var file' := Pwrite(file, off, d);
    BackedBy(l, file', n, ideal, crcs);
    if Flushed(l, file, crcs) {
      SlotsFlushed(l, file, crcs, ideal);
      SlotsFlushed(l, file', ideal, crcs);
    }
    if Consistent(l, file, n, crcs) {
      SignatureWrite(l, file, n, crcs, off, d);
    }
  }

  lemma PwriteCovers(file: seq<Byte>, off: nat, d: seq<Byte>, lo: nat, hi: nat)
    requires off <= lo <= hi <= off + |d| <= |file|
    ensures |Pwrite(file, off, d)| == |file|
    ensures Pwrite(file, off, d)[lo..hi] == d[lo - off..hi - off]
  {
    hide Pwrite;
    var r := Pwrite(file, off, d);
    if d != [] {
      assert r[off..off + |d|] == d;
      SliceOfSlice(r, off, off + |d|, lo, hi);
    }
  }

  lemma SliceOfSlice(s: seq<Byte>, a: nat, b: nat, lo: nat, hi: nat)
    requires a <= lo <= hi <= b <= |s|
    ensures s[a..b][lo - a..hi - a] == s[lo..hi]
  {
    var x, y := s[a..b][lo - a..hi - a], s[lo..hi];
    forall i | 0 <= i < |x|
      ensures x[i] == y[i]
    {
      assert x[i] == s[a..b][lo - a + i] == s[lo + i];
    }
  }

  /** A table just read from the header: entries the header has no room for are zero. */
  ghost predicate Loaded(l: Layout, file: seq<Byte>, crcs: seq<Word>) {
    && Flushed(l, file, crcs)
    && (l.Valid() && l.format.MooseFS? ==> forall b :: l.MaxBlocks() <= b < BLOCKS_IN_CHUNK ==> crcs[b] == ZERO)
  }

  /** Every block for which the header has no room has the checksum zero. */
  ghost predicate SlotlessZero(l: Layout, file: seq<Byte>, n: nat)
    requires l.Valid() && |file| == l.FileSize(n)
  {
    l.format.MooseFS? ==> forall b :: l.MaxBlocks() <= b < n ==> BlockCrc(l.Block(file, b)) == ZERO
  }

  /** A table read back from the header has every slot, and is as good as any exactly when no checksum is lost. */
  lemma ReloadConsistent(l: Layout, file: seq<Byte>, n: nat, crcs: seq<Word>, reloaded: seq<Word>)
    requires Backed(l, file, n, crcs) && Flushed(l, file, crcs) && Loaded(l, file, reloaded)
    ensures Backed(l, file, n, reloaded)
    ensures Consistent(l, file, n, reloaded) <==> SlotlessZero(l, file, n)
  {
    hide BlockCrc, Get32, Put32;
    forall b | 0 <= b < n && Slotted(l, b)
      ensures BlockOk(l, file, reloaded, b)
    {
      assert BlockOk(l, file, crcs, b);
      if l.format.MooseFS? {
        assert DiskCrc(l, file, b) == crcs[b];
        assert DiskCrc(l, file, b) == reloaded[b];
      }
    }
    if SlotlessZero(l, file, n) {
      forall b | 0 <= b < n
        ensures BlockOk(l, file, reloaded, b)
      {
      }
    }
    if Consistent(l, file, n, reloaded) && l.format.MooseFS? {
      forall b | l.MaxBlocks() <= b < n
        ensures BlockCrc(l.Block(file, b)) == ZERO
      {
        assert BlockOk(l, file, reloaded, b);
      }
    }
  }

  /** A chunk with zeros behind its slots loses no checksum exactly when it has no block there. */
  lemma SlotlessIffTooLong(l: Layout, file: seq<Byte>, n: nat)
    requires l.Valid() && |file| == l.FileSize(n) && TailZero(l, file, n)
    ensures SlotlessZero(l, file, n) <==> l.format.Interleaved? || n <= l.MaxBlocks()
  {
    var b := l.MaxBlocks();
    if l.format.MooseFS? && b < n {
      hide View;
      ZeroBlockView(l, file, n, b);
      EmptyBlockCrcNotZero();
      hide BlockCrc;
      assert BlockCrc(l.Block(file, b)) != ZERO;
    }
  }

  /** Cutting and extending keeps zeros behind the slots. */
  lemma TailZeroCut(l: Layout, was: seq<Byte>, wasBlocks: nat, file: seq<Byte>, n: nat, length: nat)
    requires l.Valid() && |file| == l.FileSize(n) && |was| == l.FileSize(wasBlocks) && TailZero(l, was, wasBlocks)
    requires forall i: nat :: View(l, file, n, i) == if i < length then View(l, was, wasBlocks, i) else 0
    ensures TailZero(l, file, n)
  {
    hide View;
  }

  /** And so does writing to a block that has a slot. */
  lemma TailZeroPatch(l: Layout, was: seq<Byte>, wasBlocks: nat, file: seq<Byte>, n: nat, b: nat, off: nat, d: seq<Byte>)
    requires l.Valid() && |file| == l.FileSize(n) && |was| == l.FileSize(wasBlocks) && TailZero(l, was, wasBlocks)
    requires Slotted(l, b) && off + |d| <= BLOCK_SIZE
    requires forall i: nat :: View(l, file, n, i) ==
                              var lo := b * BLOCK_SIZE + off; if lo <= i < lo + |d| then d[i - lo] else View(l, was, wasBlocks, i)
    ensures TailZero(l, file, n)
  {
    hide View;
  }

  lemma ZeroBlockView(l: Layout, file: seq<Byte>, n: nat, b: nat)
    requires l.Valid() && |file| == l.FileSize(n) && b < n
    requires forall i: nat :: i >= b * BLOCK_SIZE ==> View(l, file, n, i) == 0
    ensures l.Block(file, b) == Zeros(BLOCK_SIZE)
  {
    hide BlockAt;
    var d := BlockAt(l, file, n, b);
    forall k | 0 <= k < BLOCK_SIZE
      ensures d[k] == 0
    {
      var i := b * BLOCK_SIZE + k;
      assert i / BLOCK_SIZE == b && i % BLOCK_SIZE == k;
      assert View(l, file, n, i) == 0;
    }
    BlockAtInside(l, file, n, b);
  }

  lemma BlockAtInside(l: Layout, file: seq<Byte>, n: nat, b: nat)
    requires l.Valid() && |file| == l.FileSize(n) && b < n
    ensures BlockAt(l, file, n, b) == l.Block(file, b)
  {
  }

  // ----- The checksum of a block from the checksums of its parts.

  /** How the store joins the checksums before, inside and after a written range. */
  function CombineParts(precrc: Word, crc: Word, postcrc: Word, offset: nat, size: nat): Word
    requires offset + size <= BLOCK_SIZE
  {
    if offset == 0 then CombineCrc(crc, postcrc, BLOCK_SIZE - (offset + size))
    else
      var combined := CombineCrc(precrc, crc, size);
      if offset + size < BLOCK_SIZE then CombineCrc(combined, postcrc, BLOCK_SIZE - (offset + size)) else combined
  }

  lemma CombinePartsIsCrc(pre: seq<Byte>, mid: seq<Byte>, post: seq<Byte>)
    requires |pre| + |mid| + |post| == BLOCK_SIZE
    ensures CombineParts(BlockCrc(pre), BlockCrc(mid), BlockCrc(post), |pre|, |mid|) == BlockCrc(pre + mid + post)
  {
    hide BlockCrc, CombineCrc;
    CombineCrcIsConcat(pre, mid);
    CombineCrcIsConcat(pre + mid, post);
    CombineCrcIsConcat(mid, post);
    if |pre| == 0 {
      assert pre + mid + post == mid + post;
    } else if |post| == 0 {
      assert pre + mid + post == pre + mid;
    }
  }

  /** The same for a range written into an existing block. */
  lemma CombineInBlock(block: seq<Byte>, offset: nat, d: seq<Byte>)
    requires |block| == BLOCK_SIZE && offset + |d| <= BLOCK_SIZE
    ensures CombineParts(BlockCrc(block[..offset]), BlockCrc(d), BlockCrc(block[offset + |d|..]), offset, |d|) ==
            BlockCrc(Patch(block, offset, d))
  {
    hide BlockCrc, CombineParts;
    CombinePartsIsCrc(block[..offset], d, block[offset + |d|..]);
  }

  /** And for a range written into a block of zeros. */
  lemma CombineInZeros(offset: nat, d: seq<Byte>)
    requires offset + |d| <= BLOCK_SIZE
    ensures CombineParts(ZerosCrc(offset), BlockCrc(d), ZerosCrc(BLOCK_SIZE - (offset + |d|)), offset, |d|) ==
            BlockCrc(Patch(Zeros(BLOCK_SIZE), offset, d))
  {
    hide BlockCrc, CombineParts, ZerosCrc;
    var z := Zeros(BLOCK_SIZE);
    CombineInBlock(z, offset, d);
    ZerosCrcIsCrc(offset);
    ZerosCrcIsCrc(BLOCK_SIZE - (offset + |d|));
    assert z[..offset] == Zeros(offset);
    assert z[offset + |d|..] == Zeros(BLOCK_SIZE - (offset + |d|));
  }

  lemma PatchWhole(block: seq<Byte>, d: seq<Byte>)
    requires |block| == |d|
    ensures Patch(block, 0, d) == d
  {
  }

  lemma PatchSelf(block: seq<Byte>, offset: nat, size: nat)
    requires offset + size <= |block|
    ensures Patch(block, offset, block[offset..offset + size]) == block
  {
  }

  // ----- From blocks to the byte array.

  /** Patching one block of an image is overwriting a range of the byte array. */
  lemma PatchedView(l: Layout, file: seq<Byte>, n: nat, file': seq<Byte>, n': nat, b: nat, off: nat, d: seq<Byte>)
    requires l.Valid() && |file| == l.FileSize(n) && |file'| == l.FileSize(n') && off + |d| <= BLOCK_SIZE
    requires forall h: nat :: BlockAt(l, file', n', h) ==
                              if h == b then Patch(BlockAt(l, file, n, b), off, d) else BlockAt(l, file, n, h)
    ensures forall i: nat :: View(l, file', n', i) ==
                             var lo := b * BLOCK_SIZE + off;
                             if lo <= i < lo + |d| then d[i - lo] else View(l, file, n, i)
  {
    hide BlockAt;
    forall i: nat
      ensures View(l, file', n', i) == var lo := b * BLOCK_SIZE + off;
                                       if lo <= i < lo + |d| then d[i - lo] else View(l, file, n, i)
    {
      var h, k := i / BLOCK_SIZE, i % BLOCK_SIZE;
      assert BlockAt(l, file', n', h) == if h == b then Patch(BlockAt(l, file, n, b), off, d) else BlockAt(l, file, n, h);
    }
  }

  /** Clipping every block of an image is cutting the byte array. */
  lemma ClippedView(l: Layout, file: seq<Byte>, n: nat, l': Layout, file': seq<Byte>, n': nat, length: nat)
    requires l.Valid() && |file| == l.FileSize(n) && l'.Valid() && |file'| == l'.FileSize(n')
    requires forall h: nat :: BlockAt(l', file', n', h) == Clip(BlockAt(l, file, n, h), length - h * BLOCK_SIZE)
    ensures forall i: nat :: View(l', file', n', i) == if i < length then View(l, file, n, i) else 0
  {
    hide BlockAt;
    forall i: nat
      ensures View(l', file', n', i) == if i < length then View(l, file, n, i) else 0
    {
      var h := i / BLOCK_SIZE;
      assert BlockAt(l', file', n', h) == Clip(BlockAt(l, file, n, h), length - h * BLOCK_SIZE);
    }
  }

  // ----- One write, whichever path it takes.

  /** From `n` blocks in `file` to `n'` blocks in `file'`: `d` replaced the bytes at `off` of block `b`. */
  ghost predicate Wrote(l: Layout, file: seq<Byte>, n: nat, file': seq<Byte>, n': nat, crcs': seq<Word>,
                        b: nat, off: nat, d: seq<Byte>)
    requires l.Valid() && |file| == l.FileSize(n) && off + |d| <= BLOCK_SIZE
  {
    && n' == (if b < n then n else b + 1)
    && Backed(l, file', n', crcs')
    && forall h: nat :: BlockAt(l, file', n', h) ==
                        if h == b then Patch(BlockAt(l, file, n, b), off, d) else BlockAt(l, file, n, h)
  }

  function WithCrc(l: Layout, crcs: seq<Word>, b: nat, crc: Word): seq<Word>
    requires l.format.MooseFS? ==> b < |crcs|
  {
    if l.format.MooseFS? then crcs[b := crc] else crcs
  }

  /** The checksum table after blocks `from` up to `to` were skipped over. */
  function Skipped(l: Layout, crcs: seq<Word>, from: nat, to: nat): (r: seq<Word>)
    ensures |r| == |crcs|
  {
    if l.format.MooseFS? then FillEmpty(crcs, from, to) else crcs
  }

  lemma WroteInside(l: Layout, file: seq<Byte>, n: nat, crcs: seq<Word>, b: nat, off: nat, d: seq<Byte>, crc: Word)
    requires Backed(l, file, n, crcs) && b < n && off + |d| <= BLOCK_SIZE
    requires crc == BlockCrc(Patch(l.Block(file, b), off, d))
    ensures Wrote(l, file, n, Rewritten(l, file, b, off, d, crc), n, WithCrc(l, crcs, b, crc), b, off, d)
  {
    hide BlockCrc, Rewritten, Patch, BlockOk, Completed;
    CompletedIsConsistent(l, file, n, crcs);
    var ideal := Completed(l, file, n, crcs);
    RewriteConsistent(l, file, n, ideal, b, off, d, crc);
    BackedBy(l, Rewritten(l, file, b, off, d, crc), n, WithCrc(l, ideal, b, crc), WithCrc(l, crcs, b, crc));
  }

  lemma WrotePastEnd(l: Layout, file: seq<Byte>, n: nat, crcs: seq<Word>, b: nat, off: nat, d: seq<Byte>, crc: Word)
    requires Backed(l, file, n, crcs) && n <= b < BLOCKS_IN_CHUNK && off + |d| <= BLOCK_SIZE
    requires crc == BlockCrc(Patch(Zeros(BLOCK_SIZE), off, d))
    ensures var grown := Ftruncate(file, l.FileSize(b + 1));
            Wrote(l, file, n, Rewritten(l, grown, b, off, d, crc), b + 1,
                  WithCrc(l, Skipped(l, crcs, n, b), b, crc), b, off, d)
  {
    hide BlockCrc, Rewritten, Patch, BlockOk, Ftruncate, ZerosCrc, FillEmpty, Layout.Block, Completed;
    var grown := Ftruncate(file, l.FileSize(b + 1));
    CompletedIsConsistent(l, file, n, crcs);
    var ideal := Completed(l, file, n, crcs);
    GrowConsistent(l, file, n, ideal, b + 1);
    assert l.Block(grown, b) == BlockAt(l, grown, b + 1, b);
    RewriteConsistent(l, grown, b + 1, FillEmpty(ideal, n, b + 1), b, off, d, crc);
    var after := Rewritten(l, grown, b, off, d, crc);
    if l.format.MooseFS? {
      BackedBy(l, after, b + 1, FillEmpty(ideal, n, b + 1)[b := crc], FillEmpty(crcs, n, b)[b := crc]);
    } else {
      TableUnused(l, after, b + 1, FillEmpty(ideal, n, b + 1), crcs);
      BackedFits(l, after, b + 1, crcs);
    }
  }

  /** The interleaved format has no checksum table. */
  lemma TableUnused(l: Layout, file: seq<Byte>, n: nat, crcs: seq<Word>, crcs': seq<Word>)
    requires Consistent(l, file, n, crcs) && l.format.Interleaved?
    ensures Consistent(l, file, n, crcs')
  {
    hide BlockCrc, Put32;
    forall b | 0 <= b < n
      ensures BlockOk(l, file, crcs', b)
    {
      assert BlockOk(l, file, crcs, b);
    }
  }

  /** Growing to `length` bytes is the cut that removes nothing. */
  lemma GrownView(l: Layout, file: seq<Byte>, n: nat, crcs: seq<Word>, length: nat)
    requires Consistent(l, file, n, crcs) && n < BlockCount(length) && length <= CHUNK_SIZE
    ensures var grown, m := Ftruncate(file, l.FileSize(BlockCount(length))), BlockCount(length);
            && Consistent(l, grown, m, Skipped(l, crcs, n, m))
            && forall i: nat :: View(l, grown, m, i) == if i < length then View(l, file, n, i) else 0
  {
    hide Ftruncate, BlockOk, FillEmpty;
    BlockCountSplit(length);
    var m := BlockCount(length);
    var grown := Ftruncate(file, l.FileSize(m));
    GrowConsistent(l, file, n, crcs, m);
    if l.format.Interleaved? {
      TableUnused(l, grown, m, FillEmpty(crcs, n, m), crcs);
    }
    forall h: nat
      ensures BlockAt(l, grown, m, h) == Clip(BlockAt(l, file, n, h), length - h * BLOCK_SIZE)
    {
      assert BlockAt(l, grown, m, h) == BlockAt(l, file, n, h);
      if h >= n {
        assert Clip(Zeros(BLOCK_SIZE), length - h * BLOCK_SIZE) == Zeros(BLOCK_SIZE);
      }
    }
    ClippedView(l, file, n, l, grown, m, length);
  }

  lemma SkippedSlots(l: Layout, a: seq<Word>, b: seq<Word>, from: nat, to: nat)
    requires SameSlots(l, a, b)
    ensures SameSlots(l, Skipped(l, a, from, to), Skipped(l, b, from, to))
  {
    hide FillEmpty, ZerosCrc;
  }

  lemma GrownBacked(l: Layout, file: seq<Byte>, n: nat, crcs: seq<Word>, length: nat)
    requires Backed(l, file, n, crcs) && n < BlockCount(length) && length <= CHUNK_SIZE
    ensures var grown, m := Ftruncate(file, l.FileSize(BlockCount(length))), BlockCount(length);
            && Backed(l, grown, m, Skipped(l, crcs, n, m))
            && (Consistent(l, file, n, crcs) ==> Consistent(l, grown, m, Skipped(l, crcs, n, m)))
            && forall i: nat :: View(l, grown, m, i) == if i < length then View(l, file, n, i) else 0
  {
    hide Consistent, Ftruncate, Skipped, View, Completed, SameSlots, BlockCount;
    CompletedIsConsistent(l, file, n, crcs);
    var ideal := Completed(l, file, n, crcs);
    var m := BlockCount(length);
    GrownView(l, file, n, ideal, length);
    SkippedSlots(l, ideal, crcs, n, m);
    BackedBy(l, Ftruncate(file, l.FileSize(m)), m, Skipped(l, ideal, n, m), Skipped(l, crcs, n, m));
    if Consistent(l, file, n, crcs) {
      GrownView(l, file, n, crcs, length);
    }
  }

  /** The right table of a shrunk file, as far as its blocks go. */
  ghost function ShrunkIdeal(ideal: seq<Word>, crcs': seq<Word>, full: nat): (r: seq<Word>)
    requires |ideal| == |crcs'|
    ensures |r| == |ideal|
    ensures forall b {:trigger r[b]} :: 0 <= b < |r| ==> r[b] == if b < full then ideal[b] else crcs'[b]
  {
    seq(|ideal|, b requires 0 <= b < |ideal| => if b < full then ideal[b] else crcs'[b])
  }

  lemma ShrunkByIdeal(l: Layout, file: seq<Byte>, n: nat, crcs: seq<Word>, ideal: seq<Word>, length: nat,
                      file': seq<Byte>, crcs': seq<Word>)
    requires l.Valid() && l.format.MooseFS? && SameSlots(l, ideal, crcs) && Shrunk(l, file, n, crcs, length, file', crcs')
    ensures |ideal| == |crcs'|
    ensures Shrunk(l, file, n, ideal, length, file', ShrunkIdeal(ideal, crcs', length / BLOCK_SIZE))
    ensures SameSlots(l, ShrunkIdeal(ideal, crcs', length / BLOCK_SIZE), crcs')
  {
    hide Cut, Pwrite, Put32, ZeroExpandedCrc, ShrunkIdeal, Layout.DataOffset, Layout.CrcOffset, Layout.MaxBlocks;
    var full := length / BLOCK_SIZE;
    var r := ShrunkIdeal(ideal, crcs', full);
    assert r[..full] == ideal[..full];
    forall i | 0 <= i < l.MaxBlocks() && i < full
      ensures r[i] == crcs'[i]
    {
      assert crcs'[i] == crcs'[..full][i] == crcs[..full][i] == crcs[i];
    }
  }

  lemma ShrinkBacked(l: Layout, file: seq<Byte>, n: nat, crcs: seq<Word>, length: nat, file': seq<Byte>, crcs': seq<Word>)
    requires Backed(l, file, n, crcs) && BlockCount(length) <= n
    requires Shrunk(l, file, n, crcs, length, file', crcs')
    ensures |crcs'| == |crcs| && Backed(l, file', BlockCount(length), crcs')
    ensures Consistent(l, file, n, crcs) ==> Consistent(l, file', BlockCount(length), crcs')
    ensures forall i: nat :: View(l, file', BlockCount(length), i) == if i < length then View(l, file, n, i) else 0
  {
    assert |crcs'| == |crcs|;
    CompletedIsConsistent(l, file, n, crcs);
    var ideal := Completed(l, file, n, crcs);
    hide Consistent, View, BlockAt, Clip, Shrunk, BlockCount, Completed, SameSlots, ShrunkIdeal, Backed;
    if l.format.MooseFS? {
      ShrunkByIdeal(l, file, n, crcs, ideal, length, file', crcs');
      var r := ShrunkIdeal(ideal, crcs', length / BLOCK_SIZE);
      ShrinkConsistent(l, file, n, ideal, length, file', r);
      ShrunkSizes(l, file, n, ideal, length, file', r);
      BackedBy(l, file', BlockCount(length), r, crcs');
    } else {
      ShrinkConsistent(l, file, n, crcs, length, file', crcs');
      ShrunkSizes(l, file, n, crcs, length, file', crcs');
      BackedFits(l, file', BlockCount(length), crcs');
    }
    if Consistent(l, file, n, crcs) {
      ShrinkConsistent(l, file, n, crcs, length, file', crcs');
    }
    ClippedView(l, file, n, l, file', BlockCount(length), length);
  }

  /** Table entries behind the slots: those of blocks left whole stay, all others are of empty blocks. */
  ghost predicate TailAfter(l: Layout, wasBlocks: nat, wasCrcs: seq<Word>, n: nat, crcs: seq<Word>, length: nat)
    requires l.Valid()
  {
    l.format.MooseFS? ==>
      && |wasCrcs| == |crcs| == BLOCKS_IN_CHUNK && n <= BLOCKS_IN_CHUNK
      && forall b :: l.MaxBlocks() <= b < n ==>
           crcs[b] == if b < wasBlocks && b < length / BLOCK_SIZE then wasCrcs[b] else ZerosCrc(BLOCK_SIZE)
  }

  lemma GrownTail(l: Layout, n: nat, crcs: seq<Word>, length: nat)
    requires l.Valid() && n < BlockCount(length) && length <= CHUNK_SIZE && (l.format.MooseFS? ==> |crcs| == BLOCKS_IN_CHUNK)
    ensures TailAfter(l, n, crcs, BlockCount(length), Skipped(l, crcs, n, BlockCount(length)), length)
  {
    BlockCountSplit(length);
    hide FillEmpty, ZerosCrc, Layout.MaxBlocks;
  }

  /** What is left of a block behind the slots is zeros. */
  lemma SealedZero(l: Layout, file: seq<Byte>, n: nat, length: nat)
    requires l.Valid() && |file| == l.FileSize(n) && BlockCount(length) <= n && length % BLOCK_SIZE != 0
    requires l.format.MooseFS? && l.MaxBlocks() <= length / BLOCK_SIZE && TailZero(l, file, n)
    ensures var off, part := l.DataOffset(length / BLOCK_SIZE), length % BLOCK_SIZE;
            && off + part <= |Cut(l, file, length)|
            && Cut(l, file, length)[off..off + part] == Zeros(part)
  {
    var full, part := length / BLOCK_SIZE, length % BLOCK_SIZE;
    hide *;
    BlockCountSplit(length);
    CutKeepsHead(l, file, n, length);
    TailBlock(l, file, n, full);
    ZeroHead(l, file, n, full, part);
  }

  lemma TailBlock(l: Layout, file: seq<Byte>, n: nat, b: nat)
    requires l.Valid() && |file| == l.FileSize(n) && b < n && l.format.MooseFS? && l.MaxBlocks() <= b && TailZero(l, file, n)
    ensures l.Block(file, b) == Zeros(BLOCK_SIZE)
  {
    hide View, Layout.HeaderSize, Layout.MaxBlocks;
    ZeroBlockView(l, file, n, b);
  }

  lemma ZeroHead(l: Layout, file: seq<Byte>, n: nat, b: nat, part: nat)
    requires l.Valid() && |file| == l.FileSize(n) && b < n && part <= BLOCK_SIZE && l.Block(file, b) == Zeros(BLOCK_SIZE)
    ensures l.DataOffset(b) + part <= |file| && file[l.DataOffset(b)..l.DataOffset(b) + part] == Zeros(part)
  {
    hide Layout.HeaderSize, Layout.MaxBlocks;
    var off := l.DataOffset(b);
    SliceOfSlice(file, off, off + BLOCK_SIZE, off, off + part);
    assert l.Block(file, b)[..part] == Zeros(part);
  }

  /** And so the checksum it gets is the one of an empty block. */
  lemma ZerosSealed(part: nat)
    requires part <= BLOCK_SIZE
    ensures ZeroExpandedCrc(Zeros(part), BLOCK_SIZE - part) == ZerosCrc(BLOCK_SIZE)
  {
    hide ZeroExpandedCrc, ZerosCrc, BlockCrc;
    ZeroExpandedCrcIsCrc(Zeros(part), BLOCK_SIZE - part);
    ZerosCrcIsCrc(BLOCK_SIZE);
    assert Zeros(part) + Zeros(BLOCK_SIZE - part) == Zeros(BLOCK_SIZE);
  }

  // ----- Copying a file's blocks.

  /** `f` has the same bytes as `g` from the first block on. */
  ghost predicate SameBody(l: Layout, f: seq<Byte>, g: seq<Byte>)
    requires l.Valid()
  {
    && |f| == |g|
    && l.BlockOffset(0) <= |f|
    && f[l.BlockOffset(0)..] == g[l.BlockOffset(0)..]
  }

  lemma SameBodySlice(l: Layout, f: seq<Byte>, g: seq<Byte>, lo: nat, hi: nat)
    requires l.Valid() && SameBody(l, f, g) && l.BlockOffset(0) <= lo <= hi <= |f|
    ensures f[lo..hi] == g[lo..hi]
  {
    SliceOfSlice(f, l.BlockOffset(0), |f|, lo, hi);
    SliceOfSlice(g, l.BlockOffset(0), |g|, lo, hi);
    assert f[l.BlockOffset(0)..|f|] == f[l.BlockOffset(0)..];
    assert g[l.BlockOffset(0)..|g|] == g[l.BlockOffset(0)..];
  }

  /** Consistency looks at the blocks and at the first `n` table entries only. */
  lemma CopyConsistent(l: Layout, f: seq<Byte>, g: seq<Byte>, n: nat, crcs: seq<Word>, crcs': seq<Word>)
    requires Consistent(l, g, n, crcs) && SameBody(l, f, g) && |crcs'| == |crcs|
    requires l.format.MooseFS? ==> crcs'[..n] == crcs[..n]
    ensures Consistent(l, f, n, crcs')
  {
    hide BlockCrc, Put32;
    SameBlocks(l, f, g, n);
    forall b | 0 <= b < n
      ensures BlockOk(l, f, crcs', b)
    {
      assert BlockOk(l, g, crcs, b);
      assert l.Block(f, b) == BlockAt(l, f, n, b) == BlockAt(l, g, n, b) == l.Block(g, b);
      if l.format.MooseFS? {
        assert crcs'[b] == crcs'[..n][b] == crcs[b];
      } else {
        SameBodySlice(l, f, g, l.CrcOffset(b), l.CrcOffset(b) + CRC_SIZE);
      }
    }
  }

  lemma SameBlocks(l: Layout, f: seq<Byte>, g: seq<Byte>, n: nat)
    requires l.Valid() && SameBody(l, f, g) && |g| == l.FileSize(n)
    ensures forall b: nat :: BlockAt(l, f, n, b) == BlockAt(l, g, n, b)
  {
    forall b: nat
      ensures BlockAt(l, f, n, b) == BlockAt(l, g, n, b)
    {
      if b < n {
        SameBodySlice(l, f, g, l.DataOffset(b), l.DataOffset(b) + BLOCK_SIZE);
      }
    }
  }

  lemma SameView(l: Layout, f: seq<Byte>, g: seq<Byte>, n: nat)
    requires l.Valid() && SameBody(l, f, g) && |g| == l.FileSize(n)
    ensures forall i: nat :: View(l, f, n, i) == View(l, g, n, i)
  {
    hide BlockAt;
    SameBlocks(l, f, g, n);
  }

  /** `f` holds the first `n` blocks of `g` and nothing else; a hole stands for the header. */
  ghost predicate Prefix(l: Layout, f: seq<Byte>, g: seq<Byte>, n: nat)
    requires l.Valid() && l.FileSize(n) <= |g|
  {
    if n == 0 then f == []
    else |f| == l.FileSize(n) && f[l.BlockOffset(0)..] == g[l.BlockOffset(0)..l.FileSize(n)]
  }

  lemma PrefixNone(l: Layout, g: seq<Byte>)
    requires l.Valid() && l.FileSize(0) <= |g|
    ensures Prefix(l, [], g, 0)
  {
  }

  /** Appending at the end, or after a hole of `start` bytes when there is nothing yet. */
  lemma AppendAfterHole(f: seq<Byte>, body: seq<Byte>, start: nat, lo: nat, d: seq<Byte>)
    requires lo == start + |body| && d != []
    requires if body == [] then f == [] || |f| == lo else |f| == lo && f[start..] == body
    ensures |Pwrite(f, lo, d)| == lo + |d|
    ensures Pwrite(f, lo, d)[start..] == body + d
  {
    var base := if |f| < lo then f + Zeros(lo - |f|) else f;
    assert f[..|f|] == f;
    assert Pwrite(f, lo, d) == base + d;
    assert (base + d)[start..] == base[start..] + d;
  }

  lemma PrefixAppend(l: Layout, f: seq<Byte>, g: seq<Byte>, n: nat)
    requires l.Valid() && l.FileSize(n + 1) <= |g| && l.FileSize(n) <= |g| && Prefix(l, f, g, n)
    ensures Prefix(l, Pwrite(f, l.BlockOffset(n), g[l.BlockOffset(n)..l.BlockOffset(n + 1)]), g, n + 1)
  {
    hide Pwrite;
    var start, lo, hi := l.BlockOffset(0), l.BlockOffset(n), l.BlockOffset(n + 1);
    AppendAfterHole(f, g[start..lo], start, lo, g[lo..hi]);
    assert g[start..lo] + g[lo..hi] == g[start..hi];
  }

  /** Growing a complete copy gives a copy of the grown file. */
  lemma PrefixGrow(l: Layout, f: seq<Byte>, g: seq<Byte>, n: nat, m: nat)
    requires l.Valid() && |g| == l.FileSize(n) && Prefix(l, f, g, n) && n < m
    ensures SameBody(l, Ftruncate(f, l.FileSize(m)), Ftruncate(g, l.FileSize(m)))
  {
    hide Ftruncate;
    var start := l.BlockOffset(0);
    var f', g' := Ftruncate(f, l.FileSize(m)), Ftruncate(g, l.FileSize(m));
    forall i | start <= i < l.FileSize(m)
      ensures f'[i] == g'[i]
    {
      if n > 0 && i < |g| {
        assert f[start..][i - start] == g[start..l.FileSize(n)][i - start];
      }
    }
  }

  /** What the copy writes for a partial last block. */
  function LastSlot(l: Layout, head: seq<Byte>, crc: Word): (slot: seq<Byte>)
    requires |head| <= BLOCK_SIZE
    ensures |slot| == BLOCK_SIZE + if l.format.MooseFS? then 0 else CRC_SIZE
  {
    (if l.format.MooseFS? then [] else Put32(crc)) + head + Zeros(BLOCK_SIZE - |head|)
  }

  /** A cut file with the checksum of its partial last block in place, seen as prefix and last slot. */
  lemma CutSlot(l: Layout, g: seq<Byte>, n: nat, length: nat, crc: Word)
    requires l.Valid() && |g| == l.FileSize(n) && BlockCount(length) <= n && length % BLOCK_SIZE != 0
    ensures var full, part := length / BLOCK_SIZE, length % BLOCK_SIZE;
            var lo, off := l.BlockOffset(full), l.DataOffset(full);
            var cut := Cut(l, g, length);
            var sealed := if l.format.MooseFS? then cut else Pwrite(cut, l.CrcOffset(full), Put32(crc));
            && lo <= off <= off + part <= |g|
            && sealed == g[..lo] + LastSlot(l, g[off..off + part], crc)
  {
    hide Put32, Cut, Pwrite;
    CutPartial(l, g, n, length);
    var full, part := length / BLOCK_SIZE, length % BLOCK_SIZE;
    var lo, off := l.BlockOffset(full), l.DataOffset(full);
    SealSlot(g, lo, off, part, if l.format.MooseFS? then [] else Put32(crc));
  }

  lemma CutPartial(l: Layout, g: seq<Byte>, n: nat, length: nat)
    requires l.Valid() && |g| == l.FileSize(n) && BlockCount(length) <= n && length % BLOCK_SIZE != 0
    ensures var off, part := l.DataOffset(length / BLOCK_SIZE), length % BLOCK_SIZE;
            off + BLOCK_SIZE <= |g| && Cut(l, g, length) == g[..off + part] + Zeros(BLOCK_SIZE - part)
  {
    BlockCountSplit(length);
    var off := l.DataOffset(length / BLOCK_SIZE);
    assert l.FileSize(length / BLOCK_SIZE + 1) == off + BLOCK_SIZE;
  }

  lemma SealSlot(g: seq<Byte>, lo: nat, off: nat, part: nat, field: seq<Byte>)
    requires lo + |field| == off && off + part <= |g| && part <= BLOCK_SIZE
    ensures Pwrite(g[..off + part] + Zeros(BLOCK_SIZE - part), lo, field) ==
            g[..lo] + (field + g[off..off + part] + Zeros(BLOCK_SIZE - part))
  {
  }

  lemma PrefixSeal(l: Layout, f: seq<Byte>, g: seq<Byte>, n: nat, length: nat, crc: Word)
    requires l.Valid() && |g| == l.FileSize(n) && BlockCount(length) <= n && length % BLOCK_SIZE != 0
    requires l.FileSize(length / BLOCK_SIZE) <= |g| && Prefix(l, f, g, length / BLOCK_SIZE)
    ensures var full, part := length / BLOCK_SIZE, length % BLOCK_SIZE;
            var off := l.DataOffset(full);
            && off + part <= |g|
            && SameBody(l, Pwrite(f, l.BlockOffset(full), LastSlot(l, g[off..off + part], crc)),
                        if l.format.MooseFS? then Cut(l, g, length)
                        else Pwrite(Cut(l, g, length), l.CrcOffset(full), Put32(crc)))
  {
    hide Pwrite, Put32, Cut, SameBody, Prefix, LastSlot;
    BlockCountSplit(length);
    CutSlot(l, g, n, length, crc);
    var full, part := length / BLOCK_SIZE, length % BLOCK_SIZE;
    var off := l.DataOffset(full);
    PrefixThenSlot(l, f, g, full, LastSlot(l, g[off..off + part], crc));
  }

  lemma PrefixThenSlot(l: Layout, f: seq<Byte>, g: seq<Byte>, n: nat, slot: seq<Byte>)
    requires l.Valid() && l.FileSize(n) <= |g| && Prefix(l, f, g, n) && slot != []
    ensures SameBody(l, Pwrite(f, l.BlockOffset(n), slot), g[..l.BlockOffset(n)] + slot)
  {
    hide Pwrite;
    var start, lo := l.BlockOffset(0), l.BlockOffset(n);
    AppendAfterHole(f, g[start..lo], start, lo, slot);
    assert (g[..lo] + slot)[start..] == g[start..lo] + slot;
  }

  lemma HeaderKeepsBody(l: Layout, f: seq<Byte>, g: seq<Byte>, h: seq<Byte>)
    requires l.Valid() && SameBody(l, f, g) && |h| == l.BlockOffset(0)
    ensures SameBody(l, Pwrite(f, 0, h), g)
  {
    hide Pwrite;
    PwriteOutside(f, 0, h, l.BlockOffset(0), |f|);
    assert f[l.BlockOffset(0)..|f|] == f[l.BlockOffset(0)..];
    assert Pwrite(f, 0, h)[l.BlockOffset(0)..|f|] == Pwrite(f, 0, h)[l.BlockOffset(0)..];
  }

  /** An exact copy of the first `m` blocks, once the header is in front of it. */
  lemma PrefixWithHeader(l: Layout, f: seq<Byte>, g: seq<Byte>, m: nat, h: seq<Byte>)
    requires l.Valid() && l.FileSize(m) <= |g| && Prefix(l, f, g, m) && |h| == l.BlockOffset(0)
    ensures SameBody(l, Pwrite(f, 0, h), Ftruncate(g, l.FileSize(m)))
  {
    var cut := Ftruncate(g, l.FileSize(m));
    if m > 0 {
      assert cut == g[..l.FileSize(m)];
      assert cut[l.BlockOffset(0)..] == g[l.BlockOffset(0)..l.FileSize(m)];
      HeaderKeepsBody(l, f, cut, h);
    }
  }

  /** The header of a new `MooseFS` file: signature area, checksum table, padding. */
  function Header(l: Layout, signature: seq<Byte>, table: seq<Word>): (h: seq<Byte>)
    requires l.Valid() && l.format.MooseFS? && |signature| == SIGNATURE_BLOCK_SIZE && |table| >= l.MaxBlocks()
    ensures |h| == l.HeaderSize()
  {
    signature + EncodeCrcs(table[..l.MaxBlocks()]) +
    Zeros(l.HeaderSize() - SIGNATURE_BLOCK_SIZE - CRC_SIZE * l.MaxBlocks())
  }

  lemma HeaderFlushed(l: Layout, f: seq<Byte>, signature: seq<Byte>, table: seq<Word>, crcs: seq<Word>)
    requires l.Valid() && l.format.MooseFS? && |signature| == SIGNATURE_BLOCK_SIZE
    requires |table| == |crcs| == BLOCKS_IN_CHUNK && crcs[..l.MaxBlocks()] == table[..l.MaxBlocks()]
    ensures Flushed(l, Pwrite(f, 0, Header(l, signature, table)), crcs)
  {
    hide Pwrite, Put32, Get32, EncodeCrcs;
    var h := Header(l, signature, table);
    var f' := Pwrite(f, 0, h);
    forall b | 0 <= b < l.MaxBlocks()
      ensures DiskCrc(l, f', b) == crcs[b]
    {
      EncodedEntry(table[..l.MaxBlocks()], b);
      assert crcs[b] == crcs[..l.MaxBlocks()][b] == table[..l.MaxBlocks()][b];
      var lo := l.CrcOffset(b);
      assert f'[..|h|] == h;
      SliceOfSlice(f', 0, |h|, lo, lo + CRC_SIZE);
      assert f'[0..|h|] == f'[..|h|];
      HeaderEntry(l, signature, table, b);
      GetPut32(crcs[b]);
    }
  }

  lemma HeaderEntry(l: Layout, signature: seq<Byte>, table: seq<Word>, b: nat)
    requires l.Valid() && l.format.MooseFS? && |signature| == SIGNATURE_BLOCK_SIZE && |table| >= l.MaxBlocks() && b < l.MaxBlocks()
    ensures Header(l, signature, table)[l.CrcOffset(b)..l.CrcOffset(b) + CRC_SIZE] == Put32(table[b])
  {
    hide Put32, EncodeCrcs;
    var h, t := Header(l, signature, table), EncodeCrcs(table[..l.MaxBlocks()]);
    EncodedEntry(table[..l.MaxBlocks()], b);
    assert h[SIGNATURE_BLOCK_SIZE..SIGNATURE_BLOCK_SIZE + |t|] == t;
    SliceOfSlice(h, SIGNATURE_BLOCK_SIZE, SIGNATURE_BLOCK_SIZE + |t|, l.CrcOffset(b), l.CrcOffset(b) + CRC_SIZE);
  }

  // ----- Duplicate and truncate.

  /** The checksum of the partial last block when `g` is cut to `length` bytes. */
  function LastCrc(l: Layout, g: seq<Byte>, length: nat): Word
    requires l.Valid() && l.DataOffset(length / BLOCK_SIZE) + length % BLOCK_SIZE <= |g|
  {
    var off, part := l.DataOffset(length / BLOCK_SIZE), length % BLOCK_SIZE;
    ZeroExpandedCrc(g[off..off + part], BLOCK_SIZE - part)
  }

  lemma LastFits(l: Layout, g: seq<Byte>, n: nat, length: nat)
    requires l.Valid() && |g| == l.FileSize(n) && BlockCount(length) <= n
    ensures length % BLOCK_SIZE != 0 ==> l.DataOffset(length / BLOCK_SIZE) + length % BLOCK_SIZE <= |g|
    ensures l.FileSize(length / BLOCK_SIZE) <= |g| && l.FileSize(BlockCount(length)) <= |g|
  {
    BlockCountSplit(length);
  }

  /** The file that a copy of `g` cut or grown to `length` bytes must equal, headers aside. */
  function Target(l: Layout, g: seq<Byte>, n: nat, length: nat): seq<Byte>
    requires l.Valid() && |g| == l.FileSize(n)
  {
    if n < BlockCount(length) then Ftruncate(g, l.FileSize(BlockCount(length)))
    else if length % BLOCK_SIZE == 0 || l.format.MooseFS? then Cut(l, g, length)
    else
      LastFits(l, g, n, length);
      Pwrite(Cut(l, g, length), l.CrcOffset(length / BLOCK_SIZE), Put32(LastCrc(l, g, length)))
  }

  /** The target of a cut inside a block: the cut file, sealed with the checksum of what is left of that block. */
  lemma SealTarget(l: Layout, g: seq<Byte>, n: nat, length: nat)
    requires l.Valid() && |g| == l.FileSize(n) && BlockCount(length) <= n && length % BLOCK_SIZE != 0
    ensures var full, part := length / BLOCK_SIZE, length % BLOCK_SIZE;
            var off := l.DataOffset(full);
            && off + part <= |g|
            && var crc := ZeroExpandedCrc(g[off..off + part], BLOCK_SIZE - part);
            && LastCrc(l, g, length) == crc
            && Target(l, g, n, length) ==
                 if l.format.MooseFS? then Cut(l, g, length) else Pwrite(Cut(l, g, length), l.CrcOffset(full), Put32(crc))
  {
    hide Pwrite, Cut, ZeroExpandedCrc, Put32, BlockCount, Ftruncate, Layout.HeaderSize, Layout.MaxBlocks, Layout.BlockOffset, Layout.DataOffset, Layout.CrcOffset;
    LastFits(l, g, n, length);
  }

  /** The checksum table that belongs to it. */
  ghost predicate TableFor(l: Layout, g: seq<Byte>, n: nat, crcs: seq<Word>, length: nat, table: seq<Word>)
    requires l.Valid() && |g| == l.FileSize(n)
  {
    var full, m := length / BLOCK_SIZE, BlockCount(length);
    && |table| == |crcs|
    && (l.format.MooseFS? ==>
         && m <= |crcs|
         && if n < m then table[..m] == FillEmpty(crcs, n, m)[..m]
            else
              LastFits(l, g, n, length);
              BlockCountSplit(length);
              table[..full] == crcs[..full] && (length % BLOCK_SIZE != 0 ==> table[full] == LastCrc(l, g, length)))
  }

  lemma TargetConsistent(l: Layout, g: seq<Byte>, n: nat, crcs: seq<Word>, length: nat, table: seq<Word>)
    requires Consistent(l, g, n, crcs) && length <= CHUNK_SIZE && TableFor(l, g, n, crcs, length, table)
    ensures Consistent(l, Target(l, g, n, length), BlockCount(length), table)
    ensures forall i: nat :: View(l, Target(l, g, n, length), BlockCount(length), i) ==
                             if i < length then View(l, g, n, i) else 0
  {
    hide BlockOk, FillEmpty, Ftruncate, Pwrite, Put32, Cut, ZeroExpandedCrc, View, BlockAt, Clip;
    BlockCountSplit(length);
    var m, t := BlockCount(length), Target(l, g, n, length);
    if n < m {
      GrownView(l, g, n, crcs, length);
      CopyConsistent(l, t, t, m, Skipped(l, crcs, n, m), table);
    } else {
      LastFits(l, g, n, length);
      if length % BLOCK_SIZE != 0 {
        CutKeepsHead(l, g, n, length);
      }
      assert Shrunk(l, g, n, crcs, length, t, table);
      ShrinkConsistent(l, g, n, crcs, length, t, table);
      ShrunkSizes(l, g, n, crcs, length, t, table);
      ClippedView(l, g, n, l, t, m, length);
    }
  }

  lemma CutKeepsHead(l: Layout, g: seq<Byte>, n: nat, length: nat)
    requires l.Valid() && |g| == l.FileSize(n) && BlockCount(length) <= n && length % BLOCK_SIZE != 0
    ensures var off, part := l.DataOffset(length / BLOCK_SIZE), length % BLOCK_SIZE;
            && off + part <= |g|
            && off + part <= |Cut(l, g, length)|
            && Cut(l, g, length)[off..off + part] == g[off..off + part]
  {
    LastFits(l, g, n, length);
  }

  lemma CutAligned(l: Layout, g: seq<Byte>, length: nat)
    requires l.Valid() && length % BLOCK_SIZE == 0
    ensures Cut(l, g, length) == Ftruncate(g, l.FileSize(BlockCount(length)))
  {
    BlockCountSplit(length);
  }

  /** `table` has the entries that a copy of the original with table `crcs` puts into the slots. */
  ghost predicate CopiedTable(l: Layout, g: seq<Byte>, n: nat, crcs: seq<Word>, length: nat, table: seq<Word>)
    requires l.Valid() && |g| == l.FileSize(n)
  {
    l.format.MooseFS? ==>
      exists crcs0, table0 :: SameSlots(l, crcs0, crcs) && TableFor(l, g, n, crcs0, length, table0) && SameSlots(l, table0, table)
  }

  /** Tables made from tables that agree on the slots agree on the slots of the copy's blocks. */
  lemma TableForSlots(l: Layout, g: seq<Byte>, n: nat, a: seq<Word>, b: seq<Word>, length: nat, ta: seq<Word>, tb: seq<Word>)
    requires l.Valid() && |g| == l.FileSize(n) && l.format.MooseFS? && SameSlots(l, a, b)
    requires TableFor(l, g, n, a, length, ta) && TableFor(l, g, n, b, length, tb)
    ensures |ta| == |tb| == BLOCKS_IN_CHUNK
    ensures forall i :: 0 <= i < BlockCount(length) && i < l.MaxBlocks() ==> ta[i] == tb[i]
  {
    hide FillEmpty, LastCrc, ZerosCrc;
    BlockCountSplit(length);
    var full, m := length / BLOCK_SIZE, BlockCount(length);
    forall i | 0 <= i < m && i < l.MaxBlocks()
      ensures ta[i] == tb[i]
    {
      if n < m {
        assert ta[i] == ta[..m][i] && tb[i] == tb[..m][i];
      } else if i < full {
        assert ta[i] == ta[..full][i] == a[i] && tb[i] == tb[..full][i] == b[i];
      }
    }
  }

  /** What a copy's table is worth: the slots of its blocks have the right checksums. */
  lemma CopyBacked(l: Layout, g: seq<Byte>, n: nat, crcs: seq<Word>, length: nat, f: seq<Byte>, table: seq<Word>)
    requires Backed(l, g, n, crcs) && length <= CHUNK_SIZE && SameBody(l, f, Target(l, g, n, length))
    requires CopiedTable(l, g, n, crcs, length, table) && (l.format.MooseFS? ==> |table| == BLOCKS_IN_CHUNK)
    ensures |f| == l.FileSize(BlockCount(length)) && Backed(l, f, BlockCount(length), table)
    ensures forall i: nat :: View(l, f, BlockCount(length), i) == if i < length then View(l, g, n, i) else 0
  {
    CompletedIsConsistent(l, g, n, crcs);
    var ideal := Completed(l, g, n, crcs);
    var m, t, right := BlockCount(length), Target(l, g, n, length), IdealTable(l, g, n, ideal, length);
    hide View, Consistent, Target, TableFor, SameBody, Completed, IdealTable, BlockCount;
    TargetConsistent(l, g, n, ideal, length, right);
    ConsistentSize(l, t, m, right);
    SameView(l, f, t, m);
    SameSize(l, f, t);
    ConsistentTable(l, t, m, right);
    CopyConsistent(l, f, t, m, right, right);
    if l.format.MooseFS? {
      var crcs0, table0 :| SameSlots(l, crcs0, crcs) && TableFor(l, g, n, crcs0, length, table0) && SameSlots(l, table0, table);
      TableForSlots(l, g, n, ideal, crcs0, length, right, table0);
    }
    BackedBelow(l, f, m, right, table);
  }

  lemma ConsistentTable(l: Layout, f: seq<Byte>, n: nat, crcs: seq<Word>)
    requires Consistent(l, f, n, crcs)
    ensures l.format.MooseFS? ==> n <= |crcs| == BLOCKS_IN_CHUNK
  {
  }

  lemma SameSize(l: Layout, f: seq<Byte>, g: seq<Byte>)
    requires l.Valid() && SameBody(l, f, g)
    ensures |f| == |g|
  {
  }

  lemma ConsistentSize(l: Layout, f: seq<Byte>, n: nat, crcs: seq<Word>)
    requires Consistent(l, f, n, crcs)
    ensures l.Valid() && |f| == l.FileSize(n)
  {
  }

  /** A table that always fits in memory, whatever the header has room for. */
  ghost function IdealTable(l: Layout, g: seq<Byte>, n: nat, crcs: seq<Word>, length: nat): (table: seq<Word>)
    requires Consistent(l, g, n, crcs) && length <= CHUNK_SIZE
    ensures TableFor(l, g, n, crcs, length, table)
  {
    hide FillEmpty, LastCrc;
    BlockCountSplit(length);
    if l.format.Interleaved? then crcs
    else if n < BlockCount(length) then FillEmpty(crcs, n, BlockCount(length))
    else
      LastFits(l, g, n, length);
      if length % BLOCK_SIZE == 0 then crcs else crcs[length / BLOCK_SIZE := LastCrc(l, g, length)]
  }
}
