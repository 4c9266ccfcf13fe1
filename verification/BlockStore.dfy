/**
 The chunk block store: open, close, read, write, truncate and duplicate-and-truncate on a
 chunk file in either on-disk format. Every file operation either happens in full or fails;
 the disk counts the failures.
 */
module BlockStore {
  import opened Words
  import opened CrcSpec
  import opened ChunkLayout
  import opened BlockImage

  /** Where the signature at the start of a `MooseFS` file keeps the chunk version. */
  const VERSION_OFFSET: nat := 16

  /** `Overrun` stands for a copy that runs past the end of its buffer. */
  datatype Status = Ok | NoChunk | WrongVersion | BlockNumberTooBig | WrongSize | WrongOffset | CrcError | IoError | Overrun

  const WORD32 := 0x1_0000_0000

  /** `uint32_t` as a number. */
  type U32 = n: nat | n < WORD32

  /** What the system calls go to: any of them may fail. */
  class Disk {
    var failures: nat

    constructor ()
      ensures failures == 0
    {
      failures := 0;
    }

    method Try() returns (ok: bool)
      modifies this
      ensures failures == old(failures) + if ok then 0 else 1
    {
      ok := *;
      if !ok {
        failures := failures + 1;
      }
    }
  }

  class Chunk {
    const disk: Disk
    const layout: Layout
    var version: nat
    var blocks: nat
    var refcount: nat
    var wasChanged: bool
    /** The descriptor is in the open-chunk pool, together with the checksum table. */
    var cached: bool
    var crcData: seq<Word>
    var file: seq<Byte>

    /** File size and table sizes match; the stored checksums may be wrong. */
    ghost predicate Sized()
      reads this
    {
      && layout.Valid()
      && blocks <= BLOCKS_IN_CHUNK
      && |file| == layout.FileSize(blocks)
      && (cached && layout.format.MooseFS? ==> |crcData| == BLOCKS_IN_CHUNK)
    }

    /** What every operation keeps: every block that has a slot has its checksum, and behind the slots there are zeros. */
    ghost predicate Kept()
      reads this
    {
      && Sized()
      && (refcount > 0 ==> cached)
      && (wasChanged ==> refcount > 0)
      && TailZero(layout, file, blocks)
      && (cached ==> Backed(layout, file, blocks, crcData))
      && (cached && !wasChanged ==> Flushed(layout, file, crcData))
      && (!cached ==> exists crcs :: Backed(layout, file, blocks, crcs) && Flushed(layout, file, crcs))
    }

    /** And the table in memory has the checksums of the other blocks as well. */
    ghost predicate Sound()
      reads this
    {
      Kept() && (cached ==> Consistent(layout, file, blocks, crcData))
    }

    ghost predicate Fits()
      requires layout.Valid()
      reads this
    {
      layout.format.MooseFS? ==> blocks <= layout.MaxBlocks()
    }

    /** The checksum table has room on disk for every block. */
    ghost predicate Valid()
      reads this
    {
      Sound() && Fits()
    }

    lemma KeptFits()
      requires Kept() && Fits()
      ensures Valid()
    {
      BackedFits(layout, file, blocks, crcData);
      hide TailZero, Backed, Consistent, Flushed;
    }

    /** No checksum is lost with the table in memory: blocks without a slot in the header have checksum zero. */
    ghost predicate Durable()
      requires Sized()
      reads this
    {
      SlotlessZero(layout, file, blocks)
    }

    /** Byte `i` of the zero-extended array this chunk stands for. */
    ghost function ByteAt(i: nat): Byte
      requires Sized()
      reads this
    {
      View(layout, file, blocks, i)
    }

    ghost function BlockBytes(b: nat): (d: seq<Byte>)
      requires Sized()
      reads this
    {
      BlockAt(layout, file, blocks, b)
    }

    // ----- Creating.

    /** `hdd_chunk_create` followed by `hdd_io_begin` with the new-file flag: an empty open file. */
    constructor OpenNew(disk: Disk, layout: Layout, version: nat)
      ensures this.disk == disk && this.layout == layout && this.version == version
      ensures blocks == 0 && refcount == 1 && !wasChanged && cached && file == []
      ensures |crcData| == BLOCKS_IN_CHUNK && forall b :: 0 <= b < BLOCKS_IN_CHUNK ==> crcData[b] == ZERO
    {
      this.disk := disk;
      this.layout := layout;
      this.version := version;
      blocks, refcount, wasChanged, cached := 0, 1, false, true;
      crcData := seq(BLOCKS_IN_CHUNK, i => ZERO);
      file := [];
    }

    /** `hdd_int_create_chunk` once the folder is chosen: a new file, its header written and closed again. */
    static method Create(disk: Disk, layout: Layout, version: nat) returns (status: Status, c: Chunk?)
      requires layout.Valid()
      modifies disk
      ensures status in {Ok, IoError} && disk.failures == old(disk.failures) + if status == IoError then 1 else 0
      ensures status == IoError ==> c == null
      ensures status == Ok ==>
                && c != null && fresh(c) && c.disk == disk && c.layout == layout && c.version == version
                && c.Valid() && c.blocks == 0 && c.refcount == 0 && c.cached
      ensures status == Ok ==> forall i: nat :: c.ByteAt(i) == 0
    {
      var ok := disk.Try();
      if !ok {
        return IoError, null;
      }
      c := new Chunk.OpenNew(disk, layout, version);
      if layout.format.MooseFS? {
        ok := c.TryPwrite(0, Zeros(layout.HeaderSize()));
        if !ok {
          return IoError, null;
        }
      }
      EmptyFile(layout, c.file, c.crcData);
      hide TailZero, Consistent, Flushed, Backed;
      c.refcount := c.refcount - 1;
      return Ok, c;
    }

    // ----- Descriptor operations that may fail.

    method TryPwrite(off: nat, d: seq<Byte>) returns (ok: bool)
      modifies this`file, disk
      ensures file == if ok then Pwrite(old(file), off, d) else old(file)
      ensures disk.failures == old(disk.failures) + if ok then 0 else 1
    {
      ok := disk.Try();
      if ok {
        file := Pwrite(file, off, d);
      }
    }

    method TryFtruncate(size: nat) returns (ok: bool)
      modifies this`file, disk
      ensures file == if ok then Ftruncate(old(file), size) else old(file)
      ensures disk.failures == old(disk.failures) + if ok then 0 else 1
    {
      ok := disk.Try();
      if ok {
        file := Ftruncate(file, size);
      }
    }

    /** A read behind the end of the file is short, which counts as a failure too. */
    method TryPread(off: nat, size: nat) returns (ok: bool, d: seq<Byte>)
      modifies disk
      ensures ok ==> off + size <= |file| && d == file[off..off + size]
      ensures off + size <= |file| ==> disk.failures == old(disk.failures) + if ok then 0 else 1
    {
      ok := disk.Try();
      d := [];
      if ok && off + size <= |file| {
        d := file[off..off + size];
      } else {
        ok := false;
      }
    }

    // ----- Opening and closing.

    /**
     `hdd_io_begin` without the new-file flag, its header read assumed to succeed. A table that
     has to be loaded again is right exactly when none of its checksums was lost.
     */
    method IoBegin() returns (status: Status)
      requires Kept()
      modifies this`refcount, this`cached, this`crcData, disk
      ensures Kept() && status in {Ok, IoError} && (status == Ok ==> cached)
      ensures disk.failures == old(disk.failures) + if status == IoError then 1 else 0
      ensures refcount == old(refcount) + if status == Ok then 1 else 0
      ensures old(cached) ==> status == Ok && crcData == old(crcData)
      ensures old(cached) || status == IoError ==> (Sound() <==> old(Sound()))
      ensures status == Ok && !old(cached) ==> Loaded(layout, file, crcData) && (Sound() <==> Durable())
      ensures forall i: nat :: ByteAt(i) == old(ByteAt(i))
    {
      hide TailZero, Consistent, Backed, Flushed, Loaded;
      if refcount == 0 && !cached {
        var gotFd := disk.Try();
        if !gotFd {
          return IoError;
        }
        if layout.format.MooseFS? {
          crcData := ReadCrcs();
        }
        cached := true;
        ghost var crcs :| Backed(layout, file, blocks, crcs) && Flushed(layout, file, crcs);
        LoadedTable(layout, file, crcData);
        ReloadConsistent(layout, file, blocks, crcs, crcData);
      }
      refcount := refcount + 1;
      return Ok;
    }

    /** `hdd_int_chunk_readcrc` into a new table */
    method ReadCrcs() returns (crcs: seq<Word>)
      requires layout.Valid() && layout.format.MooseFS? && layout.HeaderSize() <= |file|
      ensures Loaded(layout, file, crcs)
    {
      hide DiskCrc;
      crcs := [];
      var b := 0;
      while b < BLOCKS_IN_CHUNK
        invariant 0 <= b <= BLOCKS_IN_CHUNK && |crcs| == b
        invariant forall h :: 0 <= h < b && h < layout.MaxBlocks() ==> DiskCrc(layout, file, h) == crcs[h]
        invariant forall h :: layout.MaxBlocks() <= h < b ==> crcs[h] == ZERO
      {
        crcs := crcs + [if b < layout.MaxBlocks() then DiskCrc(layout, file, b) else ZERO];
        b := b + 1;
      }
    }

    /** `hdd_io_end`: write the table back if anything changed, then drop one reference. */
    method IoEnd() returns (status: Status)
      requires Kept()
      modifies this`refcount, this`wasChanged, this`file, disk
      ensures Kept() && (old(Sound()) ==> Sound())
      ensures status in {Ok, IoError} && disk.failures == old(disk.failures) + if status == IoError then 1 else 0
      ensures status == Ok ==> !wasChanged && refcount == if old(refcount) == 0 then 0 else old(refcount) - 1
      ensures status == IoError ==> refcount == old(refcount) && wasChanged
      ensures forall i: nat :: ByteAt(i) == old(ByteAt(i))
    {
      hide BlockAt, Pwrite, EncodeCrcs, TailZero, Consistent, Backed, Flushed;
      if wasChanged {
        if layout.format.MooseFS? {
          FlushedTable(layout, file, blocks, crcData);
          var written := TryPwrite(SIGNATURE_BLOCK_SIZE, EncodeCrcs(crcData[..layout.MaxBlocks()]));
          if !written {
            return IoError;
          }
        } else {
          NothingToFlush(layout, file, crcData);
        }
        wasChanged := false;
      }
      if refcount > 0 {
        refcount := refcount - 1;
      }
      return Ok;
    }

    /** An evicted descriptor takes the checksum table with it. */
    method Evict()
      requires Kept() && refcount == 0
      modifies this`cached, this`crcData
      ensures Kept() && !cached
      ensures forall i: nat :: ByteAt(i) == old(ByteAt(i))
    {
      hide TailZero, Backed, Flushed;
      cached := false;
      crcData := [];
    }

    // ----- Reading.

    /** The stored checksum of block `b` matches its bytes. */
    ghost predicate Intact(b: nat)
      requires Sized() && cached
      reads this
    {
      b >= blocks || BlockOk(layout, file, crcData, b)
    }

    /** Block `b` is behind the end, or has a slot for its checksum; in a valid chunk every block is. */
    ghost predicate Trusted(b: nat)
      requires layout.Valid()
      reads this
    {
      b >= blocks || Slotted(layout, b)
    }

    lemma KeptIsIntact(b: nat)
      requires Kept() && cached && Trusted(b)
      ensures Intact(b)
    {
      hide TailZero, Flushed, BlockOk;
    }

    /** An interleaved checksum field of four zero bytes is taken for a hole. */
    ghost predicate ZeroField(b: nat)
      requires Sized()
      reads this
    {
      b < blocks && layout.format.Interleaved? && layout.CrcField(file, b) == Zeros(CRC_SIZE)
    }

    /** `hdd_read_crc_and_block` */
    method ReadCrcAndBlock(b: nat) returns (status: Status, crc: Word, d: seq<Byte>)
      requires Sized() && cached
      modifies disk
      ensures disk.failures == old(disk.failures) + if status == IoError then 1 else 0
      ensures b >= BLOCKS_IN_CHUNK ==> status == BlockNumberTooBig
      ensures b < BLOCKS_IN_CHUNK ==> status in {Ok, CrcError, IoError}
      ensures status == CrcError ==> !Intact(b) && !ZeroField(b)
      ensures status == Ok ==> d == BlockBytes(b) && (Intact(b) || ZeroField(b))
      ensures status == Ok ==> crc == if Intact(b) then BlockCrc(d) else ZERO
    {
      hide BlockCrc, ZerosCrc, Put32;
      crc, d := ZERO, [];
      if b >= BLOCKS_IN_CHUNK {
        return BlockNumberTooBig, crc, d;
      }
      ZerosCrcIsCrc(BLOCK_SIZE);
      if b >= blocks {
        return Ok, ZerosCrc(BLOCK_SIZE), Zeros(BLOCK_SIZE);
      }
      var ok;
      if layout.format.MooseFS? {
        ok, d := TryPread(layout.BlockOffset(b), BLOCK_SIZE);
        if !ok {
          return IoError, crc, d;
        }
        crc := crcData[b];
        return if crc == BlockCrc(d) then Ok else CrcError, crc, d;
      }
      status, crc, d := ReadInterleaved(b);
    }

    method ReadInterleaved(b: nat) returns (status: Status, crc: Word, d: seq<Byte>)
      requires Sized() && cached && b < blocks && layout.format.Interleaved?
      modifies disk
      ensures status in {Ok, CrcError, IoError}
      ensures disk.failures == old(disk.failures) + if status == IoError then 1 else 0
      ensures status == CrcError ==> !Intact(b) && !ZeroField(b)
      ensures status == Ok ==> d == BlockBytes(b) && (Intact(b) || ZeroField(b))
      ensures status == Ok ==> crc == if Intact(b) then BlockCrc(d) else ZERO
    {
      hide BlockCrc, ZerosCrc, Get32, BlockOk;
      InterleavedVerdict(layout, file, crcData, b);
      ZerosCrcIsCrc(BLOCK_SIZE);
      crc, d := ZERO, [];
      var ok, field;
      ok, field := TryPread(layout.BlockOffset(b), CRC_SIZE);
      if !ok {
        return IoError, crc, d;
      }
      ok, d := TryPread(layout.BlockOffset(b) + CRC_SIZE, BLOCK_SIZE);
      if !ok {
        return IoError, crc, d;
      }
      crc := Get32(field);
      if field == Zeros(CRC_SIZE) {
        if d == Zeros(BLOCK_SIZE) {
          crc := ZerosCrc(BLOCK_SIZE);
        }
        return Ok, crc, d;
      }
      return if crc == BlockCrc(d) then Ok else CrcError, crc, d;
    }

    /** The sum of offset and size in a 32-bit word is smaller than its parts. */
    static predicate Wraps(offset: U32, size: U32) {
      offset % BLOCK_SIZE + size >= WORD32
    }

    /** The size check of `hdd_read`, done in 32 bits. */
    static predicate SizeChecked(offset: U32, size: U32) {
      size != 0 && (offset % BLOCK_SIZE + size) % WORD32 <= BLOCK_SIZE
    }

    static lemma SizeCheckedIff(offset: U32, size: U32)
      ensures SizeChecked(offset, size) <==> size != 0 && (offset % BLOCK_SIZE + size <= BLOCK_SIZE || Wraps(offset, size))
    {
    }

    /**
     `hdd_read` of a range inside one block; the reply is the checksum of the range and its bytes.
     A size that makes the sum wrap passes the check and is longer than the block read.
     */
    method Read(reqVersion: nat, offset: U32, size: U32) returns (status: Status, crc: Word, d: seq<Byte>)
      requires Sized() && cached
      modifies disk
      ensures status !in {NoChunk, WrongOffset}
      ensures disk.failures == old(disk.failures) + if status == IoError then 1 else 0
      ensures status == WrongSize <==> size == 0 || BLOCK_SIZE < offset % BLOCK_SIZE + size < WORD32
      ensures status == WrongVersion <==> SizeChecked(offset, size) && version != reqVersion && reqVersion > 0
      ensures status == BlockNumberTooBig <==>
                SizeChecked(offset, size) && (version == reqVersion || reqVersion == 0) && offset >= CHUNK_SIZE
      ensures status == CrcError ==> !Intact(offset / BLOCK_SIZE)
      ensures status == Overrun ==> Wraps(offset, size)
      ensures Wraps(offset, size) ==> status in {WrongVersion, BlockNumberTooBig, CrcError, IoError, Overrun}
      ensures status == Ok ==> |d| == size && forall k :: 0 <= k < size ==> d[k] == ByteAt(offset + k)
      ensures status in {Ok, Overrun} ==> Intact(offset / BLOCK_SIZE) || ZeroField(offset / BLOCK_SIZE)
      ensures status == Ok && (Intact(offset / BLOCK_SIZE) || size < BLOCK_SIZE) ==> crc == BlockCrc(d)
      ensures Kept() && Trusted(offset / BLOCK_SIZE) && status !in {WrongSize, WrongVersion, BlockNumberTooBig, IoError, Overrun} ==>
                status == Ok && crc == BlockCrc(d)
    {
      hide BlockCrc, BlockAt, View, BlockOk, SizeChecked, TailZero, Flushed;
      if Kept() && Trusted(offset / BLOCK_SIZE) {
        KeptIsIntact(offset / BLOCK_SIZE);
      }
      hide Backed;
      SizeCheckedIff(offset, size);
      crc, d := ZERO, [];
      var within := offset % BLOCK_SIZE;
      if !SizeChecked(offset, size) {
        return WrongSize, crc, d;
      }
      if version != reqVersion && reqVersion > 0 {
        return WrongVersion, crc, d;
      }
      var b := offset / BLOCK_SIZE;
      status, crc, d := ReadCrcAndBlock(b);
      if status == Ok {
        if size > BLOCK_SIZE {
          return Overrun, ZERO, [];
        }
        RangeIsView(layout, file, blocks, offset, size);
        assert size == BLOCK_SIZE ==> d[within..within + size] == d;
        if size < BLOCK_SIZE {
          d := d[within..within + size];
          crc := BlockCrc(d);
        }
      }
    }

    // ----- Writing.

    /** Two tables that agree behind the slots. */
    static ghost predicate SameTail(l: Layout, a: seq<Word>, b: seq<Word>) {
      l.Valid() && l.format.MooseFS? ==> |a| == |b| && forall i :: l.MaxBlocks() <= i < |a| ==> a[i] == b[i]
    }

    /** The answer to a write request that never reaches the disk. */
    static function CheckWrite(l: Layout, version: nat, reqVersion: nat, b: nat, offset: nat, crc: Word, buffer: seq<Byte>): Status
      requires l.Valid()
    {
      if version != reqVersion && reqVersion > 0 then WrongVersion
      else if b >= l.MaxBlocks() then BlockNumberTooBig
      else if |buffer| > BLOCK_SIZE then WrongSize
      else if offset >= BLOCK_SIZE || offset + |buffer| > BLOCK_SIZE then WrongOffset
      else if crc != BlockCrc(buffer) then CrcError
      else Ok
    }

    /** `hdd_int_write_partial_block_and_crc` */
    method WritePartial(buffer: seq<Byte>, offset: nat, crc: Word, b: nat) returns (ok: bool)
      requires layout.Valid() && (layout.format.MooseFS? ==> b < |crcData|)
      modifies this`file, this`crcData, disk
      ensures disk.failures == old(disk.failures) + if ok then 0 else 1
      ensures ok ==> file == Rewritten(layout, old(file), b, offset, buffer, crc)
      ensures ok ==> crcData == WithCrc(layout, old(crcData), b, crc)
    {
      hide Put32;
      if layout.format.MooseFS? {
        ok := TryPwrite(layout.DataOffset(b) + offset, buffer);
        if ok {
          crcData := crcData[b := crc];
        }
      } else {
        ok := TryPwrite(layout.CrcOffset(b), Put32(crc));
        if ok {
          ok := TryPwrite(layout.DataOffset(b) + offset, buffer);
        }
      }
    }

    /** The table entries of the blocks skipped by a write past the end. */
    method FillSkipped(from: nat, to: nat)
      requires layout.format.MooseFS? ==> to <= |crcData|
      modifies this`crcData
      ensures crcData == Skipped(layout, old(crcData), from, to)
    {
      hide ZerosCrc, FillEmpty;
      if layout.format.MooseFS? {
        var i := from;
        while i < to
          invariant from <= i <= if from <= to then to else from
          invariant |crcData| == |old(crcData)|
          invariant forall h :: 0 <= h < |crcData| ==>
            crcData[h] == if from <= h < i then ZerosCrc(BLOCK_SIZE) else old(crcData)[h]
        {
          crcData := crcData[i := ZerosCrc(BLOCK_SIZE)];
          i := i + 1;
        }
        assert crcData == FillEmpty(old(crcData), from, to);
      }
    }

    /** `hdd_int_read_block_and_crc` */
    method ReadBlockAndCrc(b: nat) returns (ok: bool, crc: Word, d: seq<Byte>)
      requires Sized() && cached && b < blocks
      modifies disk
      ensures disk.failures == old(disk.failures) + if ok then 0 else 1
      ensures ok ==> d == layout.Block(file, b)
      ensures ok ==> (Intact(b) <==> crc == BlockCrc(d))
    {
      hide BlockCrc, Layout.HeaderSize, Layout.MaxBlocks;
      crc, d := ZERO, [];
      if layout.format.MooseFS? {
        ok, d := TryPread(layout.BlockOffset(b), BLOCK_SIZE);
        crc := crcData[b];
      } else {
        ok, crc, d := ReadSlot(b);
      }
    }

    /** The same for the interleaved format: field and block in one read. */
    method ReadSlot(b: nat) returns (ok: bool, crc: Word, d: seq<Byte>)
      requires Sized() && cached && b < blocks && layout.format.Interleaved?
      modifies disk
      ensures disk.failures == old(disk.failures) + if ok then 0 else 1
      ensures ok ==> d == layout.Block(file, b)
      ensures ok ==> (Intact(b) <==> crc == BlockCrc(d))
    {
      hide BlockCrc, ZerosCrc, Put32, Get32, BlockOk, Layout.Block, Layout.CrcField, Layout.DataOffset, Layout.CrcOffset;
      crc, d := ZERO, [];
      var raw;
      ok, raw := TryPread(layout.BlockOffset(b), CRC_SIZE + BLOCK_SIZE);
      if ok {
        SlotIsFieldAndBlock(layout, file, blocks, b);
        d := raw[CRC_SIZE..];
        crc := RecomputeIfEmpty(d, Get32(raw[..CRC_SIZE]));
        InterleavedVerdict(layout, file, crcData, b);
        ZerosCrcIsCrc(BLOCK_SIZE);
      }
    }

    /** `recompute_crc_if_block_empty` */
    static function RecomputeIfEmpty(block: seq<Byte>, crc: Word): Word {
      if crc == ZERO && block == Zeros(BLOCK_SIZE) then ZerosCrc(BLOCK_SIZE) else crc
    }

    /**
     `hdd_write`: `buffer` at `offset` inside block `b`. On success the byte array has the
     written range replaced and the skipped blocks, if any, read as zeros.
     */
    method Write(reqVersion: nat, b: nat, offset: nat, crc: Word, buffer: seq<Byte>) returns (status: Status)
      requires Sized() && cached && refcount > 0
      modifies this`blocks, this`wasChanged, this`file, this`crcData, disk
      ensures disk.failures == old(disk.failures) + if status == IoError then 1 else 0
      ensures CheckWrite(layout, version, reqVersion, b, offset, crc, buffer) != Ok ==>
                && status == CheckWrite(layout, version, reqVersion, b, offset, crc, buffer)
                && blocks == old(blocks) && wasChanged == old(wasChanged) && file == old(file) && crcData == old(crcData)
      ensures CheckWrite(layout, version, reqVersion, b, offset, crc, buffer) == Ok ==>
                status in {Ok, IoError} || (status == CrcError && b < old(blocks) && !old(Intact(b)) && file == old(file))
      ensures status == Ok && b < old(blocks) && |buffer| < BLOCK_SIZE ==> old(Intact(b))
      ensures status == Ok && old(Valid()) ==> Valid()
      ensures status == Ok && old(Kept()) ==>
                && Kept()
                && blocks == (if b < old(blocks) then old(blocks) else b + 1)
                && forall i: nat :: ByteAt(i) == var lo := b * BLOCK_SIZE + offset;
                                                 if lo <= i < lo + |buffer| then buffer[i - lo] else old(ByteAt(i))
      ensures status == Ok ==> SameTail(layout, old(crcData), crcData)
    {
      hide BlockCrc, View, BlockAt, Patch, BlockOk, SameTail, TailZero, Backed, Consistent, Flushed;
      ghost var was, wasBlocks, wasCrcs := file, blocks, crcData;
      status := CheckWrite(layout, version, reqVersion, b, offset, crc, buffer);
      if status != Ok {
        return;
      }
      wasChanged := true;
      if offset == 0 && |buffer| == BLOCK_SIZE {
        status := WriteFull(b, crc, buffer);
      } else if b < blocks {
        status := WriteInside(b, offset, crc, buffer);
      } else {
        status := WriteNew(b, offset, crc, buffer);
      }
      if status == Ok && old(Kept()) {
        BackedSize(layout, file, blocks, crcData);
        PatchedView(layout, was, wasBlocks, file, blocks, b, offset, buffer);
        TailZeroPatch(layout, was, wasBlocks, file, blocks, b, offset, buffer);
        if Fits() {
          KeptFits();
        }
      }
    }

    /** A whole block: its checksum is the one that came with the request. */
    method WriteFull(b: nat, crc: Word, buffer: seq<Byte>) returns (status: Status)
      requires Sized() && cached && b < layout.MaxBlocks()
      requires |buffer| == BLOCK_SIZE && crc == BlockCrc(buffer)
      modifies this`blocks, this`file, this`crcData, disk
      ensures disk.failures == old(disk.failures) + if status == IoError then 1 else 0
      ensures status in {Ok, IoError}
      ensures status == Ok && old(Backed(layout, file, blocks, crcData)) ==>
                Wrote(layout, old(file), old(blocks), file, blocks, crcData, b, 0, buffer)
      ensures status == Ok ==> SameTail(layout, old(crcData), crcData)
    {
      hide BlockCrc, ZerosCrc, Rewritten, Ftruncate, Patch, Skipped, WithCrc, Backed, SameTail, Wrote;
      ghost var was, wasBlocks, wasCrcs := file, blocks, crcData;
      if b >= blocks {
        FillSkipped(blocks, b);
        blocks := b + 1;
      }
      var ok := WritePartial(buffer, 0, crc, b);
      if !ok {
        return IoError;
      }
      if Backed(layout, was, wasBlocks, wasCrcs) {
        PatchWhole(BlockAt(layout, was, wasBlocks, b), buffer);
        PatchWhole(Zeros(BLOCK_SIZE), buffer);
        if b < wasBlocks {
          WroteInside(layout, was, wasBlocks, wasCrcs, b, 0, buffer, crc);
        } else {
          RewritePastEnd(layout, was, wasBlocks, b, buffer, crc);
          WrotePastEnd(layout, was, wasBlocks, wasCrcs, b, 0, buffer, crc);
        }
      }
      KeepsTail(layout, wasCrcs, wasBlocks, b, crc);
      return Ok;
    }

    /** Part of an existing block: verify its checksum, then join the checksums of the parts. */
    method WriteInside(b: nat, offset: nat, crc: Word, buffer: seq<Byte>) returns (status: Status)
      requires Sized() && cached && b < blocks && b < layout.MaxBlocks()
      requires offset + |buffer| <= BLOCK_SIZE && crc == BlockCrc(buffer)
      modifies this`file, this`crcData, disk
      ensures disk.failures == old(disk.failures) + if status == IoError then 1 else 0
      ensures status in {Ok, IoError, CrcError}
      ensures status == CrcError ==> !old(Intact(b)) && file == old(file)
      ensures status == Ok ==> old(Intact(b))
      ensures status == Ok && old(Backed(layout, file, blocks, crcData)) ==>
                Wrote(layout, old(file), blocks, file, blocks, crcData, b, offset, buffer)
      ensures status == Ok ==> SameTail(layout, old(crcData), crcData)
    {
      hide BlockCrc, CombineParts, Rewritten, Patch, WithCrc, Backed, SameTail, Wrote, BlockOk;
      ghost var was, wasCrcs := file, crcData;
      var size := |buffer|;
      var ok, stored, d := ReadBlockAndCrc(b);
      if !ok {
        return IoError;
      }
      var precrc, chcrc, postcrc := BlockCrc(d[..offset]), BlockCrc(d[offset..offset + size]), BlockCrc(d[offset + size..]);
      CombineInBlock(d, offset, d[offset..offset + size]);
      PatchSelf(d, offset, size);
      if stored != CombineParts(precrc, chcrc, postcrc, offset, size) {
        return CrcError;
      }
      var combined := CombineParts(precrc, crc, postcrc, offset, size);
      CombineInBlock(d, offset, buffer);
      ok := WritePartial(buffer, offset, combined, b);
      if !ok {
        return IoError;
      }
      if Backed(layout, was, blocks, wasCrcs) {
        WroteInside(layout, was, blocks, wasCrcs, b, offset, buffer, combined);
      }
      KeepsTail(layout, wasCrcs, blocks, b, combined);
      return Ok;
    }

    /** Part of a block past the end: the rest of it is zeros. */
    method WriteNew(b: nat, offset: nat, crc: Word, buffer: seq<Byte>) returns (status: Status)
      requires Sized() && cached && blocks <= b < layout.MaxBlocks()
      requires offset + |buffer| <= BLOCK_SIZE && crc == BlockCrc(buffer)
      modifies this`blocks, this`file, this`crcData, disk
      ensures disk.failures == old(disk.failures) + if status == IoError then 1 else 0
      ensures status in {Ok, IoError}
      ensures status == Ok && old(Backed(layout, file, blocks, crcData)) ==>
                Wrote(layout, old(file), old(blocks), file, blocks, crcData, b, offset, buffer)
      ensures status == Ok ==> SameTail(layout, old(crcData), crcData)
    {
      hide BlockCrc, ZerosCrc, CombineParts, Rewritten, Ftruncate, Patch, Skipped, WithCrc, Backed, SameTail, Wrote;
      ghost var was, wasBlocks, wasCrcs := file, blocks, crcData;
      var size := |buffer|;
      var ok := TryFtruncate(layout.FileSize(b + 1));
      if !ok {
        return IoError;
      }
      FillSkipped(blocks, b);
      blocks := b + 1;
      var precrc, postcrc := ZerosCrc(offset), ZerosCrc(BLOCK_SIZE - (offset + size));
      var combined := CombineParts(precrc, crc, postcrc, offset, size);
      CombineInZeros(offset, buffer);
      ok := WritePartial(buffer, offset, combined, b);
      if !ok {
        return IoError;
      }
      if Backed(layout, was, wasBlocks, wasCrcs) {
        WrotePastEnd(layout, was, wasBlocks, wasCrcs, b, offset, buffer, combined);
      }
      KeepsTail(layout, wasCrcs, wasBlocks, b, combined);
      return Ok;
    }

    // ----- Truncating.

    /**
     `hdd_int_truncate`. On success the byte array is cut at `length` and zero-extended again.
     The slot count of the part type is not checked. A `MooseFS` file with more blocks than its
     header has slots works until its table is loaded again.
     */
    method Truncate(oldVersion: nat, newVersion: nat, length: nat) returns (status: Status)
      requires Kept()
      modifies this, disk
      ensures disk.failures == old(disk.failures) + if status == IoError then 1 else 0
      ensures status == WrongSize <==> length > CHUNK_SIZE
      ensures status == WrongVersion <==> length <= CHUNK_SIZE && old(version) != oldVersion && oldVersion > 0
      ensures status in {Ok, WrongSize, WrongVersion, IoError}
      ensures status in {WrongSize, WrongVersion} ==> unchanged(this)
      ensures status == Ok ==> Kept() && version == newVersion && blocks == BlockCount(length) && refcount == old(refcount) && cached
      ensures status == Ok && old(Sound() && (cached || Durable())) ==> Sound()
      ensures status == Ok && old(cached) ==> TailAfter(layout, old(blocks), old(crcData), blocks, crcData, length)
      ensures status == Ok ==> (Valid() <==> layout.format.Interleaved? || BlockCount(length) <= layout.MaxBlocks())
      ensures status == Ok ==> (Durable() <==> layout.format.Interleaved? || BlockCount(length) <= layout.MaxBlocks())
      ensures status == Ok ==> forall i: nat :: ByteAt(i) == if i < length then old(ByteAt(i)) else 0
    {
      hide View, Consistent, Flushed, BlockAt, BlockCount, SlotlessZero, TailZero, Backed, Loaded, TailAfter;
      if length > CHUNK_SIZE {
        return WrongSize;
      }
      if version != oldVersion && oldVersion > 0 {
        return WrongVersion;
      }
      var renamed := disk.Try();
      if !renamed {
        return IoError;
      }
      version := newVersion;
      status := IoBegin();
      if status != Ok {
        return;
      }
      status := OverwriteVersion(newVersion);
      if status != Ok {
        return;
      }
      status := Resize(length);
      if status != Ok {
        return;
      }
      status := IoEnd();
      if status == Ok {
        SlotlessIffTooLong(layout, file, blocks);
        if Fits() {
          KeptFits();
        }
      }
    }

    method Resize(length: nat) returns (status: Status)
      requires Kept() && refcount > 0 && length <= CHUNK_SIZE
      modifies this`blocks, this`file, this`crcData, this`wasChanged, disk
      ensures disk.failures == old(disk.failures) + if status == IoError then 1 else 0
      ensures status in {Ok, IoError}
      ensures status == Ok ==> TailAfter(layout, old(blocks), old(crcData), blocks, crcData, length)
      ensures status == Ok ==> Kept() && blocks == BlockCount(length) && (old(Sound()) ==> Sound())
      ensures status == Ok ==> forall i: nat :: ByteAt(i) == if i < length then old(ByteAt(i)) else 0
    {
      hide View, Consistent, Flushed, BlockAt, TailZero, Backed, TailAfter;
      ghost var was, wasBlocks := file, blocks;
      wasChanged := true;
      BlockCountSplit(length);
      if BlockCount(length) > blocks {
        status := Grow(length);
      } else {
        status := Shrink(length);
      }
      if status == Ok {
        TailZeroCut(layout, was, wasBlocks, file, blocks, length);
      }
    }

    /** `hdd_chunk_overwrite_version` */
    method OverwriteVersion(newVersion: nat) returns (status: Status)
      requires Kept() && cached
      modifies this`version, this`file, disk
      ensures disk.failures == old(disk.failures) + if status == IoError then 1 else 0
      ensures Kept() && status in {Ok, IoError} && (old(Sound()) ==> Sound())
      ensures status == Ok ==> version == newVersion
      ensures forall i: nat :: ByteAt(i) == old(ByteAt(i))
    {
      hide BlockAt, Pwrite, Put32, Consistent, Flushed, TailZero, Backed;
      if layout.format.MooseFS? {
        SignedFile(layout, file, blocks, crcData, VERSION_OFFSET, Put32(Digits(newVersion, WIDTH)));
        var ok := TryPwrite(VERSION_OFFSET, Put32(Digits(newVersion, WIDTH)));
        if !ok {
          return IoError;
        }
      }
      version := newVersion;
      return Ok;
    }

    method Grow(length: nat) returns (status: Status)
      requires Sized() && cached && Backed(layout, file, blocks, crcData)
      requires blocks < BlockCount(length) && length <= CHUNK_SIZE
      modifies this`blocks, this`file, this`crcData, disk
      ensures disk.failures == old(disk.failures) + if status == IoError then 1 else 0
      ensures status in {Ok, IoError}
      ensures status == Ok ==> TailAfter(layout, old(blocks), old(crcData), blocks, crcData, length)
      ensures status == Ok ==> Sized() && Backed(layout, file, blocks, crcData) && blocks == BlockCount(length)
      ensures status == Ok && old(Consistent(layout, file, blocks, crcData)) ==> Consistent(layout, file, blocks, crcData)
      ensures status == Ok ==> forall i: nat :: View(layout, file, blocks, i) == if i < length then View(layout, old(file), old(blocks), i) else 0
    {
      hide BlockAt, Ftruncate, Skipped, Consistent, Backed, View, TailAfter;
      ghost var was, wasBlocks, wasCrcs := file, blocks, crcData;
      BlockCountSplit(length);
      var target := BlockCount(length);
      FillSkipped(blocks, target);
      var ok := TryFtruncate(layout.FileSize(target));
      if !ok {
        return IoError;
      }
      blocks := target;
      BackedSize(layout, was, wasBlocks, wasCrcs);
      GrownTail(layout, wasBlocks, wasCrcs, length);
      GrownBacked(layout, was, wasBlocks, wasCrcs, length);
      BackedSize(layout, file, blocks, crcData);
      return Ok;
    }

    /** The one or two `ftruncate` calls of a shrink; the second zero-fills a partial last block. */
    method CutFile(length: nat) returns (ok: bool)
      requires layout.Valid()
      modifies this`file, disk
      ensures disk.failures == old(disk.failures) + if ok then 0 else 1
      ensures ok ==> file == Cut(layout, old(file), length)
    {
      BlockCountSplit(length);
      var full, part := length / BLOCK_SIZE, length % BLOCK_SIZE;
      if part > 0 {
        ok := TryFtruncate(layout.DataOffset(full) + part);
        if !ok {
          return;
        }
      }
      ok := TryFtruncate(layout.FileSize(BlockCount(length)));
    }

    /** Recompute the checksum of a partial last block from the bytes that are left of it. */
    method SealLastBlock(length: nat) returns (ok: bool)
      requires layout.Valid() && length % BLOCK_SIZE > 0
      requires layout.format.MooseFS? ==> length / BLOCK_SIZE < |crcData| && blocks <= |crcData|
      requires layout.DataOffset(length / BLOCK_SIZE) + length % BLOCK_SIZE <= |file|
      modifies this`file, this`crcData, disk
      ensures disk.failures == old(disk.failures) + if ok then 0 else 1
      ensures ok ==>
                var full, part, off := length / BLOCK_SIZE, length % BLOCK_SIZE, layout.DataOffset(length / BLOCK_SIZE);
                && off + part <= |old(file)|
                && var crc := ZeroExpandedCrc(old(file)[off..off + part], BLOCK_SIZE - part);
                if layout.format.MooseFS? then
                  file == old(file) && crcData == FillEmpty(old(crcData)[full := crc], full + 1, blocks)
                else file == Pwrite(old(file), layout.CrcOffset(full), Put32(crc)) && crcData == old(crcData)
    {
      hide FillEmpty, ZeroExpandedCrc, Put32, Pwrite, BlockCount, Layout.DataOffset, Layout.CrcOffset;
      var full, part := length / BLOCK_SIZE, length % BLOCK_SIZE;
      var d;
      ok, d := TryPread(layout.DataOffset(full), part);
      if !ok {
        return;
      }
      var crc := ZeroExpandedCrc(d, BLOCK_SIZE - part);
      if layout.format.MooseFS? {
        crcData := crcData[full := crc];
        FillSkipped(full + 1, blocks);
      } else {
        ok := TryPwrite(layout.CrcOffset(full), Put32(crc));
      }
    }

    /** Cut the file and recompute the last checksum. */
    method CutAndSeal(length: nat) returns (ok: bool)
      requires Sized() && cached && BlockCount(length) <= blocks
      modifies this`file, this`crcData, disk
      ensures disk.failures == old(disk.failures) + if ok then 0 else 1
      ensures ok ==> Shrunk(layout, old(file), blocks, old(crcData), length, file, crcData)
    {
      hide FillEmpty, ZeroExpandedCrc, Put32, Pwrite, Cut;
      ghost var was, wasCrcs := file, crcData;
      BlockCountSplit(length);
      ok := CutFile(length);
      if !ok {
        return;
      }
      CutReaches(layout, was, blocks, length);
      if length % BLOCK_SIZE > 0 {
        ok := SealLastBlock(length);
      }
      if ok && layout.format.MooseFS? {
        assert crcData[..length / BLOCK_SIZE] == wasCrcs[..length / BLOCK_SIZE];
      }
    }

    method Shrink(length: nat) returns (status: Status)
      requires Sized() && cached && Backed(layout, file, blocks, crcData)
      requires BlockCount(length) <= blocks && TailZero(layout, file, blocks)
      modifies this`blocks, this`file, this`crcData, disk
      ensures disk.failures == old(disk.failures) + if status == IoError then 1 else 0
      ensures status in {Ok, IoError}
      ensures status == Ok ==> TailAfter(layout, old(blocks), old(crcData), blocks, crcData, length)
      ensures status == Ok ==> Sized() && Backed(layout, file, blocks, crcData) && blocks == BlockCount(length)
      ensures status == Ok && old(Consistent(layout, file, blocks, crcData)) ==> Consistent(layout, file, blocks, crcData)
      ensures status == Ok ==> forall i: nat :: View(layout, file, blocks, i) == if i < length then View(layout, old(file), old(blocks), i) else 0
    {
      hide BlockAt, Consistent, Backed, View, TailAfter, TailZero, Shrunk;
      ghost var was, wasBlocks, wasCrcs := file, blocks, crcData;
      BlockCountSplit(length);
      BackedSize(layout, file, blocks, crcData);
      var ok := CutAndSeal(length);
      if !ok {
        return IoError;
      }
      blocks := BlockCount(length);
      ShrunkTail(layout, was, wasBlocks, wasCrcs, length, file, crcData);
      ShrinkBacked(layout, was, wasBlocks, wasCrcs, length, file, crcData);
      BackedSize(layout, file, blocks, crcData);
      return Ok;
    }

    // ----- Duplicate and truncate.

    /** Copy the first `count` blocks of `oc`, stored checksums included, block by block. */
    method AppendBlocks(oc: Chunk, count: nat) returns (ok: bool)
      requires oc != this && oc.disk == disk && oc.layout == layout && oc.Sized() && count <= oc.blocks && file == []
      modifies this`file, disk
      ensures disk.failures == old(disk.failures) + if ok then 0 else 1
      ensures ok ==> layout.FileSize(count) <= |oc.file| && Prefix(layout, file, oc.file, count)
    {
      hide Prefix, Pwrite;
      ok := true;
      var b := 0;
      assert Prefix(layout, file, oc.file, 0) by { PrefixNone(layout, oc.file); }
      while b < count
        invariant 0 <= b <= count && layout.FileSize(b) <= |oc.file|
        invariant Prefix(layout, file, oc.file, b) && ok && disk.failures == old(disk.failures)
      {
        BlockInside(layout, oc.file, oc.blocks, b);
        var d;
        ok, d := oc.TryPread(layout.BlockOffset(b), layout.BlockOffset(b + 1) - layout.BlockOffset(b));
        if !ok {
          return;
        }
        PrefixAppend(layout, file, oc.file, b);
        ok := TryPwrite(layout.BlockOffset(b), d);
        if !ok {
          return;
        }
        b := b + 1;
      }
    }

    /** The last block of a misaligned cut: its head, a fresh checksum, zeros. */
    method AppendLast(oc: Chunk, length: nat) returns (ok: bool, crc: Word)
      requires oc != this && oc.disk == disk && oc.layout == layout && oc.Sized()
      requires BlockCount(length) <= oc.blocks && length % BLOCK_SIZE != 0
      requires layout.FileSize(length / BLOCK_SIZE) <= |oc.file| && Prefix(layout, file, oc.file, length / BLOCK_SIZE)
      modifies this`file, disk
      ensures disk.failures == old(disk.failures) + if ok then 0 else 1
      ensures ok ==> layout.DataOffset(length / BLOCK_SIZE) + length % BLOCK_SIZE <= |oc.file|
      ensures ok ==> crc == LastCrc(layout, oc.file, length)
      ensures ok ==> SameBody(layout, file, Target(layout, oc.file, oc.blocks, length))
    {
      hide Prefix, Pwrite, SameBody, LastSlot, Put32, ZeroExpandedCrc, Cut, BlockCount, Target, LastCrc, Layout.HeaderSize, Layout.MaxBlocks, Layout.BlockOffset;
      SealTarget(layout, oc.file, oc.blocks, length);
      var full, part := length / BLOCK_SIZE, length % BLOCK_SIZE;
      var head;
      crc := ZERO;
      ok, head := oc.TryPread(layout.DataOffset(full), part);
      if !ok {
        return;
      }
      crc := ZeroExpandedCrc(head, BLOCK_SIZE - part);
      PrefixSeal(layout, file, oc.file, oc.blocks, length, crc);
      ok := TryPwrite(layout.BlockOffset(full), LastSlot(layout, head, crc));
    }

    /** The blocks of the copy; `table` is its checksum table under construction. */
    method CopyBlocks(oc: Chunk, length: nat, table0: seq<Word>) returns (ok: bool, table: seq<Word>, ghost pending: bool)
      requires oc != this && oc.disk == disk && oc.layout == layout && oc.Sized() && length <= CHUNK_SIZE && file == []
      requires |table0| == BLOCKS_IN_CHUNK
      modifies this`file, disk
      ensures disk.failures == old(disk.failures) + if ok then 0 else 1
      ensures |table| == BLOCKS_IN_CHUNK
      ensures ok && pending ==> BlockCount(length) <= oc.blocks && length % BLOCK_SIZE == 0
      ensures ok && pending ==> layout.FileSize(BlockCount(length)) <= |oc.file| && Prefix(layout, file, oc.file, BlockCount(length))
      ensures ok && !pending ==> SameBody(layout, file, Target(layout, oc.file, oc.blocks, length))
      ensures ok ==> TableFor(layout, oc.file, oc.blocks, table0, length, table)
    {
      hide Prefix, SameBody, FillEmpty, LastCrc;
      BlockCountSplit(length);
      var m, full := BlockCount(length), length / BLOCK_SIZE;
      table := table0;
      if m > oc.blocks {
        pending := false;
        ok := AppendBlocks(oc, oc.blocks);
        if !ok {
          return;
        }
        table := FillEmpty(table0, oc.blocks, m);
        PrefixGrow(layout, file, oc.file, oc.blocks, m);
        ok := TryFtruncate(layout.FileSize(m));
      } else if length % BLOCK_SIZE == 0 {
        pending := true;
        LastFits(layout, oc.file, oc.blocks, length);
        ok := AppendBlocks(oc, m);
      } else {
        pending := false;
        LastFits(layout, oc.file, oc.blocks, length);
        ok := AppendBlocks(oc, full);
        if !ok {
          return;
        }
        var crc;
        ok, crc := AppendLast(oc, length);
        table := table0[full := crc];
      }
    }

    /** Blocks, then for the `MooseFS` format the header with the checksum table. */
    method CopyFrom(oc: Chunk, length: nat) returns (ok: bool)
      requires oc != this && oc.disk == disk && oc.layout == layout && oc.Sized() && oc.cached && length <= CHUNK_SIZE
      requires file == [] && |crcData| == BLOCKS_IN_CHUNK && forall b :: 0 <= b < BLOCKS_IN_CHUNK ==> crcData[b] == ZERO
      modifies this`file, this`crcData, disk
      ensures disk.failures == old(disk.failures) + if ok then 0 else 1
      ensures |crcData| == BLOCKS_IN_CHUNK
      ensures ok ==> SameBody(layout, file, Target(layout, oc.file, oc.blocks, length))
      ensures ok ==> CopiedTable(layout, oc.file, oc.blocks, oc.crcData, length, crcData)
      ensures ok ==> Loaded(layout, file, crcData)
    {
      hide Prefix, SameBody, FillEmpty, LastCrc, Header, Pwrite, EncodeCrcs, Cut, Ftruncate, TableFor;
      BlockCountSplit(length);
      if layout.format.Interleaved? {
        ghost var pending;
        var table;
        ok, table, pending := CopyBlocks(oc, length, crcData);
        if ok && pending {
          PrefixWithHeader(layout, file, oc.file, BlockCount(length), []);
          CutAligned(layout, oc.file, length);
        }
      } else {
        var max := layout.MaxBlocks();
        var table0 := oc.crcData[..max] + Zeros32(BLOCKS_IN_CHUNK - max);
        ghost var pending;
        var table;
        ok, table, pending := CopyBlocks(oc, length, table0);
        if !ok {
          return;
        }
        crcData := table[..max] + crcData[max..];
        TableCopied(layout, oc.file, oc.blocks, oc.crcData, table0, length, table, crcData);
        var h := Header(layout, Zeros(SIGNATURE_BLOCK_SIZE), table);
        if pending {
          PrefixWithHeader(layout, file, oc.file, BlockCount(length), h);
          CutAligned(layout, oc.file, length);
        } else {
          HeaderKeepsBody(layout, file, Target(layout, oc.file, oc.blocks, length), h);
        }
        HeaderFlushed(layout, file, Zeros(SIGNATURE_BLOCK_SIZE), table, crcData);
        hide CopiedTable;
        ok := TryPwrite(0, h);
      }
    }

    /** Open the original, giving it its new version first when that changes. */
    method BeginCopy(chunkVersion: nat, chunkNewVersion: nat) returns (status: Status)
      requires Kept()
      modifies this`version, this`refcount, this`cached, this`crcData, this`file, disk
      ensures disk.failures == old(disk.failures) + if status == IoError then 1 else 0
      ensures status in {Ok, IoError}
      ensures status == Ok ==> Kept() && cached && refcount == old(refcount) + 1 && (old(cached) ==> crcData == old(crcData))
      ensures status == Ok ==> version == if chunkNewVersion != chunkVersion then chunkNewVersion else old(version)
      ensures status == Ok ==> forall i: nat :: ByteAt(i) == old(ByteAt(i))
    {
      hide View, BlockAt, Consistent, Flushed, TailZero, Backed, Loaded;
      if chunkNewVersion != chunkVersion {
        var renamed := disk.Try();
        if !renamed {
          return IoError;
        }
        version := chunkNewVersion;
      }
      status := IoBegin();
      if status == Ok && chunkNewVersion != chunkVersion {
        status := OverwriteVersion(chunkNewVersion);
      }
    }

    static function Zeros32(n: nat): (r: seq<Word>)
      ensures |r| == n
    {
      if n == 0 then [] else Zeros32(n - 1) + [ZERO]
    }

    /** `c` stands for the cut of the bytes that `oc` stands for, with all its checksums exactly when it fits. */
    ghost predicate CutOf(oc: Chunk, length: nat)
      reads this, oc
    {
      && Kept() && oc.Kept() && layout == oc.layout && blocks == BlockCount(length)
      && cached && Loaded(layout, file, crcData)
      && (Valid() <==> layout.format.Interleaved? || BlockCount(length) <= layout.MaxBlocks())
      && (Sound() <==> layout.format.Interleaved? || BlockCount(length) <= layout.MaxBlocks())
      && (Durable() <==> layout.format.Interleaved? || BlockCount(length) <= layout.MaxBlocks())
      && forall i: nat :: ByteAt(i) == if i < length then oc.ByteAt(i) else 0
    }

    /** A new chunk with the blocks of `oc` up to `length`, filled and closed. */
    static method CopyOf(oc: Chunk, version: nat, length: nat) returns (status: Status, c: Chunk?)
      requires oc.Kept() && oc.cached && length <= CHUNK_SIZE
      modifies oc.disk
      ensures oc.disk.failures == old(oc.disk.failures) + if status == IoError then 1 else 0
      ensures status in {Ok, IoError}
      ensures status == Ok ==> c != null && fresh(c) && c.disk == oc.disk && c.version == version && c.refcount == 0 && c.CutOf(oc, length)
    {
      hide View, BlockAt, Consistent, Flushed, BlockCount, Target, CopiedTable, SameBody, SlotlessZero, TailZero, Backed, Loaded;
      c := null;
      var created := oc.disk.Try();
      if !created {
        return IoError, c;
      }
      c := new Chunk.OpenNew(oc.disk, oc.layout, version);
      var ok := c.CopyFrom(oc, length);
      if !ok {
        return IoError, c;
      }
      CopyMeaning(oc, c, length);
      c.refcount := c.refcount - 1;
      c.blocks := BlockCount(length);
      return Ok, c;
    }

    /**
     `hdd_int_duptrunc`: a new chunk whose byte array is `oc`'s, cut at `length` and zero-extended.
     The copy's signature bytes are left zero here; `hdd_io_end` does not look at `blocks`.
     */
    static method DupTrunc(oc: Chunk, chunkVersion: nat, chunkNewVersion: nat, copyVersion: nat, length: nat)
      returns (status: Status, c: Chunk?)
      requires oc.Kept()
      modifies oc, oc.disk
      ensures oc.disk.failures == old(oc.disk.failures) + if status == IoError then 1 else 0
      ensures status == WrongSize <==> length > CHUNK_SIZE
      ensures status == WrongVersion <==> length <= CHUNK_SIZE && old(oc.version) != chunkVersion && chunkVersion > 0
      ensures status in {Ok, WrongSize, WrongVersion, IoError}
      ensures status in {WrongSize, WrongVersion} ==> unchanged(oc)
      ensures status == Ok ==> oc.Kept() && oc.refcount == old(oc.refcount) && oc.blocks == old(oc.blocks) && oc.cached
      ensures status == Ok ==> oc.version == if chunkNewVersion != chunkVersion then chunkNewVersion else old(oc.version)
      ensures status == Ok && old(oc.Valid()) ==> oc.Valid()
      ensures status == Ok && old(oc.cached) ==> oc.crcData == old(oc.crcData)
      ensures status == Ok ==> forall i: nat :: oc.ByteAt(i) == old(oc.ByteAt(i))
      ensures status == Ok ==>
                && c != null && fresh(c) && c.disk == oc.disk && c.layout == oc.layout && c.Kept()
                && c.version == (if copyVersion == 0 then chunkNewVersion else copyVersion)
                && c.blocks == BlockCount(length) && c.refcount == 0
                && c.cached && Loaded(c.layout, c.file, c.crcData)
                && (c.Valid() <==> c.layout.format.Interleaved? || BlockCount(length) <= c.layout.MaxBlocks())
                && (c.Sound() <==> c.layout.format.Interleaved? || BlockCount(length) <= c.layout.MaxBlocks())
                && (c.Durable() <==> c.layout.format.Interleaved? || BlockCount(length) <= c.layout.MaxBlocks())
      ensures status == Ok ==> forall i: nat :: c.ByteAt(i) == if i < length then old(oc.ByteAt(i)) else 0
    {
      hide View, BlockAt, Consistent, Flushed, BlockCount, Target, CopiedTable, SameBody, SlotlessZero, TailZero, Backed, Loaded;
      c := null;
      if length > CHUNK_SIZE {
        return WrongSize, c;
      }
      if oc.version != chunkVersion && chunkVersion > 0 {
        return WrongVersion, c;
      }
      status := oc.BeginCopy(chunkVersion, chunkNewVersion);
      if status != Ok {
        return;
      }
      status, c := CopyOf(oc, if copyVersion == 0 then chunkNewVersion else copyVersion, length);
      if status != Ok {
        return;
      }
      status := oc.IoEnd();
      if status != Ok {
        return;
      }
      if oc.Fits() {
        oc.KeptFits();
      }
    }
  }

  lemma BackedSize(l: Layout, file: seq<Byte>, n: nat, crcs: seq<Word>)
    requires Backed(l, file, n, crcs)
    ensures l.Valid() && |file| == l.FileSize(n) && (l.format.MooseFS? ==> |crcs| == BLOCKS_IN_CHUNK && n <= BLOCKS_IN_CHUNK)
  {
  }

  /** A cut file still has the part of its last block that was kept. */
  lemma CutReaches(l: Layout, file: seq<Byte>, n: nat, length: nat)
    requires l.Valid() && |file| == l.FileSize(n) && BlockCount(length) <= n
    ensures length % BLOCK_SIZE > 0 ==> l.DataOffset(length / BLOCK_SIZE) + length % BLOCK_SIZE <= |Cut(l, file, length)|
  {
    CutShape(l, file, n, length);
    BlockCountSplit(length);
  }

  lemma ShrunkTail(l: Layout, file: seq<Byte>, n: nat, crcs: seq<Word>, length: nat, file': seq<Byte>, crcs': seq<Word>)
    requires l.Valid() && |file| == l.FileSize(n) && BlockCount(length) <= n && TailZero(l, file, n)
    requires l.format.MooseFS? ==> |crcs| == BLOCKS_IN_CHUNK && n <= BLOCKS_IN_CHUNK
    requires Shrunk(l, file, n, crcs, length, file', crcs')
    ensures TailAfter(l, n, crcs, BlockCount(length), crcs', length)
  {
    hide Cut, ZeroExpandedCrc, ZerosCrc, Layout.MaxBlocks, Layout.DataOffset, TailZero, BlockCount, Pwrite, Put32;
    BlockCountSplit(length);
    var full := length / BLOCK_SIZE;
    if l.format.MooseFS? {
      if length % BLOCK_SIZE > 0 && l.MaxBlocks() <= full {
        SealedZero(l, file, n, length);
        ZerosSealed(length % BLOCK_SIZE);
      }
      forall b | l.MaxBlocks() <= b < BlockCount(length) && b < full
        ensures crcs'[b] == crcs[b]
      {
        assert crcs'[b] == crcs'[..full][b] == crcs[..full][b];
      }
    }
  }

  /** A write to a block with a slot leaves the entries behind the slots alone. */
  lemma KeepsTail(l: Layout, crcs: seq<Word>, from: nat, b: nat, crc: Word)
    requires l.Valid() && b < l.MaxBlocks() && (l.format.MooseFS? ==> |crcs| == BLOCKS_IN_CHUNK)
    ensures Chunk.SameTail(l, crcs, WithCrc(l, crcs, b, crc))
    ensures Chunk.SameTail(l, crcs, WithCrc(l, Skipped(l, crcs, from, b), b, crc))
  {
    hide FillEmpty, ZerosCrc, Layout.MaxBlocks;
  }

  lemma BlockInside(l: Layout, file: seq<Byte>, n: nat, b: nat)
    requires l.Valid() && |file| == l.FileSize(n) && b < n
    ensures l.BlockOffset(b) <= l.BlockOffset(b + 1) <= |file|
  {
  }

  /** Writing to the signature, for everything a chunk has to keep. */
  lemma SignedFile(l: Layout, file: seq<Byte>, n: nat, crcs: seq<Word>, off: nat, d: seq<Byte>)
    requires Backed(l, file, n, crcs) && l.format.MooseFS? && off + |d| <= SIGNATURE_BLOCK_SIZE
    ensures var file' := Pwrite(file, off, d);
            && |file'| == |file| && Backed(l, file', n, crcs)
            && (Consistent(l, file, n, crcs) ==> Consistent(l, file', n, crcs))
            && (Flushed(l, file, crcs) ==> Flushed(l, file', crcs))
            && (TailZero(l, file, n) ==> TailZero(l, file', n))
            && forall i: nat :: View(l, file', n, i) == View(l, file, n, i)
  {
    hide BlockAt, Pwrite, Consistent, Flushed, TailZero, View, Backed;
    SignatureBacked(l, file, n, crcs, off, d);
    BackedSize(l, file, n, crcs);
    BackedSize(l, Pwrite(file, off, d), n, crcs);
    BlocksAreView(l, file, Pwrite(file, off, d), n);
  }

  lemma TableCopied(l: Layout, g: seq<Byte>, n: nat, crcs: seq<Word>, table0: seq<Word>, length: nat, table: seq<Word>, crcs': seq<Word>)
    requires l.Valid() && |g| == l.FileSize(n) && l.format.MooseFS?
    requires |crcs| == |table0| == |table| == |crcs'| == BLOCKS_IN_CHUNK
    requires table0[..l.MaxBlocks()] == crcs[..l.MaxBlocks()] && table[..l.MaxBlocks()] == crcs'[..l.MaxBlocks()]
    requires TableFor(l, g, n, table0, length, table)
    ensures CopiedTable(l, g, n, crcs, length, crcs')
  {
    hide TableFor;
    var max := l.MaxBlocks();
    forall i | 0 <= i < max
      ensures table0[i] == crcs[i] && table[i] == crcs'[i]
    {
      assert table0[i] == table0[..max][i] && table[i] == table[..max][i];
    }
    assert SameSlots(l, table0, crcs) && SameSlots(l, table, crcs');
  }

  /** A new file has no blocks, and a header of zeros. */
  lemma EmptyFile(l: Layout, file: seq<Byte>, crcs: seq<Word>)
    requires l.Valid() && |crcs| == BLOCKS_IN_CHUNK && forall b :: 0 <= b < BLOCKS_IN_CHUNK ==> crcs[b] == ZERO
    requires file == if l.format.MooseFS? then Zeros(l.HeaderSize()) else []
    ensures |file| == l.FileSize(0) && Consistent(l, file, 0, crcs) && Backed(l, file, 0, crcs) && Flushed(l, file, crcs)
    ensures TailZero(l, file, 0) && forall i: nat :: View(l, file, 0, i) == 0
  {
    hide Get32;
    if l.format.MooseFS? {
      forall b | 0 <= b < l.MaxBlocks()
        ensures DiskCrc(l, file, b) == crcs[b]
      {
        assert l.CrcField(file, b) == Zeros(CRC_SIZE);
        ZeroBytesAreZero();
      }
    }
  }

  lemma LoadedTable(l: Layout, file: seq<Byte>, crcs: seq<Word>)
    requires l.Valid() && (l.format.MooseFS? ==> Loaded(l, file, crcs))
    ensures Loaded(l, file, crcs) && Flushed(l, file, crcs) && (l.format.MooseFS? ==> |crcs| == BLOCKS_IN_CHUNK)
  {
    hide DiskCrc;
  }

  lemma NothingToFlush(l: Layout, file: seq<Byte>, crcs: seq<Word>)
    requires l.format.Interleaved?
    ensures Flushed(l, file, crcs)
  {
  }

  /** Writing the table back, for everything a chunk has to keep. */
  lemma FlushedTable(l: Layout, file: seq<Byte>, n: nat, crcs: seq<Word>)
    requires Backed(l, file, n, crcs) && l.format.MooseFS?
    ensures var file' := Pwrite(file, SIGNATURE_BLOCK_SIZE, EncodeCrcs(crcs[..l.MaxBlocks()]));
            && |file'| == |file| && Flushed(l, file', crcs) && Backed(l, file', n, crcs)
            && (Consistent(l, file, n, crcs) ==> Consistent(l, file', n, crcs))
            && (TailZero(l, file, n) ==> TailZero(l, file', n))
            && forall i: nat :: View(l, file', n, i) == View(l, file, n, i)
  {
    hide BlockAt, Pwrite, EncodeCrcs, Consistent, Flushed, TailZero, View, Backed;
    BackedSize(l, file, n, crcs);
    var file' := Pwrite(file, SIGNATURE_BLOCK_SIZE, EncodeCrcs(crcs[..l.MaxBlocks()]));
    FlushBacked(l, file, n, crcs);
    BackedSize(l, file', n, crcs);
    BlocksAreView(l, file, file', n);
  }

  /** A finished copy reads as the cut of its original, and is consistent exactly when its table fits. */
  lemma CopyMeaning(oc: Chunk, c: Chunk, length: nat)
    requires oc.Kept() && oc.cached && length <= CHUNK_SIZE && c.layout == oc.layout && |c.crcData| == BLOCKS_IN_CHUNK
    requires Loaded(c.layout, c.file, c.crcData)
    requires SameBody(c.layout, c.file, Target(c.layout, oc.file, oc.blocks, length))
    requires CopiedTable(c.layout, oc.file, oc.blocks, oc.crcData, length, c.crcData)
    ensures BlockCount(length) <= BLOCKS_IN_CHUNK && |c.file| == c.layout.FileSize(BlockCount(length))
    ensures forall i: nat :: View(c.layout, c.file, BlockCount(length), i) == if i < length then oc.ByteAt(i) else 0
    ensures Backed(c.layout, c.file, BlockCount(length), c.crcData) && TailZero(c.layout, c.file, BlockCount(length))
    ensures Flushed(c.layout, c.file, c.crcData)
    ensures SlotlessZero(c.layout, c.file, BlockCount(length)) <==>
              c.layout.format.Interleaved? || BlockCount(length) <= c.layout.MaxBlocks()
    ensures Consistent(c.layout, c.file, BlockCount(length), c.crcData) <==>
              c.layout.format.Interleaved? || BlockCount(length) <= c.layout.MaxBlocks()
  {
    hide View, Consistent, Target, CopiedTable, SameBody, Loaded, SlotlessZero, TailZero, Backed, Flushed;
    BlockCountSplit(length);
    var l, m := c.layout, BlockCount(length);
    LoadedTable(l, c.file, c.crcData);
    CopyBacked(l, oc.file, oc.blocks, oc.crcData, length, c.file, c.crcData);
    TailZeroCut(l, oc.file, oc.blocks, c.file, m, length);
    SlotlessIffTooLong(l, c.file, m);
    BackedFits(l, c.file, m, c.crcData);
    if l.format.MooseFS? && m > l.MaxBlocks() {
      LostEntries(l, c.file, m, c.crcData);
    }
  }

  /** A table without the entries that do not fit is wrong when their blocks have other checksums. */
  lemma LostEntries(l: Layout, file: seq<Byte>, n: nat, crcs: seq<Word>)
    requires l.Valid() && |file| == l.FileSize(n) && n <= BLOCKS_IN_CHUNK && Loaded(l, file, crcs)
    requires !SlotlessZero(l, file, n)
    ensures !Consistent(l, file, n, crcs)
  {
    hide BlockCrc;
    var b :| l.MaxBlocks() <= b < n && BlockCrc(l.Block(file, b)) != ZERO;
    assert !BlockOk(l, file, crcs, b);
  }
}
