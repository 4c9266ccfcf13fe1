/** Whole runs of the block store: any sequence of requests refines a row of zero-extended byte arrays. */
module StoreRuns {
  import opened Wrappers
  import opened Words
  import opened CrcSpec
  import opened ChunkLayout
  import opened BlockImage
  import opened BlockStore
  import ReadPipeline

  /** Chunks are numbered in the order in which they are made; `chunk` is the number of an old one. */
  datatype Request =
    | CreateReq(layout: Layout, version: nat)
    | ReadReq(chunk: nat, version: nat, offset: U32, size: U32)
    | WriteReq(chunk: nat, version: nat, block: nat, offset: U32, crc: Word, buffer: seq<Byte>)
    | TruncateReq(chunk: nat, version: nat, newVersion: nat, length: nat)
    | DupTruncReq(chunk: nat, version: nat, newVersion: nat, copyVersion: nat, length: nat)
    | ReopenReq(chunk: nat, evict: bool)

  /** A request with its reply; `data` and `crc` are those of a read. */
  datatype Done = Done(request: Request, status: Status, data: seq<Byte>, crc: Word)

  predicate Makes(d: Done) {
    d.status == Ok && (d.request.CreateReq? || d.request.DupTruncReq?)
  }

  /** How many chunks the requests in `trace` have made. */
  function Count(trace: seq<Done>): nat {
    if trace == [] then 0 else Count(trace[..|trace| - 1]) + if Makes(trace[|trace| - 1]) then 1 else 0
  }

  /** Byte `i` of the array of chunk `c` after the requests in `trace`. */
  ghost function Expected(trace: seq<Done>, c: nat, i: nat): Byte
    decreases |trace|, 0
  {
    if trace == [] then 0 else AfterOne(trace[..|trace| - 1], trace[|trace| - 1], c, i)
  }

  ghost function AfterOne(before: seq<Done>, last: Done, c: nat, i: nat): Byte
    decreases |before|, 1
  {
    if last.status != Ok then Expected(before, c, i)
    else
      match last.request
      case CreateReq(_, _) => if c == Count(before) then 0 else Expected(before, c, i)
      case DupTruncReq(source, _, _, _, length) =>
        if c != Count(before) then Expected(before, c, i)
        else if i < length then Expected(before, source, i) else 0
      case WriteReq(k, _, b, offset, _, buffer) =>
        var lo := b * BLOCK_SIZE + offset;
        if c == k && lo <= i < lo + |buffer| then buffer[i - lo] else Expected(before, c, i)
      case TruncateReq(k, _, _, length) => if c == k && i >= length then 0 else Expected(before, c, i)
      case ReadReq(_, _, _, _) => Expected(before, c, i)
      case ReopenReq(_, _) => Expected(before, c, i)
  }

  lemma ExpectedNext(trace: seq<Done>, d: Done, c: nat, i: nat)
    ensures Expected(trace + [d], c, i) == AfterOne(trace, d, c, i)
  {
    hide AfterOne;
    assert (trace + [d])[..|trace|] == trace;
  }

  lemma CountNext(trace: seq<Done>, d: Done)
    ensures Count(trace + [d]) == Count(trace) + if Makes(d) then 1 else 0
  {
    assert (trace + [d])[..|trace|] == trace;
  }

  // ----- The replies.

  /**
   What the answer to a request depends on. The checksums of the first `lost` blocks, as far as
   the header has no slot for them, were lost when the table was last loaded.
   */
  datatype Meta = Meta(layout: Layout, version: nat, blocks: nat, lost: nat)

  /** Chunk `c` after the requests in `trace`. */
  function MetaAt(trace: seq<Done>, c: nat): (m: Option<Meta>)
    ensures m.Some? <==> c < Count(trace)
    decreases |trace|, 0
  {
    if trace == [] then None
    else MetaAfter(trace[..|trace| - 1], trace[|trace| - 1], c)
  }

  function MetaAfter(before: seq<Done>, last: Done, c: nat): (m: Option<Meta>)
    ensures m.Some? <==> c < Count(before) + if Makes(last) then 1 else 0
    decreases |before|, 2
  {
    var m := MetaAt(before, c);
    if Makes(last) && c == Count(before) then Some(NewMeta(Subject(before, last.request), last.request))
    else if m.Some? && last.status == Ok && !last.request.CreateReq? && c == last.request.chunk then Some(Changed(m.value, last.request))
    else m
  }

  /** The chunk that a request names. */
  function Subject(trace: seq<Done>, r: Request): (m: Option<Meta>)
    decreases |trace|, 1
  {
    if r.CreateReq? then None else MetaAt(trace, r.chunk)
  }

  const NO_LAYOUT := Layout(MooseFS, 1, true)

  /** A chunk as it is made, by a copy from chunk `m`. The table of a copy is the one in its header. */
  function NewMeta(m: Option<Meta>, r: Request): Meta
    requires r.CreateReq? || r.DupTruncReq?
  {
    match r
    case CreateReq(l, version) => Meta(l, version, 0, 0)
    case DupTruncReq(_, _, newVersion, copyVersion, length) =>
      Meta(if m.Some? then m.value.layout else NO_LAYOUT, if copyVersion == 0 then newVersion else copyVersion,
           BlockCount(length), BlockCount(length))
  }

  /** What a request that succeeded changes. */
  function Changed(m: Meta, r: Request): Meta {
    match r
    case WriteReq(_, _, b, _, _, _) => m.(blocks := if b < m.blocks then m.blocks else b + 1)
    case TruncateReq(_, _, newVersion, length) =>
      m.(version := newVersion, blocks := BlockCount(length), lost := if m.lost < length / BLOCK_SIZE then m.lost else length / BLOCK_SIZE)
    case DupTruncReq(_, version, newVersion, _, _) => if newVersion != version then m.(version := newVersion) else m
    case ReopenReq(_, evict) => if evict then m.(lost := m.blocks) else m
    case _ => m
  }

  /** The checksum of block `b` is lost. */
  predicate Lost(m: Meta, b: nat)
    requires m.layout.Valid()
  {
    m.layout.format.MooseFS? && m.layout.MaxBlocks() <= b < m.lost
  }

  predicate Outdated(m: Meta, version: nat) {
    m.version != version && version > 0
  }

  /** The answer to a request when every file operation succeeds, in the order of the checks. */
  function Verdict(m: Option<Meta>, r: Request): Status
    requires m.Some? ==> m.value.layout.Valid()
  {
    match r
    case CreateReq(_, _) => Ok
    case ReadReq(_, version, offset, size) =>
      if !Chunk.SizeChecked(offset, size) then WrongSize
      else if m.None? then NoChunk
      else if Outdated(m.value, version) then WrongVersion
      else if offset >= CHUNK_SIZE then BlockNumberTooBig
      else if Lost(m.value, offset / BLOCK_SIZE) then CrcError
      else if Chunk.Wraps(offset, size) then Overrun
      else Ok
    case WriteReq(_, version, b, offset, crc, buffer) =>
      if m.None? then NoChunk else Chunk.CheckWrite(m.value.layout, m.value.version, version, b, offset, crc, buffer)
    case TruncateReq(_, version, _, length) =>
      if length > CHUNK_SIZE then WrongSize
      else if m.None? then NoChunk
      else if Outdated(m.value, version) then WrongVersion
      else Ok
    case DupTruncReq(_, version, _, _, length) =>
      if length > CHUNK_SIZE then WrongSize
      else if m.None? then NoChunk
      else if Outdated(m.value, version) then WrongVersion
      else Ok
    case ReopenReq(_, _) => if m.None? then NoChunk else Ok
  }

  /**
   A request is answered by its verdict or by an I/O error, and a read that succeeded returned
   the bytes of the array at its time, with their checksum.
   */
  ghost predicate ReplyOk(trace: seq<Done>, k: nat)
    requires k < |trace|
  {
    var d, m := trace[k], Subject(trace[..k], trace[k].request);
    && (m.Some? ==> m.value.layout.Valid())
    && (d.status == IoError || d.status == Verdict(m, d.request))
    && (d.request.ReadReq? && d.status == Ok ==>
      && |d.data| == d.request.size && d.crc == BlockCrc(d.data)
      && forall i :: 0 <= i < |d.data| ==> d.data[i] == Expected(trace[..k], d.request.chunk, d.request.offset + i))
  }

  lemma ReplyOkKept(trace: seq<Done>, d: Done, k: nat)
    requires k < |trace| && ReplyOk(trace, k)
    ensures ReplyOk(trace + [d], k)
  {
    hide Expected, BlockCrc, Verdict, Subject;
    assert (trace + [d])[..k] == trace[..k];
  }

  /** A new length fits the header of the part type. */
  predicate Fits(l: Layout, length: nat)
    requires l.Valid()
  {
    l.format.Interleaved? || length > CHUNK_SIZE || BlockCount(length) <= l.MaxBlocks()
  }

  /** How many whole stripes of `d` blocks `length` bytes have. */
  function FullStripes(d: nat, length: nat): (n: nat)
    requires d > 0
  {
    length / (d * BLOCK_SIZE)
  }

  /** The part of a block that `rest` bytes fill. */
  function Within(rest: int): (n: nat) {
    if rest < 0 then 0 else if rest > BLOCK_SIZE then BLOCK_SIZE else rest
  }

  /** `chunkLengthToChunkPartLength` for data part `q`, and with q = 0 for parity parts */
  function PartLength(d: nat, q: nat, length: nat): nat
    requires d > 0
  {
    var full := FullStripes(d, length);
    if d == 1 then length else full * BLOCK_SIZE + Within(length - full * BLOCK_SIZE * d - q * BLOCK_SIZE)
  }

  lemma Stripes(d: nat, length: nat, full: nat)
    requires d > 0 && full == length / (d * BLOCK_SIZE)
    ensures full * BLOCK_SIZE * d <= length && full * d * BLOCK_SIZE == full * BLOCK_SIZE * d
  {
    assert length == (d * BLOCK_SIZE) * full + length % (d * BLOCK_SIZE);
  }

  /** The number of slots is the number of stripes of a whole chunk, rounded up. */
  lemma SlotsCover(l: Layout)
    requires l.Valid()
    ensures l.MaxBlocks() * l.dataParts >= BLOCKS_IN_CHUNK
  {
    var d, m := l.dataParts, l.MaxBlocks();
    assert BLOCKS_IN_CHUNK + d - 1 == d * m + (BLOCKS_IN_CHUNK + d - 1) % d;
  }

  lemma StripesFit(m: nat, d: nat, full: nat, more: nat)
    requires m * d >= BLOCKS_IN_CHUNK && more <= 1 && d > 0
    requires full * d <= BLOCKS_IN_CHUNK && (more == 1 ==> full * d < BLOCKS_IN_CHUNK)
    ensures full + more <= m
  {
    if full + more > m {
      Scaled(m, full + more - 1, d);
    }
  }

  lemma Scaled(a: nat, b: nat, d: nat)
    requires a <= b && d > 0
    ensures a * d <= b * d && (b + 1) * d > b * d
  {
  }

  /** A part has `full` whole blocks and up to one more. */
  lemma PartLengthShape(d: nat, q: nat, length: nat) returns (full: nat, rest: nat)
    requires d > 1
    ensures PartLength(d, q, length) == full * BLOCK_SIZE + rest && rest <= BLOCK_SIZE
    ensures full * d * BLOCK_SIZE <= length && (rest > 0 ==> full * d * BLOCK_SIZE < length)
  {
    full := FullStripes(d, length);
    Stripes(d, length, full);
    rest := Within(length - full * BLOCK_SIZE * d - q * BLOCK_SIZE);
  }

  lemma BlocksOf(full: nat, rest: nat)
    requires rest <= BLOCK_SIZE
    ensures BlockCount(full * BLOCK_SIZE + rest) == full + if rest > 0 then 1 else 0
  {
  }

  /** The length of a part of a chunk, as the master asks for it, fits the header of that part. */
  lemma PartLengthFits(l: Layout, q: nat, length: nat)
    requires l.Valid() && length <= CHUNK_SIZE
    ensures Fits(l, PartLength(l.dataParts, q, length))
  {
    SlotsCover(l);
    if l.dataParts == 1 {
      BlockCountSplit(length);
    } else {
      hide PartLength, BlockCount, Layout.MaxBlocks;
      var full, rest := PartLengthShape(l.dataParts, q, length);
      BlocksOf(full, rest);
      WholeStripes(full * l.dataParts, length);
      StripesFit(l.MaxBlocks(), l.dataParts, full, if rest > 0 then 1 else 0);
    }
  }

  lemma WholeStripes(blocks: nat, length: nat)
    requires blocks * BLOCK_SIZE <= length <= CHUNK_SIZE
    ensures blocks <= BLOCKS_IN_CHUNK && (blocks * BLOCK_SIZE < length ==> blocks < BLOCKS_IN_CHUNK)
  {
  }

  // ----- The chunks.

  /** The table entries of the blocks behind the slots: none for those that were lost. */
  ghost predicate TailTable(l: Layout, crcs: seq<Word>, n: nat, lost: nat)
    requires l.Valid()
  {
    l.format.MooseFS? ==>
      && |crcs| == BLOCKS_IN_CHUNK && n <= BLOCKS_IN_CHUNK
      && forall b :: l.MaxBlocks() <= b < n ==> crcs[b] == if b < lost then ZERO else ZerosCrc(BLOCK_SIZE)
  }

  /** An open chunk that `m` describes. */
  ghost predicate Matches(c: Chunk, m: Meta)
    reads c
  {
    && c.Kept() && c.refcount == 1
    && c.layout == m.layout && c.version == m.version && c.blocks == m.blocks && m.lost <= m.blocks
    && TailTable(c.layout, c.crcData, c.blocks, m.lost)
  }

  /** And that stands for array `k`. */
  ghost predicate Stands(c: Chunk, trace: seq<Done>, k: nat)
    reads c
  {
    && MetaAt(trace, k).Some? && Matches(c, MetaAt(trace, k).value)
    && forall i: nat :: c.ByteAt(i) == Expected(trace, k, i)
  }

  ghost predicate AllStand(chunks: seq<Chunk>, disk: Disk, trace: seq<Done>)
    reads chunks
  {
    && |chunks| == Count(trace)
    && (forall j, k :: 0 <= j < k < |chunks| ==> chunks[j] != chunks[k])
    && forall k :: 0 <= k < |chunks| ==> chunks[k].disk == disk && Stands(chunks[k], trace, k)
  }

  /** The blocks that a read refuses are those whose checksum is lost. */
  lemma IntactIffNotLost(c: Chunk, m: Meta, b: nat)
    requires Matches(c, m)
    ensures c.Intact(b) <==> !Lost(m, b)
    ensures !c.ZeroField(b) || c.Intact(b)
  {
    if c.Trusted(b) {
      c.KeptIsIntact(b);
      hide *;
    } else {
      TailBlock(c.layout, c.file, c.blocks, b);
      ZerosCrcIsCrc(BLOCK_SIZE);
      EmptyBlockCrcNotZero();
      hide BlockCrc, ZerosCrc, Backed, TailZero, Flushed, Layout.MaxBlocks;
    }
  }

  lemma LoadedTail(l: Layout, file: seq<Byte>, crcs: seq<Word>, n: nat)
    requires l.Valid() && (l.format.MooseFS? ==> |crcs| == BLOCKS_IN_CHUNK && n <= BLOCKS_IN_CHUNK) && Loaded(l, file, crcs)
    ensures TailTable(l, crcs, n, n)
  {
    hide Flushed, ZerosCrc, Layout.MaxBlocks;
  }

  lemma TruncatedTail(m: Meta, r: Request, crcs: seq<Word>, crcs': seq<Word>)
    requires r.TruncateReq? && m.layout.Valid() && TailTable(m.layout, crcs, m.blocks, m.lost) && m.lost <= m.blocks
    requires TailAfter(m.layout, m.blocks, crcs, BlockCount(r.length), crcs', r.length)
    ensures var m' := Changed(m, r); m'.lost <= m'.blocks && TailTable(m.layout, crcs', m'.blocks, m'.lost)
  {
    BlockCountSplit(r.length);
    hide ZerosCrc, Layout.MaxBlocks, BlockCount;
  }

  lemma WrittenTail(m: Meta, r: Request, crcs: seq<Word>, crcs': seq<Word>)
    requires r.WriteReq? && m.layout.Valid() && TailTable(m.layout, crcs, m.blocks, m.lost) && m.lost <= m.blocks
    requires r.block < m.layout.MaxBlocks() <= BLOCKS_IN_CHUNK && Chunk.SameTail(m.layout, crcs, crcs')
    ensures var m' := Changed(m, r); m'.lost <= m'.blocks && TailTable(m.layout, crcs', m'.blocks, m'.lost)
  {
    hide ZerosCrc, Layout.MaxBlocks;
  }

  /** The requests in order, every reply right at its time, and an I/O error at most for the last. */
  ghost predicate Answered(requests: seq<Request>, trace: seq<Done>, failed: bool) {
    && |trace| <= |requests|
    && forall k :: 0 <= k < |trace| ==>
         && trace[k].request == requests[k] && ReplyOk(trace, k)
         && (trace[k].status == IoError <==> failed && k == |trace| - 1)
  }

  lemma AnsweredNext(requests: seq<Request>, trace: seq<Done>, d: Done)
    requires Answered(requests, trace, false) && |trace| < |requests|
    requires d.request == requests[|trace|] && ReplyOk(trace + [d], |trace|)
    ensures Answered(requests, trace + [d], d.status == IoError)
  {
    hide ReplyOk;
    forall k | 0 <= k < |trace|
      ensures ReplyOk(trace + [d], k)
    {
      ReplyOkKept(trace, d, k);
    }
  }

  /**
   Serves `requests` up to the first I/O error, which a request is answered by exactly when a
   call to the disk failed. Every chunk made on the way stands for its array.
   */
  method Serve(requests: seq<Request>) returns (chunks: seq<Chunk>, disk: Disk, trace: seq<Done>, failed: bool)
    requires forall k :: 0 <= k < |requests| && requests[k].CreateReq? ==> requests[k].layout.Valid()
    ensures Answered(requests, trace, failed)
    ensures disk.failures == if failed then 1 else 0
    ensures !failed ==> |trace| == |requests| && AllStand(chunks, disk, trace)
  {
    disk := new Disk();
    chunks, trace, failed := [], [], false;
    assert AllStand(chunks, disk, trace);
    hide ReplyOk, AllStand;
    while !failed && |trace| < |requests|
      invariant fresh(chunks) && fresh(disk)
      invariant Answered(requests, trace, failed)
      invariant disk.failures == if failed then 1 else 0
      invariant !failed ==> AllStand(chunks, disk, trace)
      decreases !failed, |requests| - |trace|
    {
      var done, after := ServeOne(chunks, disk, requests[|trace|], trace);
      AnsweredNext(requests, trace, done);
      assert after == chunks + after[|chunks|..];
      chunks, trace, failed := after, trace + [done], done.status == IoError;
    }
  }

  /** A request leaves the arrays of other chunks alone. */
  lemma StandsKept(c: Chunk, trace: seq<Done>, d: Done, k: nat)
    requires Stands(c, trace, k) && k < Count(trace)
    requires d.status == Ok && !d.request.CreateReq? ==> d.request.chunk != k
    ensures Stands(c, trace + [d], k)
  {
    hide Expected, MetaAt, Count, Matches, NewMeta, Changed;
    NextState(trace, d, k);
  }

  lemma MetaNext(trace: seq<Done>, d: Done, k: nat)
    ensures MetaAt(trace + [d], k) == MetaAfter(trace, d, k)
  {
    hide MetaAfter;
    assert (trace + [d])[..|trace|] == trace;
  }

  /** One request, on whichever chunk it names. */
  method ServeOne(chunks: seq<Chunk>, disk: Disk, r: Request, ghost trace: seq<Done>) returns (done: Done, after: seq<Chunk>)
    requires AllStand(chunks, disk, trace) && (r.CreateReq? ==> r.layout.Valid())
    modifies chunks, disk
    ensures disk.failures == old(disk.failures) + if done.status == IoError then 1 else 0
    ensures done.request == r && ReplyOk(trace + [done], |trace|)
    ensures chunks <= after && fresh(after[|chunks|..])
    ensures done.status != IoError ==> AllStand(after, disk, trace + [done])
  {
    hide Stands, ReplyOk, Count, MetaAt;
    after := chunks;
    if r.CreateReq? {
      var c;
      done, c := Create(disk, r, trace);
      AllKept(chunks, trace, done, |chunks|);
      CountNext(trace, done);
      if done.status == Ok {
        after := chunks + [c];
      }
    } else if r.chunk >= |chunks| {
      done := Missing(r, trace);
      AllKept(chunks, trace, done, |chunks|);
      CountNext(trace, done);
    } else if r.DupTruncReq? {
      var c;
      done, c := Duplicate(chunks[r.chunk], r, trace);
      AllKept(chunks, trace, done, r.chunk);
      CountNext(trace, done);
      if done.status == Ok {
        after := chunks + [c];
      }
    } else {
      done := ServeOn(chunks[r.chunk], r, trace);
      AllKept(chunks, trace, done, r.chunk);
      CountNext(trace, done);
    }
  }

  /** Chunks other than `k` stand for their arrays as before. */
  lemma AllKept(chunks: seq<Chunk>, trace: seq<Done>, d: Done, k: nat)
    requires |chunks| == Count(trace)
    requires forall j :: 0 <= j < |chunks| && j != k ==> Stands(chunks[j], trace, j)
    requires d.status == Ok && !d.request.CreateReq? ==> d.request.chunk == k
    ensures forall j :: 0 <= j < |chunks| && j != k ==> Stands(chunks[j], trace + [d], j)
  {
    hide Stands, Count;
    forall j | 0 <= j < |chunks| && j != k
      ensures Stands(chunks[j], trace + [d], j)
    {
      StandsKept(chunks[j], trace, d, j);
    }
  }

  /** A request for a chunk that does not exist. */
  method Missing(r: Request, ghost trace: seq<Done>) returns (done: Done)
    requires !r.CreateReq? && r.chunk >= Count(trace)
    ensures done.request == r && done.status !in {Ok, IoError} && ReplyOk(trace + [done], |trace|)
  {
    hide Count, MetaAt;
    done := Done(r, Verdict(None, r), [], ZERO);
    assert (trace + [done])[..|trace|] == trace;
  }

  /** `hdd_int_create_chunk` and opening for the session. */
  method Create(disk: Disk, r: Request, ghost trace: seq<Done>) returns (done: Done, c: Chunk?)
    requires r.CreateReq? && r.layout.Valid()
    modifies disk
    ensures disk.failures == old(disk.failures) + if done.status == IoError then 1 else 0
    ensures done.request == r && done.status in {Ok, IoError} && ReplyOk(trace + [done], |trace|)
    ensures done.status == Ok ==> c != null && fresh(c) && c.disk == disk && Stands(c, trace + [done], Count(trace))
  {
    hide Count, MetaAt, Expected, View, BlockAt, Consistent, Flushed, Loaded, TailZero, Backed, BlockCrc;
    var status;
    status, c := Chunk.Create(disk, r.layout, r.version);
    if status == Ok {
      var again := c.IoBegin();
    }
    done := Done(r, status, [], ZERO);
    assert (trace + [done])[..|trace|] == trace;
    NextState(trace, done, Count(trace));
  }

  /** `hdd_int_duptrunc`; the copy is opened for the session too. */
  method Duplicate(oc: Chunk, r: Request, ghost trace: seq<Done>) returns (done: Done, c: Chunk?)
    requires r.DupTruncReq? && r.chunk < Count(trace) && Stands(oc, trace, r.chunk)
    modifies oc, oc.disk
    ensures oc.disk.failures == old(oc.disk.failures) + if done.status == IoError then 1 else 0
    ensures done.request == r && ReplyOk(trace + [done], |trace|)
    ensures done.status != IoError ==> Stands(oc, trace + [done], r.chunk)
    ensures done.status == Ok ==> c != null && fresh(c) && c.disk == oc.disk && Stands(c, trace + [done], Count(trace))
  {
    hide View, BlockAt, Consistent, Flushed, Loaded, TailZero, Backed, BlockCount, SlotlessZero, Count, MetaAt, Expected, TailTable, BlockCrc;
    var status;
    status, c := Chunk.DupTrunc(oc, r.version, r.newVersion, r.copyVersion, r.length);
    if status == Ok {
      LoadedTail(c.layout, c.file, c.crcData, c.blocks);
      var again := c.IoBegin();
    }
    done := Done(r, status, [], ZERO);
    assert (trace + [done])[..|trace|] == trace;
    NextState(trace, done, r.chunk);
    NextState(trace, done, Count(trace));
  }

  /** A request on one open chunk. */
  method ServeOn(c: Chunk, r: Request, ghost trace: seq<Done>) returns (done: Done)
    requires !r.CreateReq? && !r.DupTruncReq? && r.chunk < Count(trace) && Stands(c, trace, r.chunk)
    modifies c, c.disk
    ensures c.disk.failures == old(c.disk.failures) + if done.status == IoError then 1 else 0
    ensures done.request == r && ReplyOk(trace + [done], |trace|)
    ensures done.status != IoError ==> Stands(c, trace + [done], r.chunk)
  {
    hide Stands, ReplyOk, Count;
    if r.ReadReq? {
      done := ServeRead(c, r, trace);
    } else if r.WriteReq? {
      done := ServeWrite(c, r, trace);
    } else {
      done := ServeSize(c, r, trace);
    }
  }

  method ServeRead(c: Chunk, r: Request, ghost trace: seq<Done>) returns (done: Done)
    requires r.ReadReq? && r.chunk < Count(trace) && Stands(c, trace, r.chunk)
    modifies c.disk
    ensures c.disk.failures == old(c.disk.failures) + if done.status == IoError then 1 else 0
    ensures done.request == r && ReplyOk(trace + [done], |trace|) && Stands(c, trace + [done], r.chunk)
  {
    hide BlockCrc, View, BlockAt, Consistent, Flushed, TailZero, Backed, BlockOk, Count, MetaAt, Expected, TailTable, Lost, Chunk.SizeChecked, Chunk.ZeroField, Chunk.Intact;
    Chunk.SizeCheckedIff(r.offset, r.size);
    IntactIffNotLost(c, MetaAt(trace, r.chunk).value, r.offset / BLOCK_SIZE);
    var status, crc, data := c.Read(r.version, r.offset, r.size);
    done := Done(r, status, data, crc);
    assert (trace + [done])[..|trace|] == trace;
    NextState(trace, done, r.chunk);
  }

  method ServeWrite(c: Chunk, r: Request, ghost trace: seq<Done>) returns (done: Done)
    requires r.WriteReq? && r.chunk < Count(trace) && Stands(c, trace, r.chunk)
    modifies c, c.disk
    ensures c.disk.failures == old(c.disk.failures) + if done.status == IoError then 1 else 0
    ensures done.request == r && ReplyOk(trace + [done], |trace|)
    ensures done.status != IoError ==> Stands(c, trace + [done], r.chunk)
  {
    hide BlockCrc, View, BlockAt, Consistent, Flushed, TailZero, Backed, BlockOk, Count, MetaAt, Expected, TailTable, Chunk.SameTail;
    ghost var m, was := MetaAt(trace, r.chunk).value, c.crcData;
    if c.Trusted(r.block) {
      c.KeptIsIntact(r.block);
    }
    var status := c.Write(r.version, r.block, r.offset, r.crc, r.buffer);
    if status == Ok {
      WrittenTail(m, r, was, c.crcData);
    }
    done := Done(r, status, [], ZERO);
    assert (trace + [done])[..|trace|] == trace;
    NextState(trace, done, r.chunk);
  }

  method ServeSize(c: Chunk, r: Request, ghost trace: seq<Done>) returns (done: Done)
    requires r.TruncateReq? || r.ReopenReq?
    requires r.chunk < Count(trace) && Stands(c, trace, r.chunk)
    modifies c, c.disk
    ensures c.disk.failures == old(c.disk.failures) + if done.status == IoError then 1 else 0
    ensures done.request == r && ReplyOk(trace + [done], |trace|)
    ensures done.status != IoError ==> Stands(c, trace + [done], r.chunk)
  {
    hide BlockCrc, View, BlockAt, Consistent, Flushed, Loaded, TailZero, Backed, BlockCount, BlockOk, SlotlessZero, Count, MetaAt, Expected, TailTable, TailAfter;
    ghost var m, was := MetaAt(trace, r.chunk).value, c.crcData;
    var status;
    if r.TruncateReq? {
      status := c.Truncate(r.version, r.newVersion, r.length);
      if status == Ok {
        TruncatedTail(m, r, was, c.crcData);
      }
    } else {
      status := Reopen(c, r.evict);
      if status == Ok && r.evict {
        LoadedTail(c.layout, c.file, c.crcData, c.blocks);
      }
    }
    done := Done(r, status, [], ZERO);
    assert (trace + [done])[..|trace|] == trace;
    NextState(trace, done, r.chunk);
  }

  lemma NextState(trace: seq<Done>, d: Done, k: nat)
    ensures MetaAt(trace + [d], k) == MetaAfter(trace, d, k)
    ensures forall i: nat :: Expected(trace + [d], k, i) == AfterOne(trace, d, k, i)
  {
    hide Expected, MetaAt, AfterOne, MetaAfter;
    MetaNext(trace, d, k);
    forall i: nat
      ensures Expected(trace + [d], k, i) == AfterOne(trace, d, k, i)
    {
      ExpectedNext(trace, d, k, i);
    }
  }

  /** Closing, losing the cached descriptor or not, and opening again. */
  method Reopen(c: Chunk, evict: bool) returns (status: Status)
    requires c.Kept() && c.refcount == 1
    modifies c, c.disk
    ensures c.disk.failures == old(c.disk.failures) + if status == IoError then 1 else 0
    ensures c.Kept() && status in {Ok, IoError} && c.blocks == old(c.blocks) && c.version == old(c.version)
    ensures status == Ok ==> c.refcount == 1 && c.cached
    ensures status == Ok && !evict ==> c.crcData == old(c.crcData)
    ensures status == Ok && evict ==> Loaded(c.layout, c.file, c.crcData)
    ensures forall i: nat :: c.ByteAt(i) == old(c.ByteAt(i))
  {
    hide View, BlockAt, Consistent, Flushed, Loaded, TailZero, Backed, SlotlessZero;
    status := c.IoEnd();
    if status == Ok {
      if evict {
        c.Evict();
      }
      status := c.IoBegin();
    }
  }

  // ----- Lengths that fit, and lengths that do not.

  /** Every truncate or copy that succeeded was to a length that fits. */
  predicate AllFit(trace: seq<Done>)
    decreases |trace|
  {
    trace == [] ||
    var before, d := trace[..|trace| - 1], trace[|trace| - 1];
    && AllFit(before)
    && (d.status == Ok && (d.request.TruncateReq? || d.request.DupTruncReq?) ==>
          var m := Subject(before, d.request);
          m.Some? ==> m.value.layout.Valid() && Fits(m.value.layout, d.request.length))
  }

  predicate NothingLost(m: Meta) {
    m.layout.Valid() && (m.layout.format.MooseFS? ==> m.lost <= m.blocks <= m.layout.MaxBlocks())
  }

  /** Requests that succeed keep it so. */
  lemma StepKeepsAll(m: Meta, r: Request)
    requires NothingLost(m) && Verdict(Some(m), r) == Ok
    requires r.TruncateReq? ==> Fits(m.layout, r.length)
    ensures NothingLost(Changed(m, r))
  {
    hide BlockCrc, Layout.MaxBlocks, BlockCount;
    if r.TruncateReq? {
      BlockCountSplit(r.length);
    }
  }

  /** So does a new chunk. */
  lemma NewKeepsAll(m: Option<Meta>, r: Request)
    requires r.CreateReq? || r.DupTruncReq?
    requires (m.Some? ==> m.value.layout.Valid()) && Verdict(m, r) == Ok
    requires if r.CreateReq? then r.layout.Valid() else m.Some? ==> Fits(m.value.layout, r.length)
    ensures NothingLost(NewMeta(m, r))
  {
    hide Layout.MaxBlocks, BlockCount;
  }

  /** Then no checksum is ever lost, so that no verdict on a read is a checksum error. */
  lemma {:induction false} FittingRun(trace: seq<Done>, k: nat)
    requires AllFit(trace) && (forall j :: 0 <= j < |trace| ==> ReplyOk(trace, j)) && k < Count(trace)
    requires forall j :: 0 <= j < |trace| && trace[j].request.CreateReq? ==> trace[j].request.layout.Valid()
    ensures NothingLost(MetaAt(trace, k).value)
    ensures forall b: nat :: !Lost(MetaAt(trace, k).value, b)
    decreases |trace|
  {
    hide Verdict, Changed, BlockCrc, Expected, Layout.MaxBlocks, BlockCount;
    var n := |trace| - 1;
    var before, d := trace[..n], trace[n];
    forall j | 0 <= j < n
      ensures ReplyOk(before, j)
    {
      assert ReplyOk(trace, j) && before[..j] == trace[..j];
    }
    assert ReplyOk(trace, n);
    hide ReplyOk;
    if k < Count(before) {
      FittingRun(before, k);
      if d.status == Ok && !d.request.CreateReq? && d.request.chunk == k {
        StepKeepsAll(MetaAt(before, k).value, d.request);
      }
    } else {
      NewKeepsAll(Subject(before, d.request), d.request);
    }
  }

  /** And the chunks are valid. */
  lemma FittingChunk(c: Chunk, trace: seq<Done>, k: nat)
    requires AllFit(trace) && (forall j :: 0 <= j < |trace| ==> ReplyOk(trace, j)) && k < Count(trace)
    requires forall j :: 0 <= j < |trace| && trace[j].request.CreateReq? ==> trace[j].request.layout.Valid()
    requires Stands(c, trace, k)
    ensures c.Valid()
  {
    FittingRun(trace, k);
    c.KeptFits();
  }

  /** A block whose checksum was not loaded is taken for damaged. */
  lemma LostBlock(c: Chunk, b: nat)
    requires c.Kept() && c.cached && c.layout.format.MooseFS? && c.layout.MaxBlocks() <= b < c.blocks
    requires Loaded(c.layout, c.file, c.crcData)
    ensures !c.Intact(b) && !c.ZeroField(b)
  {
    TailBlock(c.layout, c.file, c.blocks, b);
    EmptyBlockCrcNotZero();
    hide BlockCrc, Backed, TailZero, Flushed, Layout.MaxBlocks;
  }

  /**
   A closed chunk is truncated to a length that does not fit and its table is loaded again: every
   block behind the slots of the header is then refused.
   */
  method UnfitTruncate(c: Chunk, newVersion: nat, length: nat, b: nat) returns (status: Status)
    requires c.Kept() && c.refcount == 0 && c.layout.format.MooseFS?
    requires length <= CHUNK_SIZE && c.layout.MaxBlocks() <= b < BlockCount(length)
    modifies c, c.disk
    ensures status in {CrcError, IoError}
    ensures c.disk.failures == old(c.disk.failures) + if status == IoError then 1 else 0
  {
    hide BlockCrc, View, BlockAt, Consistent, Flushed, Loaded, TailZero, Backed, BlockCount, BlockOk, SlotlessZero, TailAfter;
    status := c.Truncate(0, newVersion, length);
    if status == Ok {
      c.Evict();
      status := c.IoBegin();
    }
    if status == Ok {
      LostBlock(c, b);
      status := ReadBlock(c, b);
    }
  }

  /** The same for a copy of any chunk: it is refused at once. */
  method UnfitCopy(oc: Chunk, newVersion: nat, length: nat, b: nat) returns (status: Status)
    requires oc.Kept() && oc.layout.format.MooseFS?
    requires length <= CHUNK_SIZE && oc.layout.MaxBlocks() <= b < BlockCount(length)
    modifies oc, oc.disk
    ensures status in {CrcError, IoError}
    ensures oc.disk.failures == old(oc.disk.failures) + if status == IoError then 1 else 0
  {
    hide BlockCrc, View, BlockAt, Consistent, Flushed, Loaded, TailZero, Backed, BlockCount, BlockOk, SlotlessZero;
    var c;
    status, c := Chunk.DupTrunc(oc, 0, newVersion, 0, length);
    if status == Ok {
      LostBlock(c, b);
      status := ReadBlock(c, b);
    }
  }

  method ReadBlock(c: Chunk, b: nat) returns (status: Status)
    requires c.Sized() && c.cached && b < BLOCKS_IN_CHUNK && !c.Intact(b) && !c.ZeroField(b)
    modifies c.disk
    ensures status in {CrcError, IoError}
    ensures c.disk.failures == old(c.disk.failures) + if status == IoError then 1 else 0
  {
    hide BlockCrc, View, BlockAt, BlockOk;
    var crc, d;
    assert (b * BLOCK_SIZE) / BLOCK_SIZE == b && (b * BLOCK_SIZE) % BLOCK_SIZE == 0;
    status, crc, d := c.Read(0, b * BLOCK_SIZE, BLOCK_SIZE);
  }

  /** A part of a two-part slice has 512 slots, and the checks let a truncate of it to a whole chunk through. */
  method FitsCanFail() returns (disk: Disk, truncated: Status, copied: Status)
    ensures truncated in {CrcError, IoError} && copied in {CrcError, IoError}
    ensures disk.failures == (if truncated == IoError then 1 else 0) + if copied == IoError then 1 else 0
  {
    hide BlockCrc, View, BlockAt, Consistent, Flushed, Loaded, TailZero, Backed, BlockOk;
    var l := Layout(MooseFS, 2, false);
    assert l.MaxBlocks() == 512 && BlockCount(CHUNK_SIZE) == 1024;
    disk := new Disk();
    var c, oc;
    truncated, c := Chunk.Create(disk, l, 1);
    if truncated == Ok {
      truncated := UnfitTruncate(c, 2, CHUNK_SIZE, 512);
    }
    copied, oc := Chunk.Create(disk, l, 1);
    if copied == Ok {
      copied := UnfitCopy(oc, 2, CHUNK_SIZE, 512);
    }
  }

  // ----- The size check.

  /** The check lets a range through that is longer than any block. */
  lemma LongRangePasses()
    ensures Chunk.SizeChecked(1, 0xFFFF_FFFF) && Chunk.Wraps(1, 0xFFFF_FFFF)
  {
  }

  /** But the pieces of a range that the server accepts fit into their blocks. */
  lemma PiecesNeverWrap(offset: nat, size: nat, k: nat)
    requires ReadPipeline.Instant(offset, size).None? && k < |ReadPipeline.Pieces(offset, size)|
    ensures var p := ReadPipeline.Pieces(offset, size)[k];
            p.Piece? && p.offset < CHUNK_SIZE && p.size <= BLOCK_SIZE && Chunk.SizeChecked(p.offset, p.size) && !Chunk.Wraps(p.offset, p.size)
  {
    ReadPipeline.PieceIsBlockShare(offset, size, k);
    hide ReadPipeline.Pieces;
  }

  // ----- A damaged block that is returned as good.

  /** A block whose checksum is not zero. */
  function OnesBlock(): (d: seq<Byte>)
    ensures |d| == BLOCK_SIZE
  {
    [255, 255, 255, 255] + Zeros(BLOCK_SIZE - 4)
  }

  lemma OnesBlockCrc()
    ensures BlockCrc(OnesBlock()) != ZERO && OnesBlock() != Zeros(BLOCK_SIZE)
  {
    OnesThenZeros(CrcPoly(), BLOCK_SIZE - 4);
    assert ONES[0] != ZERO[0] && OnesBlock()[0] != Zeros(BLOCK_SIZE)[0];
  }

  /** A chunk that stands for a block has it as its first one. */
  lemma FirstBlock(c: Chunk, d: seq<Byte>)
    requires c.Sized() && c.blocks == 1 && |d| == BLOCK_SIZE
    requires forall i: nat :: i < BLOCK_SIZE ==> c.ByteAt(i) == d[i]
    ensures c.layout.FileSize(1) <= |c.file| && c.layout.Block(c.file, 0) == d
  {
    hide BlockAt;
    var e := BlockAt(c.layout, c.file, 1, 0);
    forall i | 0 <= i < BLOCK_SIZE
      ensures e[i] == d[i]
    {
      assert i / BLOCK_SIZE == 0 && i % BLOCK_SIZE == i && c.ByteAt(i) == d[i];
    }
    BlockAtInside(c.layout, c.file, 1, 0);
  }

  /**
   An interleaved chunk gets a block with its checksum, and then its checksum field is lost to
   zeros. The block is returned as good, with a checksum that is not its own.
   */
  method DamagedBlock() returns (c: Chunk?, status: Status, crc: Word, d: seq<Byte>)
    ensures status in {Ok, IoError}
    ensures status == Ok ==> c != null && c.Sized() && c.cached && !c.Intact(0) && d == c.BlockBytes(0) == OnesBlock()
    ensures status == Ok ==> crc != BlockCrc(d)
  {
    hide BlockCrc, Consistent, TailZero, Backed, Flushed, View, Put32, Get32, OnesBlock, BlockOk, BlockAt, Pwrite, Chunk.SameTail, Layout.HeaderSize, Layout.MaxBlocks, Layout.Block;
    crc, d := ZERO, [];
    OnesBlockCrc();
    var disk := new Disk();
    status, c := Chunk.Create(disk, Layout(Interleaved, 1, true), 1);
    if status != Ok {
      return;
    }
    status := c.IoBegin();
    ghost var b := OnesBlock();
    status := c.Write(0, 0, 0, BlockCrc(OnesBlock()), OnesBlock());
    if status != Ok {
      return;
    }
    FirstBlock(c, b);
    WriteCrcField(c.layout, c.file, 1, 0, Zeros(CRC_SIZE), 0);
    c.file := Pwrite(c.file, c.layout.CrcOffset(0), Zeros(CRC_SIZE));
    InterleavedVerdict(c.layout, c.file, c.crcData, 0);
    BlockAtInside(c.layout, c.file, 1, 0);
    status, crc, d := c.ReadCrcAndBlock(0);
  }
}
