/**
 Reading chunk blocks back from the parts of a slice, and rebuilding one part of a slice from
 the chunk blocks read from another.
 */
module StripeReading {
  import opened Striping

  // ----- Which parts a range of blocks needs.

  lemma ModAdd(f: nat, k: nat, d: nat)
    requires k < d
    ensures (f + k) % d == if f % d + k < d then f % d + k else f % d + k - d
    ensures (f + k) / d == if f % d + k < d then f / d else f / d + 1
  {
    DivMod(f, d);
    if f % d + k < d {
      DivUnique(d, f / d, f % d + k);
    } else {
      assert f + k == d * (f / d + 1) + (f % d + k - d);
      DivUnique(d, f / d + 1, f % d + k - d);
    }
  }

  lemma DivMono(a: nat, b: nat, d: nat)
    requires d > 0 && a <= b
    ensures a / d <= b / d
  {
    DivMod(a, d);
    DivMod(b, d);
    if b / d < a / d {
      MulGap(d, b / d, a / d);
    }
  }

  /** The parts of the blocks [f, f + c) in the order in which they are read; all if there are enough blocks. */
  function Required(d: nat, f: nat, c: nat): seq<nat>
    requires d > 0
  {
    if c >= d then seq(d, k requires 0 <= k => k) else seq(c, k requires 0 <= k => (f + k) % d)
  }

  method Iota(n: nat, from: nat) returns (r: seq<nat>)
    ensures r == seq(n, k requires 0 <= k => from + k)
  {
    r := [];
    while |r| < n
      invariant |r| <= n && r == seq(|r|, k requires 0 <= k => from + k)
    {
      r := r + [from + |r|];
    }
  }

  /** `getRequiredParts`; data parts are numbered from `base`. */
  method GetRequiredParts(base: nat, d: nat, f: nat, c: nat) returns (r: seq<nat>)
    requires d > 0 && c > 0
    ensures r == seq(|Required(d, f, c)|, k requires 0 <= k < |Required(d, f, c)| => base + Required(d, f, c)[k])
  {
    var first, last := f % d, (f + c - 1) % d;
    if c >= d {
      r := Iota(d, base);
      return;
    }
    ModAdd(f, c - 1, d);
    forall k | 0 <= k < c
      ensures Required(d, f, c)[k] == if first + k < d then first + k else first + k - d
    {
      ModAdd(f, k, d);
    }
    if first <= last {
      r := Iota(last - first + 1, first + base);
      return;
    }
    var head := Iota(d - first, first + base);
    var tail := Iota(last + 1, base);
    r := head + tail;
  }

  // ----- Reading parts.

  /** `read(q, s)` delivers block `s` of data part `q`, as far as the part goes. */
  ghost predicate Reads(read: (nat, nat) -> Block, chunk: Chunk, d: nat) {
    |chunk| <= MAX_BLOCKS &&
    forall q: nat, s: nat {:trigger read(q, s)} :: q < d && s < NumberOfBlocks(d, q, MAX_BLOCKS) ==> read(q, s) == PartBlock(chunk, d, q, s)
  }

  /** The same for blocks [from, to) of each part. */
  ghost predicate ReadsIn(read: (nat, nat) -> Block, chunk: Chunk, d: nat, from: nat, to: nat) {
    |chunk| <= MAX_BLOCKS &&
    forall q: nat, s: nat {:trigger read(q, s)} ::
      q < d && from <= s < to && s < NumberOfBlocks(d, q, MAX_BLOCKS) ==> read(q, s) == PartBlock(chunk, d, q, s)
  }

  lemma ReadsAnywhere(read: (nat, nat) -> Block, chunk: Chunk, d: nat, from: nat, to: nat)
    requires Reads(read, chunk, d)
    ensures ReadsIn(read, chunk, d, from, to)
  {
  }

  /** Behind its last block a part is zero. */
  lemma BehindPart(chunk: Chunk, n: nat, d: nat, q: nat, s: nat)
    requires |chunk| <= n && q < d && s >= NumberOfBlocks(d, q, n)
    ensures PartBlock(chunk, d, q, s) == Zero()
  {
    BlocksOfPart(d, q, n);
    DivMod(n, d);
    if s > n / d {
      MulGap(d, n / d, s);
    }
  }

  /** Reading striped parts; behind its end a part file reads as zeros. */
  function ReadStriped(parts: seq<seq<Block>>, q: nat, s: nat): Block {
    if q < |parts| && s < |parts[q]| then parts[q][s] else Zero()
  }

  /** The parts the striping loop makes are fit for reading. */
  lemma StripedReads(chunk: Chunk, d: nat, parts: seq<seq<Block>>)
    requires |chunk| <= MAX_BLOCKS && |parts| == d && forall q :: 0 <= q < d ==> parts[q] == PartUpTo(chunk, d, q, |chunk|)
    ensures Reads((q: nat, s: nat) => ReadStriped(parts, q, s), chunk, d)
  {
    hide PartBlock, Zero, NumberOfBlocks;
    forall q: nat, s: nat | q < d
      ensures ReadStriped(parts, q, s) == PartBlock(chunk, d, q, s)
    {
      assert parts[q] == PartUpTo(chunk, d, q, |chunk|);
      if s >= NumberOfBlocks(d, q, |chunk|) {
        BehindPart(chunk, |chunk|, d, q, s);
      }
    }
  }

  /** One part's share of the buffer: the blocks it has, then zeros. */
  method PartBuffer(read: (nat, nat) -> Block, d: nat, q: nat, from: nat, count: nat, ghost chunk: Chunk) returns (r: seq<Block>)
    requires q < d && ReadsIn(read, chunk, d, from, from + count)
    ensures r == seq(count, j requires 0 <= j => PartBlock(chunk, d, q, from + j))
  {
    hide PartBlock, NumberOfBlocks, Zero;
    r := [];
    while |r| < count
      invariant |r| <= count && r == seq(|r|, j requires 0 <= j => PartBlock(chunk, d, q, from + j))
    {
      if from + |r| < NumberOfBlocks(d, q, MAX_BLOCKS) {
        r := r + [read(q, from + |r|)];
      } else {
        BehindPart(chunk, MAX_BLOCKS, d, q, from + |r|);
        r := r + [Zero()];
      }
    }
  }

  /** The buffer holds block `from + j` of part `parts[k]` at `k * count + j`. */
  ghost predicate Filled(buffer: seq<Block>, chunk: Chunk, d: nat, parts: seq<nat>, from: nat, count: nat) {
    |buffer| == |parts| * count &&
    forall k, j :: 0 <= k < |parts| && 0 <= j < count ==> BufferAt(buffer, k, j, count) == PartBlock(chunk, d, parts[k], from + j)
  }

  function BufferAt(buffer: seq<Block>, k: nat, j: nat, count: nat): Block {
    if k * count + j < |buffer| then buffer[k * count + j] else Zero()
  }

  lemma InBuffer(count: nat, n: nat, k: nat, j: nat)
    requires k < n && j < count
    ensures k * count + j < n * count
  {
    MulGap(count, k, n);
  }

  lemma BufferOld(buffer: seq<Block>, more: seq<Block>, n: nat, k: nat, j: nat, count: nat)
    requires |buffer| == n * count && k < n && j < count
    ensures BufferAt(buffer + more, k, j, count) == BufferAt(buffer, k, j, count)
  {
    InBuffer(count, n, k, j);
  }

  lemma BufferNew(buffer: seq<Block>, more: seq<Block>, n: nat, j: nat, count: nat)
    requires |buffer| == n * count && |more| == count && j < count
    ensures BufferAt(buffer + more, n, j, count) == more[j]
  {
  }

  lemma NextCount(n: nat, count: nat)
    ensures (n + 1) * count == n * count + count
  {
  }

  lemma FilledNext(buffer: seq<Block>, more: seq<Block>, chunk: Chunk, d: nat, parts: seq<nat>, q: nat, from: nat, count: nat)
    requires Filled(buffer, chunk, d, parts, from, count) && more == seq(count, j requires 0 <= j => PartBlock(chunk, d, q, from + j))
    ensures Filled(buffer + more, chunk, d, parts + [q], from, count)
  {
    hide PartBlock, Zero, BufferAt;
    var b, ps := buffer + more, parts + [q];
    NextCount(|parts|, count);
    forall k, j | 0 <= k < |ps| && 0 <= j < count
      ensures BufferAt(b, k, j, count) == PartBlock(chunk, d, ps[k], from + j)
    {
      if k < |parts| {
        BufferOld(buffer, more, |parts|, k, j, count);
      } else {
        BufferNew(buffer, more, |parts|, j, count);
      }
    }
  }

  method ReadParts(read: (nat, nat) -> Block, d: nat, parts: seq<nat>, from: nat, count: nat, ghost chunk: Chunk) returns (buffer: seq<Block>)
    requires ReadsIn(read, chunk, d, from, from + count) && forall k :: 0 <= k < |parts| ==> parts[k] < d
    ensures Filled(buffer, chunk, d, parts, from, count)
  {
    hide ReadsIn;
    buffer := [];
    var k: nat := 0;
    assert Filled(buffer, chunk, d, parts[..0], from, count);
    hide Filled;
    while k < |parts|
      invariant k <= |parts| && Filled(buffer, chunk, d, parts[..k], from, count)
    {
      var more := PartBuffer(read, d, parts[k], from, count, chunk);
      FilledNext(buffer, more, chunk, d, parts[..k], parts[k], from, count);
      assert parts[..k + 1] == parts[..k] + [parts[k]];
      buffer := buffer + more;
      k := k + 1;
    }
    assert parts[..k] == parts;
  }

  // ----- Merging them.

  /** The index of the part of block `f + i` among those read, as the converter computes it. */
  function PartIndex(d: nat, f: nat, i: nat, first: nat): int
    requires d > 0
  {
    var part := (f + i) % d - first;
    if part < 0 then part + d else part
  }

  /** The index of that block among those read of its part. */
  function BlockIndex(d: nat, f: nat, i: nat): int
    requires d > 0
  {
    (f + i) / d - f / d
  }

  /** How many blocks are read of each part. */
  function PartCount(d: nat, f: nat, c: nat): int
    requires d > 0 && c > 0
  {
    (f + c - 1) / d - f / d + 1
  }

  function FirstPart(d: nat, f: nat, c: nat): int
    requires d > 0
  {
    if c >= d then 0 else f % d
  }

  /** The position of a block's part among those read is that of the part required for it. */
  lemma PartPosition(d: nat, f: nat, c: nat, i: nat)
    requires d > 0 && i < c
    ensures 0 <= FirstPart(d, f, c)
    ensures 0 <= PartIndex(d, f, i, FirstPart(d, f, c)) < |Required(d, f, c)|
    ensures Required(d, f, c)[PartIndex(d, f, i, FirstPart(d, f, c))] == (f + i) % d
  {
    DivMod(f + i, d);
    if c < d {
      ModAdd(f, i, d);
    }
  }

  lemma BlockPosition(d: nat, f: nat, c: nat, i: nat)
    requires d > 0 && i < c
    ensures 0 <= BlockIndex(d, f, i) < PartCount(d, f, c)
    ensures 0 <= f / d && f / d + BlockIndex(d, f, i) == (f + i) / d
  {
    DivMono(f, f + i, d);
    DivMono(f + i, f + c - 1, d);
  }

  /** Where block `j` of the `k`-th part that was read is in the buffer. */
  function SlotOf(k: nat, j: nat, count: nat): nat {
    k * count + j
  }

  lemma FilledAt(src: seq<Block>, chunk: Chunk, d: nat, parts: seq<nat>, from: nat, count: nat, k: nat, j: nat)
    requires Filled(src, chunk, d, parts, from, count) && k < |parts| && j < count
    ensures SlotOf(k, j, count) < |src| && src[SlotOf(k, j, count)] == PartBlock(chunk, d, parts[k], from + j)
  {
    InBuffer(count, |parts|, k, j);
    assert BufferAt(src, k, j, count) == PartBlock(chunk, d, parts[k], from + j);
    hide PartBlock;
  }

  lemma BlockFound(src: seq<Block>, d: nat, f: nat, c: nat, i: nat, chunk: Chunk, count: nat, first: nat) returns (k: nat, j: nat)
    requires d > 0 && i < c && count == PartCount(d, f, c) && first == FirstPart(d, f, c)
    requires Filled(src, chunk, d, Required(d, f, c), f / d, count)
    ensures k == PartIndex(d, f, i, first) && j == BlockIndex(d, f, i)
    ensures SlotOf(k, j, count) < |src| && src[SlotOf(k, j, count)] == BlockOf(chunk, f + i)
  {
    hide BlockOf, PartBlock, Required, Zero, Filled, PartIndex, BlockIndex, PartCount, FirstPart, SlotOf;
    PartPosition(d, f, c, i);
    BlockPosition(d, f, c, i);
    PartAt(chunk, d, f + i);
    k, j := PartIndex(d, f, i, first), BlockIndex(d, f, i);
    FilledAt(src, chunk, d, Required(d, f, c), f / d, count, k, j);
  }

  /** `ChunkReadPlanner::BlockConverter` */
  method ConvertBlocks(dst: array<Block>, src: seq<Block>, f: nat, c: nat, from: nat, count: nat, first: nat, d: nat, ghost chunk: Chunk)
    requires d > 0 && c > 0 && dst.Length == c
    requires from == f / d && count == PartCount(d, f, c) && first == FirstPart(d, f, c)
    requires Filled(src, chunk, d, Required(d, f, c), f / d, count)
    modifies dst
    ensures forall i :: 0 <= i < c ==> dst[i] == BlockOf(chunk, f + i)
  {
    hide BlockOf, Filled, Required, PartCount, FirstPart;
    var i: nat := 0;
    while i < c
      invariant i <= c && forall k :: 0 <= k < i ==> dst[k] == BlockOf(chunk, f + k)
    {
      ghost var k, j := BlockFound(src, d, f, c, i, chunk, count, first);
      var block := (f + i) / d - from;
      var part := (f + i) % d - first;
      if part < 0 {
        part := part + d;
      }
      assert part == k && block == j;
      dst[i] := src[SlotOf(part, block, count)];
      i := i + 1;
    }
  }

  /** The blocks [f, f + c) of the chunk. */
  function Blocks(chunk: Chunk, f: nat, c: nat): seq<Block> {
    seq<Block>(c, i requires 0 <= i => BlockOf(chunk, f + i))
  }

  lemma StandardBuffer(buffer: seq<Block>, chunk: Chunk, f: nat, c: nat)
    requires c > 0 && Filled(buffer, chunk, 1, Required(1, f, c), f, c)
    ensures buffer == Blocks(chunk, f, c)
  {
    hide BlockOf;
    assert Required(1, f, c) == [0];
    forall i | 0 <= i < c
      ensures i < |buffer| && buffer[i] == BlockOf(chunk, f + i)
    {
      assert BufferAt(buffer, 0, i, c) == PartBlock(chunk, 1, 0, f + i);
    }
  }

  lemma RequiredInRange(d: nat, f: nat, c: nat)
    requires d > 0 && c > 0
    ensures |Required(d, f, c)| > 0 && Required(d, f, c)[0] == if c >= d then 0 else f % d
    ensures forall k :: 0 <= k < |Required(d, f, c)| ==> Required(d, f, c)[k] < d
  {
    forall k | 0 <= k < |Required(d, f, c)|
      ensures Required(d, f, c)[k] < d
    {
      DivMod(f + k, d);
    }
  }

  /** `ChunkReadPlanner`: plan, read and merge; a standard part needs no merging. */
  method ReadChunk(read: (nat, nat) -> Block, standard: bool, base: nat, d: nat, f: nat, c: nat, ghost chunk: Chunk) returns (r: seq<Block>)
    requires d > 0 && c > 0 && (standard ==> d == 1) && ReadsIn(read, chunk, d, f / d, (f + c - 1) / d + 1)
    ensures r == Blocks(chunk, f, c)
  {
    hide BlockOf, Filled, ReadsIn, Required, BlockIndex;
    RequiredInRange(d, f, c);
    BlockPosition(d, f, c, 0);
    DivMono(f, f + c - 1, d);
    var numbered := GetRequiredParts(base, d, f, c);
    var parts := seq(|numbered|, k requires 0 <= k < |numbered| => numbered[k] - base);
    assert parts == Required(d, f, c);
    var from := f / d;
    var count := (f + c - 1) / d - from + 1;
    var buffer := ReadParts(read, d, parts, from, count, chunk);
    if standard {
      StandardBuffer(buffer, chunk, f, c);
      return buffer;
    }
    var dst := new Block[c](_ => Zero());
    ConvertBlocks(dst, buffer, f, c, from, count, parts[0], d, chunk);
    assert dst[..] == Blocks(chunk, f, c);
    return dst[..];
  }

  /** The same when all of every part can be read. */
  method ReadAll(read: (nat, nat) -> Block, standard: bool, base: nat, d: nat, f: nat, c: nat, ghost chunk: Chunk) returns (r: seq<Block>)
    requires d > 0 && c > 0 && (standard ==> d == 1) && Reads(read, chunk, d)
    ensures r == Blocks(chunk, f, c)
  {
    hide Reads, ReadsIn, Blocks;
    ReadsAnywhere(read, chunk, d, f / d, (f + c - 1) / d + 1);
    r := ReadChunk(read, standard, base, d, f, c, chunk);
  }

  // ----- Rebuilding a part from chunk blocks.

  /** Blocks [first, first + n) of a part of a slice with `e` data parts; part `e` is the parity. */
  function PartRange(chunk: Chunk, e: nat, part: nat, first: nat, n: nat): seq<Block> {
    seq<Block>(n, i requires 0 <= i => AnyPart(chunk, e, part, first + i))
  }

  function AnyPart(chunk: Chunk, e: nat, part: nat, s: nat): Block {
    if part < e then PartBlock(chunk, e, part, s) else ParityBlock(chunk, e, s)
  }

  lemma Spread(n: nat, e: nat, i: nat)
    requires e > 0 && i < n
    ensures i * e < 1 + (n - 1) * e
  {
    if i < n - 1 {
      MulGap(e, i, n - 1);
    }
  }

  /** `SliceRecoveryPlanner::BlockConverter`: every `e`-th block. */
  method ConvertPart(src: seq<Block>, n: nat, e: nat, ghost chunk: Chunk, ghost q: nat, ghost first: nat) returns (dst: seq<Block>)
    requires q < e && n > 0 && src == Blocks(chunk, q + first * e, 1 + (n - 1) * e)
    ensures dst == PartRange(chunk, e, q, first, n)
  {
    hide BlockOf;
    dst := [];
    var at: nat := 0;
    while |dst| < n
      invariant |dst| <= n && at == |dst| * e
      invariant dst == PartRange(chunk, e, q, first, |dst|)
    {
      Spread(n, e, |dst|);
      assert q + first * e + |dst| * e == (first + |dst|) * e + q;
      assert src[at] == PartBlock(chunk, e, q, first + |dst|);
      dst := dst + [src[at]];
      at := at + e;
    }
  }

  lemma StripeInside(n: nat, e: nat, s: nat, i: nat)
    requires s < n && i < e
    ensures s * e + i < n * e
  {
    MulGap(e, s, n);
  }

  /** The inner loop of `XorReadPlan::RecoverParity`: one stripe from its `e` blocks. */
  method StripeParity(src: seq<Block>, at: nat, e: nat, ghost chunk: Chunk, ghost s: nat) returns (r: Block)
    requires e > 0 && at + e <= |src| && src[at..at + e] == Blocks(chunk, s * e, e)
    ensures r == ParityBlock(chunk, e, s)
  {
    hide XorBlock, Zero, BlockOf, XorRange;
    XorRangeNext(chunk, s * e, 0);
    XorZero(src[at]);
    assert src[at] == src[at..at + e][0];
    r := src[at];
    var i: nat := 1;
    while i < e
      invariant 1 <= i <= e && r == XorRange(chunk, s * e, i)
    {
      XorRangeNext(chunk, s * e, i);
      assert src[at + i] == src[at..at + e][i];
      r := XorBlock(r, src[at + i]);
      i := i + 1;
    }
  }

  /** `XorReadPlan::RecoverParity` */
  method RecoverParity(src: seq<Block>, n: nat, e: nat, ghost chunk: Chunk, ghost first: nat) returns (dst: seq<Block>)
    requires e > 0 && src == Blocks(chunk, first * e, n * e)
    ensures dst == PartRange(chunk, e, e, first, n)
  {
    hide ParityBlock, BlockOf;
    dst := [];
    var at: nat := 0;
    while |dst| < n
      invariant |dst| <= n && at == |dst| * e
      invariant dst == PartRange(chunk, e, e, first, |dst|)
    {
      StripeInside(n, e, |dst|, e - 1);
      assert (first + |dst|) * e == first * e + at;
      assert src[at..at + e] == Blocks(chunk, (first + |dst|) * e, e);
      var r := StripeParity(src, at, e, chunk, first + |dst|);
      dst := dst + [r];
      at := at + e;
    }
  }

  /**
   `SliceRecoveryPlanner` where the part is rebuilt from chunk data: blocks of any part of an
   xor slice with `e` data parts, from a slice with `d`.
   */
  method RecoverPart(read: (nat, nat) -> Block, standard: bool, base: nat, d: nat, e: nat, part: nat, first: nat, n: nat, ghost chunk: Chunk)
    returns (r: seq<Block>)
    requires d > 0 && (standard ==> d == 1) && Reads(read, chunk, d)
    requires 0 < n && 0 < e && part <= e
    ensures r == PartRange(chunk, e, part, first, n)
  {
    hide Reads, ReadsIn, PartRange, Blocks;
    if part < e {
      var data := ReadAll(read, standard, base, d, part + first * e, 1 + (n - 1) * e, chunk);
      r := ConvertPart(data, n, e, chunk, part, first);
    } else {
      StripeInside(n, e, 0, 0);
      var data := ReadAll(read, standard, base, d, first * e, n * e, chunk);
      r := RecoverParity(data, n, e, chunk, first);
    }
  }

  // ----- Rebuilding one missing part of an xor slice from the others, in any order.

  function XorAll(blocks: seq<Block>): Block {
    if |blocks| == 0 then Zero() else XorBlock(XorAll(blocks[..|blocks| - 1]), blocks[|blocks| - 1])
  }

  lemma {:induction false} XorConcat(a: seq<Block>, b: seq<Block>)
    ensures XorAll(a + b) == XorBlock(XorAll(a), XorAll(b))
    decreases |b|
  {
    hide XorBlock, Zero;
    if |b| == 0 {
      assert a + b == a;
      XorZero(XorAll(a));
    } else {
      var last := |b| - 1;
      assert (a + b)[..|a + b| - 1] == a + b[..last];
      XorConcat(a, b[..last]);
      XorBlockAssoc(XorAll(a), XorAll(b[..last]), b[last]);
    }
  }

  lemma XorOne(b: Block)
    ensures XorAll([b]) == b
  {
    hide XorBlock, Zero;
    assert [b][..0] == [] && XorAll([]) == Zero();
    XorZero(b);
  }

  /** Taking one block out and putting it first. */
  lemma XorPull(blocks: seq<Block>, k: nat)
    requires k < |blocks|
    ensures XorAll(blocks) == XorBlock(blocks[k], XorAll(blocks[..k] + blocks[k + 1..]))
  {
    hide *;
    var a, x, c := blocks[..k], blocks[k], blocks[k + 1..];
    assert blocks == a + ([x] + c);
    XorConcat(a, [x] + c);
    XorConcat([x], c);
    XorOne(x);
    XorConcat(a, c);
    XorBlockAssoc(XorAll(a), x, XorAll(c));
    XorBlockAssoc(x, XorAll(a), XorAll(c));
    XorBlockComm(XorAll(a), x);
  }

  /** Block `s` of the parts in `order`; with `d` data parts, part `d` is the parity. */
  function BlocksAt(chunk: Chunk, d: nat, order: seq<nat>, s: nat): seq<Block> {
    seq<Block>(|order|, k requires 0 <= k < |order| => AnyPart(chunk, d, order[k], s))
  }

  lemma MultisetPull(order: seq<nat>, k: nat)
    requires k < |order|
    ensures multiset(order[..k] + order[k + 1..]) == multiset(order) - multiset{order[k]}
  {
    assert order == order[..k] + [order[k]] + order[k + 1..];
  }

  lemma BlocksPull(chunk: Chunk, d: nat, order: seq<nat>, s: nat, k: nat)
    requires k < |order|
    ensures XorAll(BlocksAt(chunk, d, order, s)) ==
            XorBlock(AnyPart(chunk, d, order[k], s), XorAll(BlocksAt(chunk, d, order[..k] + order[k + 1..], s)))
  {
    hide XorBlock, XorAll, AnyPart;
    var blocks := BlocksAt(chunk, d, order, s);
    XorPull(blocks, k);
    assert blocks[..k] + blocks[k + 1..] == BlocksAt(chunk, d, order[..k] + order[k + 1..], s);
  }

  lemma SameElement(a: seq<nat>, b: seq<nat>) returns (k: nat)
    requires multiset(a) == multiset(b) && |a| > 0
    ensures k < |b| && b[k] == a[0]
  {
    assert a[0] in multiset(a);
    k :| 0 <= k < |b| && b[k] == a[0];
  }

  /** The order does not matter. */
  lemma {:induction false} XorPermutation(chunk: Chunk, d: nat, a: seq<nat>, b: seq<nat>, s: nat)
    requires multiset(a) == multiset(b)
    ensures XorAll(BlocksAt(chunk, d, a, s)) == XorAll(BlocksAt(chunk, d, b, s))
    decreases |a|
  {
    hide XorBlock, XorAll, BlocksAt;
    if |a| == 0 {
      assert |multiset(b)| == 0;
      assert a == b;
    } else {
      var k := SameElement(a, b);
      BlocksPull(chunk, d, a, s, 0);
      BlocksPull(chunk, d, b, s, k);
      MultisetPull(a, 0);
      MultisetPull(b, k);
      XorPermutation(chunk, d, a[..0] + a[1..], b[..k] + b[k + 1..], s);
    }
  }

  /** All parts of an xor slice with `d` data parts. */
  function AllParts(d: nat): seq<nat> {
    seq(d + 1, q requires 0 <= q => q)
  }

  lemma {:induction false} XorOfData(chunk: Chunk, d: nat, s: nat, n: nat)
    requires n <= d
    ensures XorAll(BlocksAt(chunk, d, AllParts(d)[..n], s)) == XorRange(chunk, s * d, n)
  {
    hide XorBlock, Zero;
    if n > 0 {
      XorOfData(chunk, d, s, n - 1);
      var all := BlocksAt(chunk, d, AllParts(d)[..n], s);
      assert all[..n - 1] == BlocksAt(chunk, d, AllParts(d)[..n - 1], s);
    }
  }

  /** All parts of a stripe together cancel out. */
  lemma StripeCancels(chunk: Chunk, d: nat, s: nat)
    ensures XorAll(BlocksAt(chunk, d, AllParts(d), s)) == Zero()
  {
    hide XorBlock, Zero, XorRange, XorAll;
    var all := BlocksAt(chunk, d, AllParts(d), s);
    XorOfData(chunk, d, s, d);
    XorConcat(all[..d], [all[d]]);
    XorOne(all[d]);
    assert all == all[..d] + [all[d]];
    assert all[..d] == BlocksAt(chunk, d, AllParts(d)[..d], s);
    XorSelf(ParityBlock(chunk, d, s));
  }

  /** The other blocks of a stripe, in any order, give the missing one. */
  lemma MissingBlock(chunk: Chunk, d: nat, s: nat, m: nat, order: seq<nat>)
    requires multiset(order + [m]) == multiset(AllParts(d))
    ensures XorAll(BlocksAt(chunk, d, order, s)) == AnyPart(chunk, d, m, s)
  {
    hide XorBlock, Zero, XorAll, AnyPart;
    var x, o := AnyPart(chunk, d, m, s), XorAll(BlocksAt(chunk, d, order, s));
    XorPermutation(chunk, d, order + [m], AllParts(d), s);
    assert BlocksAt(chunk, d, order + [m], s) == BlocksAt(chunk, d, order, s) + [x];
    XorConcat(BlocksAt(chunk, d, order, s), [x]);
    XorOne(x);
    StripeCancels(chunk, d, s);
    XorBlockAssoc(o, x, x);
    XorSelf(x);
    XorZero(o);
    XorZero(x);
  }

  function PadAt(data: seq<Block>, j: nat): Block {
    if j < |data| then data[j] else Zero()
  }

  /** What one part that was read contributes: its blocks, and zeros where it is shorter. */
  ghost predicate Delivered(data: seq<Block>, chunk: Chunk, d: nat, part: nat, first: nat, n: nat) {
    forall j :: 0 <= j < n ==> PadAt(data, j) == AnyPart(chunk, d, part, first + j)
  }

  /** `memcpy` of the blocks there are, `memset` of the rest. */
  function CopyPadded(data: seq<Block>, n: nat): seq<Block> {
    seq<Block>(n, j requires 0 <= j => PadAt(data, j))
  }

  /** `blockXor` over the blocks both have. */
  function XorInto(r: seq<Block>, data: seq<Block>): seq<Block> {
    seq<Block>(|r|, j requires 0 <= j < |r| => if j < |data| then XorBlock(r[j], data[j]) else r[j])
  }

  /** Each block is the xor of those of the parts in `order`. */
  ghost predicate Accumulated(r: seq<Block>, chunk: Chunk, d: nat, order: seq<nat>, first: nat, n: nat) {
    |r| == n && forall j :: 0 <= j < n ==> r[j] == XorAll(BlocksAt(chunk, d, order, first + j))
  }

  lemma BlocksNext(chunk: Chunk, d: nat, order: seq<nat>, q: nat, s: nat)
    ensures XorAll(BlocksAt(chunk, d, order + [q], s)) == XorBlock(XorAll(BlocksAt(chunk, d, order, s)), AnyPart(chunk, d, q, s))
    ensures XorAll(BlocksAt(chunk, d, [q], s)) == AnyPart(chunk, d, q, s)
  {
    hide XorBlock, XorAll, AnyPart;
    var x := AnyPart(chunk, d, q, s);
    assert BlocksAt(chunk, d, order + [q], s) == BlocksAt(chunk, d, order, s) + [x];
    assert BlocksAt(chunk, d, [q], s) == [x];
    XorConcat(BlocksAt(chunk, d, order, s), [x]);
    XorOne(x);
  }

  lemma AccumulateFirst(data: seq<Block>, chunk: Chunk, d: nat, q: nat, first: nat, n: nat)
    requires Delivered(data, chunk, d, q, first, n)
    ensures Accumulated(CopyPadded(data, n), chunk, d, [q], first, n)
  {
    hide XorBlock, XorAll, AnyPart, Zero, BlocksAt;
    forall j | 0 <= j < n
      ensures CopyPadded(data, n)[j] == XorAll(BlocksAt(chunk, d, [q], first + j))
    {
      BlocksNext(chunk, d, [], q, first + j);
      assert PadAt(data, j) == AnyPart(chunk, d, q, first + j);
    }
  }

  lemma AccumulateNext(r: seq<Block>, data: seq<Block>, chunk: Chunk, d: nat, order: seq<nat>, q: nat, first: nat, n: nat)
    requires Accumulated(r, chunk, d, order, first, n) && Delivered(data, chunk, d, q, first, n)
    ensures Accumulated(XorInto(r, data), chunk, d, order + [q], first, n)
  {
    hide XorBlock, XorAll, AnyPart, Zero, BlocksAt;
    forall j | 0 <= j < n
      ensures XorInto(r, data)[j] == XorAll(BlocksAt(chunk, d, order + [q], first + j))
    {
      BlocksNext(chunk, d, order, q, first + j);
      assert PadAt(data, j) == AnyPart(chunk, d, q, first + j);
      XorZero(r[j]);
    }
  }

  lemma AccumulatedIsMissing(r: seq<Block>, chunk: Chunk, d: nat, order: seq<nat>, m: nat, first: nat, n: nat)
    requires multiset(order + [m]) == multiset(AllParts(d)) && Accumulated(r, chunk, d, order, first, n)
    ensures r == PartRange(chunk, d, m, first, n)
  {
    hide XorAll, AnyPart, BlocksAt, AllParts;
    forall j | 0 <= j < n
      ensures r[j] == AnyPart(chunk, d, m, first + j)
    {
      MissingBlock(chunk, d, first + j, m, order);
    }
  }

  /** The recovery loop of `XorReadPlan::postProcessRead` for the missing part `m`, `n` blocks of it. */
  method RecoverMissing(order: seq<nat>, data: seq<seq<Block>>, d: nat, m: nat, n: nat, ghost chunk: Chunk, ghost first: nat)
    returns (r: seq<Block>)
    requires d > 0 && |data| == |order| && multiset(order + [m]) == multiset(AllParts(d))
    requires forall k :: 0 <= k < |order| ==> Delivered(data[k], chunk, d, order[k], first, n)
    ensures r == PartRange(chunk, d, m, first, n)
  {
    assert |order| == d by {
      assert |multiset(order + [m])| == |order| + 1 && |multiset(AllParts(d))| == d + 1;
    }
    hide Accumulated, Delivered, AllParts, CopyPadded, XorInto, PartRange;
    r := [];
    var isFirst := true;
    var k: nat := 0;
    while k < |order|
      invariant k <= |order| && (isFirst <==> k == 0) && (k > 0 ==> Accumulated(r, chunk, d, order[..k], first, n))
    {
      if isFirst {
        AccumulateFirst(data[k], chunk, d, order[k], first, n);
        r := CopyPadded(data[k], n);
        isFirst := false;
      } else {
        AccumulateNext(r, data[k], chunk, d, order[..k], order[k], first, n);
        r := XorInto(r, data[k]);
      }
      assert order[..k + 1] == order[..k] + [order[k]];
      k := k + 1;
    }
    assert order[..k] == order;
    AccumulatedIsMissing(r, chunk, d, order, m, first, n);
  }

  // ----- Reading a chunk when one part is lost.

  /** How many blocks a part can have; part `d` is the parity. */
  function PartLimit(d: nat, q: nat): nat
    requires 0 < d && q <= d
  {
    NumberOfBlocks(d, if q < d then q else 0, MAX_BLOCKS)
  }

  /** `read` delivers every part but `m`. */
  ghost predicate Survive(read: (nat, nat) -> Block, chunk: Chunk, d: nat, m: nat)
    requires d > 0
  {
    |chunk| <= MAX_BLOCKS &&
    forall q: nat, s: nat {:trigger read(q, s)} :: q <= d && q != m && s < PartLimit(d, q) ==> read(q, s) == AnyPart(chunk, d, q, s)
  }

  lemma BlockBehind(chunk: Chunk, b: nat)
    requires b >= |chunk|
    ensures BlockOf(chunk, b) == Zero()
  {
    hide Zero;
  }

  lemma {:induction false} XorRangeBehind(chunk: Chunk, from: nat, n: nat)
    requires from >= |chunk|
    ensures XorRange(chunk, from, n) == Zero()
    decreases n
  {
    hide *;
    XorRangeNext(chunk, from, 0);
    if n > 0 {
      XorRangeBehind(chunk, from, n - 1);
      XorRangeNext(chunk, from, n - 1);
      BlockBehind(chunk, from + n - 1);
      XorZero(Zero());
    }
  }

  lemma BehindAnyPart(chunk: Chunk, d: nat, q: nat, s: nat)
    requires |chunk| <= MAX_BLOCKS && 0 < d && q <= d && s >= PartLimit(d, q)
    ensures AnyPart(chunk, d, q, s) == Zero()
  {
    hide Zero, XorRange;
    if q < d {
      BehindPart(chunk, MAX_BLOCKS, d, q, s);
    } else {
      BlocksOfPart(d, 0, MAX_BLOCKS);
      DivMod(MAX_BLOCKS, d);
      AtLeast(s, d, MAX_BLOCKS);
      XorRangeBehind(chunk, s * d, d);
    }
  }

  /** As many stripes as the parity has blocks hold all blocks. */
  lemma AtLeast(s: nat, d: nat, n: nat)
    requires d > 0 && s >= n / d + (if 0 < n % d then 1 else 0)
    ensures s * d >= n
  {
    DivMod(n, d);
    if s > n / d {
      MulGap(d, n / d, s);
    }
  }

  /** The blocks [from, from + count) of one part, as far as it goes. */
  method PartData(read: (nat, nat) -> Block, d: nat, q: nat, m: nat, from: nat, count: nat, ghost chunk: Chunk) returns (r: seq<Block>)
    requires 0 < d && q <= d && q != m && Survive(read, chunk, d, m)
    ensures Delivered(r, chunk, d, q, from, count)
  {
    hide AnyPart, Zero, PartLimit;
    r := [];
    while |r| < count && from + |r| < PartLimit(d, q)
      invariant |r| <= count && forall j :: 0 <= j < |r| ==> r[j] == AnyPart(chunk, d, q, from + j)
    {
      r := r + [read(q, from + |r|)];
    }
    forall j | 0 <= j < count
      ensures PadAt(r, j) == AnyPart(chunk, d, q, from + j)
    {
      if j >= |r| {
        BehindAnyPart(chunk, d, q, from + j);
      }
    }
  }

  lemma OrderInRange(order: seq<nat>, d: nat, m: nat, k: nat)
    requires multiset(order + [m]) == multiset(AllParts(d)) && k < |order|
    ensures order[k] <= d && order[k] != m && m <= d
  {
    var all, o := AllParts(d), order + [m];
    assert all[..d + 1] == all;
    assert o[k] in multiset(o) && o[|order|] in multiset(o);
    assert order[k] in all && m in all;
    if order[k] == m {
      assert o == order[..k] + [m] + order[k + 1..] + [m];
      assert multiset(o)[m] >= 2;
      OnceInAll(d, m, d + 1);
    }
  }

  lemma {:induction false} OnceInAll(d: nat, q: nat, n: nat)
    requires n <= d + 1
    ensures multiset(AllParts(d)[..n])[q] == if q < n then 1 else 0
  {
    if n > 0 {
      OnceInAll(d, q, n - 1);
      assert AllParts(d)[..n] == AllParts(d)[..n - 1] + [n - 1];
    }
  }

  /** All surviving parts are read and the missing one is rebuilt from them. */
  method Rebuild(read: (nat, nat) -> Block, d: nat, m: nat, order: seq<nat>, from: nat, count: nat, ghost chunk: Chunk) returns (r: seq<Block>)
    requires 0 < d && multiset(order + [m]) == multiset(AllParts(d)) && Survive(read, chunk, d, m)
    ensures r == PartRange(chunk, d, m, from, count)
  {
    hide Survive, Delivered, AllParts, PartRange;
    var data: seq<seq<Block>> := [];
    while |data| < |order|
      invariant |data| <= |order| && forall k :: 0 <= k < |data| ==> Delivered(data[k], chunk, d, order[k], from, count)
    {
      OrderInRange(order, d, m, |data|);
      var part := PartData(read, d, order[|data|], m, from, count, chunk);
      data := data + [part];
    }
    r := RecoverMissing(order, data, d, m, count, chunk, from);
  }

  /** The blocks of part `m` from `lost`, all others as `read` delivers them. */
  function ReadPatched(read: (nat, nat) -> Block, m: nat, from: nat, lost: seq<Block>, q: nat, s: nat): Block {
    if q != m then read(q, s) else if from <= s < from + |lost| then lost[s - from] else Zero()
  }

  function Patched(read: (nat, nat) -> Block, m: nat, from: nat, lost: seq<Block>): (nat, nat) -> Block {
    (q: nat, s: nat) => ReadPatched(read, m, from, lost, q, s)
  }

  lemma PatchedReads(read: (nat, nat) -> Block, chunk: Chunk, d: nat, m: nat, from: nat, lost: seq<Block>)
    requires 0 < d && Survive(read, chunk, d, m)
    requires m < d ==> lost == PartRange(chunk, d, m, from, |lost|)
    ensures ReadsIn(Patched(read, m, from, lost), chunk, d, from, from + |lost|)
  {
    hide Zero, PartBlock, NumberOfBlocks;
    var patched := Patched(read, m, from, lost);
    forall q: nat, s: nat | q < d && from <= s < from + |lost| && s < NumberOfBlocks(d, q, MAX_BLOCKS)
      ensures patched(q, s) == PartBlock(chunk, d, q, s)
    {
      if q == m {
        assert lost[s - from] == AnyPart(chunk, d, m, from + (s - from));
      } else {
        assert read(q, s) == AnyPart(chunk, d, q, s);
      }
    }
  }

  /** Any `d` of the `d + 1` parts of an xor slice, read in any order, give exactly the chunk blocks. */
  method ReadDegraded(read: (nat, nat) -> Block, base: nat, d: nat, m: nat, order: seq<nat>, f: nat, c: nat, ghost chunk: Chunk)
    returns (r: seq<Block>)
    requires 0 < d && 0 < c && multiset(order + [m]) == multiset(AllParts(d)) && Survive(read, chunk, d, m)
    ensures r == Blocks(chunk, f, c)
  {
    hide Survive, ReadsIn, AllParts, PartRange, Blocks, Patched;
    DivMono(f, f + c - 1, d);
    var from := f / d;
    var count := (f + c - 1) / d - from + 1;
    var lost := Rebuild(read, d, m, order, from, count, chunk);
    RangeLength(chunk, d, m, from, count);
    PatchedReads(read, chunk, d, m, from, lost);
    r := ReadChunk(Patched(read, m, from, lost), false, base, d, f, c, chunk);
  }

  lemma RangeLength(chunk: Chunk, e: nat, part: nat, first: nat, n: nat)
    ensures |PartRange(chunk, e, part, first, n)| == n
  {
  }
}
