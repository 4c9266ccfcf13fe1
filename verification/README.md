# LizardFS chunkserver: a verified model

This project models the chunkserver of LizardFS and the parts of its common code that decide
where data lives, and proves what they promise. It is written in Dafny 4.11;
`dafny verify dfyconfig.toml` checks all of it.

The code falls into nine areas, each with its own modules.

- **Checksums** (`Words`, `CrcSpec`, `CrcEngine`). A 32-bit word is a sequence of 32 bits, least
  significant first. `CrcSpec` has the bit-serial CRC-32 and its algebra for any polynomial;
  `CrcEngine` has the tables and loops of the program.
- **Chunk files** (`ChunkLayout`, `BlockImage`, `BlockStore`, `StoreRuns`). Both on-disk formats,
  with the checksum table in the header or next to each block, refine one zero-extended byte
  array under reads, writes, truncates, duplicate-and-truncate, closing and eviction. Each file
  operation may fail, and a `Disk` counts the failures; `Serve` takes any list of requests, which
  may make any number of chunks, up to the first failure.
- **Chunk locking** (`ChunkLocking`). Every step under the registry lock is a step of a state
  machine over registry, chunk objects, condition variables, waiters and holders.
- **Write chains** (`WriteChain`, `Forwarding`). Acknowledgements in a chain of any length under
  any schedule, and how one server passes packets on byte by byte. Ids of writes are distinct
  and not zero, as clients send them; id 0 stands for opening the chunk.
- **Read replies** (`ReadPipeline`). Cutting a range into pieces and overlapping disk and network.
- **Descriptors** (`Descriptors`, `ResourcePool`). Who owns an open descriptor, and the list of
  unused ones embedded in the pool's vector. Descriptors are positive.
- **Copies** (`LabelMatching`, `ChunkCopies`). Which copies have to be made and deleted, and how
  many losses a chunk survives.
- **Striping** (`Striping`, `StripeReading`). The layout of slices, reading chunk blocks back, and
  rebuilding parts.
- **Disk choice, names, access lists** (`FolderChoice`, `Numerals`, `ChunkFilename`,
  `AccessControl`, `AclText`, `AclXattr`). `Wrappers` has the optional values used everywhere.

Code that works on objects is modelled by classes whose methods are proved against functions or
invariants on values; protocols are state machines whose invariants hold in every state of every
run, and methods such as `WriteChain.Live`, `ReadPipeline.Serve` and `Forwarding.Session` carry the
results over to the objects. System calls, clocks, schedules and random choices are parameters or free choices.

Some properties one might expect do not hold of the code. The members named below show it, and
say exactly when the code does what one expects:

- A truncate or a duplicate of a part of a multi-part slice is not checked against the number
  of checksum slots in its header. Blocks behind the slots are refused as damaged once the table
  has been loaded again (`StoreRuns.FitsCanFail`, `StoreRuns.UnfitTruncate`,
  `StoreRuns.UnfitCopy`; condition in `BlockStore.Chunk.Truncate` and `BlockStore.Chunk.DupTrunc`;
  over whole runs `StoreRuns.IntactIffNotLost` and `StoreRuns.FittingRun`). The lengths that the
  master asks for fit (src/master/chunks.cc:1207 and 1235, `StoreRuns.PartLengthFits`).
- The size check of a read is done in 32 bits, so a size close to 2^32 passes it
  (`StoreRuns.LongRangePasses`, `BlockStore.Chunk.Read`). The pieces of a read request never have
  such a size (`StoreRuns.PiecesNeverWrap`).
- Removing a folder erases an available chunk although threads wait for it
  (`ChunkLocking.GuardCanFail`, `ChunkLocking.StepKeepsIff`).
- A forwarding server keeps a pointer into a freed packet when the packet's handling had to wait
  for a disk job (`Forwarding.LeftoverPointer`, `Forwarding.Session`).
- A read request that finds earlier replies still queued can send a piece before it has been
  read from disk (`ReadPipeline.SafeIffQueueEmpty`).
- No disk is chosen when the greatest free ratio is exactly 0.01
  (`FolderChoice.NeverChosen`, `FolderChoice.Folders.GetFolder`).
- Erasure-code numbers in file names are cut to 32 bits, so several names denote one part
  (`ChunkFilename.WideNumberIsAccepted`, `ChunkFilename.PrintParse`), and some run into an
  assertion (`ChunkFilename.WideNumberAborts`, `ChunkFilename.ParseAborts`).
- A damaged block of the interleaved format is returned as good when its checksum field is zero
  (`StoreRuns.DamagedBlock`, `BlockStore.Chunk.ReadCrcAndBlock`).
- Updating the redundancy level for a slice that was never evaluated is off by one
  (`ChunkCopies.NewSliceOffByOne`, `ChunkCopies.Calculator.UpdateRedundancyLevel`).
- A copy may be removed that leaves a chunk without redundancy when its target wants one copy
  (`ChunkCopies.SingleCopyCanEndanger`, `ChunkCopies.RemovableIsSafe`).
- The text form of an access list with a named entry of id 0xFFFFFFFF is refused when read back
  (`AclText.TextRoundTrip`).

## Model

| member | source | states |
|---|---|---|
| `CrcSpec.FeedBytesIsBitSerial` | src/common/crc.cc:71-90 | for every polynomial and register, feeding bytes through eight register turns equals feeding the message bit by bit |
| `CrcSpec.Crc32Continues` | src/common/crc.cc:113-151 | the checksum of a concatenation is the checksum of the second part started from that of the first |
| `CrcSpec.CombineIsConcat` | src/common/crc.cc:207-224 | for all strings A and B and every start value, combining their checksums with the length of B gives the checksum of A followed by B |
| `CrcSpec.ZeroBlockIsZeroExtension` | src/common/crc.h:27-28 | the zeroblock and zeroexpanded macros give the checksum of the string extended by any number of zero bytes |
| `CrcSpec.ZeroBlockFromSeed` | src/common/crc.h:27 | the zeroblock macro of a start value is the checksum of that many zero bytes |
| `CrcSpec.XorBlocksIsXor` | src/common/crc.h:29 | the xorblocks macro gives the checksum of the byte-wise xor of two equally long strings |
| `CrcSpec.TurnsPow2` | src/common/crc.cc:71-90 | adding the register to itself after 2^k turns is 2^k times adding it to itself after one turn |
| `CrcSpec.ZeroBlockNotZero` | src/common/crc.h:27 | for every polynomial with an even number of low bits and every k, the zeroblock macro of 2^k zero bytes is not zero |
| `CrcEngine.SquareDoubles` | src/common/crc.cc:157-167 | squaring a matrix that advances the register by n turns gives one that advances it by 2n |
| `CrcEngine.ApplyIsAdvance` | src/common/crc.cc:157-167 | summing the columns selected by the bits of a word is the advance of that word |
| `CrcEngine.MatrixSquare` | src/common/crc.cc:157-167 | the in-place squaring loop produces the doubled matrix |
| `CrcEngine.FeedWord` | src/common/crc.cc:118-122 | adding up to four bytes as one word and advancing is feeding them one by one |
| `CrcEngine.Crc.constructor` | src/common/crc.cc:226-229 | after initialization both table families are correct for the polynomial |
| `CrcEngine.Crc.GenerateMainTables` | src/common/crc.cc:71-111 | entry i of table k is byte i advanced over k + 1 zero bytes |
| `CrcEngine.Crc.GenerateCombineTables` | src/common/crc.cc:169-205 | row i of the combine tables advances by 2^i zero bytes, for all 32 rows |
| `CrcEngine.Crc.FillRow` | src/common/crc.cc:189-203 | one row of combine tables is filled from its matrix and the other rows stay |
| `CrcEngine.Crc.FourBytes` | src/common/crc.cc:118-122 | the four-table word step equals four byte steps |
| `CrcEngine.Crc.Crc32` | src/common/crc.cc:113-151 | for every start value, alignment and length the prefix, unrolled, word and tail loops give the bit-serial CRC-32 |
| `CrcEngine.Crc.Combine` | src/common/crc.cc:207-224 | the table-driven combination loop gives the advance of the first checksum by the length, for every length below 2^32, plus the second |
| `ChunkLayout.GetPut32` | src/common/datapack.h:39-72 | storing a 32-bit word big-endian and loading it gives it back |
| `ChunkLayout.CombineCrcIsConcat` | src/common/crc.cc:207-224 | with the polynomial of the protocol, combination is concatenation |
| `ChunkLayout.EmptyBlockCrcNotZero` | src/chunkserver/hddspacemgr.cc:4025-4027 | the checksum of an empty block is not zero |
| `BlockImage.InterleavedVerdict` | src/chunkserver/hddspacemgr.cc:1556-1596 | when a stored interleaved checksum is accepted: it matches, or both field and block are zero |
| `BlockImage.GrowConsistent` | src/chunkserver/hddspacemgr.cc:2490-2505 | extending the file and filling the new checksums with that of an empty block keeps every block consistent |
| `BlockImage.GrownBacked` | src/chunkserver/hddspacemgr.cc:2490-2505 | the same for a file that is too long for its header already: the blocks with a slot keep their checksums, and the array is zero-extended |
| `BlockImage.RewriteConsistent` | src/chunkserver/hddspacemgr.cc:1831-1887 | overwriting part of a block together with a checksum that matches keeps every block consistent |
| `BlockImage.CutBlocks` | src/chunkserver/hddspacemgr.cc:2506-2530 | the one or two truncations of a shrink leave the full blocks alone and zero the rest of a partial last one |
| `BlockImage.ShrinkConsistent` | src/chunkserver/hddspacemgr.cc:2506-2582 | a shrink with the last checksum recomputed leaves every block consistent |
| `BlockImage.ShrinkBacked` | src/chunkserver/hddspacemgr.cc:2506-2582 | the same for a file that is too long for its header already |
| `BlockImage.FlushCrcs` | src/chunkserver/hddspacemgr.cc:1287-1308 | writing the table back makes the table on disk equal to the one in memory without touching the blocks |
| `BlockImage.ReloadConsistent` | src/chunkserver/hddspacemgr.cc:1228-1285 | a table read back from disk has the checksum of every block with a slot, and of all blocks exactly when every block without a slot has checksum zero |
| `BlockImage.SlotlessIffTooLong` | src/chunkserver/hddspacemgr.cc:2452-2589 | a file with zeros behind its slots, as every operation keeps it, loses no checksum exactly when it fits its header |
| `BlockImage.CombineInBlock` | src/chunkserver/hddspacemgr.cc:1944-1999 | the checksum combined from the parts before, inside and behind a write is the checksum of the patched block |
| `BlockImage.CombineInZeros` | src/chunkserver/hddspacemgr.cc:1973-1999 | the same for a write into a block that does not exist yet |
| `BlockImage.TargetConsistent` | src/chunkserver/hddspacemgr.cc:2685-2923 | the copy made by duplicate-and-truncate is consistent for any original and any length that fits |
| `BlockImage.CopyBacked` | src/chunkserver/hddspacemgr.cc:2685-2923 | for any original and any length, a long one too, the copy has the checksum of every block with a slot |
| `BlockStore.Chunk.Create` | src/chunkserver/hddspacemgr.cc:2078-2134 | a new chunk is valid and stands for the all-zero array; the answer is an I/O error exactly when a file call failed |
| `BlockStore.Chunk.IoBegin` | src/chunkserver/hddspacemgr.cc:1310-1376 | opening keeps the bytes and every checksum with a slot; a cached table is kept, and a table loaded again is right exactly when no checksum without a slot was lost |
| `BlockStore.Chunk.ReadCrcs` | src/chunkserver/hddspacemgr.cc:1228-1285 | the loaded table is the one on disk, and zero where the header has no slot |
| `BlockStore.Chunk.IoEnd` | src/chunkserver/hddspacemgr.cc:1378-1432 | closing writes a changed table back first, so an idle chunk has table and disk equal |
| `BlockStore.Chunk.Evict` | src/chunkserver/indexed_resource_pool.h:151-162 | an idle descriptor can be dropped with its table: what is on disk stays right as far as it goes |
| `BlockStore.Chunk.ReadCrcAndBlock` | src/chunkserver/hddspacemgr.cc:1525-1608 | an accepted block has the right bytes and checksum; the only damaged block accepted is an interleaved one with a zero checksum field |
| `BlockStore.Chunk.Read` | src/chunkserver/hddspacemgr.cc:1662-1727 | status of every request, the 32-bit size check included; an I/O error exactly when a file call failed; an OK read returns the bytes of the array, and for a block with a slot their checksum; a size that makes the sum wrap passes the check and runs past the block |
| `BlockStore.Chunk.WritePartial` | src/chunkserver/hddspacemgr.cc:1831-1887 | data and checksum are written to the block, the checksum to the table or to the file by format |
| `BlockStore.Chunk.Write` | src/chunkserver/hddspacemgr.cc:1899-2009 | status of every request, an I/O error exactly when a file call failed; an OK write replaces exactly the written range of the array, zero-fills skipped blocks and keeps the chunk, valid or too long for its header, as it was |
| `BlockStore.Chunk.Truncate` | src/chunkserver/hddspacemgr.cc:2440-2589 | for every chunk, one too long for its header included: an OK truncate cuts or zero-extends the array at the length, and the chunk is valid, and outlives the loss of its table, exactly when the new block count fits the header of its part type; an I/O error exactly when a file call failed |
| `BlockStore.Chunk.Shrink` | src/chunkserver/hddspacemgr.cc:2506-2582 | shrinking cuts the array and recomputes the last checksum |
| `BlockStore.Chunk.Grow` | src/chunkserver/hddspacemgr.cc:2490-2505 | growing zero-extends the array |
| `BlockStore.Chunk.OverwriteVersion` | src/chunkserver/hddspacemgr.cc:2058-2076 | a new version changes no byte of the array |
| `BlockStore.Chunk.DupTrunc` | src/chunkserver/hddspacemgr.cc:2591-2923 | for every original, one too long for its header included: the copy stands for the original cut and zero-extended at the length, the original is unchanged, and the copy has all its checksums exactly when it fits its header; an I/O error exactly when a file call failed |
| `BlockStore.Chunk.CopyOf` | src/chunkserver/hddspacemgr.cc:2643-2923 | the new chunk of a duplicate, filled and closed, stands for the cut of the original |
| `BlockStore.CopyMeaning` | src/chunkserver/hddspacemgr.cc:2591-2923 | what the copied file stands for, and that its table is right exactly when the block count fits |
| `BlockStore.ShrunkTail` | src/chunkserver/hddspacemgr.cc:2506-2582 | after a shrink the entries behind the slots are the old ones for blocks left whole, and that of an empty block for the last one |
| `StoreRuns.Serve` | src/chunkserver/hddspacemgr.cc:1662-2923 | after any sequence of creations, reads, writes, truncates and duplicates to any length, and reopenings, every chunk made on the way stands for the byte array that the accepted requests describe, with its layout, version, block count and lost checksums; every request was answered by its verdict, or by an I/O error exactly when a file call failed, and every OK read returned the array at its time with its checksum |
| `StoreRuns.ServeOne` | src/chunkserver/hddspacemgr.cc:1662-2923 | one request takes its chunk, and the copy if it makes one, to the next arrays and leaves the other chunks alone |
| `StoreRuns.ServeOn` | src/chunkserver/hddspacemgr.cc:1662-2589 | a read, write, truncate or reopening of one chunk is answered by its verdict and takes the array to the next one |
| `StoreRuns.Duplicate` | src/chunkserver/hddspacemgr.cc:2591-2923 | a duplicate leaves the original standing for its array and makes a chunk that stands for the cut of it |
| `StoreRuns.Create` | src/chunkserver/hddspacemgr.cc:2078-2134 | a new chunk stands for zeros; the answer is an I/O error exactly when a file call failed |
| `StoreRuns.Reopen` | src/chunkserver/hddspacemgr.cc:1310-1432 | closing, losing the descriptor or not, and opening again leaves the bytes; the table is the same one or the one in the header |
| `StoreRuns.IntactIffNotLost` | src/chunkserver/hddspacemgr.cc:1228-1285 | the blocks of a chunk in a run whose checksum does not match are exactly those without a slot that were there when the table was last loaded and have not been cut since |
| `StoreRuns.TruncatedTail` | src/chunkserver/hddspacemgr.cc:2490-2582 | how a truncate changes which checksums are lost |
| `StoreRuns.FitsCanFail` | src/chunkserver/hddspacemgr.cc:2452-2491 | the checks let a truncate and a duplicate of a part of a two-part slice to a whole chunk through, and block 512 of the result cannot be read |
| `StoreRuns.PartLengthFits` | src/common/slice_traits.h:332-349 | the length of any part of a chunk of any allowed length, as the master asks for it, fits the header of that part |
| `StoreRuns.FittingRun` | src/chunkserver/hddspacemgr.cc:2452-2491 | in a run in which every truncate and duplicate is to a length that fits, no checksum is ever lost, so no read is answered by a checksum error |
| `StoreRuns.FittingChunk` | src/chunkserver/hddspacemgr.cc:2452-2491 | and every chunk of such a run is valid |
| `StoreRuns.UnfitTruncate` | src/chunkserver/hddspacemgr.cc:2452-2491 | for every closed chunk and every length that does not fit: after a truncate to it and a reload of the table, every block behind the slots is refused with a checksum error, unless a file call failed |
| `StoreRuns.UnfitCopy` | src/chunkserver/hddspacemgr.cc:2591-2923 | a copy of any chunk to a length that does not fit has these blocks refused at once |
| `StoreRuns.DamagedBlock` | src/chunkserver/hddspacemgr.cc:1562-1590 | an interleaved block whose checksum field was lost to zeros is returned as good with a checksum that is not its own |
| `StoreRuns.LongRangePasses` | src/chunkserver/hddspacemgr.cc:1669-1672 | a range of 2^32 - 1 bytes passes the size check |
| `StoreRuns.PiecesNeverWrap` | src/chunkserver/network_worker_thread.cc:347-351 | the pieces that an accepted read request is cut into all pass the size check and lie inside one block |
| `ChunkLocking.StepKeeps` | src/chunkserver/hddspacemgr.cc:568-805 | every locking step keeps the invariant when folder removal spares chunks with waiters |
| `ChunkLocking.StepKeepsIff` | src/chunkserver/hddspacemgr.cc:943-984 | a step keeps the invariant exactly when it is not the removal of an available chunk that has waiters |
| `ChunkLocking.UnguardedBreaks` | src/chunkserver/hddspacemgr.cc:969-984 | removing such a chunk breaks it |
| `ChunkLocking.RunSafe` | src/chunkserver/hddspacemgr.cc:568-805 | in every interleaving with spurious wake-ups: one holder per key, waiter counts exact, condition variables point at the registered chunk also across recreation, an available or deleted chunk with waiters has a signalled one, deleted chunks have waiters |
| `ChunkLocking.RunKeeps` | src/chunkserver/hddspacemgr.cc:568-805 | the invariant holds in every state of every run |
| `ChunkLocking.RecreateKeeps` | src/chunkserver/hddspacemgr.cc:660-698 | recreating a chunk moves its waiters to the new object |
| `ChunkLocking.UnwaitKeeps` | src/chunkserver/hddspacemgr.cc:773-783 | leaving a wait re-reads the chunk and detaches an empty condition variable |
| `ChunkLocking.GetLoopKeeps` | src/chunkserver/hddspacemgr.cc:723-784 | one pass of the state switch keeps the invariant |
| `ChunkLocking.ReleaseKeeps` | src/chunkserver/hddspacemgr.cc:591-611 | releasing hands the chunk to a waiter, or deletes it |
| `ChunkLocking.GuardCanFail` | src/chunkserver/hddspacemgr.cc:943-984 | the unguarded removal can be reached from the start in three steps |
| `WriteChain.Connection.FinishWrite` | src/chunkserver/network_worker_thread.cc:509-546 | the in-place handler of a finished disk job takes the connection to the state the protocol prescribes |
| `WriteChain.Connection.ReceiveStatus` | src/chunkserver/network_worker_thread.cc:701-753 | the same for a status from the next server |
| `WriteChain.Connection.EndWrite` | src/chunkserver/network_worker_thread.cc:755-796 | a write end is accepted exactly when no job, half-completed write or queued status is left; the connection is idle then, and finishing otherwise |
| `WriteChain.FinishedOk` | src/chunkserver/network_worker_thread.cc:509-546 | finishing a job keeps the acknowledgement rule of its server |
| `WriteChain.StatusOk` | src/chunkserver/network_worker_thread.cc:701-753 | receiving a status keeps it, when the write was not acknowledged before |
| `WriteChain.StepKeeps` | src/chunkserver/network_worker_thread.cc:509-796 | every event of a chain of any length keeps the chain invariant |
| `WriteChain.AcknowledgedIsDone` | src/chunkserver/network_worker_thread.cc:509-546 | what a server acknowledged is done on its disk and on every disk behind it |
| `WriteChain.RunSafe` | src/chunkserver/network_worker_thread.cc:509-753 | in every run the half-completed set is the symmetric difference of local and downstream completions, and the client gets at most one OK per write, only for writes done on every server |
| `WriteChain.RunComplete` | src/chunkserver/network_worker_thread.cc:509-753 | once nothing is in flight and nothing failed, the client has an OK exactly for what every server has done |
| `WriteChain.EndIsComplete` | src/chunkserver/network_worker_thread.cc:755-796 | in every run, when the first server has become idle by an accepted write end, all it received is on every disk |
| `WriteChain.LiveSafe` | src/chunkserver/network_worker_thread.cc:509-796 | the same for the chain after any list of events, those that cannot happen left out |
| `WriteChain.Live` | src/chunkserver/network_worker_thread.cc:509-796 | a chain of connection entries, updated in place by any list of events, is in the state the protocol prescribes: at most one OK per write at the client, only for writes done everywhere, and an ended session is on every disk |
| `Forwarding.Forwarder.constructor` | src/chunkserver/network_worker_thread.cc:613-622 | write initialization queues the init packet for the next server |
| `Forwarding.Forwarder.WriteInitPacket` | src/chunkserver/network_worker_thread.cc:1236-1266 | the init packet goes out in order before anything else |
| `Forwarding.Forwarder.ReadHeader` | src/chunkserver/network_worker_thread.cc:1271-1315 | how a header is completed, and when it leaves a state in which only due bytes can follow |
| `Forwarding.Forwarder.ReadPayload` | src/chunkserver/network_worker_thread.cc:1316-1334 | received payload is queued for the next server exactly once |
| `Forwarding.Forwarder.WriteOn` | src/chunkserver/network_worker_thread.cc:1335-1353 | what is written on continues what was due |
| `Forwarding.Forwarder.Forward` | src/chunkserver/network_worker_thread.cc:1268-1380 | under any split of reads and writes the bytes sent are the init packet and an in-order prefix of the passed-on packets, and no packet is handled before it was passed on; this holds after the call exactly when no packet with payload of another type met a left-over pointer |
| `Forwarding.SentIsPrefix` | src/chunkserver/network_worker_thread.cc:1268-1380 | while every packet is one that is passed on, what was sent is a prefix of the init packet and all that was received |
| `Forwarding.Session` | src/chunkserver/network_worker_thread.cc:1236-1380 | under any list of calls the object goes through the states of the step functions, and the session is in order until a packet with payload of another type meets a left-over pointer; in a session of write data and write end packets only, the bytes sent are a prefix of the init packet and the bytes received |
| `Forwarding.ServeCall` | src/chunkserver/network_worker_thread.cc:1101-1380 | one call of the event loop is one step, and leaves the session in order exactly when it does not meet that exception |
| `Forwarding.Forwarder.NextPacket` | src/chunkserver/network_worker_thread.cc:1101-1121 | the packet that waited for a disk job is handled once it has been passed on |
| `Forwarding.LeftoverPointer` | src/chunkserver/network_worker_thread.cc:1101-1121 | the exception can be met: such a packet after a write that had to wait makes the server send a byte that is not due |
| `ReadPipeline.PieceIsBlockShare` | src/chunkserver/network_worker_thread.cc:347-351 | piece k of a range is what the range has in common with the k-th block it touches |
| `ReadPipeline.PiecesCount` | src/chunkserver/network_worker_thread.cc:347-353 | there are as many pieces as touched blocks |
| `ReadPipeline.Reader.Continue` | src/chunkserver/network_worker_thread.cc:333-389 | the in-place continuation step |
| `ReadPipeline.Reader.Finished` | src/chunkserver/network_worker_thread.cc:297-323 | the in-place handler of a finished disk read |
| `ReadPipeline.Reader.SendOne` | src/chunkserver/network_worker_thread.cc:325-331 | the in-place handler of a sent packet |
| `ReadPipeline.Reader.Init` | src/chunkserver/network_worker_thread.cc:402-467 | the in-place handler of a read request, with its instant replies |
| `ReadPipeline.StepKeeps` | src/chunkserver/network_worker_thread.cc:297-389 | every disk or network event keeps the session invariant: one piece in the making, at most one queued, the counter exact |
| `ReadPipeline.RunServes` | src/chunkserver/network_worker_thread.cc:297-467 | in every order of events the reply is the pieces of the range in order, each after its disk read, and then one OK; or a proper prefix and then one error |
| `ReadPipeline.Serve` | src/chunkserver/network_worker_thread.cc:297-467 | the same for a connection entry updated in place: it goes through the states of the step functions, and every piece queued was read from disk first |
| `ReadPipeline.FinalIsLast` | src/chunkserver/network_worker_thread.cc:333-353 | the final status is the last packet to leave |
| `ReadPipeline.SafeIffQueueEmpty` | src/chunkserver/network_worker_thread.cc:969-974 | a request is served safely under every schedule exactly when it finds the output queue empty |
| `Descriptors.StepKeeps` | src/chunkserver/open_chunk.h:47-100 | every step of opening, using, deleting and evicting keeps descriptor ownership |
| `Descriptors.DestroyOutside` | src/chunkserver/open_chunk.h:57-72 | destroying a moved entry closes its descriptor, once |
| `Descriptors.EvictOutside` | src/chunkserver/indexed_resource_pool.h:144-163 | an evicted entry takes its descriptor from slot to batch |
| `Descriptors.AcquirePool` | src/chunkserver/indexed_resource_pool.h:82-90 | storing a new descriptor keeps every slot with its chunk and out of the idle list |
| `Descriptors.AcquireOutside` | src/chunkserver/indexed_resource_pool.h:82-90 | storing a new descriptor meets an empty slot and makes the slot its only owner |
| `Descriptors.RemovePool` | src/chunkserver/hddspacemgr.cc:568-589 | erasing a chunk leaves no slot that refers to it |
| `Descriptors.RunSafe` | src/chunkserver/open_chunk.h:36-111 | in every run: no double close, no overwritten live slot, every open descriptor has exactly one owner, no slot refers to an erased chunk, and a chunk in use has its descriptor open and out of reach of eviction |
| `ResourcePool.UnlinkRemoves` | src/chunkserver/indexed_resource_pool.h:189-200 | the four link updates of an erase remove one element of the represented sequence |
| `ResourcePool.LinkAppends` | src/chunkserver/indexed_resource_pool.h:202-207 | the four link updates of an append put one element behind the sequence |
| `ResourcePool.ContainsIff` | src/chunkserver/indexed_resource_pool.h:209-212 | the membership test through the links is membership in the sequence |
| `ResourcePool.OrderIsLru` | src/chunkserver/indexed_resource_pool.h:25-34 | the sequence holds exactly the descriptors whose last operation was a release, in the order of these releases |
| `ResourcePool.Pool.constructor` | src/chunkserver/indexed_resource_pool.h:57-59 | a new pool is empty |
| `ResourcePool.Pool.Erase` | src/chunkserver/indexed_resource_pool.h:189-200 | erasing keeps list, contents and history in step and moves a cursor on the element to its successor |
| `ResourcePool.Pool.PushBack` | src/chunkserver/indexed_resource_pool.h:202-207 | appending keeps them in step |
| `ResourcePool.Pool.Acquire` | src/chunkserver/indexed_resource_pool.h:67-74 | acquiring takes the descriptor out of the list |
| `ResourcePool.Pool.AcquireNew` | src/chunkserver/indexed_resource_pool.h:82-90 | storing a new resource grows the vector where needed and changes no other slot |
| `ResourcePool.Pool.Release` | src/chunkserver/indexed_resource_pool.h:98-107 | releasing moves the descriptor to the back with its time |
| `ResourcePool.Pool.Purge` | src/chunkserver/indexed_resource_pool.h:115-124 | purging moves the resource, cut off from its chunk, to the purge list |
| `ResourcePool.Pool.FreeStep` | src/chunkserver/indexed_resource_pool.h:144-163 | one round of the loop: stop, take or pass, and where the cursor goes |
| `ResourcePool.Pool.Interfere` | src/chunkserver/indexed_resource_pool.h:67-165 | every operation of another thread, rounds of its own clean-up included, takes the pool as callers see it to the prescribed one |
| `ResourcePool.Pool.FreeLoop` | src/chunkserver/indexed_resource_pool.h:144-165 | the loop under any operations between rounds: each round starts where the one before and the others left the pool, and it ends at the first that has to stop |
| `ResourcePool.AllJustifiedNext` | src/chunkserver/indexed_resource_pool.h:156-162 | a round that takes a descriptor takes it at the cursor, unused, old enough and lockable, and removes it |
| `ResourcePool.QuietRun` | src/chunkserver/indexed_resource_pool.h:135-165 | left alone, the rounds take what the walk from the least recently released descriptor takes, and nothing else changes |
| `ResourcePool.Pool.FreeUnused` | src/chunkserver/indexed_resource_pool.h:135-165 | with any operations of other threads between any rounds, each descriptor taken was at the cursor, in the list, old enough and lockable at the start of its round, what is returned was in its slot, and it has left list and slot; no more than asked are taken; left alone it takes exactly those a walk from the least recently released one meets, returns what their slots held, and changes nothing else |
| `LabelMatching.OperationCount` | src/common/chunk_copies_calculator.cc:166-212 | the merging loop computes the counts defined on bags of labels |
| `LabelMatching.CountsAreLeast` | src/common/chunk_copies_calculator.cc:166-212 | no copies made and deleted that reach the goal are fewer than the counts |
| `LabelMatching.CountsSuffice` | src/common/chunk_copies_calculator.cc:166-212 | some copies made and deleted in these numbers reach the goal |
| `LabelMatching.NothingLeft` | src/common/chunk_copies_calculator.cc:166-212 | both counts are zero exactly when the goal is met |
| `LabelMatching.LabelsToRecover` | src/common/chunk_copies_calculator.cc:407-463 | the listed labels are the missing named copies and the wildcards nobody fills |
| `LabelMatching.RecoverSize` | src/common/chunk_copies_calculator.cc:407-463 | they add up to the first count |
| `LabelMatching.RecoverStep` | src/common/chunk_copies_calculator.cc:407-463 | making any listed copy, or any copy for a wildcard, lowers the first count by one and leaves the second |
| `LabelMatching.RemovePool` | src/common/chunk_copies_calculator.cc:465-514 | the pool has each surplus label once, and is empty when the wildcards take all surplus |
| `LabelMatching.PoolNonEmpty` | src/common/chunk_copies_calculator.cc:509-513 | the pool is non-empty exactly when there is something to delete |
| `LabelMatching.RemoveStep` | src/common/chunk_copies_calculator.cc:465-514 | deleting any copy of the pool lowers the second count by one and leaves the first |
| `LabelMatching.RepairEnds` | src/common/chunk_copies_calculator.cc:166-514 | a repair run meets the goal after exactly the sum of both counts, can be no longer, and before that can always go on |
| `LabelMatching.RepairGoesOn` | src/common/chunk_copies_calculator.cc:407-514 | short of the goal some listed copy can be made or some copy of the pool deleted |
| `ChunkCopies.LevelReadable` | src/common/chunk_copies_calculator.cc:214-249 | the level is not negative exactly when some slice has enough different parts to give the data back |
| `ChunkCopies.LossStep` | src/common/chunk_copies_calculator.cc:214-249 | losing one copy lowers the level by at most one |
| `ChunkCopies.SurvivesLosses` | src/common/chunk_copies_calculator.h:83-95 | a chunk of level L can be read after any L losses |
| `ChunkCopies.EvalSlice` | src/common/chunk_copies_calculator.cc:234-249 | the loop over parts computes the slice level, in terms of the copies as bags: one less than their number, or the parts that have one less the data parts |
| `ChunkCopies.CopiesAreBags` | src/common/chunk_copies_calculator.cc:234-249 | counting the labels of sorted parts counts their copies |
| `ChunkCopies.RemovableIsSafe` | src/common/chunk_copies_calculator.cc:286-383 | a copy that may go leaves level 1 at least exactly when other slices are enough or its slice stays safe; otherwise the target wants a single copy |
| `ChunkCopies.SingleCopyCanEndanger` | src/common/chunk_copies_calculator.cc:300-305 | that exception is met: one of two copies may go when the target wants one, and level 0 is left |
| `ChunkCopies.RefusalReason` | src/common/chunk_copies_calculator.cc:317-383 | a copy of an available slice of a safe chunk is refused only if its loss would bring the level below 1, or two endangered slices are all there is |
| `ChunkCopies.Calculator.RemovePart` | src/common/chunk_copies_calculator.cc:46-63 | removing a part takes exactly one copy of that label out of the bag of that part and leaves everything else |
| `ChunkCopies.RemoveLabelBag` | src/common/chunk_copies_calculator.cc:53-62 | counting an entry down, and dropping it at zero, takes one copy out of the bag and keeps the list sorted |
| `ChunkCopies.Calculator.EvalRedundancyLevel` | src/common/chunk_copies_calculator.cc:214-222 | the evaluation stores the level of every slice and of the chunk |
| `ChunkCopies.Calculator.UpdateRedundancyLevel` | src/common/chunk_copies_calculator.cc:264-271 | after a change to one slice the update equals a new evaluation exactly when that slice had been evaluated before, and is one too low otherwise |
| `ChunkCopies.NewSliceOffByOne` | src/common/chunk_copies_calculator.cc:264-271 | a chunk that was evaluated and then gained an xor slice has a level that is off by one after the update |
| `ChunkCopies.Calculator.CountStates` | src/common/chunk_copies_calculator.cc:333-351 | the loop over stored levels counts safe and endangered slices |
| `ChunkCopies.Calculator.CanRemovePart` | src/common/chunk_copies_calculator.cc:286-383 | the answer, for every chunk and target |
| `Striping.Stripe` | utils/chunk_converter.cc:196-225 | block b goes to part b mod d, the parity part gets the xor of each stripe also when the last one is short, and too long a chunk is refused |
| `Striping.XorShort` | utils/chunk_converter.cc:222-225 | a short last stripe has the xor of the zero-padded one |
| `StripeReading.StripedReads` | utils/chunk_converter.cc:196-225 | the parts the striping loop makes are fit for reading |
| `StripeReading.GetRequiredParts` | src/common/chunk_read_planner.h:182-206 | the selected parts are those of the blocks asked for, in order, wrapping around |
| `StripeReading.ReadParts` | src/common/slice_read_plan.h:94-105 | the read buffer holds the blocks of the selected parts, zero-padded |
| `StripeReading.ConvertBlocks` | src/common/chunk_read_planner.h:41-58 | the converter picks the asked chunk blocks out of the buffer |
| `StripeReading.ReadChunk` | src/common/chunk_read_planner.h:86-162 | for every range, level and chunk, selection, reading and conversion give exactly the chunk blocks |
| `StripeReading.ConvertPart` | src/chunkserver/slice_recovery_planner.h:46-55 | every d-th chunk block is a block of the data part |
| `StripeReading.RecoverParity` | src/common/xor_read_plan.h:39-54 | xoring stripes of chunk blocks gives the parity part |
| `StripeReading.RecoverPart` | src/chunkserver/slice_recovery_planner.h:85-204 | any part of an xor slice of one level is rebuilt from a slice of any other, exactly as the striping loop lays it out |
| `StripeReading.MissingBlock` | src/common/xor_read_plan.h:97-123 | the other blocks of a stripe, in any order, xor to the missing one |
| `StripeReading.RecoverMissing` | src/common/xor_read_plan.h:77-126 | the recovery loop rebuilds the missing part from parts read in any order and of different lengths |
| `StripeReading.Rebuild` | src/common/xor_read_plan.h:77-126 | reading all parts but one, each as far as it goes, rebuilds any range of that one |
| `StripeReading.ReadDegraded` | src/common/chunk_read_planner.h:86-162 | any d of the d + 1 parts of an xor slice, read in any order, give exactly the chunk blocks, for every range and chunk |
| `FolderChoice.FloorBelowMax` | src/chunkserver/hddspacemgr.cc:911-922 | the floor of a round is below the greatest free ratio, except when that is exactly 0.01 |
| `FolderChoice.WeightRange` | src/chunkserver/hddspacemgr.cc:928-931 | weights are between 0 and 1 |
| `FolderChoice.SomeoneCanPay` | src/chunkserver/hddspacemgr.cc:924-940 | after a round some disk can be chosen, exactly unless the greatest free ratio is 0.01 |
| `FolderChoice.Folders.constructor` | src/chunkserver/hddspacemgr.cc:3881 | a disk starts with a carry between 0 and 1 |
| `FolderChoice.Folders.GetFolder` | src/chunkserver/hddspacemgr.cc:876-941 | who is chosen and pays, when a round is made, when nobody is chosen, and that carries stay in [0, 2) and balance |
| `FolderChoice.NeverChosen` | src/chunkserver/hddspacemgr.cc:911-922 | with one disk that has 1 of 100 units free and carry 0, no folder is ever found |
| `FolderChoice.Folders.FairShare` | src/chunkserver/hddspacemgr.cc:876-941 | in every run the picks of a disk differ from rounds times weight by less than 2 |
| `ChunkFilename.ParsePrint` | src/chunkserver/chunk.cc:49-72 | parsing the name of any standard, xor or erasure-code part, id, version and format gives it back |
| `ChunkFilename.PrintParse` | src/chunkserver/hddspacemgr.cc:3189 | an accepted name is valid and is printed back character for character exactly when it does not use the older prefix and its erasure-code numbers fit into an int |
| `ChunkFilename.WideNumberIsAccepted` | src/chunkserver/chunk_filename_parser.cc:56-67 | a number larger by a multiple of 2^32 is accepted as another name of the same part |
| `ChunkFilename.ParseAborts` | src/chunkserver/chunk_filename_parser.cc:40-96 | a name runs into the assertion on part numbers exactly when it has the form of an erasure-code part with allowed counts and its part number, as a 32-bit int, is not positive |
| `ChunkFilename.WideNumberAborts` | src/chunkserver/chunk_filename_parser.cc:46-95 | part number 2^32 of any slice is such a number |
| `ChunkFilename.FilenameParser.ConsumeText` | src/common/parser.cc:41-52 | a string is consumed exactly when the rest begins with it |
| `ChunkFilename.FilenameParser.ConsumeRun` | src/common/parser.cc:54-69 | the longest run of a character class is consumed; running into the end is an error |
| `ChunkFilename.FilenameParser.EcType` | src/chunkserver/chunk_filename_parser.cc:40-96 | the cursor form of the erasure-code part of a name |
| `ChunkFilename.FilenameParser.XorType` | src/chunkserver/chunk_filename_parser.cc:98-163 | the cursor form of the xor part of a name |
| `ChunkFilename.FilenameParser.Type` | src/chunkserver/chunk_filename_parser.cc:165-188 | the cursor form of the type of a name |
| `ChunkFilename.FilenameParser.ParseAll` | src/chunkserver/chunk_filename_parser.cc:190-241 | the cursor parser computes the parse that the round trips are about |
| `AccessControl.LookupIsMap` | src/common/access_control_list.h:260-286 | a named entry is found exactly when the represented map has it, with its rights |
| `AccessControl.InsertIsUpdate` | src/common/access_control_list.h:187-205 | setting a named entry updates the map, unless a full list would have to grow |
| `AccessControl.EraseIsRemove` | src/common/access_control_list.h:228-237 | removing a named entry removes it from the map |
| `AccessControl.NibbleLaws` | src/common/access_control_list.h:385-409 | a packed right that was set is found, and the others stay |
| `AccessControl.BasicSetGet` | src/common/access_control_list.h:206-252 | setting and removing owner, group, other and mask rights |
| `AccessControl.SetEntryKeeps` | src/common/access_control_list.h:187-221 | setting keeps the list valid |
| `AccessControl.RemoveEntryKeeps` | src/common/access_control_list.h:228-253 | removing keeps the list valid |
| `AccessControl.AccessControlList.constructor` | src/common/access_control_list.h:94-95 | a new list is empty, without rights and without mask |
| `AccessControl.AccessControlList.Set` | src/common/access_control_list.h:187-221 | the in-place form |
| `AccessControl.AccessControlList.Remove` | src/common/access_control_list.h:228-253 | the in-place form |
| `AccessControl.StandsForNext` | src/common/access_control_list.h:187-253 | a change takes a list that stands for what some changes describe to one that stands for what they and it describe |
| `AccessControl.Edit` | src/common/access_control_list.h:187-253 | after any sequence of settings and removals the list represents exactly the map of named entries and the packed rights that they describe |
| `AclText.TextRoundTrip` | src/common/access_control_list.cc:62-137 | reading the text of a valid list gives the list, except that a named entry with id 0xFFFFFFFF makes it refused |
| `AclText.ReadList` | src/common/access_control_list.cc:77-113 | reading clauses in order appends their entries |
| `AclText.WriteText` | src/common/access_control_list.cc:117-137 | the writing loop |
| `AclText.ReadText` | src/common/access_control_list.cc:62-115 | the reading loop |
| `AclXattr.ExtractStore` | src/common/acl_converter.cc:54-90 | an extracted entry is the stored one |
| `AclXattr.UsersThenGroups` | src/common/acl_converter.cc:137-151 | a sorted list is its users followed by its groups |
| `AclXattr.XattrRoundTrip` | src/common/acl_converter.cc:93-157 | reading the attribute of a valid list gives the list |
| `AclXattr.WriteXattr` | src/common/acl_converter.cc:129-157 | the writing loops |
| `AclXattr.ReadXattr` | src/common/acl_converter.cc:93-127 | the reading loop |

## Left out

- The crcutil library variant and the big-endian variant of the checksum code; the model is the little-endian table code.
- A failed read of the checksum header, after which the program keeps the descriptor cached without its table.
- The signature bytes of the chunk header: writes to them are modelled as not touching table and blocks, their content is not.
- Hole punching, fsync, read-ahead, prefetching, statistics, error reports and logging: effects without a bearing on the byte array.
- `hdd_int_duplicate`, `hdd_int_test`, `hdd_int_version` and `hdd_int_delete`: built from the operations that are modelled, they would add easier members.
- Folder scanning, migration and the order of `folderlock` with the registry lock; deadlock freedom and liveness.
- BlockStore.Chunk.DupTrunc: on an I/O error it says nothing about the original or the copy, as the program gives up both.
- BlockStore.Chunk.Truncate: on an I/O error it says nothing about the chunk, which the program reports as damaged.
- StoreRuns.Serve: a run ends at the first I/O error, after which the program reports the chunk as damaged.
- BlockStore.Chunk.Create: the answers for a full disk and for an id in use are not modelled, as there are no folders and ids here; `FolderChoice` has the choice of a folder.
- StoreRuns.Create: the same.
- ChunkFilename.ParseAborts: part number 2^31, whose decrement overflows an `int`, is taken to stay negative.
- WriteChain.Connection.EndWrite: a malformed or misdirected write end is not modelled.
- Packet layouts and serialization of the network protocol, except for the packet header that forwarding looks at.
- The job pool behind disk jobs: a job ends once with a status.
- Descriptors.StepKeeps: closing a descriptor and clearing it in its locked chunk are one step.
- ChunkCopiesCalculator::optimize and the assignment optimizer, and the count of full copies.
- LabelMatching.LabelsToRecover: counts are unbounded, while the program stores 16-bit counts; the cases where one side has no such slice only copy the other side.
- Erasure-code arithmetic: parts of erasure-code slices are laid out and read like those of xor slices, but their parity is not computed.
- StripeReading.ReadChunk: the order of read waves and the choice between slices by score; a part is delivered as its file has it.
- FolderChoice.Folders.GetFolder: ratios and carries are reals, so rounding is not modelled; disk sizes and flags are fixed.
- Directory names of chunk files and tape parts.
- AclText.ReadText: a 64-bit `long` is assumed for ids.
- AccessControl.AccessControlList.Set: rights above 7 and unknown entry types, which the program asserts against; effective rights of a user and the mode bits.
