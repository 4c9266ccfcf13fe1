/**
 Serving a READ request: the range is cut at block boundaries, and while one piece is being
 read from disk the piece before it is being sent. `todo` (`todocnt`) counts the disk job and
 the queued packets that have to finish before the next piece is started.
 */
module ReadPipeline {
  import opened Wrappers
  import opened ChunkLayout

  datatype Status = Ok | WrongSize | WrongOffset | ReadError

  /** What can stand in the output queue; `filled` says that the disk job behind a piece is done. */
  datatype Packet =
    | Piece(offset: nat, size: nat, filled: bool)
    | Final(status: Status)
    | Reply

  datatype Mode = Idle | Read | Close | Abort

  /** `log` records what has been attached to the output queue since the request arrived. */
  datatype State = State(
    mode: Mode, offset: nat, size: nat, rpacket: Option<Packet>, job: bool, todo: nat,
    isOpen: bool, output: seq<Packet>, log: seq<Packet>)

  const TODO_LIMIT := 256

  // ----- The pieces of a range.

  function Min(a: nat, b: nat): nat {
    if a < b then a else b
  }

  function PartSize(offset: nat, size: nat): nat {
    Min(size, BLOCK_SIZE - offset % BLOCK_SIZE)
  }

  function Pieces(offset: nat, size: nat): seq<Packet>
    decreases size
  {
    if size == 0 then []
    else
      var part := PartSize(offset, size);
      [Piece(offset, part, true)] + Pieces(offset + part, size - part)
  }

  function Max(a: nat, b: nat): nat {
    if a < b then b else a
  }

  /** A part that does not finish the range ends at the end of its block. */
  lemma NextBlock(offset: nat, size: nat)
    requires PartSize(offset, size) < size
    ensures offset + PartSize(offset, size) == (offset / BLOCK_SIZE + 1) * BLOCK_SIZE
    ensures (offset + PartSize(offset, size)) / BLOCK_SIZE == offset / BLOCK_SIZE + 1
  {
  }

  /** Piece `k` is what the range has in common with the k-th block it touches. */
  lemma {:induction false} PieceIsBlockShare(offset: nat, size: nat, k: nat)
    requires k < |Pieces(offset, size)|
    ensures var block := offset / BLOCK_SIZE + k;
            var from := Max(offset, block * BLOCK_SIZE);
            var to := Min(offset + size, (block + 1) * BLOCK_SIZE);
            from < to && Pieces(offset, size)[k] == Piece(from, to - from, true)
    decreases k
  {
    if k > 0 {
      var part := PartSize(offset, size);
      assert Pieces(offset, size)[k] == Pieces(offset + part, size - part)[k - 1];
      NextBlock(offset, size);
      PieceIsBlockShare(offset + part, size - part, k - 1);
    }
  }

  /** There are as many pieces as blocks are touched. */
  lemma {:induction false} PiecesCount(offset: nat, size: nat)
    ensures |Pieces(offset, size)| == if size == 0 then 0 else (offset + size - 1) / BLOCK_SIZE - offset / BLOCK_SIZE + 1
    decreases size
  {
    if size > 0 {
      var part := PartSize(offset, size);
      PiecesCount(offset + part, size - part);
    }
  }

  // ----- The handlers.

  function Attach(s: State, p: Packet): State {
    s.(output := s.output + [p], log := s.log + [p])
  }

  function Dec(todo: nat): nat {
    if todo == 0 then TODO_LIMIT - 1 else todo - 1
  }

  function Inc(todo: nat): nat {
    if todo + 1 < TODO_LIMIT then todo + 1 else 0
  }

  /** `worker_read_continue`; `starts` says whether buffer and job could be had. */
  function ReadContinue(s: State, starts: bool): State {
    var t := if s.rpacket.Some? then Attach(s, s.rpacket.value).(rpacket := None, todo := Inc(s.todo)) else s;
    if t.size == 0 then
      var u := Attach(t, Final(Ok));
      if t.isOpen then u.(isOpen := false, mode := Idle) else u.(mode := Abort)
    else if !starts then t.(mode := Close)
    else
      var part := PartSize(t.offset, t.size);
      t.(rpacket := Some(Piece(t.offset, part, false)), job := true, todo := Inc(t.todo),
         offset := t.offset + part, size := t.size - part)
  }

  function Fill(p: Option<Packet>): Option<Packet> {
    if p.Some? && p.value.Piece? then Some(p.value.(filled := true)) else p
  }

  /** `worker_read_finished` */
  function ReadFinished(s: State, ok: bool, starts: bool): State {
    if ok then
      var t := s.(job := false, rpacket := Fill(s.rpacket), todo := Dec(s.todo), isOpen := true);
      if t.todo == 0 then ReadContinue(t, starts) else t
    else
      Attach(s.(job := false, rpacket := None), Final(ReadError)).(isOpen := false, mode := Idle)
  }

  /** `worker_write` has sent one packet; `worker_send_finished` follows while reading. */
  function PacketSent(s: State, starts: bool): State
    requires |s.output| > 0
  {
    var t := s.(output := s.output[1..]);
    if t.mode != Read then t
    else
      var u := t.(todo := Dec(t.todo));
      if u.todo == 0 then ReadContinue(u, starts) else u
  }

  /** The checks of `worker_read_init`, in its order. */
  function Instant(offset: nat, size: nat): Option<Status> {
    if size == 0 then Some(Ok)
    else if size > CHUNK_SIZE then Some(WrongSize)
    else if offset >= CHUNK_SIZE || offset + size > CHUNK_SIZE then Some(WrongOffset)
    else None
  }

  /** `worker_read_init` */
  function ReadInit(s: State, offset: nat, size: nat, starts: bool): State {
    var t := s.(offset := offset, size := size, log := []);
    if Instant(offset, size).Some? then Attach(t, Final(Instant(offset, size).value))
    else ReadContinue(t.(mode := Read, todo := 0, job := false), starts)
  }

  /** The handlers as they update a connection entry in place. */
  class Reader {
    var mode: Mode
    var offset: nat
    var size: nat
    var rpacket: Option<Packet>
    var job: bool
    var todocnt: nat
    var chunkisopen: bool
    var output: seq<Packet>
    ghost var log: seq<Packet>

    ghost function Model(): State
      reads this
    {
      State(mode, offset, size, rpacket, job, todocnt, chunkisopen, output, log)
    }

    method AttachPacket(p: Packet)
      modifies this`output, this`log
      ensures Model() == Attach(old(Model()), p)
    {
      output, log := output + [p], log + [p];
    }

    method Continue(starts: bool)
      modifies this
      ensures Model() == ReadContinue(old(Model()), starts)
    {
      if rpacket.Some? {
        AttachPacket(rpacket.value);
        rpacket, todocnt := None, Inc(todocnt);
      }
      if size == 0 {
        AttachPacket(Final(Ok));
        if chunkisopen {
          chunkisopen, mode := false, Idle;
        } else {
          mode := Abort;
        }
      } else if !starts {
        mode := Close;
      } else {
        var part := PartSize(offset, size);
        rpacket, job, todocnt := Some(Piece(offset, part, false)), true, Inc(todocnt);
        offset, size := offset + part, size - part;
      }
    }

    method Finished(ok: bool, starts: bool)
      modifies this
      ensures Model() == ReadFinished(old(Model()), ok, starts)
    {
      job := false;
      if ok {
        rpacket, todocnt, chunkisopen := Fill(rpacket), Dec(todocnt), true;
        if todocnt == 0 {
          Continue(starts);
        }
      } else {
        rpacket := None;
        AttachPacket(Final(ReadError));
        chunkisopen, mode := false, Idle;
      }
    }

    method SendOne(starts: bool)
      requires |output| > 0
      modifies this
      ensures Model() == PacketSent(old(Model()), starts)
    {
      output := output[1..];
      if mode == Read {
        todocnt := Dec(todocnt);
        if todocnt == 0 {
          Continue(starts);
        }
      }
    }

    method Init(from: nat, length: nat, starts: bool)
      modifies this
      ensures Model() == ReadInit(old(Model()), from, length, starts)
    {
      hide ReadContinue;
      offset, size, log := from, length, [];
      if size == 0 {
        AttachPacket(Final(Ok));
      } else if size > CHUNK_SIZE {
        AttachPacket(Final(WrongSize));
      } else if offset >= CHUNK_SIZE || offset + size > CHUNK_SIZE {
        AttachPacket(Final(WrongOffset));
      } else {
        mode, todocnt, job := Read, 0, false;
        Continue(starts);
      }
    }
  }

  // ----- A session: one request and what follows.

  datatype Event = JobEnds(ok: bool, starts: bool) | Sent(starts: bool)

  predicate Enabled(s: State, e: Event) {
    match e
    case JobEnds(_, _) => s.job && s.mode != Close && s.mode != Abort
    case Sent(_) => |s.output| > 0 && s.mode != Close && s.mode != Abort
  }

  function Next(s: State, e: Event): State
    requires Enabled(s, e)
  {
    match e
    case JobEnds(ok, starts) => ReadFinished(s, ok, starts)
    case Sent(starts) => PacketSent(s, starts)
  }

  /** A connection between requests. */
  predicate Ready(s: State) {
    s.mode == Idle && s.rpacket == None && !s.job && !s.isOpen
  }

  // ----- Invariant of a session for the range [start, start + total).

  /** The queue holds the latest packets of the log. */
  predicate Queued(s: State) {
    |s.output| <= |s.log| && s.output == s.log[|s.log| - |s.output|..]
  }

  /** One piece is in the making; before it, everything; after it, what is still to be read. */
  ghost predicate Reading(s: State, start: nat, total: nat) {
    && s.mode == Read && s.rpacket.Some? && s.rpacket.value.Piece?
    && Pieces(start, total) == s.log + [s.rpacket.value.(filled := true)] + Pieces(s.offset, s.size)
    && s.rpacket.value.filled == !s.job
    && (s.rpacket.value.filled || s.log != [] ==> s.isOpen)
    && s.todo == |s.output| + (if s.job then 1 else 0) && 0 < s.todo <= 2 && |s.output| <= 1
  }

  /** Over: nothing pending, the chunk closed, and the log complete with its final status. */
  ghost predicate Over(s: State, start: nat, total: nat) {
    && Ready(s)
    && |s.log| > 0
    && var sent := s.log[..|s.log| - 1];
    match s.log[|s.log| - 1]
    case Final(Ok) => sent == Pieces(start, total)
    case Final(ReadError) => sent < Pieces(start, total)
    case _ => false
  }

  /** Given up: what was attached is still a prefix of what was asked for. */
  ghost predicate Dropped(s: State, start: nat, total: nat) {
    s.mode == Close && s.log < Pieces(start, total)
  }

  ghost predicate Session(s: State, start: nat, total: nat) {
    Queued(s) && (Reading(s, start, total) || Over(s, start, total) || Dropped(s, start, total))
  }

  lemma PiecesNext(offset: nat, size: nat)
    requires size > 0
    ensures var part := PartSize(offset, size);
            Pieces(offset, size) == [Piece(offset, part, true)] + Pieces(offset + part, size - part)
    ensures Pieces(offset, 0) == []
  {
  }

  lemma Reassociate(a: seq<Packet>, p: Packet, b: seq<Packet>)
    ensures a + ([p] + b) == a + [p] + b
  {
  }

  /** A session about to continue: its piece is read and everything before it is sent. */
  ghost predicate CanContinue(s: State, start: nat, total: nat) {
    && s.mode == Read && s.todo == 0 && s.output == [] && !s.job && s.isOpen
    && s.rpacket.Some? && s.rpacket.value.Piece? && s.rpacket.value.filled
    && Pieces(start, total) == s.log + [s.rpacket.value] + Pieces(s.offset, s.size)
  }

  lemma ContinueEnds(s: State, starts: bool, start: nat, total: nat)
    requires CanContinue(s, start, total) && s.size == 0
    ensures Session(ReadContinue(s, starts), start, total)
  {
    assert Pieces(s.offset, 0) == [];
    hide Pieces;
    var t := ReadContinue(s, starts);
    var l := s.log + [s.rpacket.value];
    assert t.log == l + [Final(Ok)] && t.output == [s.rpacket.value, Final(Ok)];
    assert t.log[..|t.log| - 1] == l;
    assert l + [] == l;
  }

  lemma ContinueNext(s: State, start: nat, total: nat)
    requires CanContinue(s, start, total) && s.size > 0
    ensures Session(ReadContinue(s, true), start, total)
  {
    hide Pieces;
    var part := PartSize(s.offset, s.size);
    var l := s.log + [s.rpacket.value];
    PiecesNext(s.offset, s.size);
    Reassociate(l, Piece(s.offset, part, true), Pieces(s.offset + part, s.size - part));
  }

  lemma ContinueDrops(s: State, start: nat, total: nat)
    requires CanContinue(s, start, total) && s.size > 0
    ensures Session(ReadContinue(s, false), start, total)
  {
    hide Pieces;
    PiecesNext(s.offset, s.size);
    var l := s.log + [s.rpacket.value];
    assert l < Pieces(start, total);
  }

  lemma ContinueKeeps(s: State, starts: bool, start: nat, total: nat)
    requires CanContinue(s, start, total)
    ensures Session(ReadContinue(s, starts), start, total)
  {
    hide CanContinue, Session, ReadContinue;
    if s.size == 0 {
      ContinueEnds(s, starts, start, total);
    } else if starts {
      ContinueNext(s, start, total);
    } else {
      ContinueDrops(s, start, total);
    }
  }

  lemma InitStarts(s: State, offset: nat, size: nat, starts: bool)
    requires Ready(s) && s.output == [] && Instant(offset, size).None?
    ensures Session(ReadInit(s, offset, size, starts), offset, size)
  {
    var part := PartSize(offset, size);
    assert Pieces(offset, size) == [] + [Piece(offset, part, true)] + Pieces(offset + part, size - part);
  }

  lemma FailKeeps(s: State, starts: bool, start: nat, total: nat)
    requires Queued(s) && Reading(s, start, total)
    ensures Session(ReadFinished(s, false, starts), start, total)
  {
    hide Pieces;
    var t := ReadFinished(s, false, starts);
    assert t.log == s.log + [Final(ReadError)];
    assert t.log[..|t.log| - 1] == s.log;
    assert s.log < Pieces(start, total);
    QueuedAppend(s, Final(ReadError));
  }

  lemma QueuedAppend(s: State, p: Packet)
    requires Queued(s)
    ensures Queued(Attach(s, p))
  {
  }

  /** The disk was faster: the piece waits until the packet before it is sent. */
  lemma ReadWaits(s: State, starts: bool, start: nat, total: nat)
    requires Queued(s) && Reading(s, start, total) && s.job && s.todo == 2
    ensures Session(ReadFinished(s, true, starts), start, total)
  {
    hide Pieces, ReadContinue;
    var t := ReadFinished(s, true, starts);
    assert t == s.(job := false, rpacket := Fill(s.rpacket), todo := 1, isOpen := true);
  }

  /** The network was faster: the piece goes out and the next one is started. */
  lemma ReadContinues(s: State, starts: bool, start: nat, total: nat)
    requires Reading(s, start, total) && s.job && s.todo == 1
    ensures Session(ReadFinished(s, true, starts), start, total)
  {
    hide Pieces, ReadContinue, Session;
    ContinueKeeps(s.(job := false, rpacket := Fill(s.rpacket), todo := 0, isOpen := true), starts, start, total);
  }

  lemma JobIsReading(s: State, start: nat, total: nat)
    requires Session(s, start, total) && s.job && s.mode != Close
    ensures Queued(s) && Reading(s, start, total) && 1 <= s.todo <= 2
  {
    hide Pieces;
  }

  lemma JobKeeps(s: State, ok: bool, starts: bool, start: nat, total: nat)
    requires Session(s, start, total) && Enabled(s, JobEnds(ok, starts))
    ensures Session(ReadFinished(s, ok, starts), start, total)
  {
    JobIsReading(s, start, total);
    hide Session, Reading, Queued, Pieces;
    if !ok {
      FailKeeps(s, starts, start, total);
    } else if s.todo == 1 {
      ReadContinues(s, starts, start, total);
    } else {
      ReadWaits(s, starts, start, total);
    }
  }

  lemma SendKeeps(s: State, starts: bool, start: nat, total: nat)
    requires Session(s, start, total) && Enabled(s, Sent(starts))
    ensures Session(PacketSent(s, starts), start, total)
  {
    hide Pieces;
    assert s.output[1..] == s.log[|s.log| - |s.output| + 1..];
    if s.mode == Read && Dec(s.todo) == 0 {
      ContinueKeeps(s.(output := [], todo := 0), starts, start, total);
    }
  }

  lemma StepKeeps(s: State, e: Event, start: nat, total: nat)
    requires Session(s, start, total) && Enabled(s, e)
    ensures Session(Next(s, e), start, total)
  {
    hide Session, ReadFinished, PacketSent;
    match e
    case JobEnds(ok, starts) => JobKeeps(s, ok, starts, start, total);
    case Sent(starts) => SendKeeps(s, starts, start, total);
  }

  // ----- All runs.

  ghost predicate Run(states: seq<State>, events: seq<Event>) {
    && |states| == |events| + 1
    && forall k :: 0 <= k < |events| ==> Enabled(states[k], events[k]) && states[k + 1] == Next(states[k], events[k])
  }

  /**
   Whatever the order of disk and network events, a request that finds the queue empty gets
   its pieces in order, each after its disk job, and then exactly one final status.
   */
  lemma {:induction false} RunServes(s: State, offset: nat, size: nat, starts: bool, states: seq<State>, events: seq<Event>)
    requires Ready(s) && s.output == [] && Instant(offset, size).None?
    requires Run(states, events) && states[0] == ReadInit(s, offset, size, starts)
    ensures Session(states[|events|], offset, size)
    decreases |events|
  {
    if |events| == 0 {
      InitStarts(s, offset, size, starts);
    } else {
      var n := |events| - 1;
      RunServes(s, offset, size, starts, states[..|events|], events[..n]);
      StepKeeps(states[n], events[n], offset, size);
    }
  }

  /** ... and the final status is the last packet to leave, so its receiver finds the queue empty. */
  lemma FinalIsLast(s: State, offset: nat, size: nat)
    requires Session(s, offset, size) && s.mode == Idle
    ensures Ready(s)
    ensures s.output != [] ==> s.output[|s.output| - 1].Final?
  {
    assert s.output != [] ==> s.output[|s.output| - 1] == s.log[|s.log| - 1];
  }

  /** No piece is queued before its disk job has ended. */
  predicate AllFilled(log: seq<Packet>) {
    forall k :: 0 <= k < |log| && log[k].Piece? ==> log[k].filled
  }

  lemma SessionFilled(s: State, offset: nat, size: nat)
    requires Session(s, offset, size)
    ensures AllFilled(s.log)
  {
    forall k | 0 <= k < |s.log| && s.log[k].Piece?
      ensures s.log[k].filled
    {
      assert s.log[k] == Pieces(offset, size)[k];
      PieceIsBlockShare(offset, size, k);
    }
  }

  /** The condition is needed: a reply still queued lets an unread piece out. */
  lemma LeftoverBreaks(s: State, offset: nat, size: nat)
    requires Ready(s) && s.output != [] && Instant(offset, size).None?
    ensures var t := ReadInit(s, offset, size, true);
            Enabled(t, Sent(true)) &&
            Next(t, Sent(true)).log[0] == Piece(offset, PartSize(offset, size), false)
  {
    var t := ReadInit(s, offset, size, true);
    assert t.todo == 1 && t.mode == Read;
  }

  /** Exactly the requests that find the queue empty are served safely under every schedule. */
  lemma SafeIffQueueEmpty(s: State, offset: nat, size: nat)
    requires Ready(s) && Instant(offset, size).None?
    ensures s.output == [] <==>
            forall states: seq<State>, events: seq<Event> :: Run(states, events) && states[0] == ReadInit(s, offset, size, true) ==>
                                     AllFilled(states[|events|].log)
  {
    if s.output == [] {
      forall states: seq<State>, events: seq<Event> | Run(states, events) && states[0] == ReadInit(s, offset, size, true)
        ensures AllFilled(states[|events|].log)
      {
        RunServes(s, offset, size, true, states, events);
        SessionFilled(states[|events|], offset, size);
      }
    } else {
      LeftoverBreaks(s, offset, size);
      var t := ReadInit(s, offset, size, true);
      var states, events := [t, Next(t, Sent(true))], [Sent(true)];
      assert Run(states, events) && !AllFilled(states[|events|].log);
    }
  }

  /** The connection after the events; one that cannot happen is left out. */
  function After(s: State, events: seq<Event>): State {
    if events == [] then s
    else
      var t, e := After(s, events[..|events| - 1]), events[|events| - 1];
      if Enabled(t, e) then Next(t, e) else t
  }

  lemma AfterNext(s: State, events: seq<Event>, k: nat)
    requires k < |events|
    ensures After(s, events[..k + 1]) ==
              var t := After(s, events[..k]); if Enabled(t, events[k]) then Next(t, events[k]) else t
  {
    hide Enabled, Next;
    assert events[..k + 1][..k] == events[..k];
  }

  /**
   A connection entry serves one request under any disk and network events. It ends in the state
   they lead to, what it has queued is what `Session` says, and every piece was read first.
   */
  method Serve(r: Reader, from: nat, length: nat, starts: bool, events: seq<Event>)
    requires Ready(r.Model()) && r.output == [] && Instant(from, length).None?
    modifies r
    ensures r.Model() == After(ReadInit(old(r.Model()), from, length, starts), events)
    ensures Session(r.Model(), from, length) && AllFilled(r.log)
  {
    hide Session, ReadFinished, PacketSent, ReadInit, AllFilled, Enabled, Next;
    ghost var first := ReadInit(r.Model(), from, length, starts);
    InitStarts(r.Model(), from, length, starts);
    r.Init(from, length, starts);
    var k: nat := 0;
    while k < |events|
      invariant k <= |events| && Session(r.Model(), from, length) && r.Model() == After(first, events[..k])
    {
      AfterNext(first, events, k);
      ServeEvent(r, events[k], from, length);
      k := k + 1;
    }
    assert events[..k] == events;
    SessionFilled(r.Model(), from, length);
  }

  method ServeEvent(r: Reader, e: Event, ghost from: nat, ghost length: nat)
    requires Session(r.Model(), from, length)
    modifies r
    ensures Session(r.Model(), from, length)
    ensures r.Model() == if Enabled(old(r.Model()), e) then Next(old(r.Model()), e) else old(r.Model())
  {
    hide Session, ReadFinished, PacketSent;
    if Enabled(r.Model(), e) {
      StepKeeps(r.Model(), e, from, length);
    }
    if r.mode != Close && r.mode != Abort {
      match e {
        case JobEnds(ok, starts) =>
          if r.job {
            r.Finished(ok, starts);
          }
        case Sent(starts) =>
          if |r.output| > 0 {
            r.SendOne(starts);
          }
      }
    }
  }
}
