/**
 How a server in the middle of a write chain passes packets on byte by byte while it is still
 receiving them. `received` and `sent` record everything read from the client and written to
 the next server, `handled` the packets given to the local packet handler.
 */
module Forwarding {
  import opened Words
  import opened ChunkLayout

  const HEADER_SIZE := 8
  const MAX_PACKET_SIZE := 100000 + BLOCK_SIZE
  const PROTO_BASE := 0
  const CLTOCS_WRITE_DATA := PROTO_BASE + 212
  const LIZ_CLTOCS_WRITE_DATA := 1212
  const LIZ_CLTOCS_WRITE_END := 1213

  type Bytes = seq<Byte>

  // ----- Packets.

  function Be32(b: Bytes, at: nat): nat
    requires at + 4 <= |b|
  {
    b[at] as int * 0x1000000 + b[at + 1] as int * 0x10000 + b[at + 2] as int * 0x100 + b[at + 3] as int
  }

  function PacketType(p: Bytes): nat
    requires |p| >= HEADER_SIZE
  {
    Be32(p, 0)
  }

  function PacketLength(p: Bytes): nat
    requires |p| >= HEADER_SIZE
  {
    Be32(p, 4)
  }

  /** The packets that belong to the write session and are passed on. */
  predicate PassedOn(p: Bytes)
    requires |p| >= HEADER_SIZE
  {
    PacketType(p) in {CLTOCS_WRITE_DATA, LIZ_CLTOCS_WRITE_DATA, LIZ_CLTOCS_WRITE_END}
  }

  /** A whole packet: its header and as many bytes as the header announces. */
  predicate Whole(p: Bytes) {
    |p| >= HEADER_SIZE && |p| == HEADER_SIZE + PacketLength(p)
  }

  predicate AllWhole(ps: seq<Bytes>) {
    forall k :: 0 <= k < |ps| ==> Whole(ps[k])
  }

  function Concat(ps: seq<Bytes>): Bytes {
    if |ps| == 0 then [] else Concat(ps[..|ps| - 1]) + ps[|ps| - 1]
  }

  /** The bytes of the packets that are passed on, in order. */
  function Passed(ps: seq<Bytes>): Bytes
    requires AllWhole(ps)
  {
    if |ps| == 0 then []
    else Passed(ps[..|ps| - 1]) + if PassedOn(ps[|ps| - 1]) then ps[|ps| - 1] else []
  }

  lemma ConcatAppend(ps: seq<Bytes>, p: Bytes)
    ensures Concat(ps + [p]) == Concat(ps) + p
  {
    assert (ps + [p])[..|ps|] == ps;
  }

  lemma PassedAppend(ps: seq<Bytes>, p: Bytes)
    requires AllWhole(ps) && Whole(p)
    ensures AllWhole(ps + [p])
    ensures Passed(ps + [p]) == Passed(ps) + if PassedOn(p) then p else []
  {
    assert (ps + [p])[..|ps|] == ps;
  }

  lemma HeaderDecides(p: Bytes)
    requires |p| >= HEADER_SIZE
    ensures PacketLength(p) == PacketLength(p[..HEADER_SIZE])
    ensures PassedOn(p) == PassedOn(p[..HEADER_SIZE])
  {
  }

  // ----- System calls.

  /** `read`: some bytes (none: the peer closed), nothing available, or an error. */
  datatype Input = Got(bytes: Bytes) | Again | Failed

  /** `write`: the number of bytes accepted (0: the peer closed), no room, or an error. */
  datatype Output = Took(count: nat) | Full | Broken

  datatype Mode = Header | Data
  datatype State = WriteInit | WriteFwd | WriteFinish | Close

  /** `fwdstartptr`: null, an offset in the current packet, or left over from a freed packet. */
  datatype Pointer = Null | At(offset: nat) | Dangling

  function Min(a: nat, b: nat): nat {
    if a < b then a else b
  }

  /** What a `read` of at most `want` bytes stores. */
  function Taken(r: Input, want: nat): Bytes {
    if r.Got? then r.bytes[..Min(|r.bytes|, want)] else []
  }

  /** How many of `want` bytes a `write` gets rid of. */
  function Accepted(w: Output, want: nat): nat {
    if w.Took? then Min(w.count, want) else 0
  }

  // ----- What each call does to a connection.

  datatype Link = Link(
    state: State, mode: Mode, hdr: Bytes, packet: Bytes, bytesleft: nat, fwdstart: Pointer, fwdbytesleft: nat,
    job: bool, init: Bytes, received: Bytes, sent: Bytes, handled: seq<Bytes>)

  /** `n` bytes from where the pointer points; what a dangling one points at is `junk`. */
  function Pointed(b: Bytes, p: Pointer, n: nat, junk: Bytes): Bytes {
    if p.At? then (if p.offset + n <= |b| then b[p.offset..p.offset + n] else [])
    else seq(n, k requires 0 <= k < n => if k < |junk| then junk[k] else 0)
  }

  function Advanced(p: Pointer, n: nat): Pointer {
    if p.At? then At(p.offset + n) else p
  }

  /** `worker_fwdwrite` */
  function InitStep(s: Link, w: Output): Link {
    if s.fwdbytesleft > 0 && (w.Broken? || (w.Took? && w.count == 0)) then s.(state := WriteFinish)
    else if s.fwdbytesleft > 0 && w.Full? then s
    else
      var n := Accepted(w, s.fwdbytesleft);
      var t := s.(sent := s.sent + Pointed(s.init, s.fwdstart, n, []), fwdstart := Advanced(s.fwdstart, n), fwdbytesleft := s.fwdbytesleft - n);
      if t.fwdbytesleft == 0 then t.(state := WriteFwd, fwdstart := Null) else t
  }

  lemma InitNothing(s: Link)
    ensures s.fwdstart.At? && s.fwdstart.offset <= |s.init| ==> Pointed(s.init, s.fwdstart, 0, []) == []
  {
  }

  function OpenStep(s: Link): Link
    requires |s.hdr| == HEADER_SIZE
  {
    if PacketLength(s.hdr) > MAX_PACKET_SIZE then s.(state := Close)
    else
      var t := s.(packet := s.hdr, bytesleft := PacketLength(s.hdr), mode := Data);
      if PassedOn(s.hdr) then t.(fwdbytesleft := HEADER_SIZE, fwdstart := At(0)) else t
  }

  function HeaderStep(s: Link, r: Input): Link {
    if r.Failed? || (r.Got? && r.bytes == []) then s.(state := Close)
    else
      var d := Taken(r, s.bytesleft);
      var t := s.(hdr := s.hdr + d, bytesleft := s.bytesleft - |d|, received := s.received + d);
      if r.Got? && t.bytesleft == 0 && |t.hdr| == HEADER_SIZE then OpenStep(t) else t
  }

  function StoreStep(s: Link, d: Bytes): Link
    requires |d| <= s.bytesleft
  {
    s.(packet := s.packet + d, bytesleft := s.bytesleft - |d|, received := s.received + d,
       fwdbytesleft := s.fwdbytesleft + if s.fwdstart.Null? then 0 else |d|)
  }

  /** The payload read, and whether the call goes on. */
  function PayloadStep(s: Link, r: Input): (Link, bool) {
    if s.bytesleft == 0 then (s, true)
    else if r.Failed? || (r.Got? && r.bytes == []) then (s.(state := Close), false)
    else if r.Again? then (s, false)
    else (StoreStep(s, Taken(r, s.bytesleft)), true)
  }

  /** The write to the next server, and whether the call goes on. */
  function WriteStep(s: Link, w: Output, junk: Bytes): (Link, bool) {
    if s.fwdbytesleft == 0 then (s, true)
    else if w.Broken? || (w.Took? && w.count == 0) then (s.(state := WriteFinish), false)
    else if w.Full? then (s, false)
    else
      var n := Accepted(w, s.fwdbytesleft);
      (s.(sent := s.sent + Pointed(s.packet, s.fwdstart, n, junk), fwdstart := Advanced(s.fwdstart, n), fwdbytesleft := s.fwdbytesleft - n), true)
  }

  function HandleStep(s: Link, pointer: Pointer, startsJob: bool, after: State): Link {
    s.(handled := s.handled + [s.packet], mode := Header, bytesleft := HEADER_SIZE, hdr := [], packet := [],
       fwdstart := pointer, state := after, job := startsJob)
  }

  function PassStep(s: Link, payload: Input, w: Output, junk: Bytes, startsJob: bool, after: State): Link {
    var (t, go) := PayloadStep(s, payload);
    if !go then t
    else
      var (u, go) := WriteStep(t, w, junk);
      if go && u.bytesleft == 0 && u.fwdbytesleft == 0 && !u.job then HandleStep(u, Null, startsJob, after) else u
  }

  /** `worker_forward` */
  function ForwardStep(s: Link, header: Input, payload: Input, w: Output, junk: Bytes, startsJob: bool, after: State): Link {
    var t := if s.mode == Header then HeaderStep(s, header) else s;
    if t.mode == Header then t else PassStep(t, payload, w, junk, startsJob, after)
  }

  /** After write initialization: the init packet is to be sent and the chunk is being opened. */
  function StartLink(p: Bytes): Link {
    Link(WriteInit, Header, [], [], HEADER_SIZE, At(0), |p|, true, p, [], [], [])
  }

  /** `worker_check_nextpacket` */
  function NextStep(s: Link, startsJob: bool, after: State): Link {
    var t := s.(job := false);
    if t.mode == Data && t.bytesleft == 0 && t.fwdbytesleft == 0
    then HandleStep(t, if t.fwdstart.Null? then Null else Dangling, startsJob, after) else t
  }

  class Forwarder {
    var state: State
    var mode: Mode
    var hdr: Bytes
    var packet: Bytes
    var bytesleft: nat
    var fwdstart: Pointer
    var fwdbytesleft: nat
    var job: bool
    const initPacket: Bytes
    ghost var received: Bytes
    ghost var sent: Bytes
    ghost var handled: seq<Bytes>

    ghost function Model(): Link
      reads this
    {
      Link(state, mode, hdr, packet, bytesleft, fwdstart, fwdbytesleft, job, initPacket, received, sent, handled)
    }

    /** The bytes of the packet being received. */
    ghost function Current(): Bytes
      reads this
    {
      if mode == Header then hdr else packet
    }

    ghost predicate InputOk()
      reads this
    {
      && |hdr| <= HEADER_SIZE
      && (mode == Header ==> packet == [] && |hdr| + bytesleft == HEADER_SIZE && (bytesleft > 0 || state == Close))
      && (mode == Data ==> |hdr| == HEADER_SIZE <= |packet| && packet[..HEADER_SIZE] == hdr)
      && (mode == Data ==> |packet| + bytesleft == HEADER_SIZE + PacketLength(hdr))
      && AllWhole(handled)
      && received == Concat(handled) + Current()
    }

    ghost predicate PointerOk()
      requires |hdr| == HEADER_SIZE || mode == Header
      reads this
    {
      && (mode == Header ==> fwdbytesleft == 0 && !fwdstart.At?)
      && (mode == Data && PassedOn(hdr) ==> fwdstart.At? && fwdstart.offset + fwdbytesleft == |packet|)
      && (mode == Data && !PassedOn(hdr) ==> !fwdstart.At? && (fwdstart.Null? ==> fwdbytesleft == 0))
    }

    /** What must have been sent: the init packet, then everything passed on so far. */
    ghost function Due(): Bytes
      requires InputOk() && PointerOk()
      reads this
    {
      initPacket + Passed(handled) + if mode == Data && PassedOn(hdr) then packet[..fwdstart.offset] else []
    }

    /** No bytes of a packet that is not passed on are queued, or will be. */
    ghost predicate Clean()
      requires |hdr| == HEADER_SIZE || mode == Header
      reads this
    {
      mode == Data && !PassedOn(hdr) ==> fwdbytesleft == 0 && (bytesleft > 0 ==> fwdstart.Null?)
    }

    ghost predicate Sound()
      reads this
    {
      state != WriteInit && InputOk() && PointerOk()
    }

    ghost predicate Valid()
      reads this
    {
      Sound() && Clean() && sent == Due()
    }

    /** The init packet is on its way. */
    ghost predicate Initializing()
      reads this
    {
      && state == WriteInit && mode == Header && hdr == [] && packet == [] && bytesleft == HEADER_SIZE
      && received == [] && handled == []
      && fwdstart.At? && fwdstart.offset + fwdbytesleft == |initPacket|
      && sent == initPacket[..fwdstart.offset]
    }

    /** Every packet of the session so far, the one being received included, is one that is passed on. */
    ghost predicate OnlyPassed()
      reads this
    {
      && (forall k :: 0 <= k < |handled| ==> |handled[k]| >= HEADER_SIZE && PassedOn(handled[k]))
      && (mode == Data && |hdr| == HEADER_SIZE ==> PassedOn(hdr))
    }

    /** A state that a session reaches without the exception of `Forward`. */
    ghost predicate InSession()
      reads this
    {
      || Initializing() || Valid()
      || (state == WriteFinish && mode == Header && received == [] && handled == [] && sent <= initPacket)
    }

    constructor (p: Bytes)
      ensures Initializing() && initPacket == p && sent == [] && job && Model() == StartLink(p)
    {
      state, mode, hdr, packet, bytesleft := WriteInit, Header, [], [], HEADER_SIZE;
      initPacket, fwdstart, fwdbytesleft, job := p, At(0), |p|, true;
      received, sent, handled := [], [], [];
    }

    /** `n` bytes of the init packet have left. */
    method SendInit(n: nat)
      requires Initializing() && n <= fwdbytesleft
      modifies this`sent, this`fwdstart, this`fwdbytesleft
      ensures Initializing() && old(sent) <= sent && |sent| == |old(sent)| + n
      ensures Model() == old(Model()).(sent := old(sent) + Pointed(initPacket, old(fwdstart), n, []),
                                       fwdstart := Advanced(old(fwdstart), n), fwdbytesleft := old(fwdbytesleft) - n)
    {
      sent := sent + initPacket[fwdstart.offset..fwdstart.offset + n];
      fwdstart, fwdbytesleft := At(fwdstart.offset + n), fwdbytesleft - n;
    }

    /** `worker_fwdwrite` */
    method WriteInitPacket(w: Output)
      requires Initializing()
      modifies this
      ensures old(sent) <= sent <= initPacket
      ensures |sent| == |old(sent)| + Accepted(w, old(fwdbytesleft))
      ensures if sent == initPacket then Valid() && state == WriteFwd && received == [] && fwdstart == Null
              else Initializing() || state == WriteFinish
      ensures received == [] && handled == []
      ensures job == old(job) && mode == Header && hdr == []
      ensures Model() == InitStep(old(Model()), w)
    {
      hide PassedOn, PacketLength, OnlyPassed, Pointed;
      InitNothing(Model());
      if fwdbytesleft > 0 {
        match w {
          case Took(count) =>
            if count == 0 {
              state := WriteFinish;
              return;
            }
            SendInit(Min(count, fwdbytesleft));
          case Full =>
            return;
          case Broken =>
            state := WriteFinish;
            return;
        }
      }
      if fwdbytesleft == 0 {
        state, fwdstart := WriteFwd, Null;
      }
    }

    /** The read completes an acceptable header. */
    predicate Completes(r: Input)
      requires |hdr| <= HEADER_SIZE
      reads this
    {
      && mode == Header && r.Got? && 0 < HEADER_SIZE - |hdr| <= |r.bytes|
      && PacketLength(hdr + r.bytes[..HEADER_SIZE - |hdr|]) <= MAX_PACKET_SIZE
    }

    /** ... which announces a packet with payload that is not passed on. */
    predicate StaysHere(r: Input)
      requires |hdr| <= HEADER_SIZE
      reads this
    {
      && Completes(r)
      && var h := hdr + r.bytes[..HEADER_SIZE - |hdr|];
      !PassedOn(h) && 0 < PacketLength(h)
    }

    /** Some bytes of a header have come in. */
    method StoreHeader(d: Bytes)
      requires Valid() && state == WriteFwd && mode == Header && d != [] && |d| <= bytesleft
      modifies this`hdr, this`bytesleft, this`received
      ensures if |d| == old(bytesleft) then HeaderDone() else Valid()
      ensures Model() == old(Model()).(hdr := old(hdr) + d, bytesleft := old(bytesleft) - |d|, received := old(received) + d)
    {
      hide PassedOn, PacketLength, Concat, Passed, AllWhole;
      hdr, bytesleft, received := hdr + d, bytesleft - |d|, received + d;
    }

    /** The header read: `true` when the packet's header is complete and acceptable. */
    method ReadHeader(r: Input) returns (go: bool)
      requires Valid() && state == WriteFwd && mode == Header
      modifies this`state, this`mode, this`hdr, this`packet, this`bytesleft, this`fwdstart, this`fwdbytesleft, this`received
      ensures Sound() && sent == Due()
      ensures received == old(received) + Taken(r, old(bytesleft))
      ensures (go <==> mode == Data) && (go <==> old(Completes(r)))
      ensures go ==> state == WriteFwd && packet == hdr == old(hdr) + Taken(r, old(bytesleft))
      ensures go ==> bytesleft == PacketLength(hdr)
      ensures go ==> fwdstart == (if PassedOn(hdr) then At(0) else old(fwdstart)) &&
                     fwdbytesleft == if PassedOn(hdr) then HEADER_SIZE else 0
      ensures Clean() <==> !old(StaysHere(r) && fwdstart.Dangling?)
      ensures Model() == HeaderStep(old(Model()), r)
    {
      hide PassedOn, PacketLength, Concat, Passed, AllWhole, OpenStep;
      match r {
        case Got(bytes) =>
          if |bytes| == 0 {
            state := Close;
            return false;
          }
          StoreHeader(bytes[..Min(|bytes|, bytesleft)]);
          if bytesleft > 0 {
            return false;
          }
        case Again =>
          return false;
        case Failed =>
          state := Close;
          return false;
      }
      go := OpenPacket();
    }

    /** The header just read is complete and nothing of its packet is under way yet. */
    ghost predicate HeaderDone()
      reads this
    {
      && state == WriteFwd && mode == Header && |hdr| == HEADER_SIZE && packet == [] && bytesleft == 0
      && AllWhole(handled) && received == Concat(handled) + hdr
      && fwdbytesleft == 0 && !fwdstart.At? && sent == initPacket + Passed(handled)
    }

    /** A complete header starts its packet, unless it announces too much. */
    method OpenPacket() returns (go: bool)
      requires HeaderDone()
      modifies this`state, this`mode, this`packet, this`bytesleft, this`fwdstart, this`fwdbytesleft
      ensures Sound() && sent == Due()
      ensures (go <==> mode == Data) && (go <==> PacketLength(hdr) <= MAX_PACKET_SIZE)
      ensures go ==> state == WriteFwd && packet == hdr && bytesleft == PacketLength(hdr)
      ensures go ==> fwdstart == (if PassedOn(hdr) then At(0) else old(fwdstart)) &&
                     fwdbytesleft == if PassedOn(hdr) then HEADER_SIZE else 0
      ensures Clean() <==> !(go && !PassedOn(hdr) && 0 < PacketLength(hdr) && old(fwdstart).Dangling?)
      ensures Model() == OpenStep(old(Model()))
    {
      hide PassedOn, PacketLength, Concat, Passed, AllWhole;
      if PacketLength(hdr) > MAX_PACKET_SIZE {
        state := Close;
        return false;
      }
      packet, bytesleft := hdr, PacketLength(hdr);
      if PassedOn(hdr) {
        fwdbytesleft, fwdstart := HEADER_SIZE, At(0);
      }
      mode := Data;
      return true;
    }

    /** Received payload is queued for the next server as well, if there is a pointer. */
    method StorePayload(d: Bytes)
      requires Sound() && state == WriteFwd && mode == Data && |d| <= bytesleft
      modifies this`packet, this`bytesleft, this`fwdbytesleft, this`received
      ensures Sound() && received == old(received) + d && bytesleft == old(bytesleft) - |d|
      ensures fwdbytesleft == old(fwdbytesleft) + if fwdstart.Null? then 0 else |d|
      ensures Due() == old(Due())
      ensures d != [] ==> (Clean() <==> old(Clean()))
      ensures Model() == StoreStep(old(Model()), d)
    {
      hide PassedOn, PacketLength, Concat, Passed, AllWhole;
      packet, bytesleft, received := packet + d, bytesleft - |d|, received + d;
      if fwdstart != Null {
        fwdbytesleft := fwdbytesleft + |d|;
      }
    }

    /** The payload read: `false` when the call ends here. */
    method ReadPayload(r: Input) returns (go: bool)
      requires Sound() && state == WriteFwd && mode == Data
      modifies this`state, this`packet, this`bytesleft, this`fwdbytesleft, this`received
      ensures Sound() && mode == Data
      ensures received == old(received) + Taken(r, old(bytesleft))
      ensures bytesleft == old(bytesleft) - |Taken(r, old(bytesleft))|
      ensures fwdbytesleft == old(fwdbytesleft) + if fwdstart.Null? then 0 else |Taken(r, old(bytesleft))|
      ensures Due() == old(Due())
      ensures Clean() <==> old(Clean())
      ensures go <==> old(bytesleft) == 0 || Taken(r, old(bytesleft)) != []
      ensures go ==> state == WriteFwd
      ensures (Model(), go) == PayloadStep(old(Model()), r)
    {
      hide PassedOn, PacketLength, Concat, Passed, AllWhole, StoreStep;
      if bytesleft > 0 {
        match r {
          case Got(bytes) =>
            if |bytes| == 0 {
              state := Close;
              return false;
            }
            StorePayload(bytes[..Min(|bytes|, bytesleft)]);
          case Again =>
            return false;
          case Failed =>
            state := Close;
            return false;
        }
      }
      return true;
    }

    /** `n` bytes from the pointer on have left. */
    method SendOn(n: nat, junk: Bytes)
      requires Sound() && state == WriteFwd && mode == Data && 0 < n <= fwdbytesleft
      modifies this`fwdstart, this`fwdbytesleft, this`sent
      ensures Sound() && old(sent) <= sent && |sent| == |old(sent)| + n
      ensures old(sent == Due()) ==> (Valid() <==> old(Clean()))
      ensures Model() == old(Model()).(sent := old(sent) + Pointed(packet, old(fwdstart), n, junk),
                                       fwdstart := Advanced(old(fwdstart), n), fwdbytesleft := old(fwdbytesleft) - n)
    {
      hide PassedOn, PacketLength, Concat, Passed, AllWhole;
      if fwdstart.At? {
        sent := sent + packet[fwdstart.offset..fwdstart.offset + n];
        fwdstart := At(fwdstart.offset + n);
      } else {
        sent := sent + seq(n, k requires 0 <= k < n => if k < |junk| then junk[k] else 0);
      }
      fwdbytesleft := fwdbytesleft - n;
    }

    /** The write to the next server; `junk` is what a dangling pointer happens to point at. */
    method WriteOn(w: Output, junk: Bytes) returns (go: bool)
      requires Sound() && state == WriteFwd && mode == Data
      modifies this`state, this`fwdstart, this`fwdbytesleft, this`sent
      ensures Sound() && mode == Data
      ensures old(sent) <= sent && |sent| == |old(sent)| + Accepted(w, old(fwdbytesleft))
      ensures fwdbytesleft == old(fwdbytesleft) - Accepted(w, old(fwdbytesleft))
      ensures old(sent == Due()) ==> (Valid() <==> old(Clean()))
      ensures go <==> old(fwdbytesleft) == 0 || (w.Took? && w.count > 0)
      ensures go ==> state == WriteFwd
      ensures (Model(), go) == WriteStep(old(Model()), w, junk)
    {
      hide PassedOn, PacketLength, Concat, Passed, AllWhole, Pointed, Advanced;
      if fwdbytesleft > 0 {
        match w {
          case Took(count) =>
            if count == 0 {
              state := WriteFinish;
              return false;
            }
            SendOn(Min(count, fwdbytesleft), junk);
          case Full =>
            return false;
          case Broken =>
            state := WriteFinish;
            return false;
        }
      }
      return true;
    }

    /** The packet goes to the local handler, which may start a disk job or end the session. */
    method Handle(pointer: Pointer, startsJob: bool, after: State)
      requires Sound() && mode == Data && bytesleft == 0 && fwdbytesleft == 0
      requires after != WriteInit && !pointer.At?
      modifies this`state, this`mode, this`hdr, this`packet, this`bytesleft, this`fwdstart, this`job, this`handled
      ensures Sound() && (Valid() <==> old(Valid()))
      ensures mode == Header && hdr == [] && state == after && job == startsJob && fwdstart == pointer
      ensures handled == old(handled) + [old(packet)]
      ensures old(!PassedOn(hdr)) ==> !OnlyPassed()
      ensures Model() == HandleStep(old(Model()), pointer, startsJob, after)
      ensures Valid() ==> sent == initPacket + Passed(handled)
    {
      hide PassedOn, PacketLength, Concat, Passed, Pointed;
      HeaderDecides(packet);
      ConcatAppend(handled, packet);
      PassedAppend(handled, packet);
      handled := handled + [packet];
      mode, bytesleft, hdr, packet := Header, HEADER_SIZE, [], [];
      fwdstart := pointer;
      state, job := after, startsJob;
      assert handled[|handled| - 1] == old(packet);
    }

    /** The rest of `worker_forward`, once the header of the packet is there. */
    method PassPayload(payload: Input, w: Output, junk: Bytes, startsJob: bool, after: State)
      requires Sound() && sent == Due() && state == WriteFwd && mode == Data && after != WriteInit
      modifies this
      ensures Sound() && (Valid() <==> old(Clean()))
      ensures received == old(received) + Taken(payload, old(bytesleft)) && old(sent) <= sent
      ensures handled != old(handled) <==>
                !old(job) && |Taken(payload, old(bytesleft))| == old(bytesleft) &&
                var queued := old(fwdbytesleft) + if old(fwdstart).Null? then 0 else old(bytesleft);
                Accepted(w, queued) == queued
      ensures handled == old(handled) || (old(handled) < handled && !old(job) && fwdstart == Null)
      ensures Valid() && handled != old(handled) ==> sent == initPacket + Passed(handled)
      ensures old(!PassedOn(hdr)) ==> !OnlyPassed()
      ensures Model() == PassStep(old(Model()), payload, w, junk, startsJob, after)
    {
      hide PassedOn, PacketLength, Concat, Passed, AllWhole, InputOk, PointerOk, Clean, Due, OnlyPassed, StoreStep, PayloadStep, WriteStep, HandleStep, Pointed;
      HeaderKept();
      var go := ReadPayload(payload);
      if !go {
        HeaderKept();
        return;
      }
      go := WriteOn(w, junk);
      HeaderKept();
      if !go {
        return;
      }
      if bytesleft == 0 && fwdbytesleft == 0 && !job {
        Handle(Null, startsJob, after);
      }
    }

    lemma HeaderKept()
      requires Sound() && mode == Data
      ensures |hdr| == HEADER_SIZE && (!PassedOn(hdr) ==> !OnlyPassed())
    {
    }

    /**
     `worker_forward`. Everything sent stays what was due, unless a packet that is not passed
     on arrives while `fwdstartptr` still points into an earlier packet.
     */
    method Forward(header: Input, payload: Input, w: Output, junk: Bytes, startsJob: bool, after: State)
      requires Valid() && state == WriteFwd && after != WriteInit
      modifies this
      ensures Sound() && (Valid() <==> !old(StaysHere(header) && fwdstart.Dangling?))
      ensures old(received) + Taken(header, if old(mode) == Header then old(bytesleft) else 0) <= received && old(sent) <= sent
      ensures old(mode) == Data ==>
                received == old(received) + Taken(payload, old(bytesleft)) &&
                (handled != old(handled) <==>
                  !old(job) && |Taken(payload, old(bytesleft))| == old(bytesleft) &&
                  var queued := old(fwdbytesleft) + if old(fwdstart).Null? then 0 else old(bytesleft);
                  Accepted(w, queued) == queued)
      ensures handled == old(handled) || (old(handled) < handled && !old(job) && fwdstart == Null)
      ensures Valid() && handled != old(handled) ==> sent == initPacket + Passed(handled)
      ensures old(StaysHere(header)) ==> !OnlyPassed()
      ensures Model() == ForwardStep(old(Model()), header, payload, w, junk, startsJob, after)
    {
      hide PassedOn, PacketLength, Concat, Passed, AllWhole, Clean, Due, OnlyPassed, OpenStep, HeaderStep, PassStep;
      if mode == Header {
        var go := ReadHeader(header);
        if !go {
          return;
        }
      }
      PassPayload(payload, w, junk, startsJob, after);
    }

    /** `worker_check_nextpacket` while forwarding, called when a disk job ends. */
    method NextPacket(startsJob: bool, after: State)
      requires Valid() && state == WriteFwd && after != WriteInit
      modifies this
      ensures Valid()
      ensures received == old(received) && sent == old(sent)
      ensures if old(mode == Data && bytesleft == 0 && fwdbytesleft == 0)
              then
                && handled == old(handled) + [old(packet)] && sent == initPacket + Passed(handled)
                && mode == Header && hdr == [] && state == after && job == startsJob
                && fwdstart == if old(fwdstart).Null? then Null else Dangling
              else handled == old(handled)
      ensures Model() == NextStep(old(Model()), startsJob, after)
    {
      hide PassedOn, PacketLength, Concat, Passed, AllWhole, OnlyPassed, HandleStep;
      job := false;
      if mode == Data && bytesleft == 0 && fwdbytesleft == 0 {
        Handle(if fwdstart.Null? then Null else Dangling, startsJob, after);
      }
    }
  }

  // ----- Whole sessions.

  /** A call of the event loop: on the socket to the next server, on the client's, or at the end of a disk job. */
  datatype Call =
    | CallInit(w: Output)
    | CallForward(header: Input, payload: Input, w: Output, junk: Bytes, startsJob: bool, after: State)
    | CallNext(startsJob: bool, after: State)

  /** The connection after one call, if its state has the event loop make it. */
  function CallStep(s: Link, c: Call): Link {
    match c
    case CallInit(w) => if s.state == WriteInit then InitStep(s, w) else s
    case CallForward(header, payload, w, junk, startsJob, after) =>
      if s.state == WriteFwd then ForwardStep(s, header, payload, w, junk, startsJob, after) else s
    case CallNext(startsJob, after) => if s.state == WriteFwd then NextStep(s, startsJob, after) else s
  }

  function After(s: Link, calls: seq<Call>): Link {
    if calls == [] then s else CallStep(After(s, calls[..|calls| - 1]), calls[|calls| - 1])
  }

  lemma AfterNext(s: Link, calls: seq<Call>, k: nat)
    requires k < |calls|
    ensures After(s, calls[..k + 1]) == CallStep(After(s, calls[..k]), calls[k])
  {
    hide CallStep;
    assert calls[..k + 1][..k] == calls[..k];
  }

  /** The call starts a packet with payload that is not passed on while a pointer is left over. */
  predicate MeetsLeftover(s: Link, c: Call) {
    && c.CallForward? && s.state == WriteFwd && s.mode == Header && s.fwdstart.Dangling?
    && c.header.Got? && |s.hdr| < HEADER_SIZE <= |s.hdr| + |c.header.bytes|
    && var h := s.hdr + c.header.bytes[..HEADER_SIZE - |s.hdr|];
    0 < PacketLength(h) <= MAX_PACKET_SIZE && !PassedOn(h)
  }

  lemma {:induction false} PassedAll(ps: seq<Bytes>)
    requires AllWhole(ps) && forall k :: 0 <= k < |ps| ==> PassedOn(ps[k])
    ensures Passed(ps) == Concat(ps)
  {
    hide PassedOn, PacketLength;
    if |ps| > 0 {
      PassedAll(ps[..|ps| - 1]);
    }
  }

  lemma PrefixOfJoin(a: Bytes, b: Bytes, c: Bytes, n: nat)
    requires n <= |c|
    ensures a + b + c[..n] <= a + (b + c)
  {
    assert a + b + c[..n] == (a + (b + c))[..|a| + |b| + n];
  }

  /** In a session of packets that are passed on, the next server gets the init packet and then what came in. */
  lemma SentIsPrefix(f: Forwarder)
    requires f.InSession() && f.OnlyPassed()
    ensures f.sent <= f.initPacket + f.received
  {
    if f.Valid() {
      hide PassedOn, PacketLength, Concat, Passed;
      PassedAll(f.handled);
      PrefixOfJoin(f.initPacket, Concat(f.handled), f.Current(), if f.mode == Data then f.fwdstart.offset else 0);
    } else {
      assert f.received == [];
    }
  }

  /**
   A write session from its init packet on, under any calls, up to the first packet with payload
   of another type that meets a left-over pointer.
   */
  method Session(p: Bytes, calls: seq<Call>) returns (f: Forwarder, broken: bool, ghost served: nat)
    requires forall k :: 0 <= k < |calls| ==> !calls[k].CallInit? ==> calls[k].after != WriteInit
    ensures f.initPacket == p && served <= |calls| && f.Model() == After(StartLink(p), calls[..served])
    ensures forall k :: 0 <= k < served ==>
              (MeetsLeftover(After(StartLink(p), calls[..k]), calls[k]) <==> broken && k == served - 1)
    ensures !broken ==> served == |calls| && f.InSession()
    ensures broken ==> 0 < served && calls[served - 1].CallForward? && f.Sound() && !f.Valid() && !f.OnlyPassed()
    ensures f.OnlyPassed() ==> f.sent <= p + f.received
  {
    hide Forwarder.InSession, Forwarder.OnlyPassed, CallStep, MeetsLeftover, StartLink;
    f := new Forwarder(p);
    broken := false;
    Started(f);
    var k: nat := 0;
    while k < |calls| && !broken
      invariant k <= |calls| && fresh(f) && f.initPacket == p && f.Model() == After(StartLink(p), calls[..k])
      invariant forall j :: 0 <= j < k ==> (MeetsLeftover(After(StartLink(p), calls[..j]), calls[j]) <==> broken && j == k - 1)
      invariant !broken ==> f.InSession()
      invariant broken ==> 0 < k && calls[k - 1].CallForward? && f.Sound() && !f.Valid() && !f.OnlyPassed()
    {
      AfterNext(StartLink(p), calls, k);
      broken := ServeCall(f, calls[k]);
      k := k + 1;
    }
    served := k;
    if f.OnlyPassed() {
      SentIsPrefix(f);
    }
  }

  lemma Started(f: Forwarder)
    requires f.Initializing()
    ensures f.InSession()
  {
  }

  /** One call, if the state of the connection has the event loop make it. */
  method ServeCall(f: Forwarder, c: Call) returns (broken: bool)
    requires f.InSession() && (!c.CallInit? ==> c.after != WriteInit)
    modifies f
    ensures !broken ==> f.InSession()
    ensures broken ==> c.CallForward? && f.Sound() && !f.Valid() && !f.OnlyPassed()
    ensures broken <==> MeetsLeftover(old(f.Model()), c)
    ensures f.Model() == CallStep(old(f.Model()), c)
  {
    hide PassedOn, PacketLength, Concat, Passed, AllWhole, Forwarder.Due, Forwarder.OnlyPassed, InitStep, ForwardStep, NextStep;
    broken := false;
    match c {
      case CallInit(w) =>
        if f.state == WriteInit {
          f.WriteInitPacket(w);
        }
      case CallForward(header, payload, w, junk, startsJob, after) =>
        if f.state == WriteFwd {
          broken := f.StaysHere(header) && f.fwdstart.Dangling?;
          f.Forward(header, payload, w, junk, startsJob, after);
        }
      case CallNext(startsJob, after) =>
        if f.state == WriteFwd {
          f.NextPacket(startsJob, after);
        }
    }
  }

  /** A packet whose handling had to wait for a disk job leaves the pointer behind. */
  method AfterWait(init: Bytes, data: Bytes) returns (f: Forwarder)
    requires init != []
    requires Whole(data) && PassedOn(data) && 0 < PacketLength(data) <= MAX_PACKET_SIZE
    ensures fresh(f) && f.Valid() && f.state == WriteFwd && f.mode == Header && f.hdr == []
    ensures f.fwdstart == Dangling
  {
    hide Forwarder.Due, Concat, Passed, AllWhole, PassedOn, PacketLength, InitStep, OpenStep, HeaderStep, StoreStep, PayloadStep, WriteStep, HandleStep, PassStep, ForwardStep, NextStep, Pointed;
    f := new Forwarder(init);
    f.WriteInitPacket(Took(|init|));
    HeaderDecides(data);
    var h := data[..HEADER_SIZE];
    assert [] + h[..HEADER_SIZE] == h;
    var go := f.ReadHeader(Got(h));
    assert f.hdr == h;
    go := f.ReadPayload(Got(data[HEADER_SIZE..]));
    go := f.WriteOn(Took(|data|), []);
    f.NextPacket(true, WriteFwd);
  }

  /**
   The exception can be met: a packet that is not passed on, after a write whose handling had
   to wait for a disk job, makes the server send a byte that is not due.
   */
  method LeftoverPointer(init: Bytes, data: Bytes, nop: Bytes, junk: Byte) returns (f: Forwarder)
    requires init != []
    requires Whole(data) && PassedOn(data) && 0 < PacketLength(data) <= MAX_PACKET_SIZE
    requires |nop| == HEADER_SIZE && !PassedOn(nop) && 0 < PacketLength(nop) <= MAX_PACKET_SIZE
    ensures fresh(f) && f.Sound() && f.sent != f.Due()
  {
    hide Forwarder.Due, Concat, Passed, AllWhole, PassedOn, PacketLength, InitStep, OpenStep, HeaderStep, StoreStep, PayloadStep, WriteStep, HandleStep, PassStep, ForwardStep, NextStep, Pointed;
    f := AfterWait(init, data);
    assert [] + nop[..HEADER_SIZE] == nop;
    var go := f.ReadHeader(Got(nop));
    assert f.hdr == nop;
    var payload: Bytes := seq(PacketLength(nop), _ => 0);
    go := f.ReadPayload(Got(payload));
    go := f.WriteOn(Took(PacketLength(nop)), [junk]);
  }
}
