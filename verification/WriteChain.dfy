/**
 A write chain: the client sends write packets to the first chunkserver, every server passes
 them on to the next one and writes them itself, and acknowledgements travel back. Server
 `i < n - 1` forwards; server `n - 1` is the last. Write id 0 stands for opening the chunk.
 */
module WriteChain {
  import opened Wrappers

  type WriteId = nat

  /** `CSTOCL_WRITE_STATUS` */
  datatype Ack = Ack(id: WriteId, ok: bool)

  /** `Idle` is the state after an accepted `WRITE_END`. */
  datatype Mode = WriteFwd | WriteLast | WriteFinish | Idle | Closed

  /**
   One server's connection entry. `pcw` is `partiallyCompletedWrites`; `taken` counts the data
   packets received in full and forwarded, `staged` says that the last of them has not been
   handled yet, `job` is the running disk job. `up` are the statuses queued for upstream so
   far, `flushed` how many of them have left the output queue and `delivered` how many have
   arrived. `done` and `acked` record the disk jobs that ended well and the writes
   acknowledged from downstream.
   */
  datatype Server = Server(
    mode: Mode, taken: nat, staged: bool, job: Option<WriteId>, pcw: set<WriteId>,
    up: seq<Ack>, flushed: nat, delivered: nat, done: set<WriteId>, acked: set<WriteId>)

  // ----- What one server does.

  /** Send an OK upstream if the other half is complete, otherwise remember this half. */
  function Half(s: Server, w: WriteId): Server {
    if w in s.pcw then s.(up := s.up + [Ack(w, true)], pcw := s.pcw - {w})
    else s.(pcw := s.pcw + {w})
  }

  function Fail(s: Server, w: WriteId): Server {
    s.(up := s.up + [Ack(w, false)], mode := WriteFinish)
  }

  /** `worker_write_finished`; after a close only the chunk is cleaned up. */
  function WriteFinished(s: Server, ok: bool): Server
    requires s.job.Some?
  {
    var w := s.job.value;
    var t := s.(job := None);
    if s.mode == Closed then t
    else if !ok then Fail(t, w)
    else
      var t := t.(done := t.done + {w});
      if s.mode == WriteLast then t.(up := t.up + [Ack(w, true)]) else Half(t, w)
  }

  /** `worker_write_status`, which is only dispatched while forwarding. */
  function WriteStatus(s: Server, a: Ack): Server {
    if s.mode != WriteFwd then s.(mode := Closed)
    else if !a.ok then Fail(s, a.id)
    else Half(s.(acked := s.acked + {a.id}), a.id)
  }

  /** `worker_fwderror` */
  function ForwardError(s: Server): Server {
    Fail(s, 0)
  }

  /** A `WRITE_END` is accepted: no job, no half-completed write, no status still queued. */
  predicate EndAccepted(s: Server) {
    s.job.None? && s.pcw == {} && s.flushed >= |s.up|
  }

  /** `worker_write_end` */
  function WriteEnd(s: Server): Server {
    s.(mode := if EndAccepted(s) then Idle else WriteFinish)
  }

  /** The handlers as they update a connection entry in place. */
  class Connection {
    var mode: Mode
    var taken: nat
    var staged: bool
    var job: Option<WriteId>
    var partiallyCompletedWrites: set<WriteId>
    var output: seq<Ack>
    var flushed: nat
    var delivered: nat
    ghost var done: set<WriteId>
    ghost var acked: set<WriteId>

    ghost function Model(): Server
      reads this
    {
      Server(mode, taken, staged, job, partiallyCompletedWrites, output, flushed, delivered, done, acked)
    }

    /** After write initialization: the chunk is being opened. */
    constructor (last: bool)
      ensures Model() == Server(if last then WriteLast else WriteFwd, 0, false, Some(0), {}, [], 0, 0, {}, {})
    {
      mode := if last then WriteLast else WriteFwd;
      taken, staged, job, partiallyCompletedWrites, output, flushed, delivered := 0, false, Some(0), {}, [], 0, 0;
      done, acked := {}, {};
    }

    method FinishWrite(ok: bool)
      requires job.Some?
      modifies this
      ensures Model() == WriteFinished(old(Model()), ok)
    {
      var w := job.value;
      job := None;
      if mode == Closed {
        return;
      }
      if !ok {
        output := output + [Ack(w, false)];
        mode := WriteFinish;
        return;
      }
      done := done + {w};
      if mode == WriteLast {
        output := output + [Ack(w, true)];
      } else if w in partiallyCompletedWrites {
        output := output + [Ack(w, true)];
        partiallyCompletedWrites := partiallyCompletedWrites - {w};
      } else {
        partiallyCompletedWrites := partiallyCompletedWrites + {w};
      }
    }

    method ReceiveStatus(a: Ack)
      modifies this
      ensures Model() == WriteStatus(old(Model()), a)
    {
      if mode != WriteFwd {
        mode := Closed;
      } else if !a.ok {
        output := output + [a];
        mode := WriteFinish;
      } else {
        acked := acked + {a.id};
        if a.id in partiallyCompletedWrites {
          output := output + [Ack(a.id, true)];
          partiallyCompletedWrites := partiallyCompletedWrites - {a.id};
        } else {
          partiallyCompletedWrites := partiallyCompletedWrites + {a.id};
        }
      }
    }

    /** `worker_write_end`; `false` when something of the session is still under way. */
    method EndWrite() returns (accepted: bool)
      modifies this`mode
      ensures (accepted <==> EndAccepted(old(Model()))) && Model() == WriteEnd(old(Model()))
    {
      if job.Some? || partiallyCompletedWrites != {} || flushed < |output| {
        mode := WriteFinish;
        return false;
      }
      mode := Idle;
      return true;
    }

    /** An error ends the session: its status is sent and nothing more is taken. */
    method SendError(w: WriteId)
      modifies this`output, this`mode
      ensures Model() == Fail(old(Model()), w)
    {
      output := output + [Ack(w, false)];
      mode := WriteFinish;
    }
  }

  // ----- The chain.

  /** `writes` are the ids the client has sent, in order. */
  datatype Chain = Chain(writes: seq<WriteId>, servers: seq<Server>)

  datatype Event =
    | ClientSends(w: WriteId)
    | Forward(i: nat)
    | Handle(i: nat)
    | Reject(i: nat)
    | JobEnds(i: nat, ok: bool)
    | Flush(i: nat)
    | StatusArrives(i: nat)
    | ForwardBreaks(i: nat)
    | Ends(i: nat)
    | Closes(i: nat)

  predicate Active(s: Server) {
    s.mode == WriteFwd || s.mode == WriteLast
  }

  /** Nothing has gone wrong. */
  predicate Well(s: Server) {
    Active(s) || s.mode == Idle
  }

  /** How many data packets have been sent to server `i`. */
  function Sent(c: Chain, i: nat): nat
    requires i < |c.servers|
  {
    if i == 0 then |c.writes| else c.servers[i - 1].taken
  }

  function Update(c: Chain, i: nat, s: Server): Chain
    requires i < |c.servers|
  {
    c.(servers := c.servers[i := s])
  }

  /** A packet is complete and forwarded, and the disk is free. */
  predicate CanHandle(s: Server, writes: seq<WriteId>) {
    Active(s) && s.staged && s.job.None? && 0 < s.taken <= |writes|
  }

  /** An event of one server. */
  predicate Local(e: Event) {
    !e.StatusArrives? && !e.ClientSends?
  }

  /** Whether it can happen, when `sent` packets were sent to the server. */
  predicate LocalEnabled(s: Server, e: Event, writes: seq<WriteId>, sent: nat, last: bool)
    requires Local(e)
  {
    match e
    case Forward(_) => Active(s) && !s.staged && s.taken < sent
    case Handle(_) => CanHandle(s, writes)
    case Reject(_) => CanHandle(s, writes)
    case JobEnds(_, _) => s.job.Some?
    case Flush(_) => s.flushed < |s.up|
    case ForwardBreaks(_) => !last && s.mode == WriteFwd
    case Ends(_) => Active(s) && !s.staged && s.job.None?
    case Closes(_) => true
  }

  function LocalNext(s: Server, e: Event, writes: seq<WriteId>): Server
    requires Local(e) && (e.Handle? || e.Reject? ==> CanHandle(s, writes)) && (e.JobEnds? ==> s.job.Some?)
  {
    match e
    case Forward(_) => s.(taken := s.taken + 1, staged := true)
    case Handle(_) => s.(staged := false, job := Some(writes[s.taken - 1]))
    case Reject(_) => Fail(s.(staged := false), writes[s.taken - 1])
    case JobEnds(_, ok) => WriteFinished(s, ok)
    case Flush(_) => s.(flushed := s.flushed + 1)
    case ForwardBreaks(_) => ForwardError(s)
    case Ends(_) => WriteEnd(s)
    case Closes(_) => s.(mode := Closed)
  }

  predicate Enabled(c: Chain, e: Event) {
    match e
    case ClientSends(w) => w != 0 && w !in c.writes
    case StatusArrives(i) => i < |c.servers| && c.servers[i].delivered < c.servers[i].flushed <= |c.servers[i].up|
    case _ => e.i < |c.servers| && LocalEnabled(c.servers[e.i], e, c.writes, Sent(c, e.i), e.i + 1 == |c.servers|)
  }

  function Next(c: Chain, e: Event): Chain
    requires Enabled(c, e)
  {
    match e
    case ClientSends(w) => c.(writes := c.writes + [w])
    case StatusArrives(i) =>
      var a := c.servers[i].up[c.servers[i].delivered];
      var d := Update(c, i, c.servers[i].(delivered := c.servers[i].delivered + 1));
      if i == 0 then d else Update(d, i - 1, WriteStatus(d.servers[i - 1], a))
    case _ => Update(c, e.i, LocalNext(c.servers[e.i], e, c.writes))
  }

  /** Write initialization has connected the chain; every server is opening the chunk. */
  function Start(n: nat): Chain {
    Chain([], seq(n, i => Server(if i + 1 < n then WriteFwd else WriteLast, 0, false, Some(0), {}, [], 0, 0, {}, {})))
  }

  // ----- Invariant.

  function OkIds(up: seq<Ack>): (ids: set<WriteId>) {
    set k | 0 <= k < |up| && up[k].ok :: up[k].id
  }

  /** No write is acknowledged twice. */
  predicate OkOnce(up: seq<Ack>) {
    forall j, k :: 0 <= j < k < |up| && up[j].ok && up[k].ok ==> up[j].id != up[k].id
  }

  /** The ids a server deals with: the open job, then the data packets it has handled. */
  function Handled(s: Server): int {
    s.taken - (if s.staged then 1 else 0)
  }

  function Started(writes: seq<WriteId>, n: int): set<WriteId> {
    {0} + set k | 0 <= k < n && k < |writes| :: writes[k]
  }

  function SymDiff(a: set<WriteId>, b: set<WriteId>): set<WriteId> {
    (a - b) + (b - a)
  }

  function JobIds(job: Option<WriteId>): set<WriteId> {
    if job.Some? then {job.value} else {}
  }

  ghost predicate Counters(writes: seq<WriteId>, s: Server) {
    0 <= Handled(s) && s.taken <= |writes| && s.delivered <= s.flushed <= |s.up|
  }

  /** Every started write is under way or has ended; while all goes well, it has ended well. */
  ghost predicate JobsOk(started: set<WriteId>, s: Server) {
    && s.done !! JobIds(s.job)
    && s.done + JobIds(s.job) <= started
    && (Well(s) ==> started == s.done + JobIds(s.job))
    && (s.mode == Idle ==> s.job.None? && s.pcw == {} && !s.staged)
  }

  /** The acknowledgement rule of a forwarding server. */
  ghost predicate ForwarderOk(s: Server) {
    && s.mode != WriteLast
    && s.pcw == SymDiff(s.done, s.acked)
    && OkIds(s.up) == s.done * s.acked
  }

  ghost predicate LastOk(s: Server) {
    && s.mode != WriteFwd
    && s.pcw <= s.done && OkIds(s.up) <= s.done
    && (Well(s) ==> s.pcw == {} && OkIds(s.up) == s.done)
  }

  ghost predicate ServerOk(writes: seq<WriteId>, s: Server, last: bool) {
    && Counters(writes, s)
    && OkOnce(s.up)
    && JobsOk(Started(writes, Handled(s)), s)
    && if last then LastOk(s) else ForwarderOk(s)
  }

  /** Server `s` knows as acknowledged what the next server acknowledged and delivered. */
  ghost predicate LinkOk(s: Server, next: Server) {
    && next.delivered <= |next.up|
    && s.acked <= OkIds(next.up[..next.delivered])
    && (s.mode == WriteFwd ==> s.acked == OkIds(next.up[..next.delivered]))
    && next.taken <= s.taken
  }

  predicate Distinct(writes: seq<WriteId>) {
    0 !in writes && forall j, k :: 0 <= j < k < |writes| ==> writes[j] != writes[k]
  }

  ghost predicate Inv(c: Chain) {
    && Distinct(c.writes)
    && (forall i :: 0 <= i < |c.servers| ==> ServerOk(c.writes, c.servers[i], i == |c.servers| - 1))
    && (forall i :: 0 < i < |c.servers| ==> LinkOk(c.servers[i - 1], c.servers[i]))
  }

  // ----- Sets of acknowledged ids.

  lemma AppendAck(up: seq<Ack>, a: Ack)
    ensures OkIds(up + [a]) == OkIds(up) + if a.ok then {a.id} else {}
    ensures OkOnce(up) && (a.ok ==> a.id !in OkIds(up)) ==> OkOnce(up + [a])
  {
    var v := up + [a];
    assert v[|up|] == a;
    assert forall k :: 0 <= k < |up| ==> v[k] == up[k];
    forall w | w in OkIds(up) + if a.ok then {a.id} else {}
      ensures w in OkIds(v)
    {
      if w in OkIds(up) {
        var k :| 0 <= k < |up| && up[k].ok && up[k].id == w;
        assert v[k].ok;
      }
    }
  }

  /** Delivering one more status adds its id, which was not there before. */
  lemma DeliverAck(up: seq<Ack>, d: nat)
    requires d < |up| && OkOnce(up)
    ensures OkIds(up[..d + 1]) == OkIds(up[..d]) + if up[d].ok then {up[d].id} else {}
    ensures up[d].ok ==> up[d].id !in OkIds(up[..d])
  {
    assert up[..d + 1] == up[..d] + [up[d]];
    AppendAck(up[..d], up[d]);
  }

  lemma StartNext(writes: seq<WriteId>, n: nat)
    requires Distinct(writes) && n < |writes|
    ensures Started(writes, n + 1) == Started(writes, n) + {writes[n]}
    ensures writes[n] !in Started(writes, n)
  {
    assert writes[n] in writes;
  }

  lemma StartedGrows(writes: seq<WriteId>, w: WriteId, n: int)
    requires n <= |writes|
    ensures Started(writes + [w], n) == Started(writes, n)
  {
    var v := writes + [w];
    assert forall k :: 0 <= k < n ==> v[k] == writes[k];
  }

  // ----- One server.

  lemma FailOk(writes: seq<WriteId>, s: Server, w: WriteId, last: bool)
    requires ServerOk(writes, s, last)
    ensures ServerOk(writes, Fail(s, w), last)
  {
    AppendAck(s.up, Ack(w, false));
  }

  lemma FinishedOk(writes: seq<WriteId>, s: Server, ok: bool, last: bool)
    requires ServerOk(writes, s, last) && s.job.Some?
    ensures ServerOk(writes, WriteFinished(s, ok), last)
  {
    AppendAck(s.up, Ack(s.job.value, ok));
  }

  lemma StatusOk(writes: seq<WriteId>, s: Server, a: Ack)
    requires ServerOk(writes, s, false)
    requires a.ok ==> a.id !in s.acked
    ensures ServerOk(writes, WriteStatus(s, a), false)
  {
    AppendAck(s.up, a);
  }

  lemma ForwardOk(writes: seq<WriteId>, s: Server, last: bool)
    requires ServerOk(writes, s, last)
    requires Active(s) && !s.staged && s.taken < |writes|
    ensures ServerOk(writes, s.(taken := s.taken + 1, staged := true), last)
  {
  }

  lemma HandleOk(writes: seq<WriteId>, s: Server, last: bool)
    requires ServerOk(writes, s, last) && Distinct(writes)
    requires Active(s) && s.staged && s.job.None? && 0 < s.taken <= |writes|
    ensures ServerOk(writes, s.(staged := false, job := Some(writes[s.taken - 1])), last)
  {
    StartNext(writes, s.taken - 1);
  }

  lemma FlushOk(writes: seq<WriteId>, s: Server, last: bool)
    requires ServerOk(writes, s, last) && s.flushed < |s.up|
    ensures ServerOk(writes, s.(flushed := s.flushed + 1), last)
  {
  }

  lemma DeliveredOk(writes: seq<WriteId>, s: Server, last: bool)
    requires ServerOk(writes, s, last) && s.delivered < s.flushed
    ensures ServerOk(writes, s.(delivered := s.delivered + 1), last)
  {
  }

  lemma CloseOk(writes: seq<WriteId>, s: Server, last: bool)
    requires ServerOk(writes, s, last)
    ensures ServerOk(writes, s.(mode := Closed), last)
  {
  }

  lemma EndOk(writes: seq<WriteId>, s: Server, last: bool)
    requires ServerOk(writes, s, last) && Active(s) && !s.staged
    ensures ServerOk(writes, WriteEnd(s), last)
  {
  }

  lemma RejectOk(writes: seq<WriteId>, s: Server, last: bool)
    requires ServerOk(writes, s, last) && Distinct(writes)
    requires Active(s) && s.staged && s.job.None? && 0 < s.taken <= |writes|
    ensures ServerOk(writes, Fail(s.(staged := false), writes[s.taken - 1]), last)
  {
    StartNext(writes, s.taken - 1);
    AppendAck(s.up, Ack(writes[s.taken - 1], false));
  }

  // ----- The chain keeps the invariant.

  /** Replacing one server: it must be in order itself and fit its two neighbours. */
  lemma Replace(c: Chain, i: nat, s: Server)
    requires Inv(c) && i < |c.servers|
    requires ServerOk(c.writes, s, i == |c.servers| - 1)
    requires i + 1 < |c.servers| ==> LinkOk(s, c.servers[i + 1])
    requires 0 < i ==> LinkOk(c.servers[i - 1], s)
    ensures Inv(Update(c, i, s))
  {
    hide ServerOk, LinkOk;
  }

  /** What the neighbours see of a server that took a local step. */
  ghost predicate LocalStep(s: Server, t: Server) {
    && t.acked == s.acked && t.delivered == s.delivered && s.up <= t.up && s.taken <= t.taken
    && (t.mode == WriteFwd ==> s.mode == WriteFwd)
  }

  lemma LocalLinks(c: Chain, i: nat, t: Server)
    requires Inv(c) && i < |c.servers| && LocalStep(c.servers[i], t)
    requires 0 < i ==> t.taken <= c.servers[i - 1].taken
    ensures i + 1 < |c.servers| ==> LinkOk(t, c.servers[i + 1])
    ensures 0 < i ==> LinkOk(c.servers[i - 1], t)
  {
    if 0 < i {
      var s := c.servers[i];
      assert LinkOk(c.servers[i - 1], s);
      assert t.up[..s.delivered] == s.up[..s.delivered];
    }
    if i + 1 < |c.servers| {
      assert LinkOk(c.servers[i + 1 - 1], c.servers[i + 1]);
    }
  }

  lemma SendKeeps(c: Chain, w: WriteId)
    requires Inv(c) && w != 0 && w !in c.writes
    ensures Inv(c.(writes := c.writes + [w]))
  {
    forall i | 0 <= i < |c.servers|
      ensures ServerOk(c.writes + [w], c.servers[i], i == |c.servers| - 1)
    {
      StartedGrows(c.writes, w, Handled(c.servers[i]));
    }
  }

  /** Every event but a delivery or a new packet changes one server, locally. */
  lemma LocalServer(c: Chain, e: Event)
    requires Inv(c) && Enabled(c, e) && Local(e)
    ensures Next(c, e) == Update(c, e.i, Next(c, e).servers[e.i])
    ensures ServerOk(c.writes, Next(c, e).servers[e.i], e.i == |c.servers| - 1)
  {
    hide Fail, WriteFinished, JobsOk, ForwarderOk, LastOk, OkOnce, LinkOk;
    var s := c.servers[e.i];
    var last := e.i == |c.servers| - 1;
    match e
    case Forward(i) => {
      assert i > 0 ==> c.servers[i - 1].taken <= |c.writes|;
      ForwardOk(c.writes, s, last);
    }
    case Handle(i) => HandleOk(c.writes, s, last);
    case Reject(i) => RejectOk(c.writes, s, last);
    case JobEnds(i, ok) => FinishedOk(c.writes, s, ok, last);
    case Flush(i) => FlushOk(c.writes, s, last);
    case ForwardBreaks(i) => FailOk(c.writes, s, 0, last);
    case Ends(i) => EndOk(c.writes, s, last);
    case Closes(i) => CloseOk(c.writes, s, last);
  }

  lemma LocalShape(c: Chain, e: Event)
    requires Enabled(c, e) && Local(e)
    ensures LocalStep(c.servers[e.i], Next(c, e).servers[e.i])
    ensures Next(c, e).servers[e.i].taken <= if e.Forward? then Sent(c, e.i) else c.servers[e.i].taken
  {
  }

  lemma LocalKeeps(c: Chain, e: Event)
    requires Inv(c) && Enabled(c, e) && Local(e)
    ensures Inv(Next(c, e))
  {
    hide ServerOk, LocalStep, Next;
    LocalServer(c, e);
    LocalShape(c, e);
    var t := Next(c, e).servers[e.i];
    assert 0 < e.i ==> t.taken <= c.servers[e.i - 1].taken by {
      if 0 < e.i {
        assert LinkOk(c.servers[e.i - 1], c.servers[e.i]);
      }
    }
    LocalLinks(c, e.i, t);
    Replace(c, e.i, t);
  }

  lemma ReplacePair(c: Chain, i: nat, s: Server, t: Server)
    requires Inv(c) && 0 < i < |c.servers|
    requires ServerOk(c.writes, s, false) && ServerOk(c.writes, t, i == |c.servers| - 1)
    requires LinkOk(s, t)
    requires i + 1 < |c.servers| ==> LinkOk(t, c.servers[i + 1])
    requires 1 < i ==> LinkOk(c.servers[i - 2], s)
    ensures Inv(Update(Update(c, i, t), i - 1, s))
  {
    hide ServerOk, LinkOk;
    var d := Update(Update(c, i, t), i - 1, s);
    forall j | 0 < j < |d.servers|
      ensures LinkOk(d.servers[j - 1], d.servers[j])
    {
    }
  }

  /** The receiving server and the link to the sender, whose status is now delivered. */
  lemma Received(writes: seq<WriteId>, s: Server, next: Server)
    requires ServerOk(writes, s, false) && LinkOk(s, next)
    requires next.delivered < |next.up| && OkOnce(next.up)
    ensures ServerOk(writes, WriteStatus(s, next.up[next.delivered]), false)
    ensures LinkOk(WriteStatus(s, next.up[next.delivered]), next.(delivered := next.delivered + 1))
  {
    hide ServerOk, OkIds, OkOnce;
    DeliverAck(next.up, next.delivered);
    StatusOk(writes, s, next.up[next.delivered]);
  }

  /** Receiving a status only changes what upstream sees by appending to the output. */
  lemma ReceivedLink(prev: Server, s: Server, a: Ack)
    requires LinkOk(prev, s)
    ensures LinkOk(prev, WriteStatus(s, a))
  {
    hide OkIds;
    assert WriteStatus(s, a).up[..s.delivered] == s.up[..s.delivered];
  }

  lemma DeliverKeeps(c: Chain, i: nat)
    requires Inv(c) && Enabled(c, StatusArrives(i))
    ensures Inv(Next(c, StatusArrives(i)))
  {
    hide WriteStatus, JobsOk, ForwarderOk, LastOk, OkIds, OkOnce;
    var next := c.servers[i];
    var t := next.(delivered := next.delivered + 1);
    DeliveredOk(c.writes, next, i == |c.servers| - 1);
    if i + 1 < |c.servers| {
      assert LinkOk(c.servers[i + 1 - 1], c.servers[i + 1]);
    }
    if i == 0 {
      Replace(c, i, t);
    } else {
      var s := c.servers[i - 1];
      Received(c.writes, s, next);
      if 1 < i {
        assert LinkOk(c.servers[i - 1 - 1], c.servers[i - 1]);
        ReceivedLink(c.servers[i - 2], s, next.up[next.delivered]);
      }
      ReplacePair(c, i, WriteStatus(s, next.up[next.delivered]), t);
    }
  }

  // ----- All runs.

  lemma StartOk(n: nat)
    ensures Inv(Start(n))
  {
    assert Started([], 0) == {0};
  }

  lemma StepKeeps(c: Chain, e: Event)
    requires Inv(c) && Enabled(c, e)
    ensures Inv(Next(c, e))
  {
    match e
    case ClientSends(w) => SendKeeps(c, w);
    case StatusArrives(i) => DeliverKeeps(c, i);
    case _ => LocalKeeps(c, e);
  }

  ghost predicate Run(states: seq<Chain>, events: seq<Event>) {
    && |states| == |events| + 1
    && (exists n: nat :: states[0] == Start(n))
    && forall k :: 0 <= k < |events| ==> Enabled(states[k], events[k]) && states[k + 1] == Next(states[k], events[k])
  }

  lemma {:induction false} RunKeeps(states: seq<Chain>, events: seq<Event>, k: nat)
    requires Run(states, events) && k < |states|
    ensures Inv(states[k])
  {
    hide Inv, Enabled, Next, Start;
    if k == 0 {
      var n: nat :| states[0] == Start(n);
      StartOk(n);
    } else {
      RunKeeps(states, events, k - 1);
      StepKeeps(states[k - 1], events[k - 1]);
    }
  }

  // ----- What an acknowledgement means.

  /** The OK statuses the client has received. */
  function ClientOks(c: Chain): set<WriteId>
    requires 0 < |c.servers| && c.servers[0].delivered <= |c.servers[0].up|
  {
    OkIds(c.servers[0].up[..c.servers[0].delivered])
  }

  /** What server `i` acknowledged is on its own disk and on every disk behind it. */
  lemma {:induction false} AcknowledgedIsDone(c: Chain, i: nat, j: nat, w: WriteId)
    requires Inv(c) && i <= j < |c.servers|
    requires w in OkIds(c.servers[i].up)
    ensures w in c.servers[j].done
    decreases j - i
  {
    if i < j {
      assert LinkOk(c.servers[i + 1 - 1], c.servers[i + 1]);
      PrefixIds(c.servers[i + 1].up, c.servers[i + 1].delivered);
      AcknowledgedIsDone(c, i + 1, j, w);
    }
  }

  lemma PrefixIds(up: seq<Ack>, d: nat)
    requires d <= |up|
    ensures OkIds(up[..d]) <= OkIds(up)
  {
    assert forall k :: 0 <= k < d ==> up[..d][k] == up[k];
  }

  /** Nothing has gone wrong and nothing is in flight. */
  predicate Settled(c: Chain) {
    forall i :: 0 <= i < |c.servers| ==> Active(c.servers[i]) && c.servers[i].delivered == |c.servers[i].up|
  }

  /** In a settled chain nothing done everywhere goes unacknowledged. */
  lemma {:induction false} DoneIsAcknowledged(c: Chain, i: nat, w: WriteId)
    requires Inv(c) && Settled(c) && i < |c.servers|
    requires forall j :: i <= j < |c.servers| ==> w in c.servers[j].done
    ensures w in OkIds(c.servers[i].up)
    decreases |c.servers| - i
  {
    if i + 1 < |c.servers| {
      assert LinkOk(c.servers[i + 1 - 1], c.servers[i + 1]);
      var next := c.servers[i + 1];
      assert next.up[..next.delivered] == next.up;
      DoneIsAcknowledged(c, i + 1, w);
    }
  }

  lemma OnlyOnce(up: seq<Ack>, d: nat)
    requires OkOnce(up) && d <= |up|
    ensures OkOnce(up[..d])
  {
    assert forall k :: 0 <= k < d ==> up[..d][k] == up[k];
  }

  /**
   In every state of every run of a chain of any length: the half-completed set is exactly the
   symmetric difference of both halves; the client has at most one OK per write, and only for
   writes that every server has done.
   */
  lemma RunSafe(states: seq<Chain>, events: seq<Event>, k: nat)
    requires Run(states, events) && k < |states|
    ensures forall i :: 0 <= i < |states[k].servers| - 1 ==>
              states[k].servers[i].pcw == SymDiff(states[k].servers[i].done, states[k].servers[i].acked)
    ensures 0 < |states[k].servers| ==>
              states[k].servers[0].delivered <= |states[k].servers[0].up| &&
              OkOnce(states[k].servers[0].up[..states[k].servers[0].delivered])
    ensures forall j :: 0 <= j < |states[k].servers| ==> ClientOks(states[k]) <= states[k].servers[j].done
  {
    hide JobsOk, OkIds, OkOnce;
    RunKeeps(states, events, k);
    var c := states[k];
    if 0 < |c.servers| {
      var s := c.servers[0];
      assert ServerOk(c.writes, s, 0 == |c.servers| - 1);
      OnlyOnce(s.up, s.delivered);
      PrefixIds(s.up, s.delivered);
      forall j, w | 0 <= j < |c.servers| && w in ClientOks(c)
        ensures w in c.servers[j].done
      {
        AcknowledgedIsDone(c, 0, j, w);
      }
    }
  }

  /** Once a run has settled without error, the client has an OK exactly for what every server has done. */
  lemma RunComplete(states: seq<Chain>, events: seq<Event>, k: nat, w: WriteId)
    requires Run(states, events) && k < |states|
    requires Settled(states[k]) && 0 < |states[k].servers|
    ensures w in ClientOks(states[k]) <==> forall j :: 0 <= j < |states[k].servers| ==> w in states[k].servers[j].done
  {
    hide JobsOk, OkIds, OkOnce, Inv;
    RunKeeps(states, events, k);
    RunSafe(states, events, k);
    var c := states[k];
    var s := c.servers[0];
    assert s.up[..s.delivered] == s.up;
    if forall j :: 0 <= j < |c.servers| ==> w in c.servers[j].done {
      DoneIsAcknowledged(c, 0, w);
    }
  }

  /** When the first server has accepted the end of the session, all it has received is on every disk. */
  lemma EndIsComplete(states: seq<Chain>, events: seq<Event>, k: nat, j: nat)
    requires Run(states, events) && k < |states| && j < |states[k].servers|
    requires states[k].servers[0].mode == Idle
    ensures Started(states[k].writes, states[k].servers[0].taken) <= states[k].servers[j].done
  {
    RunKeeps(states, events, k);
    var c := states[k];
    var s := c.servers[0];
    assert ServerOk(c.writes, s, 0 == |c.servers| - 1);
    forall w | w in s.done
      ensures w in c.servers[j].done
    {
      AcknowledgedIsDone(c, 0, j, w);
    }
  }

  // ----- The chain of connection entries.

  /** The connection entries are in the states of the servers of `c`. */
  ghost predicate Mirrors(conns: seq<Connection>, c: Chain)
    reads conns
  {
    && |conns| == |c.servers|
    && (forall j, k :: 0 <= j < k < |conns| ==> conns[j] != conns[k])
    && forall i :: 0 <= i < |conns| ==> conns[i].Model() == c.servers[i]
  }

  /** The chain after the events; one that cannot happen is left out. */
  function After(c: Chain, events: seq<Event>): Chain {
    if events == [] then c
    else
      var d, e := After(c, events[..|events| - 1]), events[|events| - 1];
      if Enabled(d, e) then Next(d, e) else d
  }

  lemma AfterNext(c: Chain, events: seq<Event>, k: nat)
    requires k < |events|
    ensures After(c, events[..k + 1]) ==
              var d := After(c, events[..k]); if Enabled(d, events[k]) then Next(d, events[k]) else d
  {
    hide Enabled, Next;
    assert events[..k + 1][..k] == events[..k];
  }

  lemma {:induction false} AfterIsRun(n: nat, events: seq<Event>) returns (states: seq<Chain>, happened: seq<Event>)
    ensures Run(states, happened) && states[|happened|] == After(Start(n), events)
    decreases |events|
  {
    hide Enabled, Next, Start;
    if events == [] {
      states, happened := [Start(n)], [];
    } else {
      var e := events[|events| - 1];
      states, happened := AfterIsRun(n, events[..|events| - 1]);
      var d := states[|happened|];
      if Enabled(d, e) {
        states, happened := states + [Next(d, e)], happened + [e];
      }
    }
  }

  lemma {:induction false} AfterLength(c: Chain, events: seq<Event>)
    ensures |After(c, events).servers| == |c.servers|
  {
    if events != [] {
      AfterLength(c, events[..|events| - 1]);
    }
  }

  /**
   A chain of `n` connection entries lives through `events`. Afterwards the client has at most
   one OK per write, only for writes done everywhere, and a session that the first server ended
   is on every disk.
   */
  method Live(n: nat, events: seq<Event>) returns (conns: seq<Connection>, writes: seq<WriteId>)
    ensures Mirrors(conns, After(Start(n), events)) && |conns| == n && writes == After(Start(n), events).writes
    ensures forall i :: 0 <= i < n - 1 ==> conns[i].partiallyCompletedWrites == SymDiff(conns[i].done, conns[i].acked)
    ensures n > 0 ==>
              && conns[0].delivered <= |conns[0].output| && OkOnce(conns[0].output[..conns[0].delivered])
              && forall j :: 0 <= j < n ==> OkIds(conns[0].output[..conns[0].delivered]) <= conns[j].done
    ensures n > 0 && conns[0].mode == Idle ==> forall j :: 0 <= j < n ==> Started(writes, conns[0].taken) <= conns[j].done
  {
    conns := Connect(n);
    writes := [];
    StartLength(n);
    hide Enabled, Next, Start, OkIds, OkOnce, Started;
    var k: nat := 0;
    while k < |events|
      invariant k <= |events| && fresh(conns)
      invariant Mirrors(conns, After(Start(n), events[..k])) && writes == After(Start(n), events[..k]).writes
    {
      AfterNext(Start(n), events, k);
      writes := ServeEvent(conns, writes, events[k], After(Start(n), events[..k]));
      k := k + 1;
    }
    assert events[..k] == events;
    LiveSafe(n, events);
  }

  lemma StartLength(n: nat)
    ensures |Start(n).servers| == n && Start(n).writes == []
  {
  }

  lemma LiveSafe(n: nat, events: seq<Event>)
    ensures var c := After(Start(n), events);
            && |c.servers| == n
            && (forall i :: 0 <= i < n - 1 ==> c.servers[i].pcw == SymDiff(c.servers[i].done, c.servers[i].acked))
            && (n > 0 ==>
              && c.servers[0].delivered <= |c.servers[0].up| && OkOnce(c.servers[0].up[..c.servers[0].delivered])
              && forall j :: 0 <= j < n ==> OkIds(c.servers[0].up[..c.servers[0].delivered]) <= c.servers[j].done)
            && (n > 0 && c.servers[0].mode == Idle ==>
              forall j :: 0 <= j < n ==> Started(c.writes, c.servers[0].taken) <= c.servers[j].done)
  {
    AfterLength(Start(n), events);
    StartLength(n);
    hide After, Start, OkIds, OkOnce, Started, Run;
    var c := After(Start(n), events);
    var states, happened := AfterIsRun(n, events);
    RunLength(states, happened);
    RunSafe(states, happened, |happened|);
    if n > 0 && c.servers[0].mode == Idle {
      forall j | 0 <= j < n
        ensures Started(c.writes, c.servers[0].taken) <= c.servers[j].done
      {
        EndIsComplete(states, happened, |happened|, j);
      }
    }
  }

  lemma RunLength(states: seq<Chain>, events: seq<Event>)
    requires Run(states, events)
    ensures |states| == |events| + 1
  {
  }

  method Connect(n: nat) returns (conns: seq<Connection>)
    ensures fresh(conns) && Mirrors(conns, Start(n))
  {
    conns := [];
    while |conns| < n
      invariant |conns| <= n && fresh(conns)
      invariant forall j, k :: 0 <= j < k < |conns| ==> conns[j] != conns[k]
      invariant forall i :: 0 <= i < |conns| ==> conns[i].Model() == Start(n).servers[i]
    {
      var c := new Connection(|conns| + 1 == n);
      conns := conns + [c];
    }
  }

  /** One event, if it can happen. */
  method ServeEvent(conns: seq<Connection>, writes: seq<WriteId>, e: Event, ghost c: Chain) returns (sent: seq<WriteId>)
    requires Mirrors(conns, c) && writes == c.writes
    modifies conns
    ensures var d := if Enabled(c, e) then Next(c, e) else c; Mirrors(conns, d) && sent == d.writes
  {
    sent := writes;
    match e {
      case ClientSends(w) =>
        if w != 0 && w !in writes {
          sent := writes + [w];
        }
      case StatusArrives(i) =>
        Deliver(conns, i, c);
      case _ =>
        ServeLocal(conns, writes, e, c);
    }
  }

  /** A status reaches the server before, or the client. */
  method Deliver(conns: seq<Connection>, i: nat, ghost c: Chain)
    requires Mirrors(conns, c)
    modifies conns
    ensures Mirrors(conns, if Enabled(c, StatusArrives(i)) then Next(c, StatusArrives(i)) else c)
  {
    hide WriteStatus;
    if i < |conns| {
      assert conns[i].Model() == c.servers[i];
      if conns[i].delivered < conns[i].flushed <= |conns[i].output| {
        var a := conns[i].output[conns[i].delivered];
        conns[i].delivered := conns[i].delivered + 1;
        if i > 0 {
          assert conns[i - 1].Model() == c.servers[i - 1];
          conns[i - 1].ReceiveStatus(a);
        }
      }
    }
  }

  lemma LocalMeaning(c: Chain, e: Event)
    requires Local(e)
    ensures Enabled(c, e) <==> e.i < |c.servers| && LocalEnabled(c.servers[e.i], e, c.writes, Sent(c, e.i), e.i + 1 == |c.servers|)
    ensures Enabled(c, e) ==> Next(c, e) == Update(c, e.i, LocalNext(c.servers[e.i], e, c.writes))
  {
  }

  method ServeLocal(conns: seq<Connection>, writes: seq<WriteId>, e: Event, ghost c: Chain)
    requires Mirrors(conns, c) && writes == c.writes && Local(e)
    modifies conns
    ensures Mirrors(conns, if Enabled(c, e) then Next(c, e) else c)
  {
    LocalMeaning(c, e);
    hide LocalEnabled, LocalNext, Enabled, Next;
    if e.i < |conns| {
      assert conns[e.i].Model() == c.servers[e.i];
      assert e.i > 0 ==> conns[e.i - 1].Model() == c.servers[e.i - 1];
      LocalEvent(conns[e.i], e, writes, if e.i == 0 then |writes| else conns[e.i - 1].taken, e.i + 1 == |conns|);
    }
  }

  /** An event of one server, given how many packets were sent to it and whether it is the last. */
  method LocalEvent(x: Connection, e: Event, writes: seq<WriteId>, sent: nat, last: bool)
    requires Local(e)
    modifies x
    ensures x.Model() == if LocalEnabled(old(x.Model()), e, writes, sent, last) then LocalNext(old(x.Model()), e, writes) else old(x.Model())
  {
    hide Fail, WriteFinished, EndAccepted;
    var active := x.mode == WriteFwd || x.mode == WriteLast;
    match e {
      case Forward(_) =>
        if active && !x.staged && x.taken < sent {
          x.taken, x.staged := x.taken + 1, true;
        }
      case Handle(_) =>
        if active && x.staged && x.job.None? && 0 < x.taken <= |writes| {
          x.staged, x.job := false, Some(writes[x.taken - 1]);
        }
      case Reject(_) =>
        if active && x.staged && x.job.None? && 0 < x.taken <= |writes| {
          x.staged := false;
          x.SendError(writes[x.taken - 1]);
        }
      case JobEnds(_, ok) =>
        if x.job.Some? {
          x.FinishWrite(ok);
        }
      case Flush(_) =>
        if x.flushed < |x.output| {
          x.flushed := x.flushed + 1;
        }
      case ForwardBreaks(_) =>
        if !last && x.mode == WriteFwd {
          x.SendError(0);
        }
      case Ends(_) =>
        if active && !x.staged && x.job.None? {
          var _ := x.EndWrite();
        }
      case Closes(_) =>
        x.mode := Closed;
    }
  }
}
