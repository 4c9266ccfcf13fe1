/**
 Who owns an open file descriptor. A cached descriptor sits in the pool slot of its own number,
 in an `OpenChunk` that refers to its chunk. Deleting the chunk moves the `OpenChunk` to the
 purge list without its chunk; evicting it moves it to the evicting thread's batch with the
 chunk locked. Destroying an `OpenChunk` closes the descriptor.
 */
module Descriptors {
  import opened Wrappers

  type Addr = nat
  type Thread = nat
  type Fd = int

  const NO_FD: Fd := -1

  /**
   Who may touch a chunk. `Opening` and `Evicting` are phases of a locked chunk: its thread is
   between `open` and `acquire`, or holds its `OpenChunk` in a batch. `Dead` is `CH_DELETED`.
   */
  datatype Life = Avail | Locked(thread: Thread) | Opening(thread: Thread) | Evicting(thread: Thread) | Dead

  datatype Chunk = Chunk(life: Life, fd: Fd, refs: nat)

  datatype Place = Purged | Flushing(thread: Thread) | Batch(thread: Thread)

  /** An `OpenChunk` outside its slot, stored under its descriptor `fd_`. */
  datatype Moved = Moved(place: Place, chunk: Option<Addr>)

  /**
   `slots[fd]` is the chunk of the `OpenChunk` in slot `fd`; a slot that is not in the map is
   empty. `idle` is the LRU list, `opening` the descriptors between `open` and `acquire`, `open`
   what the kernel has open. `fault` is set by closing a descriptor that is not open, by
   overwriting a live slot, by purging an empty one, and by a second `OpenChunk` for a descriptor.
   */
  datatype State = State(
    chunks: map<Addr, Chunk>, slots: map<Fd, Addr>, idle: set<Fd>, opening: map<Fd, Addr>,
    moved: map<Fd, Moved>, open: set<Fd>, fault: bool)

  datatype Action =
    | Create(a: Addr, t: Thread)
    | Lock(a: Addr, t: Thread)
    | Unlock(a: Addr)
    | Die(a: Addr)
    | Remove(a: Addr)
    | OpenFile(a: Addr, fd: Fd)
    | Acquire(a: Addr)
    | Begin(a: Addr)
    | GiveUp(a: Addr)
    | End(a: Addr)
    | Evict(t: Thread, fd: Fd)
    | Flush(t: Thread)
    | Destroy(fd: Fd)

  // ----- Steps.

  function SetChunk(s: State, a: Addr, c: Chunk): State {
    s.(chunks := s.chunks[a := c])
  }

  function Move(s: State, fd: Fd, m: Moved): State {
    s.(slots := s.slots - {fd}, idle := s.idle - {fd}, moved := s.moved[fd := m], fault := s.fault || fd in s.moved)
  }

  /** `IndexedResourcePool::purge` of the descriptor of a chunk about to be erased */
  function Purge(s: State, fd: Fd): State {
    if fd <= 0 then s
    else if fd !in s.slots || s.slots[fd] !in s.chunks || s.chunks[s.slots[fd]].fd != fd then s.(fault := true)
    else Move(s, fd, Moved(Purged, None))
  }

  function CloseFd(s: State, fd: Fd): State {
    if fd < 0 then s else s.(open := s.open - {fd}, fault := s.fault || fd !in s.open)
  }

  /** `~OpenChunk`: with a chunk, it closes and clears the chunk's descriptor; else its own. */
  function DestroyMoved(s: State, fd: Fd, m: Moved): State {
    if m.chunk.None? then CloseFd(s, fd)
    else if m.chunk.value !in s.chunks || !s.chunks[m.chunk.value].life.Evicting? then s.(fault := true)
    else
      var c := s.chunks[m.chunk.value];
      SetChunk(CloseFd(s, c.fd), m.chunk.value, c.(fd := NO_FD, life := Locked(c.life.thread)))
  }

  predicate Enabled(s: State, x: Action) {
    match x
    case Create(a, _) => a !in s.chunks
    case Lock(a, _) => a in s.chunks && s.chunks[a].life == Avail
    case Unlock(a) => a in s.chunks && s.chunks[a].life.Locked?
    case Die(a) => a in s.chunks && s.chunks[a].life.Locked?
    case Remove(a) => a in s.chunks && Pooled(s.chunks[a].life)
    case OpenFile(a, fd) =>
      a in s.chunks && s.chunks[a].life.Locked? && s.chunks[a].refs == 0 && s.chunks[a].fd < 0 &&
      fd > 0 && fd !in s.open
    case Acquire(a) => a in s.chunks && s.chunks[a].life.Opening?
    case Begin(a) => a in s.chunks && s.chunks[a].life.Locked? && s.chunks[a].fd >= 0
    case GiveUp(a) => a in s.chunks && s.chunks[a].life.Locked? && s.chunks[a].refs == 0 && s.chunks[a].fd >= 0
    case End(a) => a in s.chunks && s.chunks[a].life.Locked? && s.chunks[a].refs > 0
    case Evict(t, fd) =>
      fd in s.idle && fd in s.slots && s.slots[fd] in s.chunks && s.chunks[s.slots[fd]].life == Avail
    case Flush(_) => true
    case Destroy(fd) => fd in s.moved && s.moved[fd].place != Purged
  }

  function Next(s: State, x: Action): State
    requires Enabled(s, x)
  {
    match x
    case Create(a, t) => SetChunk(s, a, Chunk(Locked(t), NO_FD, 0))
    case Lock(a, t) => SetChunk(s, a, s.chunks[a].(life := Locked(t)))
    case Unlock(a) => SetChunk(s, a, s.chunks[a].(life := Avail))
    case Die(a) => SetChunk(s, a, s.chunks[a].(life := Dead))
    case Remove(a) =>
      var t := Purge(s, s.chunks[a].fd);
      t.(chunks := t.chunks - {a})
    case OpenFile(a, fd) =>
      SetChunk(s, a, s.chunks[a].(fd := fd, life := Opening(s.chunks[a].life.thread)))
        .(opening := s.opening[fd := a], open := s.open + {fd}, fault := s.fault || fd in s.opening)
    case Acquire(a) =>
      var c := s.chunks[a];
      SetChunk(s, a, c.(life := Locked(c.life.thread)))
        .(slots := s.slots[c.fd := a], idle := s.idle - {c.fd}, opening := s.opening - {c.fd}, fault := s.fault || c.fd in s.slots)
    case Begin(a) =>
      var c := s.chunks[a];
      SetChunk(s, a, c.(refs := c.refs + 1)).(idle := if c.refs == 0 then s.idle - {c.fd} else s.idle)
    case GiveUp(a) => s.(idle := s.idle + {s.chunks[a].fd})
    case End(a) =>
      var c := s.chunks[a];
      SetChunk(s, a, c.(refs := c.refs - 1)).(idle := if c.refs == 1 then s.idle + {c.fd} else s.idle)
    case Evict(t, fd) =>
      var a := s.slots[fd];
      SetChunk(Move(s, fd, Moved(Batch(t), Some(a))), a, s.chunks[a].(life := Evicting(t)))
    case Flush(t) =>
      s.(moved := map fd | fd in s.moved :: if s.moved[fd].place == Purged then s.moved[fd].(place := Flushing(t)) else s.moved[fd])
    case Destroy(fd) => DestroyMoved(s.(moved := s.moved - {fd}), fd, s.moved[fd])
  }

  const INITIAL := State(map[], map[], {}, map[], map[], {}, false)

  // ----- Invariant.

  /** The chunk's descriptor, if any, sits in the pool. */
  predicate Pooled(l: Life) {
    l.Avail? || l.Locked? || l.Dead?
  }

  /** Where the descriptor of a chunk is. */
  ghost predicate ChunksOk(chunks: map<Addr, Chunk>, slots: map<Fd, Addr>) {
    forall a :: a in chunks ==>
      && (chunks[a].fd == NO_FD || chunks[a].fd > 0)
      && (chunks[a].refs > 0 ==> Pooled(chunks[a].life) && chunks[a].fd > 0)
      && (Pooled(chunks[a].life) && chunks[a].fd > 0 ==> chunks[a].fd in slots && slots[chunks[a].fd] == a)
  }

  /** Every live slot refers to a registered chunk that has its descriptor. */
  ghost predicate SlotsOk(chunks: map<Addr, Chunk>, slots: map<Fd, Addr>) {
    forall fd :: fd in slots ==>
      fd > 0 && slots[fd] in chunks && chunks[slots[fd]].fd == fd && Pooled(chunks[slots[fd]].life)
  }

  /** Only descriptors of chunks that nobody uses are in the LRU list. */
  ghost predicate IdleOk(chunks: map<Addr, Chunk>, slots: map<Fd, Addr>, idle: set<Fd>) {
    forall fd :: fd in idle ==> fd in slots && slots[fd] in chunks && chunks[slots[fd]].refs == 0
  }

  ghost predicate OpeningOk(chunks: map<Addr, Chunk>, opening: map<Fd, Addr>) {
    && (forall fd :: fd in opening ==>
        fd > 0 && opening[fd] in chunks && chunks[opening[fd]].fd == fd && chunks[opening[fd]].life.Opening?)
    && (forall a :: a in chunks && chunks[a].life.Opening? ==> chunks[a].fd in opening && opening[chunks[a].fd] == a)
  }

  ghost predicate MovedOk(chunks: map<Addr, Chunk>, moved: map<Fd, Moved>) {
    forall fd :: fd in moved ==>
      && fd > 0
      && (moved[fd].chunk.Some? ==>
          && moved[fd].chunk.value in chunks && chunks[moved[fd].chunk.value].fd == fd
          && chunks[moved[fd].chunk.value].life.Evicting?
          && moved[fd].place == Batch(chunks[moved[fd].chunk.value].life.thread))
      && (moved[fd].chunk.None? ==> !moved[fd].place.Batch?)
  }

  /** What is open is owned, by one owner only. */
  predicate OwnedOnce(open: set<Fd>, slots: set<Fd>, moved: set<Fd>, opening: set<Fd>) {
    open == slots + moved + opening && slots !! moved !! opening
  }

  /** Chunks, the pool's slots and its LRU list agree. */
  ghost predicate PoolOk(s: State) {
    ChunksOk(s.chunks, s.slots) && SlotsOk(s.chunks, s.slots) && IdleOk(s.chunks, s.slots, s.idle)
  }

  /** Descriptors on their way into or out of the pool, and what is open. */
  ghost predicate OutsideOk(s: State) {
    && OpeningOk(s.chunks, s.opening) && MovedOk(s.chunks, s.moved)
    && OwnedOnce(s.open, s.slots.Keys, s.moved.Keys, s.opening.Keys) && !s.fault
  }

  ghost predicate Inv(s: State) {
    PoolOk(s) && OutsideOk(s)
  }

  lemma InitialInv()
    ensures Inv(INITIAL)
  {
  }

  /** Locking, unlocking, dying and counting users leave a descriptor where it is. */
  lemma PlainPool(s: State, a: Addr, c: Chunk, idle: set<Fd>)
    requires PoolOk(s) && a in s.chunks && Pooled(s.chunks[a].life) && Pooled(c.life) && c.fd == s.chunks[a].fd
    requires c.refs > 0 ==> c.fd > 0
    requires idle <= s.idle + {c.fd}
    requires c.fd > 0 && c.fd in idle ==> c.refs == 0
    requires c.fd <= 0 ==> c.fd !in idle
    ensures PoolOk(SetChunk(s, a, c).(idle := idle))
  {
  }

  lemma PlainOutside(s: State, a: Addr, c: Chunk, idle: set<Fd>)
    requires OutsideOk(s) && Pooled(c.life) && (a in s.chunks ==> Pooled(s.chunks[a].life))
    ensures OutsideOk(SetChunk(s, a, c).(idle := idle))
  {
  }

  lemma CreateKeeps(s: State, a: Addr, t: Thread)
    requires Inv(s) && a !in s.chunks
    ensures Inv(Next(s, Create(a, t)))
  {
    PlainOutside(s, a, Chunk(Locked(t), NO_FD, 0), s.idle);
  }

  lemma UseKeeps(s: State, x: Action)
    requires Inv(s) && Enabled(s, x)
    requires x.Lock? || x.Unlock? || x.Die? || x.Begin? || x.GiveUp? || x.End?
    ensures Inv(Next(s, x))
  {
    hide OutsideOk;
    var c := s.chunks[x.a];
    var t := Next(s, x);
    assert t == SetChunk(s, x.a, t.chunks[x.a]).(idle := t.idle) by {
      assert s.chunks[x.a := c] == s.chunks;
    }
    PlainPool(s, x.a, t.chunks[x.a], t.idle);
    PlainOutside(s, x.a, t.chunks[x.a], t.idle);
  }

  lemma RemovePool(s: State, a: Addr)
    requires Inv(s) && Enabled(s, Remove(a))
    ensures PoolOk(Next(s, Remove(a)))
  {
  }

  /** A chunk whose descriptor is pooled is not one that opening or moved descriptors refer to. */
  lemma ForgetChunk(s: State, a: Addr)
    requires a in s.chunks && Pooled(s.chunks[a].life)
    ensures OpeningOk(s.chunks, s.opening) ==> OpeningOk(s.chunks - {a}, s.opening)
    ensures MovedOk(s.chunks, s.moved) ==> MovedOk(s.chunks - {a}, s.moved)
  {
  }

  /** Without a descriptor nothing else changes. */
  lemma RemoveClosed(s: State, a: Addr)
    requires Inv(s) && Enabled(s, Remove(a)) && s.chunks[a].fd <= 0
    ensures OutsideOk(Next(s, Remove(a)))
  {
    ForgetChunk(s, a);
    hide OpeningOk, MovedOk, OwnedOnce, PoolOk;
  }

  /** The descriptor goes from its slot to the purge list. */
  lemma RemoveOpen(s: State, a: Addr)
    requires Inv(s) && Enabled(s, Remove(a)) && s.chunks[a].fd > 0
    ensures OutsideOk(Next(s, Remove(a)))
  {
    ForgetChunk(s, a);
    hide OpeningOk;
  }

  lemma RemoveOutside(s: State, a: Addr)
    requires Inv(s) && Enabled(s, Remove(a))
    ensures OutsideOk(Next(s, Remove(a)))
  {
    hide OutsideOk, Next, Inv;
    if s.chunks[a].fd > 0 {
      RemoveOpen(s, a);
    } else {
      RemoveClosed(s, a);
    }
  }

  lemma OpenFilePool(s: State, a: Addr, fd: Fd)
    requires Inv(s) && Enabled(s, OpenFile(a, fd))
    ensures PoolOk(Next(s, OpenFile(a, fd)))
  {
  }

  lemma OpenFileOutside(s: State, a: Addr, fd: Fd)
    requires Inv(s) && Enabled(s, OpenFile(a, fd))
    ensures OutsideOk(Next(s, OpenFile(a, fd)))
  {
  }

  lemma AcquirePool(s: State, a: Addr)
    requires Inv(s) && Enabled(s, Acquire(a))
    ensures PoolOk(Next(s, Acquire(a)))
  {
  }

  lemma AcquireOutside(s: State, a: Addr)
    requires Inv(s) && Enabled(s, Acquire(a))
    ensures OutsideOk(Next(s, Acquire(a)))
  {
  }

  lemma EvictPool(s: State, t: Thread, fd: Fd)
    requires Inv(s) && Enabled(s, Evict(t, fd))
    ensures PoolOk(Next(s, Evict(t, fd)))
  {
  }

  lemma EvictOutside(s: State, t: Thread, fd: Fd)
    requires Inv(s) && Enabled(s, Evict(t, fd))
    ensures OutsideOk(Next(s, Evict(t, fd)))
  {
  }

  lemma FlushPool(s: State, t: Thread)
    requires Inv(s) && Enabled(s, Flush(t))
    ensures PoolOk(Next(s, Flush(t)))
  {
  }

  lemma FlushOutside(s: State, t: Thread)
    requires Inv(s) && Enabled(s, Flush(t))
    ensures OutsideOk(Next(s, Flush(t)))
  {
  }

  lemma DestroyPool(s: State, fd: Fd)
    requires Inv(s) && Enabled(s, Destroy(fd))
    ensures PoolOk(Next(s, Destroy(fd)))
  {
  }

  lemma DestroyOutside(s: State, fd: Fd)
    requires Inv(s) && Enabled(s, Destroy(fd))
    ensures OutsideOk(Next(s, Destroy(fd)))
  {
  }

  lemma StepKeeps(s: State, x: Action)
    requires Inv(s) && Enabled(s, x)
    ensures Inv(Next(s, x))
  {
    hide PoolOk, OutsideOk, Next;
    match x
    case Create(a, t) => CreateKeeps(s, a, t);
    case Remove(a) => { RemovePool(s, a); RemoveOutside(s, a); }
    case OpenFile(a, fd) => { OpenFilePool(s, a, fd); OpenFileOutside(s, a, fd); }
    case Acquire(a) => { AcquirePool(s, a); AcquireOutside(s, a); }
    case Evict(t, fd) => { EvictPool(s, t, fd); EvictOutside(s, t, fd); }
    case Flush(t) => { FlushPool(s, t); FlushOutside(s, t); }
    case Destroy(fd) => { DestroyPool(s, fd); DestroyOutside(s, fd); }
    case _ => UseKeeps(s, x);
  }

  // ----- All runs.

  ghost predicate Run(states: seq<State>, actions: seq<Action>) {
    && |states| == |actions| + 1 && states[0] == INITIAL
    && forall k :: 0 <= k < |actions| ==> Enabled(states[k], actions[k]) && states[k + 1] == Next(states[k], actions[k])
  }

  lemma {:induction false} RunKeeps(states: seq<State>, actions: seq<Action>, k: nat)
    requires Run(states, actions) && k < |states|
    ensures Inv(states[k])
  {
    if k == 0 {
      InitialInv();
    } else {
      hide Inv, Enabled, Next;
      RunKeeps(states, actions, k - 1);
      StepKeeps(states[k - 1], actions[k - 1]);
    }
  }

  predicate InSlot(s: State, fd: Fd) {
    fd in s.slots && s.slots[fd] in s.chunks && s.chunks[s.slots[fd]].fd == fd
  }

  /**
   In every state of every run: no fault has happened, an open descriptor is in exactly one of
   the pool (with its chunk registered), the purge lists and batches, or an `open` about to be
   stored; and a chunk in use has its descriptor in the pool, open and out of reach of eviction.
   */
  lemma RunSafe(states: seq<State>, actions: seq<Action>, k: nat, fd: Fd, a: Addr)
    requires Run(states, actions) && k < |states|
    ensures !states[k].fault
    ensures fd in states[k].slots ==> InSlot(states[k], fd)
    ensures fd in states[k].open <==> fd in states[k].slots || fd in states[k].moved || fd in states[k].opening
    ensures !(fd in states[k].slots && fd in states[k].moved) && !(fd in states[k].slots && fd in states[k].opening) &&
            !(fd in states[k].moved && fd in states[k].opening)
    ensures a in states[k].chunks && states[k].chunks[a].refs > 0 ==>
              states[k].chunks[a].fd in states[k].open - states[k].idle && InSlot(states[k], states[k].chunks[a].fd)
  {
    hide Run;
    RunKeeps(states, actions, k);
  }
}
