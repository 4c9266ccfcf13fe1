/**
 The chunk locking protocol: every step below runs under the registry lock. A call of
 `hdd_chunk_get` either returns a locked chunk, returns nothing, or waits on the condition
 variable attached to the chunk; condition variables are shared and reused, and a wait may
 end without a signal.
 */
module ChunkLocking {
  import opened Wrappers

  type Key = nat
  type Addr = nat
  type CondId = nat
  type Call = nat

  datatype ChunkState = Avail | Locked | Deleted | ToBeDeleted

  datatype Chunk = Chunk(key: Key, state: ChunkState, cond: Option<CondId>)

  /** `cntcond`: the number of waiters and the chunk they wait for. */
  datatype Cond = Cond(wcnt: nat, owner: Option<Addr>)

  /** A call of `hdd_chunk_get` inside `cond.wait`. */
  datatype Waiter = Waiter(cond: CondId, key: Key, create: bool, signalled: bool)

  datatype State = State(
    registry: map<Key, Addr>,
    heap: map<Addr, Chunk>,
    conds: map<CondId, Cond>,
    waiting: map<Call, Waiter>,
    held: map<Call, Addr>)

  datatype Flag = NewNone | NewAuto | NewExclusive

  // ----- The pieces of a step.

  predicate Blocked(s: State, c: CondId, w: Call) {
    w in s.waiting && s.waiting[w].cond == c && !s.waiting[w].signalled
  }

  /** `notify_one`: `w` is a legal choice when it is blocked on `c`, or when nobody is. */
  ghost predicate LegalWake(s: State, c: CondId, w: Call) {
    Blocked(s, c, w) || forall v :: !Blocked(s, c, v)
  }

  function Notify(s: State, c: CondId, w: Call): State {
    if Blocked(s, c, w) then s.(waiting := s.waiting[w := s.waiting[w].(signalled := true)]) else s
  }

  function SetState(s: State, a: Addr, st: ChunkState): State
    requires a in s.heap
  {
    s.(heap := s.heap[a := s.heap[a].(state := st)])
  }

  /** `hdd_chunk_remove` */
  function Remove(s: State, a: Addr): State
    requires a in s.heap
  {
    s.(registry := s.registry - {s.heap[a].key}, heap := s.heap - {a})
  }

  /** A new locked chunk object at `n`, registered under `key`, held by call `q`. */
  function Insert(s: State, q: Call, key: Key, n: Addr, cond: Option<CondId>): State {
    s.(registry := s.registry[key := n], heap := s.heap[n := Chunk(key, Locked, cond)], held := s.held[q := n])
  }

  /** `hdd_chunk_recreate` of an existing chunk: the waiters move to the new object. */
  function Recreate(s: State, q: Call, a: Addr, n: Addr): State
    requires a in s.heap && (s.heap[a].cond.Some? ==> s.heap[a].cond.value in s.conds)
  {
    var Chunk(key, _, cond) := s.heap[a];
    var t := Insert(Remove(s, a), q, key, n, cond);
    if cond.None? then t else t.(conds := t.conds[cond.value := t.conds[cond.value].(owner := Some(n))])
  }

  /** The body of the `for (;;)` of `hdd_chunk_get` on chunk `a`, up to a return or the next wait. */
  function GetLoop(s: State, q: Call, a: Addr, create: bool, n: Addr, c: CondId, w: Call): State
    requires a in s.heap && (s.heap[a].cond.Some? ==> s.heap[a].cond.value in s.conds)
  {
    var chunk := s.heap[a];
    match chunk.state
    case Avail => SetState(s, a, Locked).(held := s.held[q := a])
    case Deleted =>
      if create then Recreate(s, q, a, n)
      else if chunk.cond.None? then Remove(s, a)
      else Notify(s, chunk.cond.value, w)
    case _ => Wait(s, q, a, create, c)
  }

  /** Join the chunk's condition variable, attaching the free one `c` if it has none. */
  function Wait(s: State, q: Call, a: Addr, create: bool, c: CondId): State
    requires a in s.heap && (s.heap[a].cond.Some? ==> s.heap[a].cond.value in s.conds)
  {
    var chunk := s.heap[a];
    if chunk.cond.Some? then
      var cc := chunk.cond.value;
      s.(conds := s.conds[cc := s.conds[cc].(wcnt := s.conds[cc].wcnt + 1)],
         waiting := s.waiting[q := Waiter(cc, chunk.key, create, false)])
    else
      s.(heap := s.heap[a := chunk.(cond := Some(c))],
         conds := s.conds[c := Cond(1, Some(a))],
         waiting := s.waiting[q := Waiter(c, chunk.key, create, false)])
  }

  /** Leaving the wait: re-read the owner, count down, detach the variable when it is empty. */
  function Unwait(s: State, q: Call): State
    requires q in s.waiting && s.waiting[q].cond in s.conds
    requires s.conds[s.waiting[q].cond].owner.Some? && s.conds[s.waiting[q].cond].owner.value in s.heap
  {
    var c := s.waiting[q].cond;
    var a := s.conds[c].owner.value;
    var left := s.conds[c].wcnt - 1;
    if left > 0 then s.(waiting := s.waiting - {q}, conds := s.conds[c := s.conds[c].(wcnt := left)])
    else s.(waiting := s.waiting - {q}, conds := s.conds[c := Cond(0, None)],
            heap := s.heap[a := s.heap[a].(cond := None)])
  }

  // ----- What the pointers promise.

  /** The registry and the live chunk objects are the same thing. */
  ghost predicate RegistryOk(registry: map<Key, Addr>, heap: map<Addr, Chunk>) {
    && (forall k :: k in registry ==> registry[k] in heap && heap[registry[k]].key == k)
    && (forall a :: a in heap ==> heap[a].key in registry && registry[heap[a].key] == a)
  }

  /** `chunk->ccond` and `cc->owner` are inverse to each other. */
  ghost predicate AttachOk(heap: map<Addr, Chunk>, conds: map<CondId, Cond>) {
    && (forall a :: a in heap && heap[a].cond.Some? ==>
         heap[a].cond.value in conds && conds[heap[a].cond.value].owner == Some(a))
    && (forall c :: c in conds && conds[c].owner.Some? ==>
         conds[c].owner.value in heap && heap[conds[c].owner.value].cond == Some(c))
  }

  /** A waiting call waits on the variable of the registered chunk it asked for. */
  ghost predicate WaitOk(waiting: map<Call, Waiter>, heap: map<Addr, Chunk>, conds: map<CondId, Cond>) {
    forall q :: q in waiting ==>
      && waiting[q].cond in conds
      && conds[waiting[q].cond].owner.Some?
      && conds[waiting[q].cond].owner.value in heap
      && heap[conds[waiting[q].cond].owner.value].key == waiting[q].key
  }

  function WaitersOn(waiting: map<Call, Waiter>, c: CondId): set<Call> {
    set q | q in waiting && waiting[q].cond == c
  }

  /** `wcnt` counts the waiters, and a variable has an owner exactly while it has waiters. */
  ghost predicate CountOk(waiting: map<Call, Waiter>, conds: map<CondId, Cond>) {
    forall c :: c in conds ==>
      conds[c].wcnt == |WaitersOn(waiting, c)| && (conds[c].owner.Some? <==> conds[c].wcnt > 0)
  }

  /** One holder for each locked chunk, and no holder of anything else. */
  ghost predicate HeldOk(held: map<Call, Addr>, heap: map<Addr, Chunk>) {
    && (forall q, r :: q in held && r in held && held[q] == held[r] ==> q == r)
    && (forall q :: q in held ==> held[q] in heap && heap[held[q]].state in {Locked, ToBeDeleted})
    && (forall a :: a in heap && heap[a].state in {Locked, ToBeDeleted} ==> exists q :: q in held && held[q] == a)
  }

  ghost predicate Core(s: State) {
    && RegistryOk(s.registry, s.heap)
    && AttachOk(s.heap, s.conds)
    && WaitOk(s.waiting, s.heap, s.conds)
    && CountOk(s.waiting, s.conds)
    && HeldOk(s.held, s.heap)
    && s.held.Keys !! s.waiting.Keys
  }

  /** No lost wake-up at `a`: if it could be taken while calls wait for it, one of them is signalled. */
  ghost predicate WokenAt(s: State, a: Addr)
    requires a in s.heap
  {
    s.heap[a].state in {Avail, Deleted} && s.heap[a].cond.Some? ==>
      exists q :: q in s.waiting && s.waiting[q].cond == s.heap[a].cond.value && s.waiting[q].signalled
  }

  /** A deleted chunk object only lives on for its waiters. */
  ghost predicate LiveAt(s: State, a: Addr)
    requires a in s.heap
  {
    s.heap[a].state == Deleted ==> s.heap[a].cond.Some?
  }

  ghost predicate Inv(s: State) {
    Core(s) && forall a :: a in s.heap ==> WokenAt(s, a) && LiveAt(s, a)
  }

  /** The invariant in the middle of a step: nothing is promised about wake-ups at `x`. */
  ghost predicate InvExcept(s: State, x: Addr) {
    Core(s) && forall a :: a in s.heap && a != x ==> WokenAt(s, a) && LiveAt(s, a)
  }

  // ----- Steps.

  /** What the environment chooses: who acts, which address `new` returns, who is notified. */
  datatype Action =
    | Get(q: Call, key: Key, flag: Flag, n: Addr, c: CondId, w: Call)
    | Wake(q: Call, n: Addr, c: CondId, w: Call)
    | Release(q: Call, w: Call)
    | Delete(q: Call, w: Call)
    | RecreateHeld(q: Call, n: Addr)
    | TryLock(q: Call, key: Key)
    | FolderRemove(key: Key)

  ghost predicate FreeCall(s: State, q: Call) {
    q !in s.waiting && q !in s.held
  }

  /** A condition variable on the free list, or a new one. */
  ghost predicate FreeCond(s: State, c: CondId) {
    c in s.conds ==> s.conds[c].wcnt == 0
  }

  ghost predicate LegalNotify(s: State, a: Addr, w: Call) {
    a in s.heap && s.heap[a].cond.Some? ==> LegalWake(s, s.heap[a].cond.value, w)
  }

  /** The address `new` may return, given that the chunk at `a` is freed first if it is replaced. */
  ghost predicate FreeAddr(s: State, n: Addr, a: Option<Addr>) {
    n !in s.heap || Some(n) == a
  }

  ghost predicate Enabled(s: State, act: Action)
    requires Core(s)
  {
    match act
    case Get(q, key, flag, n, c, w) =>
      && FreeCall(s, q) && FreeCond(s, c)
      && (key in s.registry ==> FreeAddr(s, n, Some(s.registry[key])) && LegalNotify(s, s.registry[key], w))
      && (key !in s.registry ==> FreeAddr(s, n, None))
    case Wake(q, n, c, w) =>
      && q in s.waiting && FreeCond(Unwait(s, q), c)
      && FreeAddr(s, n, s.conds[s.waiting[q].cond].owner)
      && LegalNotify(Unwait(s, q), s.conds[s.waiting[q].cond].owner.value, w)
    case Release(q, w) => q in s.held && LegalNotify(s, s.held[q], w)
    case Delete(q, w) => q in s.held && LegalNotify(s, s.held[q], w)
    case RecreateHeld(q, n) => q in s.held && FreeAddr(s, n, Some(s.held[q]))
    case TryLock(q, key) => FreeCall(s, q) && key in s.registry
    case FolderRemove(key) => key in s.registry
  }

  function Apply(s: State, act: Action): State
    requires Core(s) && Enabled(s, act)
  {
    match act
    case Get(q, key, flag, n, c, w) =>
      if key !in s.registry then
        if flag == NewNone then s else Insert(s, q, key, n, None)
      else
        var a := s.registry[key];
        if flag == NewExclusive && s.heap[a].state in {Avail, Locked} then s
        else GetLoop(s, q, a, flag != NewNone, n, c, w)
    case Wake(q, n, c, w) =>
      var a := s.conds[s.waiting[q].cond].owner.value;
      GetLoop(Unwait(s, q), q, a, s.waiting[q].create, n, c, w)
    case Release(q, w) =>
      var a := s.held[q];
      var t := s.(held := s.held - {q});
      if s.heap[a].state == Locked then
        var t := SetState(t, a, Avail);
        if t.heap[a].cond.Some? then Notify(t, t.heap[a].cond.value, w) else t
      else if s.heap[a].state == ToBeDeleted then
        if t.heap[a].cond.Some? then Notify(SetState(t, a, Deleted), t.heap[a].cond.value, w) else Remove(t, a)
      else t
    case Delete(q, w) =>
      var a := s.held[q];
      var t := s.(held := s.held - {q});
      if t.heap[a].cond.Some? then Notify(SetState(t, a, Deleted), t.heap[a].cond.value, w) else Remove(t, a)
    case RecreateHeld(q, n) => Recreate(s, q, s.held[q], n)
    case TryLock(q, key) =>
      var a := s.registry[key];
      if s.heap[a].state == Avail then SetState(s, a, Locked).(held := s.held[q := a]) else s
    case FolderRemove(key) =>
      var a := s.registry[key];
      if s.heap[a].state == Avail then Remove(s, a)
      else if s.heap[a].state == Locked then SetState(s, a, ToBeDeleted)
      else s
  }

  // ----- Every piece of a step keeps its part of the invariant.

  /** Only chunk states change. */
  ghost predicate SameLinks(heap: map<Addr, Chunk>, heap': map<Addr, Chunk>) {
    heap'.Keys == heap.Keys && forall a :: a in heap ==> heap'[a].key == heap[a].key && heap'[a].cond == heap[a].cond
  }

  lemma LinksKept(s: State, heap': map<Addr, Chunk>)
    requires Core(s) && SameLinks(s.heap, heap')
    ensures RegistryOk(s.registry, heap') && AttachOk(heap', s.conds) && WaitOk(s.waiting, heap', s.conds)
  {
  }

  /** Wake-ups at `b` are unaffected by what happens to other chunks and other variables. */
  lemma WokenFrame(s: State, t: State, b: Addr)
    requires b in s.heap && b in t.heap && s.heap[b] == t.heap[b] && WokenAt(s, b) && LiveAt(s, b)
    requires forall q :: q in s.waiting && Some(s.waiting[q].cond) == s.heap[b].cond && s.waiting[q].signalled ==>
               q in t.waiting && t.waiting[q].cond == s.waiting[q].cond && t.waiting[q].signalled
    ensures WokenAt(t, b) && LiveAt(t, b)
  {
  }

  lemma HeldTake(held: map<Call, Addr>, heap: map<Addr, Chunk>, q: Call, a: Addr)
    requires HeldOk(held, heap) && q !in held && a in heap && heap[a].state in {Avail, Deleted}
    ensures HeldOk(held[q := a], heap[a := heap[a].(state := Locked)])
  {
    var held', heap' := held[q := a], heap[a := heap[a].(state := Locked)];
    forall b | b in heap' && heap'[b].state in {Locked, ToBeDeleted}
      ensures exists r :: r in held' && held'[r] == b
    {
      if b == a {
        assert held'[q] == b;
      } else {
        var r :| r in held && held[r] == b;
        assert held'[r] == b;
      }
    }
  }

  lemma HeldDrop(held: map<Call, Addr>, heap: map<Addr, Chunk>, q: Call, st: ChunkState)
    requires HeldOk(held, heap) && q in held && st in {Avail, Deleted}
    ensures HeldOk(held - {q}, heap[held[q] := heap[held[q]].(state := st)])
  {
    var a := held[q];
    var held', heap' := held - {q}, heap[a := heap[a].(state := st)];
    forall b | b in heap' && heap'[b].state in {Locked, ToBeDeleted}
      ensures exists r :: r in held' && held'[r] == b
    {
      var r :| r in held && held[r] == b;
      assert held'[r] == b;
    }
  }

  lemma TakeKeeps(s: State, q: Call, a: Addr)
    requires InvExcept(s, a) && FreeCall(s, q) && a in s.heap && s.heap[a].state == Avail
    ensures Inv(SetState(s, a, Locked).(held := s.held[q := a]))
  {
    hide RegistryOk, AttachOk, WaitOk, CountOk, HeldOk;
    var t := SetState(s, a, Locked).(held := s.held[q := a]);
    LinksKept(s, t.heap);
    HeldTake(s.held, s.heap, q, a);
    forall b | b in t.heap
      ensures WokenAt(t, b) && LiveAt(t, b)
    {
      if b != a {
        WokenFrame(s, t, b);
      }
    }
  }

  lemma NotifyKeeps(s: State, a: Addr, w: Call)
    requires InvExcept(s, a) && a in s.heap && s.heap[a].cond.Some? && LegalWake(s, s.heap[a].cond.value, w)
    ensures Inv(Notify(s, s.heap[a].cond.value, w))
  {
    hide RegistryOk, HeldOk;
    var c := s.heap[a].cond.value;
    var t := Notify(s, c, w);
    NotifyLinks(s, c, w);
    forall b | b in t.heap
      ensures WokenAt(t, b) && LiveAt(t, b)
    {
      if b != a {
        WokenFrame(s, t, b);
      } else if Blocked(s, c, w) {
        assert t.waiting[w].signalled;
      } else {
        assert s.conds[c].wcnt > 0;
        var r :| r in WaitersOn(s.waiting, c);
        assert !Blocked(s, c, r);
      }
    }
  }

  /** Calls keep waiting for what they waited for; only signals differ. */
  ghost predicate SameWaits(waiting: map<Call, Waiter>, waiting': map<Call, Waiter>) {
    && waiting'.Keys == waiting.Keys
    && forall q :: q in waiting ==> waiting'[q].cond == waiting[q].cond && waiting'[q].key == waiting[q].key
  }

  lemma WaitFrame(waiting: map<Call, Waiter>, waiting': map<Call, Waiter>, heap: map<Addr, Chunk>, conds: map<CondId, Cond>)
    requires SameWaits(waiting, waiting') && WaitOk(waiting, heap, conds)
    ensures WaitOk(waiting', heap, conds)
  {
  }

  lemma CountFrame(waiting: map<Call, Waiter>, waiting': map<Call, Waiter>, conds: map<CondId, Cond>)
    requires SameWaits(waiting, waiting') && CountOk(waiting, conds)
    ensures CountOk(waiting', conds)
  {
    forall d | d in conds
      ensures WaitersOn(waiting', d) == WaitersOn(waiting, d)
    {
    }
  }

  lemma NotifyLinks(s: State, c: CondId, w: Call)
    requires Core(s)
    ensures var t := Notify(s, c, w);
            WaitOk(t.waiting, t.heap, t.conds) && CountOk(t.waiting, t.conds) && t.held.Keys !! t.waiting.Keys
  {
    hide RegistryOk, HeldOk, AttachOk, WaitOk, CountOk;
    var t := Notify(s, c, w);
    assert SameWaits(s.waiting, t.waiting);
    WaitFrame(s.waiting, t.waiting, s.heap, s.conds);
    CountFrame(s.waiting, t.waiting, s.conds);
  }

  /** The waiters of the variable attached to `a`: at least one. */
  lemma AttachedHasWaiter(s: State, a: Addr) returns (q: Call)
    requires Core(s) && a in s.heap && s.heap[a].cond.Some?
    ensures q in s.waiting && s.waiting[q].cond == s.heap[a].cond.value
  {
    var c := s.heap[a].cond.value;
    assert s.conds[c].wcnt > 0;
    q :| q in WaitersOn(s.waiting, c);
  }

  // ----- Waiting.

  lemma CountAdd(waiting: map<Call, Waiter>, conds: map<CondId, Cond>, q: Call, x: Waiter, cond: Cond)
    requires CountOk(waiting, conds) && q !in waiting
    requires cond.owner.Some? && cond.wcnt == 1 + if x.cond in conds then conds[x.cond].wcnt else 0
    requires x.cond !in conds ==> forall r :: r in waiting ==> waiting[r].cond != x.cond
    ensures CountOk(waiting[q := x], conds[x.cond := cond])
  {
    var waiting' := waiting[q := x];
    assert WaitersOn(waiting', x.cond) == WaitersOn(waiting, x.cond) + {q};
    if x.cond !in conds {
      assert WaitersOn(waiting, x.cond) == {};
    }
    forall d | d in conds && d != x.cond
      ensures WaitersOn(waiting', d) == WaitersOn(waiting, d)
    {
    }
  }

  lemma CountRemove(waiting: map<Call, Waiter>, conds: map<CondId, Cond>, q: Call, cond: Cond)
    requires CountOk(waiting, conds) && q in waiting && waiting[q].cond in conds
    requires cond.wcnt == conds[waiting[q].cond].wcnt - 1 && (cond.owner.Some? <==> cond.wcnt > 0)
    ensures CountOk(waiting - {q}, conds[waiting[q].cond := cond])
  {
    var c := waiting[q].cond;
    assert WaitersOn(waiting - {q}, c) == WaitersOn(waiting, c) - {q};
    forall d | d in conds && d != c
      ensures WaitersOn(waiting - {q}, d) == WaitersOn(waiting, d)
    {
    }
  }

  lemma WaitKeeps(s: State, q: Call, a: Addr, create: bool, c: CondId)
    requires InvExcept(s, a) && FreeCall(s, q) && FreeCond(s, c) && a in s.heap && s.heap[a].state in {Locked, ToBeDeleted}
    ensures Inv(Wait(s, q, a, create, c))
  {
    hide RegistryOk, HeldOk, CountOk, WaitersOn;
    var t := Wait(s, q, a, create, c);
    WaitCore(s, q, a, create, c);
    forall b | b in t.heap
      ensures WokenAt(t, b) && LiveAt(t, b)
    {
      if b != a {
        WokenFrame(s, t, b);
      }
    }
  }

  lemma WaitCore(s: State, q: Call, a: Addr, create: bool, c: CondId)
    requires Core(s) && FreeCall(s, q) && FreeCond(s, c) && a in s.heap && s.heap[a].state in {Locked, ToBeDeleted}
    ensures Core(Wait(s, q, a, create, c))
  {
    hide RegistryOk, HeldOk, AttachOk, WaitOk, CountOk, WaitersOn;
    if s.heap[a].cond.Some? {
      AttachedCond(s, a);
    }
    var t := Wait(s, q, a, create, c);
    var x := t.waiting[q];
    if s.heap[a].cond.Some? {
      AttachCounts(s.heap, s.conds, x.cond, t.conds[x.cond]);
    } else {
      FreeHasNoOwner(s, c);
      AttachNew(s.heap, s.conds, a, c);
      ConfineHeap(s, t.heap);
    }
    CountAdd(s.waiting, s.conds, q, x, t.conds[x.cond]);
    WaitAdd(s.waiting, s.heap, s.conds, q, x, t.heap, t.conds);
  }

  lemma AttachedCond(s: State, a: Addr)
    requires Core(s) && a in s.heap && s.heap[a].cond.Some?
    ensures s.heap[a].cond.value in s.conds && s.conds[s.heap[a].cond.value].owner == Some(a)
  {
  }

  /** Counting up or down does not move a variable. */
  lemma AttachCounts(heap: map<Addr, Chunk>, conds: map<CondId, Cond>, c: CondId, cond: Cond)
    requires AttachOk(heap, conds) && c in conds && cond.owner == conds[c].owner
    ensures AttachOk(heap, conds[c := cond])
  {
  }

  lemma AttachNew(heap: map<Addr, Chunk>, conds: map<CondId, Cond>, a: Addr, c: CondId)
    requires AttachOk(heap, conds) && a in heap && heap[a].cond.None? && (c in conds ==> conds[c].owner.None?)
    ensures AttachOk(heap[a := heap[a].(cond := Some(c))], conds[c := Cond(1, Some(a))])
  {
  }

  lemma AttachNone(heap: map<Addr, Chunk>, conds: map<CondId, Cond>, a: Addr, c: CondId)
    requires AttachOk(heap, conds) && a in heap && heap[a].cond == Some(c)
    ensures AttachOk(heap[a := heap[a].(cond := None)], conds[c := Cond(0, None)])
  {
  }

  /** Changing only which variables are attached touches neither the registry nor the holders. */
  lemma ConfineHeap(s: State, heap': map<Addr, Chunk>)
    requires Core(s) && heap'.Keys == s.heap.Keys
    requires forall a :: a in s.heap ==> heap'[a].key == s.heap[a].key && heap'[a].state == s.heap[a].state
    ensures RegistryOk(s.registry, heap') && HeldOk(s.held, heap')
  {
  }

  lemma WaitAdd(waiting: map<Call, Waiter>, heap: map<Addr, Chunk>, conds: map<CondId, Cond>, q: Call, x: Waiter,
                heap': map<Addr, Chunk>, conds': map<CondId, Cond>)
    requires WaitOk(waiting, heap, conds) && heap.Keys <= heap'.Keys && conds.Keys <= conds'.Keys
    requires forall a :: a in heap ==> heap'[a].key == heap[a].key
    requires forall c :: c in conds && conds[c].owner.Some? ==> conds'[c].owner == conds[c].owner
    requires x.cond in conds' && conds'[x.cond].owner.Some? && conds'[x.cond].owner.value in heap'
    requires heap'[conds'[x.cond].owner.value].key == x.key
    ensures WaitOk(waiting[q := x], heap', conds')
  {
  }

  /** A free variable has no owner, so nobody waits on it. */
  lemma FreeHasNoOwner(s: State, c: CondId)
    requires Core(s) && FreeCond(s, c)
    ensures c in s.conds ==> s.conds[c].owner.None?
    ensures forall q :: q in s.waiting ==> s.waiting[q].cond != c
  {
  }

  lemma UnwaitKeeps(s: State, q: Call)
    requires Inv(s) && q in s.waiting
    ensures var a := s.conds[s.waiting[q].cond].owner.value;
            var t := Unwait(s, q);
            && InvExcept(t, a) && FreeCall(t, q) && t.heap.Keys == s.heap.Keys && t.registry == s.registry
            && t.heap[a].state == s.heap[a].state
  {
    hide RegistryOk, HeldOk, CountOk, WaitersOn;
    var c := s.waiting[q].cond;
    var a := s.conds[c].owner.value;
    var t := Unwait(s, q);
    UnwaitCore(s, q);
    forall b | b in t.heap && b != a
      ensures WokenAt(t, b) && LiveAt(t, b)
    {
      assert WokenAt(s, b) && LiveAt(s, b);
      WokenFrame(s, t, b);
    }
  }

  lemma UnwaitCore(s: State, q: Call)
    requires Core(s) && q in s.waiting
    ensures Core(Unwait(s, q))
  {
    hide RegistryOk, HeldOk, AttachOk, CountOk, WaitersOn;
    var c := s.waiting[q].cond;
    var a := s.conds[c].owner.value;
    var t := Unwait(s, q);
    WaitedCond(s, q);
    CountRemove(s.waiting, s.conds, q, t.conds[c]);
    if s.conds[c].wcnt == 1 {
      LastWaiter(s, q);
      AttachNone(s.heap, s.conds, a, c);
      ConfineHeap(s, t.heap);
    } else {
      AttachCounts(s.heap, s.conds, c, t.conds[c]);
    }
  }

  lemma WaitedCond(s: State, q: Call)
    requires Core(s) && q in s.waiting
    ensures s.waiting[q].cond in s.conds && s.conds[s.waiting[q].cond].owner.Some?
    ensures s.conds[s.waiting[q].cond].wcnt > 0 && s.conds[s.waiting[q].cond].owner.value in s.heap
    ensures s.heap[s.conds[s.waiting[q].cond].owner.value].cond == Some(s.waiting[q].cond)
  {
  }

  lemma LastWaiter(s: State, q: Call)
    requires Core(s) && q in s.waiting && s.conds[s.waiting[q].cond].wcnt == 1
    ensures forall r :: r in s.waiting && s.waiting[r].cond == s.waiting[q].cond ==> r == q
  {
    var c := s.waiting[q].cond;
    assert q in WaitersOn(s.waiting, c);
    forall r | r in s.waiting && s.waiting[r].cond == c
      ensures r == q
    {
      assert {q, r} <= WaitersOn(s.waiting, c);
      if r != q {
        SubsetSize({q, r}, WaitersOn(s.waiting, c));
      }
    }
  }

  lemma SubsetSize(x: set<Call>, y: set<Call>)
    requires x <= y
    ensures |x| <= |y|
  {
    assert y == x + (y - x);
  }

  // ----- Removing and creating chunk objects.

  lemma RemoveKeeps(s: State, a: Addr)
    requires InvExcept(s, a) && a in s.heap && s.heap[a].cond.None? && s.heap[a].state in {Avail, Deleted}
    ensures Inv(Remove(s, a))
  {
    hide RegistryOk, HeldOk, AttachOk, WaitOk, CountOk;
    var t := Remove(s, a);
    RegistryRemove(s.registry, s.heap, a);
    UnattachedRemove(s, a);
    HeldRemove(s.held, s.heap, a);
    forall b | b in t.heap
      ensures WokenAt(t, b) && LiveAt(t, b)
    {
      WokenFrame(s, t, b);
    }
  }

  lemma RegistryRemove(registry: map<Key, Addr>, heap: map<Addr, Chunk>, a: Addr)
    requires RegistryOk(registry, heap) && a in heap
    ensures RegistryOk(registry - {heap[a].key}, heap - {a})
  {
  }

  lemma UnattachedRemove(s: State, a: Addr)
    requires Core(s) && a in s.heap && s.heap[a].cond.None?
    ensures AttachOk(s.heap - {a}, s.conds) && WaitOk(s.waiting, s.heap - {a}, s.conds)
  {
    hide RegistryOk, HeldOk, CountOk;
  }

  lemma HeldRemove(held: map<Call, Addr>, heap: map<Addr, Chunk>, a: Addr)
    requires HeldOk(held, heap) && a in heap && heap[a].state in {Avail, Deleted}
    ensures HeldOk(held, heap - {a})
  {
  }

  lemma InsertKeeps(s: State, q: Call, key: Key, n: Addr)
    requires Inv(s) && FreeCall(s, q) && key !in s.registry && n !in s.heap
    ensures Inv(Insert(s, q, key, n, None))
  {
    hide RegistryOk, HeldOk, AttachOk, WaitOk, CountOk;
    var t := Insert(s, q, key, n, None);
    RegistryInsert(s.registry, s.heap, key, n, None);
    AttachInsert(s, n, key);
    HeldInsert(s.held, s.heap, q, key, n, None);
    forall b | b in t.heap
      ensures WokenAt(t, b) && LiveAt(t, b)
    {
      if b != n {
        WokenFrame(s, t, b);
      }
    }
  }

  lemma RegistryInsert(registry: map<Key, Addr>, heap: map<Addr, Chunk>, key: Key, n: Addr, cond: Option<CondId>)
    requires RegistryOk(registry, heap) && key !in registry && n !in heap
    ensures RegistryOk(registry[key := n], heap[n := Chunk(key, Locked, cond)])
  {
  }

  lemma AttachInsert(s: State, n: Addr, key: Key)
    requires Core(s) && n !in s.heap
    ensures AttachOk(s.heap[n := Chunk(key, Locked, None)], s.conds)
    ensures WaitOk(s.waiting, s.heap[n := Chunk(key, Locked, None)], s.conds)
  {
    hide RegistryOk, HeldOk, CountOk;
  }

  lemma HeldInsert(held: map<Call, Addr>, heap: map<Addr, Chunk>, q: Call, key: Key, n: Addr, cond: Option<CondId>)
    requires HeldOk(held, heap) && q !in held && n !in heap
    ensures HeldOk(held[q := n], heap[n := Chunk(key, Locked, cond)])
  {
    var held', heap' := held[q := n], heap[n := Chunk(key, Locked, cond)];
    forall b | b in heap' && heap'[b].state in {Locked, ToBeDeleted}
      ensures exists r :: r in held' && held'[r] == b
    {
      if b == n {
        assert held'[q] == b;
      } else {
        var r :| r in held && held[r] == b;
        assert held'[r] == b;
      }
    }
  }

  lemma RecreateKeeps(s: State, q: Call, a: Addr, n: Addr)
    requires InvExcept(s, a) && FreeCall(s, q) && a in s.heap && s.heap[a].state in {Avail, Deleted}
    requires FreeAddr(s, n, Some(a))
    ensures s.heap[a].cond.Some? ==> s.heap[a].cond.value in s.conds
    ensures Inv(Recreate(s, q, a, n))
  {
    hide RegistryOk, HeldOk, AttachOk, WaitOk, CountOk;
    if s.heap[a].cond.Some? {
      AttachedCond(s, a);
    }
    var t := Recreate(s, q, a, n);
    RegistryRemove(s.registry, s.heap, a);
    RegistryInsert(s.registry - {s.heap[a].key}, s.heap - {a}, s.heap[a].key, n, s.heap[a].cond);
    HeldRemove(s.held, s.heap, a);
    HeldInsert(s.held, s.heap - {a}, q, s.heap[a].key, n, s.heap[a].cond);
    RecreateLinks(s, q, a, n);
    forall b | b in t.heap
      ensures WokenAt(t, b) && LiveAt(t, b)
    {
      if b != n {
        WokenFrame(s, t, b);
      }
    }
  }

  /** The waiters follow the variable to the new object. */
  lemma RecreateLinks(s: State, q: Call, a: Addr, n: Addr)
    requires Core(s) && a in s.heap && FreeAddr(s, n, Some(a))
    requires s.heap[a].cond.Some? ==> s.heap[a].cond.value in s.conds
    ensures var t := Recreate(s, q, a, n);
            AttachOk(t.heap, t.conds) && WaitOk(t.waiting, t.heap, t.conds) && CountOk(t.waiting, t.conds)
  {
    hide RegistryOk, HeldOk, AttachOk, WaitOk, CountOk;
    var chunk := Chunk(s.heap[a].key, Locked, s.heap[a].cond);
    AttachMove(s.heap, s.conds, a, n, chunk);
    WaitMove(s, a, n, chunk);
    if s.heap[a].cond.Some? {
      AttachedCond(s, a);
      CountSameOwner(s.waiting, s.conds, s.heap[a].cond.value, Some(n));
    }
  }

  function MoveOwner(conds: map<CondId, Cond>, cond: Option<CondId>, n: Addr): map<CondId, Cond>
    requires cond.Some? ==> cond.value in conds
  {
    if cond.None? then conds else conds[cond.value := conds[cond.value].(owner := Some(n))]
  }

  lemma AttachMove(heap: map<Addr, Chunk>, conds: map<CondId, Cond>, a: Addr, n: Addr, chunk: Chunk)
    requires AttachOk(heap, conds) && a in heap && chunk.cond == heap[a].cond && (n !in heap || n == a)
    ensures chunk.cond.Some? ==> chunk.cond.value in conds
    ensures AttachOk((heap - {a})[n := chunk], MoveOwner(conds, chunk.cond, n))
  {
  }

  lemma WaitMove(s: State, a: Addr, n: Addr, chunk: Chunk)
    requires Core(s) && a in s.heap && chunk.cond == s.heap[a].cond && chunk.key == s.heap[a].key && FreeAddr(s, n, Some(a))
    ensures chunk.cond.Some? ==> chunk.cond.value in s.conds
    ensures WaitOk(s.waiting, (s.heap - {a})[n := chunk], MoveOwner(s.conds, chunk.cond, n))
  {
    hide RegistryOk, HeldOk, CountOk;
  }

  lemma CountSameOwner(waiting: map<Call, Waiter>, conds: map<CondId, Cond>, c: CondId, owner: Option<Addr>)
    requires CountOk(waiting, conds) && c in conds && conds[c].owner.Some? && owner.Some?
    ensures CountOk(waiting, conds[c := conds[c].(owner := owner)])
  {
  }

  // ----- Giving up a chunk.

  /** The holder leaves and the chunk becomes `st`; only the wake-up at it may be missing. */
  lemma DropKeeps(s: State, q: Call, st: ChunkState)
    requires Inv(s) && q in s.held && st in {Avail, Deleted}
    ensures InvExcept(SetState(s, s.held[q], st).(held := s.held - {q}), s.held[q])
    ensures FreeCall(SetState(s, s.held[q], st).(held := s.held - {q}), q)
  {
    hide RegistryOk, AttachOk, WaitOk, CountOk;
    var a := s.held[q];
    var t := SetState(s, a, st).(held := s.held - {q});
    LinksKept(s, t.heap);
    HeldDrop(s.held, s.heap, q, st);
    forall b | b in t.heap && b != a
      ensures WokenAt(t, b) && LiveAt(t, b)
    {
      assert WokenAt(s, b) && LiveAt(s, b);
      WokenFrame(s, t, b);
    }
  }

  /** A locked chunk may be marked for deletion at any time. */
  lemma MarkKeeps(s: State, a: Addr)
    requires Inv(s) && a in s.heap && s.heap[a].state == Locked
    ensures Inv(SetState(s, a, ToBeDeleted))
  {
    hide RegistryOk, AttachOk, WaitOk, CountOk;
    var t := SetState(s, a, ToBeDeleted);
    LinksKept(s, t.heap);
    forall b | b in t.heap
      ensures WokenAt(t, b) && LiveAt(t, b)
    {
      assert WokenAt(s, b) && LiveAt(s, b);
    }
  }

  // ----- Every step.

  lemma GetLoopKeeps(s: State, q: Call, a: Addr, create: bool, n: Addr, c: CondId, w: Call)
    requires InvExcept(s, a) && FreeCall(s, q) && a in s.heap
    requires FreeCond(s, c) && FreeAddr(s, n, Some(a)) && LegalNotify(s, a, w)
    ensures s.heap[a].cond.Some? ==> s.heap[a].cond.value in s.conds
    ensures Inv(GetLoop(s, q, a, create, n, c, w))
  {
    hide RegistryOk, HeldOk, AttachOk, WaitOk, CountOk, Recreate, Wait, Notify, Remove, SetState;
    if s.heap[a].cond.Some? {
      AttachedCond(s, a);
    }
    match s.heap[a].state
    case Avail => TakeKeeps(s, q, a);
    case Deleted =>
      if create {
        RecreateKeeps(s, q, a, n);
      } else if s.heap[a].cond.None? {
        RemoveKeeps(s, a);
      } else {
        NotifyKeeps(s, a, w);
      }
    case Locked => WaitKeeps(s, q, a, create, c);
    case ToBeDeleted => WaitKeeps(s, q, a, create, c);
  }

  /** The folder-removal step keeps the invariant exactly when the chunk it erases has no waiters. */
  ghost predicate Guarded(s: State, act: Action)
    requires Core(s)
  {
    act.FolderRemove? && act.key in s.registry ==>
      (s.heap[s.registry[act.key]].state == Avail ==> s.heap[s.registry[act.key]].cond.None?)
  }

  lemma DropAndNotify(s: State, q: Call, st: ChunkState, w: Call)
    requires Inv(s) && q in s.held && st in {Avail, Deleted} && LegalNotify(s, s.held[q], w)
    ensures var t := SetState(s, s.held[q], st).(held := s.held - {q});
            var a := s.held[q];
            && (t.heap[a].cond.Some? ==> Inv(Notify(t, t.heap[a].cond.value, w)))
            && (t.heap[a].cond.None? && st == Avail ==> Inv(t))
            && (t.heap[a].cond.None? ==> Inv(Remove(t, a)))
  {
    hide RegistryOk, AttachOk, WaitOk, CountOk, HeldOk, Notify, Remove;
    var a := s.held[q];
    HeldChunk(s, q);
    var t := SetState(s, a, st).(held := s.held - {q});
    DropKeeps(s, q, st);
    if t.heap[a].cond.Some? {
      assert forall v :: Blocked(t, t.heap[a].cond.value, v) == Blocked(s, t.heap[a].cond.value, v);
      NotifyKeeps(t, a, w);
    } else {
      RemoveKeeps(t, a);
    }
  }

  lemma HeldChunk(s: State, q: Call)
    requires Core(s) && q in s.held
    ensures s.held[q] in s.heap && s.heap[s.held[q]].state in {Locked, ToBeDeleted}
  {
  }

  lemma GetKeeps(s: State, act: Action)
    requires Inv(s) && act.Get? && Enabled(s, act)
    ensures Inv(Apply(s, act))
  {
    hide AttachOk, WaitOk, CountOk, HeldOk, GetLoop, Insert, WokenAt, LiveAt;
    if act.key in s.registry {
      GetLoopKeeps(s, act.q, s.registry[act.key], act.flag != NewNone, act.n, act.c, act.w);
    } else {
      InsertKeeps(s, act.q, act.key, act.n);
    }
  }

  lemma WakeKeeps(s: State, act: Action)
    requires Inv(s) && act.Wake? && Enabled(s, act)
    ensures Inv(Apply(s, act))
  {
    hide RegistryOk, AttachOk, WaitOk, CountOk, HeldOk, GetLoop, Unwait, WokenAt, LiveAt;
    WaitedCond(s, act.q);
    UnwaitKeeps(s, act.q);
    GetLoopKeeps(Unwait(s, act.q), act.q, s.conds[s.waiting[act.q].cond].owner.value, s.waiting[act.q].create,
                 act.n, act.c, act.w);
  }

  lemma ReleaseKeeps(s: State, act: Action)
    requires Inv(s) && (act.Release? || act.Delete?) && Enabled(s, act)
    ensures Inv(Apply(s, act))
  {
    hide RegistryOk, AttachOk, WaitOk, CountOk, HeldOk, Notify, WokenAt, LiveAt;
    var a := s.held[act.q];
    HeldChunk(s, act.q);
    var st := if act.Release? && s.heap[a].state == Locked then Avail else Deleted;
    DropAndNotify(s, act.q, st, act.w);
    var t := SetState(s, a, st).(held := s.held - {act.q});
    assert Remove(s.(held := s.held - {act.q}), a) == Remove(t, a);
  }

  lemma RecreateHeldKeeps(s: State, act: Action)
    requires Inv(s) && act.RecreateHeld? && Enabled(s, act)
    ensures Inv(Apply(s, act))
  {
    hide RegistryOk, AttachOk, WaitOk, CountOk, HeldOk, WokenAt, LiveAt;
    var a := s.held[act.q];
    HeldChunk(s, act.q);
    var t := SetState(s, a, Deleted).(held := s.held - {act.q});
    DropKeeps(s, act.q, Deleted);
    RecreateKeeps(t, act.q, a, act.n);
    assert t.heap - {a} == s.heap - {a};
    assert t.held[act.q := act.n] == s.held[act.q := act.n];
  }

  /** Every guarded step of every thread keeps the invariant. */
  lemma StepKeeps(s: State, act: Action)
    requires Inv(s) && Enabled(s, act) && Guarded(s, act)
    ensures Inv(Apply(s, act))
  {
    hide AttachOk, WaitOk, CountOk, HeldOk, GetLoop, Unwait, Insert, Notify, Recreate, WokenAt, LiveAt;
    match act
    case Get(_, _, _, _, _, _) => GetKeeps(s, act);
    case Wake(_, _, _, _) => WakeKeeps(s, act);
    case Release(_, _) => ReleaseKeeps(s, act);
    case Delete(_, _) => ReleaseKeeps(s, act);
    case RecreateHeld(_, _) => RecreateHeldKeeps(s, act);
    case TryLock(q, key) =>
      if s.heap[s.registry[key]].state == Avail {
        TakeKeeps(s, q, s.registry[key]);
      }
    case FolderRemove(key) =>
      var a := s.registry[key];
      if s.heap[a].state == Avail {
        RemoveKeeps(s, a);
      } else if s.heap[a].state == Locked {
        MarkKeeps(s, a);
      }
  }

  /** Erasing an available chunk that still has waiters leaves them pointing at a freed object. */
  lemma UnguardedBreaks(s: State, key: Key)
    requires Inv(s) && key in s.registry && !Guarded(s, FolderRemove(key))
    ensures !Inv(Apply(s, FolderRemove(key)))
    ensures exists q :: q in s.waiting && s.waiting[q].key == key && s.conds[s.waiting[q].cond].owner.Some? &&
                        s.conds[s.waiting[q].cond].owner.value !in Apply(s, FolderRemove(key)).heap
  {
    hide HeldOk;
    var a := s.registry[key];
    var q := AttachedHasWaiter(s, a);
    AttachedCond(s, a);
    var t := Apply(s, FolderRemove(key));
    assert t.waiting[q] == s.waiting[q] && a !in t.heap;
  }

  /** A step keeps the invariant if and only if it is guarded. */
  lemma StepKeepsIff(s: State, act: Action)
    requires Inv(s) && Enabled(s, act)
    ensures Inv(Apply(s, act)) <==> Guarded(s, act)
  {
    hide Core, Apply;
    if Guarded(s, act) {
      StepKeeps(s, act);
    } else {
      UnguardedBreaks(s, act.key);
    }
  }

  // ----- Whole runs.

  const INITIAL := State(map[], map[], map[], map[], map[])

  /** One step; from a state with broken pointers anything may follow. */
  ghost predicate Next(s: State, act: Action, t: State) {
    Core(s) ==> Enabled(s, act) && Guarded(s, act) && t == Apply(s, act)
  }

  ghost predicate Run(states: seq<State>, acts: seq<Action>) {
    && |states| == |acts| + 1
    && states[0] == INITIAL
    && forall i :: 0 <= i < |acts| ==> Next(states[i], acts[i], states[i + 1])
  }

  lemma {:induction false} RunKeeps(states: seq<State>, acts: seq<Action>, i: nat)
    requires Run(states, acts) && i < |states|
    ensures Inv(states[i])
    decreases i
  {
    hide Apply, Core;
    if i == 0 {
      InitialInv();
    } else {
      RunKeeps(states, acts, i - 1);
      assert Next(states[i - 1], acts[i - 1], states[i]);
      StepKeeps(states[i - 1], acts[i - 1]);
    }
  }

  lemma InitialInv()
    ensures Inv(INITIAL)
  {
  }

  /**
   In every state of every run: a chunk key has at most one holder; a chunk that is available or
   deleted while calls wait for it has a signalled waiter; every waiting call is counted by a
   variable owned by the chunk registered under the key it asked for; and a deleted chunk has waiters.
   */
  lemma RunSafe(states: seq<State>, acts: seq<Action>, i: nat)
    requires Run(states, acts) && i < |states|
    ensures var s := states[i];
            && (forall q, r :: q in s.held && r in s.held && q != r ==>
                 s.held[q] in s.heap && s.held[r] in s.heap && s.heap[s.held[q]].key != s.heap[s.held[r]].key)
            && (forall a :: a in s.heap && s.heap[a].state in {Avail, Deleted} && s.heap[a].cond.Some? ==>
                 exists q :: q in s.waiting && s.waiting[q].cond == s.heap[a].cond.value && s.waiting[q].signalled)
            && (forall q :: q in s.waiting ==>
                 && s.waiting[q].key in s.registry
                 && s.waiting[q].cond in s.conds
                 && s.conds[s.waiting[q].cond].owner == Some(s.registry[s.waiting[q].key])
                 && s.conds[s.waiting[q].cond].wcnt == |WaitersOn(s.waiting, s.waiting[q].cond)|)
            && (forall a :: a in s.heap && s.heap[a].state == Deleted ==> s.heap[a].cond.Some?)
  {
    hide Apply, CountOk, Next;
    RunKeeps(states, acts, i);
    var s := states[i];
    forall a | a in s.heap && s.heap[a].state in {Avail, Deleted} && s.heap[a].cond.Some?
      ensures exists q :: q in s.waiting && s.waiting[q].cond == s.heap[a].cond.value && s.waiting[q].signalled
    {
      assert WokenAt(s, a);
    }
    forall a | a in s.heap && s.heap[a].state == Deleted
      ensures s.heap[a].cond.Some?
    {
      assert LiveAt(s, a);
    }
    forall q | q in s.waiting
      ensures s.conds[s.waiting[q].cond].wcnt == |WaitersOn(s.waiting, s.waiting[q].cond)|
    {
      CountsOf(s, q);
    }
  }

  lemma CountsOf(s: State, q: Call)
    requires Core(s) && q in s.waiting
    ensures s.conds[s.waiting[q].cond].wcnt == |WaitersOn(s.waiting, s.waiting[q].cond)|
  {
  }

  // ----- The guard is needed: an unguarded removal can be reached in three steps.

  function AfterGet(key: Key): State {
    State(map[key := 0], map[0 := Chunk(key, Locked, None)], map[], map[], map[1 := 0])
  }

  function AfterWait(key: Key): State {
    State(map[key := 0], map[0 := Chunk(key, Locked, Some(0))], map[0 := Cond(1, Some(0))],
          map[2 := Waiter(0, key, false, false)], map[1 := 0])
  }

  function AfterRelease(key: Key): State {
    State(map[key := 0], map[0 := Chunk(key, Avail, Some(0))], map[0 := Cond(1, Some(0))],
          map[2 := Waiter(0, key, false, true)], map[])
  }

  lemma GetStep(key: Key)
    ensures Inv(INITIAL) && Enabled(INITIAL, Get(1, key, NewAuto, 0, 0, 0))
    ensures Apply(INITIAL, Get(1, key, NewAuto, 0, 0, 0)) == AfterGet(key) && Inv(AfterGet(key))
  {
    InitialInv();
    StepKeeps(INITIAL, Get(1, key, NewAuto, 0, 0, 0));
  }

  lemma WaitStep(key: Key)
    ensures Inv(AfterGet(key)) && Enabled(AfterGet(key), Get(2, key, NewNone, 1, 0, 0))
    ensures Apply(AfterGet(key), Get(2, key, NewNone, 1, 0, 0)) == AfterWait(key) && Inv(AfterWait(key))
  {
    hide Inv;
    GetStep(key);
    StepKeeps(AfterGet(key), Get(2, key, NewNone, 1, 0, 0));
  }

  lemma ReleaseStep(key: Key)
    ensures Inv(AfterWait(key)) && Enabled(AfterWait(key), Release(1, 2))
    ensures Apply(AfterWait(key), Release(1, 2)) == AfterRelease(key) && Inv(AfterRelease(key))
  {
    hide Inv;
    WaitStep(key);
    assert Blocked(AfterWait(key), 0, 2);
    StepKeeps(AfterWait(key), Release(1, 2));
  }

  lemma GuardCanFail(key: Key)
    ensures exists states: seq<State>, acts: seq<Action> ::
              Run(states, acts) && key in states[|acts|].registry && Inv(states[|acts|]) && !Guarded(states[|acts|], FolderRemove(key))
  {
    hide Apply, Enabled, Core;
    GetStep(key);
    WaitStep(key);
    ReleaseStep(key);
    var states := [INITIAL, AfterGet(key), AfterWait(key), AfterRelease(key)];
    var acts := [Get(1, key, NewAuto, 0, 0, 0), Get(2, key, NewNone, 1, 0, 0), Release(1, 2)];
    assert Next(states[0], acts[0], states[1]);
    assert Next(states[1], acts[1], states[2]);
    assert Next(states[2], acts[2], states[3]);
    assert Run(states, acts);
  }
}
