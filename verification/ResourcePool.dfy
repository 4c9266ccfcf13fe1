/**
 The pool of open descriptors: a vector of entries indexed by descriptor, in which the unused
 ones form a doubly linked list through index 0, least recently released first.
 */
module ResourcePool {

  const RELEASE_THRESHOLD := 4
  const CLOCK := 0x1_0000_0000

  type Stamp = t: nat | t < CLOCK

  /** An `OpenChunk`: moved away, with its chunk, or cut off from it. */
  datatype Resource = Empty | Open(chunk: nat) | Orphan(chunk: nat)

  datatype Entry = Entry(timestamp: Stamp, next: nat, prev: nat, resource: Resource)

  const NO_ENTRY := Entry(0, 0, 0, Empty)

  // ----- The list as a sequence.

  /** Element `k` of the list, with the sentinel 0 on both sides. */
  function At(order: seq<nat>, k: int): nat {
    if 0 <= k < |order| then order[k] else 0
  }

  predicate Distinct(order: seq<nat>) {
    forall j, k :: 0 <= j < k < |order| ==> order[j] != order[k]
  }

  predicate InRange(order: seq<nat>, n: nat) {
    forall k :: 0 <= k < |order| ==> 0 < order[k] < n
  }

  ghost predicate NextOk(data: seq<Entry>, order: seq<nat>) {
    forall k :: -1 <= k < |order| ==> At(order, k) < |data| && data[At(order, k)].next == At(order, k + 1)
  }

  ghost predicate PrevOk(data: seq<Entry>, order: seq<nat>) {
    forall k :: 0 <= k <= |order| ==> At(order, k) < |data| && data[At(order, k)].prev == At(order, k - 1)
  }

  ghost predicate RestOk(data: seq<Entry>, order: seq<nat>) {
    forall id :: 0 < id < |data| && id !in order ==> data[id].next == 0 && data[id].prev == 0
  }

  /** `next` and `prev` form a ring through 0 in the order of `order`; all others are zero. */
  ghost predicate Linked(data: seq<Entry>, order: seq<nat>) {
    && 0 < |data| && Distinct(order) && InRange(order, |data|)
    && NextOk(data, order) && PrevOk(data, order) && RestOk(data, order)
  }

  function Without(order: seq<nat>, id: nat): (r: seq<nat>)
    ensures forall x :: x in r <==> x in order && x != id
  {
    if |order| == 0 then []
    else if order[0] == id then Without(order[1..], id)
    else [order[0]] + Without(order[1..], id)
  }

  lemma {:induction false} WithoutAbsent(order: seq<nat>, id: nat)
    requires id !in order
    ensures Without(order, id) == order
  {
    if |order| > 0 {
      assert id !in order[1..];
      WithoutAbsent(order[1..], id);
    }
  }

  lemma {:induction false} WithoutAt(order: seq<nat>, p: nat)
    requires p < |order| && Distinct(order)
    ensures Without(order, order[p]) == Splice(order, p)
    decreases |order|
  {
    if p == 0 {
      WithoutAbsent(order[1..], order[0]);
    } else {
      WithoutAt(order[1..], p - 1);
      assert order[1..][p - 1] == order[p];
      assert order[..p] + order[p + 1..] == [order[0]] + (order[1..][..p - 1] + order[1..][p..]);
    }
  }

  // ----- Splicing.

  function SetNext(data: seq<Entry>, id: nat, next: nat): seq<Entry>
    requires id < |data|
  {
    data[id := data[id].(next := next)]
  }

  function SetPrev(data: seq<Entry>, id: nat, prev: nat): seq<Entry>
    requires id < |data|
  {
    data[id := data[id].(prev := prev)]
  }

  /** Everything but the links. */
  predicate SameContents(data: seq<Entry>, other: seq<Entry>) {
    |data| == |other| &&
    forall i :: 0 <= i < |data| ==> data[i].timestamp == other[i].timestamp && data[i].resource == other[i].resource
  }

  function Unlink(data: seq<Entry>, id: nat): (r: seq<Entry>)
    requires id < |data| && data[id].next < |data| && data[id].prev < |data|
    ensures |r| == |data|
  {
    var d := SetPrev(data, data[id].next, data[id].prev);
    var d := SetNext(d, d[id].prev, d[id].next);
    SetPrev(SetNext(d, id, 0), id, 0)
  }

  lemma UnlinkLinks(data: seq<Entry>, id: nat)
    requires id < |data| && data[id].next < |data| && data[id].prev < |data|
    requires data[id].next != id && data[id].prev != id
    ensures SameContents(Unlink(data, id), data)
    ensures forall i {:trigger Unlink(data, id)[i]} :: 0 <= i < |data| ==>
              Unlink(data, id)[i].next == (if i == id then 0 else if i == data[id].prev then data[id].next else data[i].next) &&
              Unlink(data, id)[i].prev == (if i == id then 0 else if i == data[id].next then data[id].prev else data[i].prev)
  {
  }

  /** Positions are determined by ids; the sentinel stands outside. */
  lemma AtInjective(order: seq<nat>, n: nat, j: int, k: int)
    requires Distinct(order) && InRange(order, n)
    requires At(order, j) == At(order, k)
    ensures j == k || (At(order, j) == 0 && !(0 <= j < |order|) && !(0 <= k < |order|))
  {
  }

  lemma AtInRange(order: seq<nat>, n: nat, k: int)
    requires InRange(order, n) && 0 < n
    ensures At(order, k) < n && (At(order, k) > 0 <==> 0 <= k < |order|)
  {
  }

  lemma AtSpliced(order: seq<nat>, p: nat, k: int)
    requires p < |order|
    ensures At(Splice(order, p), k) == if k < p then At(order, k) else At(order, k + 1)
  {
  }

  /** The neighbours of a list member, as the links give them. */
  lemma Neighbours(data: seq<Entry>, order: seq<nat>, p: nat)
    requires Linked(data, order) && p < |order|
    ensures data[order[p]].next == At(order, p + 1) < |data| && data[order[p]].prev == At(order, p - 1) < |data|
    ensures data[order[p]].next != order[p] && data[order[p]].prev != order[p]
  {
    assert At(order, p) == order[p];
    AtInRange(order, |data|, p + 1);
    AtInRange(order, |data|, p - 1);
  }

  lemma UnlinkNext(data: seq<Entry>, order: seq<nat>, p: nat, k: int)
    requires Linked(data, order) && p < |order| && -1 <= k < |order| && k != p
    requires data[order[p]].next < |data| && data[order[p]].prev < |data|
    ensures At(order, k) < |data| && At(order, k + 1) < |data|
    ensures Unlink(data, order[p])[At(order, k)].next == At(order, if k == p - 1 then p + 1 else k + 1)
  {
    Neighbours(data, order, p);
    UnlinkLinks(data, order[p]);
    AtInRange(order, |data|, k);
    AtInRange(order, |data|, k + 1);
    if At(order, k) == At(order, p - 1) {
      AtInjective(order, |data|, k, p - 1);
    }
    hide Unlink;
  }

  lemma UnlinkPrev(data: seq<Entry>, order: seq<nat>, p: nat, k: int)
    requires Linked(data, order) && p < |order| && 0 <= k <= |order| && k != p
    requires data[order[p]].next < |data| && data[order[p]].prev < |data|
    ensures At(order, k) < |data|
    ensures Unlink(data, order[p])[At(order, k)].prev == At(order, if k == p + 1 then p - 1 else k - 1)
  {
    Neighbours(data, order, p);
    UnlinkLinks(data, order[p]);
    AtInRange(order, |data|, k);
    if At(order, k) == At(order, p + 1) {
      AtInjective(order, |data|, k, p + 1);
    }
    hide Unlink;
  }

  function Splice(order: seq<nat>, p: nat): seq<nat>
    requires p < |order|
  {
    order[..p] + order[p + 1..]
  }

  lemma UnlinkNextOk(data: seq<Entry>, order: seq<nat>, p: nat)
    requires Linked(data, order) && p < |order|
    requires data[order[p]].next < |data| && data[order[p]].prev < |data|
    ensures NextOk(Unlink(data, order[p]), Splice(order, p))
  {
    hide Unlink, At;
    forall k | -1 <= k < |order| - 1
      ensures At(Splice(order, p), k) < |data| &&
              Unlink(data, order[p])[At(Splice(order, p), k)].next == At(Splice(order, p), k + 1)
    {
      AtSpliced(order, p, k);
      AtSpliced(order, p, k + 1);
      UnlinkNext(data, order, p, if k < p then k else k + 1);
    }
  }

  lemma UnlinkPrevOk(data: seq<Entry>, order: seq<nat>, p: nat)
    requires Linked(data, order) && p < |order|
    requires data[order[p]].next < |data| && data[order[p]].prev < |data|
    ensures PrevOk(Unlink(data, order[p]), Splice(order, p))
  {
    hide Unlink, At;
    forall k | 0 <= k <= |order| - 1
      ensures At(Splice(order, p), k) < |data| &&
              Unlink(data, order[p])[At(Splice(order, p), k)].prev == At(Splice(order, p), k - 1)
    {
      AtSpliced(order, p, k);
      AtSpliced(order, p, k - 1);
      UnlinkPrev(data, order, p, if k < p then k else k + 1);
    }
  }

  lemma UnlinkRestOk(data: seq<Entry>, order: seq<nat>, p: nat)
    requires Linked(data, order) && p < |order|
    requires data[order[p]].next < |data| && data[order[p]].prev < |data|
    ensures RestOk(Unlink(data, order[p]), Splice(order, p))
  {
    Neighbours(data, order, p);
    UnlinkLinks(data, order[p]);
    hide Unlink, At, NextOk, PrevOk;
    forall id | 0 < id < |data| && id !in Splice(order, p)
      ensures Unlink(data, order[p])[id].next == 0 && Unlink(data, order[p])[id].prev == 0
    {
      if id in order {
        SplicedMembers(order, p, id);
      } else {
        AtMember(order, p - 1, id);
        AtMember(order, p + 1, id);
      }
    }
  }

  lemma UnlinkRemoves(data: seq<Entry>, order: seq<nat>, p: nat)
    requires Linked(data, order) && p < |order|
    ensures data[order[p]].next < |data| && data[order[p]].prev < |data|
    ensures Linked(Unlink(data, order[p]), Splice(order, p))
    ensures SameContents(Unlink(data, order[p]), data)
  {
    Neighbours(data, order, p);
    UnlinkLinks(data, order[p]);
    UnlinkNextOk(data, order, p);
    UnlinkPrevOk(data, order, p);
    UnlinkRestOk(data, order, p);
    hide Unlink, NextOk, PrevOk, RestOk;
  }

  lemma AtMember(order: seq<nat>, k: int, id: nat)
    requires id > 0 && id !in order
    ensures At(order, k) != id
  {
  }

  lemma SplicedMembers(order: seq<nat>, p: nat, id: nat)
    requires p < |order| && id in order
    ensures id == order[p] || id in Splice(order, p)
  {
    var k :| 0 <= k < |order| && order[k] == id;
    var r := Splice(order, p);
    if k < p { assert r[k] == id; }
    if k > p { assert r[k - 1] == id; }
  }

  // ----- Appending.

  function Link(data: seq<Entry>, id: nat): (r: seq<Entry>)
    requires id < |data| && data[0].prev < |data|
    ensures |r| == |data|
  {
    var d := SetNext(SetPrev(data, id, data[0].prev), id, 0);
    SetPrev(SetNext(d, d[0].prev, id), 0, id)
  }

  lemma LinkLinks(data: seq<Entry>, id: nat)
    requires 0 < id < |data| && data[0].prev < |data| && data[0].prev != id
    ensures SameContents(Link(data, id), data)
    ensures forall i {:trigger Link(data, id)[i]} :: 0 <= i < |data| ==>
              Link(data, id)[i].next == (if i == data[0].prev then id else if i == id then 0 else data[i].next) &&
              Link(data, id)[i].prev == (if i == 0 then id else if i == id then data[0].prev else data[i].prev)
  {
  }

  lemma LinkAppends(data: seq<Entry>, order: seq<nat>, id: nat)
    requires Linked(data, order) && id !in order && 0 < id < |data|
    ensures data[0].prev < |data|
    ensures Linked(Link(data, id), order + [id])
    ensures SameContents(Link(data, id), data)
  {
    assert At(order, |order|) == 0;
    AtInRange(order, |data|, |order| - 1);
    AtMember(order, |order| - 1, id);
    LinkLinks(data, id);
    hide Link;
    var r := order + [id];
    assert forall k {:trigger At(r, k)} :: At(r, k) == if k == |order| then id else At(order, k);
  }

  // ----- What the order means.

  /** What happens to a descriptor: it is released, or it leaves the list (acquired, purged, freed). */
  datatype Use = Released(id: nat) | Left(id: nat)

  /** The list after a history of operations, by the contracts above. */
  function OrderOf(h: seq<Use>): seq<nat> {
    if |h| == 0 then []
    else
      var u := h[|h| - 1];
      Without(OrderOf(h[..|h| - 1]), u.id) + if u.Released? then [u.id] else []
  }

  lemma UseLast(h: seq<Use>, u: Use)
    ensures OrderOf(h + [u]) == Without(OrderOf(h), u.id) + if u.Released? then [u.id] else []
  {
    assert (h + [u])[..|h|] == h;
  }

  /** When `id` was last touched, or -1. */
  function LastUse(h: seq<Use>, id: nat): (k: int)
    ensures -1 <= k < |h|
    ensures k >= 0 ==> h[k].id == id
    ensures forall j :: k < j < |h| ==> h[j].id != id
  {
    if |h| == 0 then -1 else if h[|h| - 1].id == id then |h| - 1 else LastUse(h[..|h| - 1], id)
  }

  ghost predicate ByLastUse(h: seq<Use>, order: seq<nat>) {
    forall i, j :: 0 <= i < j < |order| ==> LastUse(h, order[i]) < LastUse(h, order[j])
  }

  lemma WithoutKeepsOrder(h: seq<Use>, order: seq<nat>, id: nat)
    requires ByLastUse(h, order)
    ensures ByLastUse(h, Without(order, id))
  {
    ByLastUseDistinct(h, order);
    if id in order {
      var p: nat :| p < |order| && order[p] == id;
      WithoutAt(order, p);
      hide LastUse;
    } else {
      WithoutAbsent(order, id);
    }
  }

  lemma ByLastUseDistinct(h: seq<Use>, order: seq<nat>)
    requires ByLastUse(h, order)
    ensures Distinct(order)
  {
    hide LastUse;
    forall j, k | 0 <= j < k < |order|
      ensures order[j] != order[k]
    {
      assert LastUse(h, order[j]) < LastUse(h, order[k]);
    }
  }

  lemma LastUseNext(g: seq<Use>, u: Use, id: nat)
    ensures LastUse(g + [u], id) == if id == u.id then |g| else LastUse(g, id)
  {
    assert (g + [u])[..|g|] == g;
  }

  /** A list that does not have the id of the last use is ordered by it as before. */
  lemma ByLastUseNext(g: seq<Use>, u: Use, order: seq<nat>)
    requires ByLastUse(g, order) && u.id !in order
    ensures ByLastUse(g + [u], order) && ByLastUse(g + [u], order + [u.id])
  {
    hide LastUse;
    LastUseNext(g, u, u.id);
    forall i | 0 <= i < |order|
      ensures LastUse(g + [u], order[i]) == LastUse(g, order[i])
    {
      LastUseNext(g, u, order[i]);
    }
  }

  /** `id` is in the list exactly when its last use was a release. */
  ghost predicate LastReleased(h: seq<Use>, id: nat) {
    LastUse(h, id) >= 0 && h[LastUse(h, id)].Released?
  }

  lemma LastReleasedNext(g: seq<Use>, u: Use, id: nat)
    ensures LastReleased(g + [u], id) <==> if id == u.id then u.Released? else LastReleased(g, id)
  {
    LastUseNext(g, u, id);
  }

  /** The list holds exactly the descriptors last released, in the order of their last release. */
  lemma {:induction false} OrderIsLru(h: seq<Use>)
    ensures ByLastUse(h, OrderOf(h))
    ensures forall id :: id in OrderOf(h) <==> LastReleased(h, id)
  {
    if |h| > 0 {
      hide ByLastUse, LastReleased, OrderOf, LastUse;
      var g, u := h[..|h| - 1], h[|h| - 1];
      assert h == g + [u];
      OrderIsLru(g);
      UseLast(g, u);
      var kept := Without(OrderOf(g), u.id);
      WithoutKeepsOrder(g, OrderOf(g), u.id);
      ByLastUseNext(g, u, kept);
      assert kept + [] == kept;
      forall id
        ensures id in OrderOf(h) <==> LastReleased(h, id)
      {
        LastReleasedNext(g, u, id);
      }
    }
  }

  // ----- The pool.

  /** The element behind `id`, or 0. */
  function After(order: seq<nat>, id: nat): nat {
    if |order| == 0 then 0 else if order[0] == id then At(order, 1) else After(order[1..], id)
  }

  lemma {:induction false} AfterAt(order: seq<nat>, p: nat)
    requires Distinct(order) && p < |order|
    ensures After(order, order[p]) == At(order, p + 1)
    decreases p
  {
    if p > 0 {
      AfterAt(order[1..], p - 1);
    }
  }

  /** The list from `id` on; empty for 0. */
  function From(order: seq<nat>, id: nat): (r: seq<nat>)
    ensures |r| <= |order|
  {
    if |order| == 0 then [] else if order[0] == id then order else From(order[1..], id)
  }

  lemma {:induction false} FromAt(order: seq<nat>, p: nat)
    requires Distinct(order) && p < |order|
    ensures From(order, order[p]) == order[p..]
    decreases p
  {
    if p > 0 {
      FromAt(order[1..], p - 1);
    }
  }

  lemma {:induction false} FromAbsent(order: seq<nat>, id: nat)
    requires id !in order
    ensures From(order, id) == []
  {
    if |order| > 0 {
      FromAbsent(order[1..], id);
    }
  }

  lemma SpliceDistinct(order: seq<nat>, p: nat)
    requires Distinct(order) && p < |order|
    ensures Distinct(Splice(order, p))
  {
  }

  lemma FromSpliced(order: seq<nat>, n: nat, p: nat)
    requires Distinct(order) && InRange(order, n) && p < |order|
    ensures From(Splice(order, p), At(order, p + 1)) == order[p + 1..]
    ensures From(order, At(order, p + 1)) == order[p + 1..]
  {
    hide From, Distinct;
    var r := Splice(order, p);
    SpliceDistinct(order, p);
    if p + 1 < |order| {
      assert r[p] == order[p + 1];
      FromAt(order, p + 1);
      FromAt(r, p);
      assert r[p..] == order[p + 1..];
    } else {
      FromAbsent(order, 0);
      FromAbsent(r, 0);
    }
  }

  /** Moving the cursor on, with or without removing the element it leaves. */
  lemma FromAfter(order: seq<nat>, n: nat, id: nat)
    requires Distinct(order) && InRange(order, n) && id in order
    ensures |From(order, id)| > 0 && From(order, id)[0] == id
    ensures From(order, After(order, id)) == From(order, id)[1..]
    ensures From(Without(order, id), After(order, id)) == From(order, id)[1..]
    ensures InRange(From(order, id), n)
  {
    hide From, After, Without, Distinct, At;
    var p: nat :| p < |order| && order[p] == id;
    FromAt(order, p);
    AfterAt(order, p);
    WithoutAt(order, p);
    FromSpliced(order, n, p);
  }

  lemma ContainsIff(data: seq<Entry>, order: seq<nat>, id: nat)
    requires Linked(data, order) && 0 < id < |data|
    ensures (data[id].prev != 0 || id == data[0].next) <==> id in order
  {
    assert At(order, -1) == 0 && data[At(order, -1)].next == At(order, 0);
    if id in order {
      var k :| 0 <= k < |order| && order[k] == id;
      assert At(order, k) == id && data[At(order, k)].prev == At(order, k - 1);
    }
  }

  /** `timestamp + ReleaseThreshold_s > now`, in 32-bit arithmetic */
  predicate TooNew(t: Stamp, now: Stamp) {
    (t + RELEASE_THRESHOLD) % CLOCK > now
  }

  lemma Resized(data: seq<Entry>, order: seq<nat>, more: nat)
    requires Linked(data, order)
    ensures Linked(data + seq(more, _ => NO_ENTRY), order)
  {
  }

  /** Changing a resource or a timestamp does not touch the list. */
  lemma SameLinks(data: seq<Entry>, order: seq<nat>, id: nat, e: Entry)
    requires Linked(data, order) && id < |data| && e.next == data[id].next && e.prev == data[id].prev
    ensures Linked(data[id := e], order)
  {
  }

  lemma LinkedDistinct(data: seq<Entry>, order: seq<nat>)
    requires Linked(data, order)
    ensures Distinct(order) && InRange(order, |data|)
  {
  }

  lemma FromFront(data: seq<Entry>, order: seq<nat>)
    requires Linked(data, order)
    ensures From(order, At(order, 0)) == order && InRange(order, |data|)
  {
    if |order| > 0 {
      FromAt(order, 0);
    }
  }

  lemma CursorMoves(data: seq<Entry>, order: seq<nat>, head: nat)
    requires Linked(data, order) && (head == 0 || head in order)
    ensures InRange(From(order, head), |data|)
    ensures head == 0 ==> From(order, head) == []
    ensures head != 0 ==>
      && |From(order, head)| > 0 && From(order, head)[0] == head
      && From(order, After(order, head)) == From(order, head)[1..]
      && From(Without(order, head), After(order, head)) == From(order, head)[1..]
  {
    if head != 0 {
      FromAfter(order, |data|, head);
    } else {
      FromAbsent(order, 0);
    }
  }

  // ----- The pool as its callers see it.

  /** An entry without its links. */
  datatype Slot = Slot(timestamp: Stamp, resource: Resource)

  /** The slots, the unused ones in order, the cursor of `freeUnused` and the purge list. */
  datatype View = View(slots: seq<Slot>, order: seq<nat>, head: nat, purged: seq<Resource>)

  function Slots(data: seq<Entry>): (s: seq<Slot>)
    ensures |s| == |data| && forall i {:trigger s[i]} :: 0 <= i < |s| ==> s[i] == Slot(data[i].timestamp, data[i].resource)
  {
    seq(|data|, i requires 0 <= i < |data| => Slot(data[i].timestamp, data[i].resource))
  }

  lemma SameSlots(data: seq<Entry>, other: seq<Entry>)
    ensures SameContents(data, other) <==> Slots(data) == Slots(other)
  {
    if Slots(data) == Slots(other) {
      forall i | 0 <= i < |data|
        ensures data[i].timestamp == other[i].timestamp && data[i].resource == other[i].resource
      {
        assert Slots(data)[i] == Slots(other)[i];
      }
    }
  }

  function Erased(v: View, id: nat): View {
    v.(order := Without(v.order, id), head := if v.head == id then After(v.order, id) else v.head)
  }

  function Stored(v: View, id: nat, r: Resource): View
    requires id < |v.slots|
  {
    v.(slots := v.slots[id := v.slots[id].(resource := r)])
  }

  function Grown(v: View, n: nat): View {
    if n <= |v.slots| then v else v.(slots := v.slots + seq(n - |v.slots|, _ => Slot(0, Empty)))
  }

  /** `freeUnused` has to stop at the cursor: it has enough, is at the end, or meets a descriptor released too lately. */
  predicate Stops(v: View, now: Stamp, full: bool) {
    full || v.head == 0 || (v.head < |v.slots| && TooNew(v.slots[v.head].timestamp, now))
  }

  /** One round of the loop of `freeUnused`; `locks` is the answer of `canRemove`. */
  function Round(v: View, now: Stamp, full: bool, locks: bool): View {
    if Stops(v, now, full) || v.head >= |v.slots| then v
    else if locks then Erased(Stored(v, v.head, Empty), v.head)
    else v.(head := After(v.order, v.head))
  }

  /** What other threads may do to the pool; their `freeUnused` is `OpFlush`, `OpRewind` and some `OpRound`s. */
  datatype Op =
    | OpAcquire(id: int)
    | OpNew(id: int, r: Resource)
    | OpRelease(id: int, now: Stamp)
    | OpPurge(id: int)
    | OpFlush
    | OpRewind
    | OpRound(now: Stamp, full: bool, locks: bool)

  /** The pool after `op`; a call that the program's assertions refuse does nothing. */
  function Did(v: View, op: Op): View {
    match op
    case OpAcquire(id) => if 0 < id < |v.slots| then Erased(v, id) else v
    case OpNew(id, r) => if 0 < id then Stored(Erased(Grown(v, id + 1), id), id, r) else v
    case OpRelease(id, now) =>
      if 0 < id < |v.slots| then
        var w := Erased(v, id);
        w.(order := w.order + [id], slots := w.slots[id := w.slots[id].(timestamp := now)])
      else v
    case OpPurge(id) =>
      if 0 < id < |v.slots| && v.slots[id].resource.Open? then
        Erased(Stored(v, id, Empty).(purged := v.purged + [Orphan(v.slots[id].resource.chunk)]), id)
      else v
    case OpFlush => v.(purged := [])
    case OpRewind => v.(head := At(v.order, 0))
    case OpRound(now, full, locks) => Round(v, now, full, locks)
  }

  function DidAll(v: View, ops: seq<Op>): View {
    if ops == [] then v else Did(DidAll(v, ops[..|ops| - 1]), ops[|ops| - 1])
  }

  lemma DidNext(v: View, ops: seq<Op>, k: nat)
    requires k < |ops|
    ensures DidAll(v, ops[..k + 1]) == Did(DidAll(v, ops[..k]), ops[k])
  {
    hide Did;
    assert ops[..k + 1][..k] == ops[..k];
  }

  // ----- Runs of `freeUnused`.

  /** A descriptor taken by `freeUnused`, and in which round. */
  datatype Taken = Taken(round: nat, id: nat)

  function OpsAt(others: seq<seq<Op>>, k: nat): seq<Op> {
    if k < |others| then others[k] else []
  }

  /** What the rounds took; `rounds[k]` is the pool at the start of round `k`. */
  function Log(rounds: seq<View>, locks: (nat, nat) -> bool): seq<Taken> {
    if rounds == [] then []
    else
      var k := |rounds| - 1;
      Log(rounds[..k], locks) + if locks(k, rounds[k].head) then [Taken(k, rounds[k].head)] else []
  }

  /** The pool at the end of the last round. */
  function RoundsEnd(start: View, rounds: seq<View>, locks: (nat, nat) -> bool, now: Stamp): View {
    if rounds == [] then start
    else
      var k := |rounds| - 1;
      Round(rounds[k], now, false, locks(k, rounds[k].head))
  }

  /** And when the next round starts, after other threads did what they do then. */
  function NextStart(start: View, rounds: seq<View>, others: seq<seq<Op>>, locks: (nat, nat) -> bool, now: Stamp): View {
    DidAll(RoundsEnd(start, rounds, locks, now), OpsAt(others, |rounds|))
  }

  /** Each round starts as the one before it and the other threads leave the pool, and does not stop. */
  ghost predicate Proceeds(start: View, rounds: seq<View>, others: seq<seq<Op>>, locks: (nat, nat) -> bool, now: Stamp, count: nat) {
    rounds == [] ||
    var k := |rounds| - 1;
    && Proceeds(start, rounds[..k], others, locks, now, count)
    && rounds[k] == NextStart(start, rounds[..k], others, locks, now)
    && !Stops(rounds[k], now, |Log(rounds[..k], locks)| >= count)
  }

  /** The cursor is null or in the list, and the list has slots. */
  predicate Sane(v: View) {
    Distinct(v.order) && InRange(v.order, |v.slots|) && (v.head == 0 || v.head in v.order)
  }

  /**
   Taking descriptor `t.id` and getting `r` was right: at the start of its round it was at the
   cursor, unused, released long enough ago, lockable, and `r` was in its slot; after the round
   it is not in the list and its slot is empty.
   */
  ghost predicate Justified(rounds: seq<View>, t: Taken, r: Resource, locks: (nat, nat) -> bool, now: Stamp) {
    && t.round < |rounds| && t.id == rounds[t.round].head && t.id in rounds[t.round].order
    && 0 < t.id < |rounds[t.round].slots|
    && !TooNew(rounds[t.round].slots[t.id].timestamp, now) && locks(t.round, t.id)
    && r == rounds[t.round].slots[t.id].resource
    && var after := Round(rounds[t.round], now, false, true);
    && t.id !in after.order && |after.slots| == |rounds[t.round].slots| && after.slots[t.id].resource == Empty
  }

  /** Everything taken was right, and in later and later rounds. */
  ghost predicate AllJustified(rounds: seq<View>, log: seq<Taken>, taken: seq<Resource>, locks: (nat, nat) -> bool, now: Stamp) {
    && |taken| == |log|
    && (forall j :: 0 <= j < |log| ==> Justified(rounds, log[j], taken[j], locks, now))
    && forall i, j :: 0 <= i < j < |log| ==> log[i].round < log[j].round
  }

  lemma LogNext(rounds: seq<View>, v: View, locks: (nat, nat) -> bool)
    ensures Log(rounds + [v], locks) == Log(rounds, locks) + if locks(|rounds|, v.head) then [Taken(|rounds|, v.head)] else []
  {
    assert (rounds + [v])[..|rounds|] == rounds;
  }

  lemma ProceedsNext(start: View, rounds: seq<View>, v: View, others: seq<seq<Op>>, locks: (nat, nat) -> bool, now: Stamp, count: nat)
    requires Proceeds(start, rounds, others, locks, now, count)
    requires v == NextStart(start, rounds, others, locks, now) && !Stops(v, now, |Log(rounds, locks)| >= count)
    ensures Proceeds(start, rounds + [v], others, locks, now, count)
    ensures RoundsEnd(start, rounds + [v], locks, now) == Round(v, now, false, locks(|rounds|, v.head))
  {
    hide NextStart, Stops, Round, Log;
    assert (rounds + [v])[..|rounds|] == rounds;
  }

  lemma JustifiedNow(rounds: seq<View>, v: View, locks: (nat, nat) -> bool, now: Stamp)
    requires Sane(v) && !Stops(v, now, false) && locks(|rounds|, v.head)
    ensures v.head < |v.slots| && Justified(rounds + [v], Taken(|rounds|, v.head), v.slots[v.head].resource, locks, now)
  {
    hide After, TooNew;
  }

  lemma AllJustifiedNext(rounds: seq<View>, v: View, taken: seq<Resource>, more: seq<Resource>, locks: (nat, nat) -> bool, now: Stamp)
    requires AllJustified(rounds, Log(rounds, locks), taken, locks, now)
    requires Sane(v) && !Stops(v, now, false) && v.head < |v.slots|
    requires more == if locks(|rounds|, v.head) then [v.slots[v.head].resource] else []
    ensures AllJustified(rounds + [v], Log(rounds + [v], locks), taken + more, locks, now)
  {
    hide Log, Stops, Sane, Round, TooNew;
    LogNext(rounds, v, locks);
    var log := Log(rounds, locks);
    forall j | 0 <= j < |log|
      ensures Justified(rounds + [v], log[j], taken[j], locks, now)
    {
      assert Justified(rounds, log[j], taken[j], locks, now);
    }
    if locks(|rounds|, v.head) {
      JustifiedNow(rounds, v, locks, now);
    }
  }

  // ----- The quiet case: nobody else touches the pool.

  function Ids(log: seq<Taken>): (ids: seq<nat>) {
    if |log| == 0 then [] else Ids(log[..|log| - 1]) + [log[|log| - 1].id]
  }

  lemma {:induction false} IdsConcat(log: seq<Taken>, more: seq<Taken>)
    requires |more| <= 1
    ensures Ids(log + more) == Ids(log) + (if more == [] then [] else [more[0].id])
  {
    if |more| == 1 {
      assert (log + more)[..|log|] == log;
    } else {
      assert log + more == log;
    }
  }

  /** The list without any of `ids`. */
  function Minus(order: seq<nat>, ids: seq<nat>): (r: seq<nat>)
    ensures forall x :: x in r <==> x in order && x !in ids
  {
    if ids == [] then order else Without(Minus(order, ids[..|ids| - 1]), ids[|ids| - 1])
  }

  lemma MinusNext(order: seq<nat>, ids: seq<nat>, id: nat)
    ensures Minus(order, ids + [id]) == Without(Minus(order, ids), id)
  {
    assert (ids + [id])[..|ids|] == ids;
  }

  /** From `v` on, nothing happened but that the descriptors `ids` were taken. */
  ghost predicate OnlyTaken(v: View, w: View, ids: seq<nat>) {
    && w.order == Minus(v.order, ids) && w.purged == v.purged && |w.slots| == |v.slots|
    && forall i :: 0 <= i < |w.slots| ==>
         w.slots[i].timestamp == v.slots[i].timestamp && w.slots[i].resource == if i in ids then Empty else v.slots[i].resource
  }

  /** `taken` is what was in the slots of `ids`. */
  ghost predicate FromSlots(v: View, ids: seq<nat>, taken: seq<Resource>) {
    |ids| == |taken| && forall k :: 0 <= k < |ids| ==> ids[k] < |v.slots| && taken[k] == v.slots[ids[k]].resource
  }

  lemma OnlyTakenNext(v: View, w: View, ids: seq<nat>, taken: seq<Resource>, now: Stamp, locks: bool)
    requires OnlyTaken(v, w, ids) && FromSlots(v, ids, taken) && Sane(w) && !Stops(w, now, false)
    ensures !locks ==> OnlyTaken(v, Round(w, now, false, locks), ids)
    ensures locks ==>
      && w.head < |w.slots|
      && OnlyTaken(v, Round(w, now, false, locks), ids + [w.head])
      && FromSlots(v, ids + [w.head], taken + [w.slots[w.head].resource])
  {
    hide After, Without, TooNew;
    MinusNext(v.order, ids, w.head);
  }

  /**
   The elements `freeUnused` takes when left alone: walking from the least recently released,
   those that can be locked, up to `count` of them, and none behind the first one too new.
   */
  function Walk(rest: seq<nat>, slots: seq<Slot>, locks: (nat, nat) -> bool, round: nat, now: Stamp, count: nat): seq<nat>
    requires InRange(rest, |slots|)
  {
    if count == 0 || |rest| == 0 || TooNew(slots[rest[0]].timestamp, now) then []
    else if locks(round, rest[0]) then [rest[0]] + Walk(rest[1..], slots, locks, round + 1, now, count - 1)
    else Walk(rest[1..], slots, locks, round + 1, now, count)
  }

  lemma WalkStep(rest: seq<nat>, slots: seq<Slot>, locks: (nat, nat) -> bool, round: nat, now: Stamp, count: nat)
    requires InRange(rest, |slots|)
    ensures count == 0 || |rest| == 0 || TooNew(slots[rest[0]].timestamp, now) ==> Walk(rest, slots, locks, round, now, count) == []
    ensures count > 0 && |rest| > 0 && !TooNew(slots[rest[0]].timestamp, now) ==>
              InRange(rest[1..], |slots|) &&
              Walk(rest, slots, locks, round, now, count) ==
                if locks(round, rest[0]) then [rest[0]] + Walk(rest[1..], slots, locks, round + 1, now, count - 1)
                else Walk(rest[1..], slots, locks, round + 1, now, count)
  {
  }

  predicate Quiet(others: seq<seq<Op>>) {
    forall k :: 0 <= k < |others| ==> others[k] == []
  }

  lemma QuietStart(start: View, rounds: seq<View>, others: seq<seq<Op>>, locks: (nat, nat) -> bool, now: Stamp)
    requires Quiet(others)
    ensures NextStart(start, rounds, others, locks, now) == RoundsEnd(start, rounds, locks, now)
  {
    hide RoundsEnd;
  }

  /** One round of the walk. */
  lemma WalkRound(v: View, slots: seq<Slot>, locks: (nat, nat) -> bool, round: nat, now: Stamp, count: nat)
    requires Sane(v) && !Stops(v, now, count == 0)
    requires |slots| == |v.slots| && forall i :: 0 <= i < |slots| ==> slots[i].timestamp == v.slots[i].timestamp
    ensures var w, can := Round(v, now, false, locks(round, v.head)), locks(round, v.head);
            && InRange(From(v.order, v.head), |slots|) && InRange(From(w.order, w.head), |slots|)
            && Walk(From(v.order, v.head), slots, locks, round, now, count) ==
                 (if can then [v.head] else []) + Walk(From(w.order, w.head), slots, locks, round + 1, now, if can then count - 1 else count)
  {
    hide From, After, Without, Walk, TooNew, Distinct;
    FromAfter(v.order, |slots|, v.head);
    WalkStep(From(v.order, v.head), slots, locks, round, now, count);
  }

  lemma WalkStops(v: View, slots: seq<Slot>, locks: (nat, nat) -> bool, round: nat, now: Stamp, count: nat)
    requires Sane(v) && Stops(v, now, count == 0)
    requires |slots| == |v.slots| && forall i :: 0 <= i < |slots| ==> slots[i].timestamp == v.slots[i].timestamp
    ensures InRange(From(v.order, v.head), |slots|) && Walk(From(v.order, v.head), slots, locks, round, now, count) == []
  {
    hide From, After, Without, Walk, TooNew, Distinct;
    if v.head == 0 {
      FromAbsent(v.order, 0);
    } else {
      FromAfter(v.order, |slots|, v.head);
    }
    WalkStep(From(v.order, v.head), slots, locks, round, now, count);
  }

  /** What is taken so far and what the walk from here on would take is what the walk from the start takes. */
  ghost predicate OnTheWay(start: View, rounds: seq<View>, locks: (nat, nat) -> bool, now: Stamp, count: nat, taken: seq<Resource>) {
    var end, log := RoundsEnd(start, rounds, locks, now), Log(rounds, locks);
    && |log| <= count && OnlyTaken(start, end, Ids(log)) && FromSlots(start, Ids(log), taken)
    && InRange(From(start.order, start.head), |start.slots|) && InRange(From(end.order, end.head), |start.slots|)
    && Walk(From(start.order, start.head), start.slots, locks, 0, now, count) ==
         Ids(log) + Walk(From(end.order, end.head), start.slots, locks, |rounds|, now, count - |log|)
  }

  lemma OnTheWayNext(start: View, front: seq<View>, v: View, locks: (nat, nat) -> bool, now: Stamp, count: nat, taken: seq<Resource>)
    requires OnTheWay(start, front, locks, now, count, taken) && v == RoundsEnd(start, front, locks, now)
    requires Sane(v) && !Stops(v, now, |Log(front, locks)| >= count)
    ensures v.head < |v.slots|
    ensures OnTheWay(start, front + [v], locks, now, count, taken + if locks(|front|, v.head) then [v.slots[v.head].resource] else [])
  {
    hide Walk, From, Log, Ids, OnlyTaken, FromSlots, Minus, Distinct, TooNew, After, Without;
    var log, can, w := Log(front, locks), locks(|front|, v.head), Round(v, now, false, locks(|front|, v.head));
    var more := if can then [Taken(|front|, v.head)] else [];
    LogNext(front, v, locks);
    IdsConcat(log, more);
    OnlyTakenStamps(start, v, Ids(log));
    OnlyTakenNext(start, v, Ids(log), taken, now, can);
    WalkRound(v, start.slots, locks, |front|, now, count - |log|);
    assert RoundsEnd(start, front + [v], locks, now) == w;
    hide Round, Stops, RoundsEnd;
    Regroup(Ids(log), if can then [v.head] else [], Walk(From(w.order, w.head), start.slots, locks, |front| + 1, now, count - |log| - |more|));
    assert Ids(log) + [] == Ids(log) && taken + [] == taken;
  }

  lemma Regroup(a: seq<nat>, b: seq<nat>, c: seq<nat>)
    ensures a + (b + c) == a + b + c
  {
  }

  lemma OnlyTakenStamps(v: View, w: View, ids: seq<nat>)
    requires OnlyTaken(v, w, ids)
    ensures |v.slots| == |w.slots| && forall i :: 0 <= i < |v.slots| ==> v.slots[i].timestamp == w.slots[i].timestamp
  {
  }

  /** The resources the rounds took. */
  function Gains(rounds: seq<View>, locks: (nat, nat) -> bool): seq<Resource> {
    if rounds == [] then []
    else
      var k := |rounds| - 1;
      var v := rounds[k];
      Gains(rounds[..k], locks) + if locks(k, v.head) && v.head < |v.slots| then [v.slots[v.head].resource] else []
  }

  lemma GainsNext(rounds: seq<View>, v: View, locks: (nat, nat) -> bool)
    requires v.head < |v.slots|
    ensures Gains(rounds + [v], locks) == Gains(rounds, locks) + if locks(|rounds|, v.head) then [v.slots[v.head].resource] else []
  {
    assert (rounds + [v])[..|rounds|] == rounds;
  }

  lemma OnTheWayFirst(start: View, locks: (nat, nat) -> bool, now: Stamp, count: nat)
    requires Sane(start)
    ensures OnTheWay(start, [], locks, now, count, [])
  {
    hide Walk, After, TooNew;
    if start.head == 0 {
      FromAbsent(start.order, 0);
    } else {
      FromAfter(start.order, |start.slots|, start.head);
    }
    hide From, Without;
  }

  lemma {:induction false} QuietRounds(start: View, rounds: seq<View>, others: seq<seq<Op>>, locks: (nat, nat) -> bool, now: Stamp, count: nat)
    requires Quiet(others) && Proceeds(start, rounds, others, locks, now, count) && Sane(start)
    requires forall k :: 0 <= k < |rounds| ==> Sane(rounds[k])
    ensures OnTheWay(start, rounds, locks, now, count, Gains(rounds, locks))
    decreases |rounds|
  {
    hide OnTheWay, Sane, Quiet, Stops, Round;
    if rounds == [] {
      OnTheWayFirst(start, locks, now, count);
    } else {
      var front, v := rounds[..|rounds| - 1], rounds[|rounds| - 1];
      assert rounds == front + [v];
      QuietRounds(start, front, others, locks, now, count);
      QuietStart(start, front, others, locks, now);
      OnTheWayNext(start, front, v, locks, now, count, Gains(front, locks));
      GainsNext(front, v, locks);
    }
  }

  /** Left alone, `freeUnused` takes exactly what the walk takes, and nothing else happens. */
  lemma QuietRun(start: View, rounds: seq<View>, others: seq<seq<Op>>, locks: (nat, nat) -> bool, now: Stamp, count: nat)
    requires Quiet(others) && Proceeds(start, rounds, others, locks, now, count) && Sane(start)
    requires forall k :: 0 <= k < |rounds| ==> Sane(rounds[k])
    requires Sane(NextStart(start, rounds, others, locks, now))
    requires Stops(NextStart(start, rounds, others, locks, now), now, |Log(rounds, locks)| >= count)
    ensures InRange(From(start.order, start.head), |start.slots|)
    ensures var ids := Walk(From(start.order, start.head), start.slots, locks, 0, now, count);
            OnlyTaken(start, NextStart(start, rounds, others, locks, now), ids) && FromSlots(start, ids, Gains(rounds, locks))
  {
    hide Walk, From, Log, Ids, Proceeds, OnlyTaken, FromSlots, Gains, Quiet, NextStart, RoundsEnd;
    QuietRounds(start, rounds, others, locks, now, count);
    QuietStart(start, rounds, others, locks, now);
    var end, log := RoundsEnd(start, rounds, locks, now), Log(rounds, locks);
    OnlyTakenStamps(start, end, Ids(log));
    WalkStops(end, start.slots, locks, |rounds|, now, count - |log|);
    assert Ids(log) + [] == Ids(log);
  }

  /** The pool when the first round of `freeUnused` may start. */
  function Began(v: View, between: seq<Op>): View {
    Did(DidAll(Did(v, OpFlush), between), OpRewind)
  }

  lemma BeganQuietly(v: View)
    ensures Began(v, []) == v.(purged := [], head := At(v.order, 0))
  {
  }

  /** The purge list and the cursor do not matter to what is taken. */
  lemma SameFromSlots(v: View, w: View, ids: seq<nat>, taken: seq<Resource>)
    requires v.slots == w.slots && FromSlots(w, ids, taken)
    ensures FromSlots(v, ids, taken)
  {
  }

  lemma SameOnlyTaken(v: View, w: View, end: View, ids: seq<nat>)
    requires w == v.(purged := [], head := w.head) && OnlyTaken(w, end, ids)
    ensures OnlyTaken(v.(purged := []), end, ids)
  {
  }

  lemma FreeNothing(start: View, others: seq<seq<Op>>, locks: (nat, nat) -> bool, now: Stamp, count: nat)
    ensures Proceeds(start, [], others, locks, now, count) && RoundsEnd(start, [], locks, now) == start
    ensures Log([], locks) == [] && Gains([], locks) == [] && AllJustified([], [], [], locks, now)
  {
  }

  lemma StartIs(start: View, rounds: seq<View>, others: seq<seq<Op>>, locks: (nat, nat) -> bool, now: Stamp)
    ensures NextStart(start, rounds, others, locks, now) == DidAll(RoundsEnd(start, rounds, locks, now), OpsAt(others, |rounds|))
  {
  }

  /** One more round that does not stop. */
  lemma FreeMore(start: View, rounds: seq<View>, v: View, others: seq<seq<Op>>, locks: (nat, nat) -> bool, now: Stamp, count: nat,
                 taken: seq<Resource>, more: seq<Resource>)
    requires Proceeds(start, rounds, others, locks, now, count) && v == NextStart(start, rounds, others, locks, now)
    requires AllJustified(rounds, Log(rounds, locks), taken, locks, now) && taken == Gains(rounds, locks)
    requires Sane(v) && !Stops(v, now, |Log(rounds, locks)| >= count) && v.head < |v.slots|
    requires more == if locks(|rounds|, v.head) then [v.slots[v.head].resource] else []
    ensures Proceeds(start, rounds + [v], others, locks, now, count)
    ensures RoundsEnd(start, rounds + [v], locks, now) == Round(v, now, |Log(rounds, locks)| >= count, locks(|rounds|, v.head))
    ensures AllJustified(rounds + [v], Log(rounds + [v], locks), taken + more, locks, now)
    ensures taken + more == Gains(rounds + [v], locks) && |taken + more| == |Log(rounds + [v], locks)| <= count
  {
    hide Log, Gains, AllJustified, Proceeds, Sane, NextStart, TooNew, RoundsEnd;
    assert !Stops(v, now, false) && |Log(rounds, locks)| < count;
    AllJustifiedNext(rounds, v, taken, more, locks, now);
    LogNext(rounds, v, locks);
    GainsNext(rounds, v, locks);
    ProceedsNext(start, rounds, v, others, locks, now, count);
    JustifiedLength(rounds, Log(rounds, locks), taken, locks, now);
  }

  lemma JustifiedLength(rounds: seq<View>, log: seq<Taken>, taken: seq<Resource>, locks: (nat, nat) -> bool, now: Stamp)
    requires AllJustified(rounds, log, taken, locks, now)
    ensures |taken| == |log|
  {
  }

  class Pool {
    var data: seq<Entry>
    var head: nat
    var purgeList: seq<Resource>
    ghost var order: seq<nat>
    ghost var uses: seq<Use>

    ghost predicate Valid()
      reads this
    {
      Linked(data, order) && order == OrderOf(uses) && (head == 0 || head in order)
    }

    ghost function Abstract(): View
      reads this
    {
      View(Slots(data), order, head, purgeList)
    }

    constructor (capacity: nat)
      requires 0 < capacity
      ensures Valid() && order == [] && purgeList == [] && |data| == capacity
      ensures forall i :: 0 <= i < capacity ==> data[i].resource == Empty
    {
      data, head, purgeList, order, uses := seq(capacity, _ => NO_ENTRY), 0, [], [], [];
    }

    method Contains(id: nat) returns (b: bool)
      requires Valid() && 0 < id < |data|
      ensures b <==> id in order
    {
      ContainsIff(data, order, id);
      return data[id].prev != 0 || id == data[0].next;
    }

    /** The link updates of `erase`. */
    method Unchain(id: nat)
      requires id < |data| && data[id].next < |data| && data[id].prev < |data|
      modifies this`data
      ensures data == Unlink(old(data), id)
    {
      data := SetPrev(data, data[id].next, data[id].prev);
      data := SetNext(data, data[id].prev, data[id].next);
      data := SetPrev(SetNext(data, id, 0), id, 0);
    }

    /** A cursor on the erased element moves on to the next one. */
    method Erase(id: nat)
      requires Valid() && 0 < id < |data|
      modifies this`data, this`head, this`order, this`uses
      ensures Valid() && order == Without(old(order), id) && uses == old(uses) + [Left(id)]
      ensures SameContents(data, old(data))
      ensures head == if old(head) == id then After(old(order), id) else old(head)
      ensures Abstract() == Erased(old(Abstract()), id)
    {
      hide Linked, Unlink, OrderOf, Without, After, Splice, Distinct, InRange;
      var c := Contains(id);
      UseLast(uses, Left(id));
      uses := uses + [Left(id)];
      if !c {
        WithoutAbsent(order, id);
        return;
      }
      ghost var p: nat :| p < |order| && order[p] == id;
      LinkedDistinct(data, order);
      Neighbours(data, order, p);
      UnlinkRemoves(data, order, p);
      WithoutAt(order, p);
      AfterAt(order, p);
      var nextId := data[id].next;
      ghost var before := data;
      Unchain(id);
      SameSlots(before, data);
      order := Without(order, id);
      if id == head {
        head := nextId;
      }
    }

    method PushBack(id: nat)
      requires Valid() && 0 < id < |data| && id !in order
      modifies this`data, this`order, this`uses
      ensures Valid() && order == old(order) + [id]
      ensures SameContents(data, old(data)) && Slots(data) == Slots(old(data))
    {
      LinkAppends(data, order, id);
      WithoutAbsent(order, id);
      UseLast(uses, Released(id));
      uses := uses + [Released(id)];
      hide Linked, Link;
      ghost var before := data;
      data := SetNext(SetPrev(data, id, data[0].prev), id, 0);
      data := SetPrev(SetNext(data, data[0].prev, id), 0, id);
      assert data == Link(before, id);
      SameSlots(before, data);
      order := order + [id];
    }

    /** Changing what is in a slot does not touch the list. */
    method SetSlot(id: nat, slot: Slot)
      requires Valid() && id < |data|
      modifies this`data
      ensures Valid() && |data| == |old(data)| && Slots(data) == Slots(old(data))[id := slot]
      ensures forall i :: 0 <= i < |data| ==>
                data[i].timestamp == (if i == id then slot.timestamp else old(data)[i].timestamp) &&
                data[i].resource == (if i == id then slot.resource else old(data)[i].resource)
    {
      hide Linked, OrderOf;
      var e := data[id].(timestamp := slot.timestamp, resource := slot.resource);
      SameLinks(data, order, id, e);
      data := data[id := e];
    }

    /** `acquire` of a descriptor already in its slot; a negative one means no descriptor. */
    method Acquire(id: int)
      requires Valid() && (id < 0 || 0 < id < |data|)
      modifies this`data, this`head, this`order, this`uses
      ensures Valid() && SameContents(data, old(data))
      ensures order == if id < 0 then old(order) else Without(old(order), id)
      ensures Abstract() == Did(old(Abstract()), OpAcquire(id))
    {
      if id < 0 {
        return;
      }
      Erase(id);
    }

    /** `acquire` of a new resource, growing the vector where needed. */
    method AcquireNew(id: nat, r: Resource)
      requires Valid() && 0 < id
      modifies this`data, this`head, this`order, this`uses
      ensures Valid() && order == Without(old(order), id)
      ensures |data| == (if id < |old(data)| then |old(data)| else id + 1) && data[id].resource == r
      ensures forall i :: 0 <= i < |data| && i != id ==>
                data[i].resource == if i < |old(data)| then old(data)[i].resource else Empty
      ensures Abstract() == Did(old(Abstract()), OpNew(id, r))
    {
      hide Linked, OrderOf, Without, After;
      Extend(id + 1);
      Erase(id);
      SetSlot(id, Slot(data[id].timestamp, r));
    }

    /** `resize`, which only grows the vector here. */
    method Extend(n: nat)
      requires Valid()
      modifies this`data
      ensures Valid() && Abstract() == Grown(old(Abstract()), n)
      ensures |data| == (if n <= |old(data)| then |old(data)| else n) && data[..|old(data)|] == old(data)
      ensures forall i :: |old(data)| <= i < |data| ==> data[i] == NO_ENTRY
    {
      hide Linked, OrderOf;
      if n > |data| {
        Resized(data, order, n - |data|);
        data := data + seq(n - |data|, _ => NO_ENTRY);
      }
    }

    /** `release`: the descriptor becomes the most recently used of the idle ones. */
    method Release(id: int, now: Stamp)
      requires Valid() && id < |data|
      modifies this`data, this`head, this`order, this`uses
      ensures Valid() && |data| == |old(data)|
      ensures order == if id <= 0 then old(order) else Without(old(order), id) + [id as nat]
      ensures id > 0 ==> data[id].timestamp == now
      ensures forall i :: 0 <= i < |data| ==>
                data[i].resource == old(data)[i].resource && (i != id || id <= 0 ==> data[i].timestamp == old(data)[i].timestamp)
      ensures Abstract() == Did(old(Abstract()), OpRelease(id, now))
    {
      if id <= 0 {
        return;
      }
      hide Linked, OrderOf, Without, After;
      Erase(id);
      PushBack(id);
      SetSlot(id, Slot(now, data[id].resource));
    }

    /** `purge`: the resource leaves its slot for the purge list, cut off from its chunk. */
    method Purge(id: int) returns (ok: bool)
      requires Valid() && id < |data|
      requires id > 0 ==> data[id].resource.Open?
      modifies this
      ensures Valid() && |data| == |old(data)| && (ok <==> id > 0)
      ensures order == if id <= 0 then old(order) else Without(old(order), id)
      ensures purgeList == old(purgeList) + if ok then [Orphan(old(data)[id].resource.chunk)] else []
      ensures forall i :: 0 <= i < |data| ==> data[i].resource == if i == id && ok then Empty else old(data)[i].resource
      ensures Abstract() == Did(old(Abstract()), OpPurge(id))
    {
      if id <= 0 {
        return false;
      }
      hide Linked, OrderOf, Without, After;
      purgeList := purgeList + [Orphan(data[id].resource.chunk)];
      SetSlot(id, Slot(data[id].timestamp, Empty));
      Erase(id);
      return true;
    }

    /** `flushPurgeList`: the caller destroys what it gets. */
    method FlushPurgeList() returns (flushed: seq<Resource>)
      requires Valid()
      modifies this`purgeList
      ensures Valid() && flushed == old(purgeList) && purgeList == []
      ensures Abstract() == Did(old(Abstract()), OpFlush)
    {
      flushed, purgeList := purgeList, [];
    }

    method Rewind()
      requires Valid()
      modifies this`head
      ensures Valid() && head == At(order, 0)
      ensures Abstract() == Did(old(Abstract()), OpRewind)
    {
      assert At(order, -1) == 0 && data[At(order, -1)].next == At(order, 0);
      head := data[0].next;
    }

    /**
     One round of the loop of `freeUnused` at cursor `head`, under both locks; `locks` is the
     answer of `canRemove`. The round ends the loop, takes the resource, or moves on.
     */
    method FreeStep(now: Stamp, full: bool, locks: bool) returns (stop: bool, taken: seq<Resource>)
      requires Valid()
      modifies this`data, this`head, this`order, this`uses
      ensures Valid() && |data| == |old(data)|
      ensures stop <==> full || old(head) == 0 || TooNew(old(data)[old(head)].timestamp, now)
      ensures stop ==> head == old(head) && taken == []
      ensures !stop ==> old(head) in old(order) && head == After(old(order), old(head))
      ensures !stop && locks ==> order == Without(old(order), old(head)) && taken == [old(data)[old(head)].resource]
      ensures stop || !locks ==> order == old(order) && data == old(data) && taken == []
      ensures forall i :: 0 <= i < |data| ==>
                data[i].timestamp == old(data)[i].timestamp &&
                data[i].resource == if i == old(head) && taken != [] then Empty else old(data)[i].resource
      ensures Abstract() == Round(old(Abstract()), now, full, locks)
      ensures stop <==> Stops(old(Abstract()), now, full)
      ensures stop ==> Abstract() == old(Abstract())
    {
      stop, taken := true, [];
      if full || head == 0 {
        return;
      }
      ghost var p: nat :| p < |order| && order[p] == head;
      Neighbours(data, order, p);
      AfterAt(order, p);
      hide Linked, OrderOf, Without, After, Distinct;
      var node := data[head];
      if TooNew(node.timestamp, now) {
        return;
      }
      stop := false;
      if locks {
        taken := [node.resource];
        SetSlot(head, Slot(node.timestamp, Empty));
        Erase(head);
      } else {
        head := node.next;
      }
    }

    /** An operation of another thread, if its caller may call it now. */
    method Interfere(op: Op)
      requires Valid()
      modifies this
      ensures Valid() && Abstract() == Did(old(Abstract()), op)
    {
      hide Linked, OrderOf, Without, After, Erased, At, Round, Slots;
      match op
      case OpAcquire(id) =>
        if id < 0 || 0 < id < |data| {
          Acquire(id);
        }
      case OpNew(id, r) =>
        if id > 0 {
          AcquireNew(id, r);
        }
      case OpRelease(id, now) =>
        if id < |data| {
          Release(id, now);
        }
      case OpPurge(id) =>
        if id < |data| && (id > 0 ==> data[id].resource.Open?) {
          var _ := Purge(id);
        }
      case OpFlush =>
        var _ := FlushPurgeList();
      case OpRewind =>
        Rewind();
      case OpRound(now, full, locks) =>
        var _, _ := FreeStep(now, full, locks);
    }

    method InterfereAll(ops: seq<Op>)
      requires Valid()
      modifies this
      ensures Valid() && Abstract() == DidAll(old(Abstract()), ops)
      ensures ops == [] ==> Abstract() == old(Abstract())
    {
      hide Did, Linked, OrderOf;
      var k: nat := 0;
      while k < |ops|
        invariant k <= |ops| && Valid() && Abstract() == DidAll(old(Abstract()), ops[..k])
      {
        DidNext(old(Abstract()), ops, k);
        Interfere(ops[k]);
        k := k + 1;
      }
      assert ops[..k] == ops;
    }

    lemma ValidIsSane()
      requires Valid()
      ensures Sane(Abstract()) && (head != 0 ==> head < |data|)
    {
    }

    /** The loop of `freeUnused` from the cursor on. */
    method FreeLoop(now: Stamp, count: nat, others: seq<seq<Op>>, locks: (nat, nat) -> bool)
      returns (candidates: seq<Resource>, ghost rounds: seq<View>)
      requires Valid()
      modifies this
      ensures Valid() && |candidates| <= count && candidates == Gains(rounds, locks)
      ensures Proceeds(old(Abstract()), rounds, others, locks, now, count)
      ensures Abstract() == NextStart(old(Abstract()), rounds, others, locks, now)
      ensures Stops(Abstract(), now, |Log(rounds, locks)| >= count)
      ensures AllJustified(rounds, Log(rounds, locks), candidates, locks, now)
      ensures forall k :: 0 <= k < |rounds| ==> Sane(rounds[k])
    {
      hide Linked, From, After, Without, OrderOf, InRange, At, Log, Gains, Proceeds, Round, Stops, Sane, AllJustified, DidAll, Slots, NextStart;
      ghost var start := Abstract();
      candidates, rounds := [], [];
      FreeNothing(start, others, locks, now, count);
      var round: nat := 0;
      var stop := false;
      while !stop
        invariant Valid() && |candidates| == |Log(rounds, locks)| <= count && candidates == Gains(rounds, locks)
        invariant round == |rounds| && Proceeds(start, rounds, others, locks, now, count)
        invariant forall k :: 0 <= k < |rounds| ==> Sane(rounds[k])
        invariant AllJustified(rounds, Log(rounds, locks), candidates, locks, now)
        invariant !stop ==> Abstract() == RoundsEnd(start, rounds, locks, now)
        invariant stop ==> Abstract() == NextStart(start, rounds, others, locks, now)
        invariant stop ==> Stops(Abstract(), now, |Log(rounds, locks)| >= count)
        decreases !stop, if round < |others| then |others| - round else 0, |From(order, head)|
      {
        InterfereAll(OpsAt(others, round));
        StartIs(start, rounds, others, locks, now);
        ghost var v := Abstract();
        var taken: seq<Resource>;
        stop, taken := FreeRound(now, |candidates| >= count, round, locks);
        if !stop {
          FreeMore(start, rounds, v, others, locks, now, count, candidates, taken);
          rounds, candidates, round := rounds + [v], candidates + taken, round + 1;
        }
      }
    }

    /** One round; the cursor moves towards the end of the list. */
    method FreeRound(now: Stamp, full: bool, round: nat, locks: (nat, nat) -> bool) returns (stop: bool, taken: seq<Resource>)
      requires Valid()
      modifies this`data, this`head, this`order, this`uses
      ensures Valid() && Sane(old(Abstract())) && (stop <==> Stops(old(Abstract()), now, full))
      ensures Abstract() == Round(old(Abstract()), now, full, locks(round, old(head)))
      ensures stop ==> Abstract() == old(Abstract())
      ensures !stop ==> old(head) < |old(Abstract()).slots|
      ensures !stop ==> |From(order, head)| < |From(old(order), old(head))|
      ensures !stop ==> taken == if locks(round, old(head)) then [old(Abstract()).slots[old(head)].resource] else []
    {
      hide Linked, From, After, Without, OrderOf, At, InRange, Round, Stops, Sane;
      ValidIsSane();
      CursorMoves(data, order, head);
      stop, taken := FreeStep(now, full, locks(round, head));
      CursorMoves(data, order, head);
    }

    /**
     `freeUnused`. Another thread does `between` before the cursor is set and `others[k]` before
     round `k`, and `locks(k, id)` says whether the chunk of descriptor `id` can be locked in
     round `k`. `rounds[k]` is the pool at the start of round `k`, which did not stop.
     */
    method FreeUnused(now: Stamp, count: nat, between: seq<Op>, others: seq<seq<Op>>, locks: (nat, nat) -> bool)
      returns (flushed: seq<Resource>, candidates: seq<Resource>, ghost rounds: seq<View>)
      requires Valid()
      modifies this
      ensures Valid() && flushed == old(purgeList) && |candidates| <= count && candidates == Gains(rounds, locks)
      ensures Proceeds(Began(old(Abstract()), between), rounds, others, locks, now, count)
      ensures Abstract() == NextStart(Began(old(Abstract()), between), rounds, others, locks, now)
      ensures Stops(Abstract(), now, |Log(rounds, locks)| >= count)
      ensures AllJustified(rounds, Log(rounds, locks), candidates, locks, now)
      ensures between == [] && Quiet(others) ==>
                && InRange(old(order), |Slots(old(data))|)
                && var ids := Walk(old(order), Slots(old(data)), locks, 0, now, count);
                && FromSlots(old(Abstract()), ids, candidates)
                && OnlyTaken(old(Abstract()).(purged := []), Abstract(), ids)
    {
      hide From, Walk, AllJustified, Proceeds, NextStart, Stops, Log, Gains, Linked, OrderOf, DidAll, OnlyTaken, FromSlots, Quiet, Slots, Sane;
      ghost var was := Abstract();
      flushed := FlushPurgeList();
      InterfereAll(between);
      Rewind();
      FromFront(data, order);
      ghost var start := Abstract();
      ValidIsSane();
      candidates, rounds := FreeLoop(now, count, others, locks);
      ValidIsSane();
      if between == [] && Quiet(others) {
        BeganQuietly(was);
        QuietRun(start, rounds, others, locks, now, count);
        SameFromSlots(was, start, Walk(was.order, was.slots, locks, 0, now, count), candidates);
        SameOnlyTaken(was, start, Abstract(), Walk(was.order, was.slots, locks, 0, now, count));
      }
    }
  }
}
