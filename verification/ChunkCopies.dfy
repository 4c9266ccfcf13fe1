/**
 The redundancy level of a chunk: how many of its part copies can be lost before its data is.
 */
module ChunkCopies {
  import opened LabelMatching

  const STANDARD := 0
  const TAPE := 1
  const XOR_FIRST := 2
  const EC_FIRST := 10
  const TYPE_COUNT := EC_FIRST + 31 * 32

  type SliceType = t: nat | t < TYPE_COUNT

  /** How many different parts give the data back; no number of parts does for tape. */
  function DataParts(t: SliceType): nat
    requires t != TAPE
  {
    if t == STANDARD then 1 else if t < EC_FIRST then t else 2 + (t - EC_FIRST) / 32
  }

  function ExpectedParts(t: SliceType): nat {
    if t <= TAPE then 1 else if t < EC_FIRST then t + 1 else 3 + (t - EC_FIRST) / 32 + (t - EC_FIRST) % 32
  }

  /** `Goal::Slice`: for every part, the labels of the servers with a copy. */
  datatype Slice = Slice(kind: SliceType, parts: seq<seq<Stock>>)

  type Goal = seq<Slice>

  function CountLabels(part: seq<Stock>): nat {
    if |part| == 0 then 0 else CountLabels(part[..|part| - 1]) + part[|part| - 1].count
  }

  /** The number of copies is the size of the bag. */
  lemma {:induction false} CountIsBagSize(part: seq<Stock>)
    requires Sorted(part)
    ensures CountLabels(part) == |Bag(part)|
  {
    if |part| > 0 {
      CountIsBagSize(part[..|part| - 1]);
      BagAbsent(part[..|part| - 1], part[|part| - 1].media);
    }
  }

  function Copies(parts: seq<seq<Stock>>): nat {
    if |parts| == 0 then 0 else Copies(parts[..|parts| - 1]) + CountLabels(parts[|parts| - 1])
  }

  /** How many different parts there is a copy of. */
  function Present(parts: seq<seq<Stock>>): nat {
    if |parts| == 0 then 0
    else Present(parts[..|parts| - 1]) + if CountLabels(parts[|parts| - 1]) > 0 then 1 else 0
  }

  /** All copies of a slice as bags, one for each part. */
  function BagSizes(parts: seq<seq<Stock>>): nat {
    if |parts| == 0 then 0 else BagSizes(parts[..|parts| - 1]) + |Bag(parts[|parts| - 1])|
  }

  function NonEmptyBags(parts: seq<seq<Stock>>): nat {
    if |parts| == 0 then 0
    else NonEmptyBags(parts[..|parts| - 1]) + if Bag(parts[|parts| - 1]) != multiset{} then 1 else 0
  }

  /** Counting labels counts the copies in the bags, and the parts that have one. */
  lemma {:induction false} CopiesAreBags(parts: seq<seq<Stock>>)
    requires forall p :: 0 <= p < |parts| ==> Sorted(parts[p])
    ensures Copies(parts) == BagSizes(parts) && Present(parts) == NonEmptyBags(parts)
  {
    if |parts| > 0 {
      CopiesAreBags(parts[..|parts| - 1]);
      CountIsBagSize(parts[|parts| - 1]);
      hide Bag, CountLabels;
    }
  }

  function SliceLevel(s: Slice): int {
    if s.kind == STANDARD then Copies(s.parts) - 1
    else if s.kind == TAPE then -1
    else Present(s.parts) - DataParts(s.kind)
  }

  function Weight(level: int): nat {
    if level < 0 then 0 else level + 1
  }

  function Sum(goal: Goal): nat {
    if |goal| == 0 then 0 else Sum(goal[..|goal| - 1]) + Weight(SliceLevel(goal[|goal| - 1]))
  }

  function Level(goal: Goal): int {
    Sum(goal) - 1
  }

  // ----- What the level means.

  /** Enough different parts to give the data back. */
  predicate Readable(s: Slice) {
    s.kind != TAPE && Present(s.parts) >= DataParts(s.kind)
  }

  lemma {:induction false} SumSplit(goal: Goal, k: nat)
    requires k < |goal|
    ensures Sum(goal) == Sum(goal[..k]) + Weight(SliceLevel(goal[k])) + Sum(goal[k + 1..])
  {
    var last := |goal| - 1;
    if k == last {
      assert goal[k + 1..] == [];
    } else {
      SumSplit(goal[..last], k);
      assert goal[..last][..k] == goal[..k];
      assert goal[..last][k + 1..] == goal[k + 1..][..|goal[k + 1..]| - 1];
    }
  }

  lemma {:induction false} SumZero(goal: Goal)
    ensures Sum(goal) == 0 <==> forall k :: 0 <= k < |goal| ==> SliceLevel(goal[k]) < 0
  {
    if |goal| > 0 {
      SumZero(goal[..|goal| - 1]);
    }
  }

  predicate WellFormed(s: Slice) {
    |s.parts| == ExpectedParts(s.kind)
  }

  lemma OnePart(p: seq<seq<Stock>>)
    requires |p| == 1
    ensures Copies(p) == CountLabels(p[0]) && Present(p) == if CountLabels(p[0]) > 0 then 1 else 0
  {
    assert p[..0] == [] && Copies([]) == 0 && Present([]) == 0;
  }

  lemma ReadableLevel(s: Slice)
    requires WellFormed(s)
    ensures Readable(s) <==> SliceLevel(s) >= 0
  {
    if s.kind == STANDARD {
      OnePart(s.parts);
    }
  }

  /** The data can be read from some slice exactly when the level is not negative. */
  lemma LevelReadable(goal: Goal)
    requires forall k :: 0 <= k < |goal| ==> WellFormed(goal[k])
    ensures Level(goal) >= 0 <==> exists k :: 0 <= k < |goal| && Readable(goal[k])
  {
    SumZero(goal);
    forall k | 0 <= k < |goal|
      ensures Readable(goal[k]) <==> SliceLevel(goal[k]) >= 0
    {
      ReadableLevel(goal[k]);
    }
  }

  // ----- Losing copies.

  /** One copy with label `l` less, if there is one; an entry that is used up goes. */
  function RemoveLabel(part: seq<Stock>, l: Label): seq<Stock> {
    if |part| == 0 then []
    else if part[0].media == l then
      if part[0].count <= 1 then part[1..] else [part[0].(count := part[0].count - 1)] + part[1..]
    else [part[0]] + RemoveLabel(part[1..], l)
  }

  lemma {:induction false} BagFirst(part: seq<Stock>)
    requires Sorted(part) && |part| > 0
    ensures Bag(part[1..])[part[0].media] == 0 && Bag(part) == Bag(part[1..])[part[0].media := part[0].count]
    decreases |part|
  {
    BagAbsent(part[1..], part[0].media);
    if |part| == 1 {
      assert part[..0] == [] && part[1..] == [];
    } else {
      var last := |part| - 1;
      BagFirst(part[..last]);
      assert part[..last][1..] == part[1..][..last - 1];
    }
  }

  lemma {:induction false} RemoveLabelKeeps(part: seq<Stock>, l: Label, below: int)
    requires Sorted(part) && forall i :: 0 <= i < |part| ==> part[i].media > below
    ensures Sorted(RemoveLabel(part, l))
    ensures forall i :: 0 <= i < |RemoveLabel(part, l)| ==> RemoveLabel(part, l)[i].media > below
    decreases |part|
  {
    if |part| > 0 && part[0].media != l {
      RemoveLabelKeeps(part[1..], l, part[0].media);
    }
  }

  lemma TakeOther(m: multiset<Label>, x: Label, n: nat, l: Label)
    requires x != l
    ensures (m - multiset{l})[x := n] == m[x := n] - multiset{l}
  {
  }

  lemma TakeOne(m: multiset<Label>, l: Label, n: nat)
    requires m[l] == 0
    ensures m[l := n] - multiset{l} == m[l := Monus(n, 1)] && m[l := 0] == m
  {
  }

  /** Exactly one copy with label `l` leaves, if there is one. */
  lemma {:induction false} RemoveLabelBag(part: seq<Stock>, l: Label)
    requires Sorted(part)
    ensures Sorted(RemoveLabel(part, l)) && Bag(RemoveLabel(part, l)) == Bag(part) - multiset{l}
    decreases |part|
  {
    RemoveLabelKeeps(part, l, -1);
    if |part| > 0 {
      hide Bag;
      var rest, r, n := part[1..], RemoveLabel(part, l), part[0].count;
      BagFirst(part);
      if part[0].media != l {
        RemoveLabelBag(rest, l);
        assert r[1..] == RemoveLabel(rest, l);
        BagFirst(r);
        TakeOther(Bag(rest), part[0].media, n, l);
      } else {
        TakeOne(Bag(rest), l, n);
        if n > 1 {
          assert r[1..] == rest;
          BagFirst(r);
        }
      }
    }
  }

  lemma {:induction false} CountFirst(part: seq<Stock>)
    requires |part| > 0
    ensures CountLabels(part) == part[0].count + CountLabels(part[1..])
  {
    if |part| == 1 {
      assert part[..0] == [] && part[1..] == [];
    } else {
      CountFirst(part[..|part| - 1]);
      assert part[..|part| - 1][1..] == part[1..][..|part| - 2];
    }
  }

  lemma {:induction false} RemoveLabelCount(part: seq<Stock>, l: Label)
    ensures CountLabels(part) - 1 <= CountLabels(RemoveLabel(part, l)) <= CountLabels(part)
  {
    if |part| > 0 {
      CountFirst(part);
      if part[0].media != l {
        RemoveLabelCount(part[1..], l);
        CountFirst([part[0]] + RemoveLabel(part[1..], l));
      } else if part[0].count > 1 {
        CountFirst([part[0].(count := part[0].count - 1)] + part[1..]);
      }
    }
  }

  lemma {:induction false} PartLost(parts: seq<seq<Stock>>, p: nat, q: seq<Stock>)
    requires p < |parts| && CountLabels(parts[p]) - 1 <= CountLabels(q) <= CountLabels(parts[p])
    ensures Copies(parts) - 1 <= Copies(parts[p := q]) <= Copies(parts)
    ensures Present(parts) - 1 <= Present(parts[p := q]) <= Present(parts)
  {
    var last := |parts| - 1;
    var after := parts[p := q];
    if p < last {
      PartLost(parts[..last], p, q);
      assert after[..last] == parts[..last][p := q];
    } else {
      assert after[..last] == parts[..last];
    }
  }

  /** A chunk without one copy of part `p` of slice `k` on label `l`. */
  function Lose(goal: Goal, k: nat, p: nat, l: Label): Goal
    requires k < |goal| && p < |goal[k].parts|
  {
    goal[k := LosePart(goal[k], p, l)]
  }

  function LosePart(s: Slice, p: nat, l: Label): Slice
    requires p < |s.parts|
  {
    s.(parts := s.parts[p := RemoveLabel(s.parts[p], l)])
  }

  lemma SliceLoss(s: Slice, p: nat, l: Label)
    requires p < |s.parts|
    ensures SliceLevel(s) - 1 <= SliceLevel(LosePart(s, p, l)) <= SliceLevel(s)
  {
    RemoveLabelCount(s.parts[p], l);
    PartLost(s.parts, p, RemoveLabel(s.parts[p], l));
  }

  lemma LoseSum(goal: Goal, k: nat, p: nat, l: Label)
    requires k < |goal| && p < |goal[k].parts|
    ensures Sum(Lose(goal, k, p, l)) == Sum(goal) - Weight(SliceLevel(goal[k])) + Weight(SliceLevel(LosePart(goal[k], p, l)))
  {
    var after := Lose(goal, k, p, l);
    SumSplit(goal, k);
    SumSplit(after, k);
    assert after[..k] == goal[..k] && after[k + 1..] == goal[k + 1..];
  }

  lemma LossStep(goal: Goal, k: nat, p: nat, l: Label)
    requires k < |goal| && p < |goal[k].parts|
    ensures Level(goal) - 1 <= Level(Lose(goal, k, p, l)) <= Level(goal)
  {
    LoseSum(goal, k, p, l);
    SliceLoss(goal[k], p, l);
  }

  datatype Loss = Loss(slice: nat, part: nat, media: Label)

  ghost predicate LossRun(states: seq<Goal>, losses: seq<Loss>) {
    |states| == |losses| + 1 &&
    forall j :: 0 <= j < |losses| ==>
      losses[j].slice < |states[j]| && losses[j].part < |states[j][losses[j].slice].parts| &&
      states[j + 1] == Lose(states[j], losses[j].slice, losses[j].part, losses[j].media)
  }

  predicate AllWellFormed(goal: Goal) {
    forall k :: 0 <= k < |goal| ==> WellFormed(goal[k])
  }

  lemma {:induction false} LossesLevel(states: seq<Goal>, losses: seq<Loss>)
    requires LossRun(states, losses) && AllWellFormed(states[0])
    ensures Level(states[|losses|]) >= Level(states[0]) - |losses| && AllWellFormed(states[|losses|])
    decreases |losses|
  {
    if |losses| > 0 {
      var n := |losses| - 1;
      LossesLevel(states[..|losses|], losses[..n]);
      LossStep(states[n], losses[n].slice, losses[n].part, losses[n].media);
    }
  }

  /** A chunk of level L can be read after any L losses, whichever copies they hit. */
  lemma SurvivesLosses(states: seq<Goal>, losses: seq<Loss>)
    requires LossRun(states, losses) && AllWellFormed(states[0]) && |losses| <= Level(states[0])
    ensures exists k :: 0 <= k < |states[|losses|]| && Readable(states[|losses|][k])
  {
    LossesLevel(states, losses);
    LevelReadable(states[|losses|]);
  }

  // ----- The calculator.

  predicate Distinct(goal: Goal) {
    forall i, j :: 0 <= i < j < |goal| ==> goal[i].kind != goal[j].kind
  }

  /** `Goal::find` */
  function Find(goal: Goal, t: SliceType): (k: nat)
    ensures k <= |goal| && (k < |goal| ==> goal[k].kind == t)
    ensures forall i :: 0 <= i < k ==> goal[i].kind != t
  {
    if |goal| == 0 then 0
    else
      var k := Find(goal[..|goal| - 1], t);
      if k < |goal| - 1 then k else if goal[|goal| - 1].kind == t then |goal| - 1 else |goal|
  }

  lemma FindKept(goal: Goal, other: Goal, t: SliceType)
    requires |goal| == |other| && forall k :: 0 <= k < |goal| ==> goal[k].kind == other[k].kind
    ensures Find(goal, t) == Find(other, t)
  {
    var j, k := Find(goal, t), Find(other, t);
    hide Find;
    assert j < |goal| ==> other[j].kind == t;
    assert k < |goal| ==> goal[k].kind == t;
  }

  /** The first `n` slices of `goal` have their levels stored. */
  ghost predicate StoredUpTo(levels: map<SliceType, int>, goal: Goal, n: nat) {
    forall k :: 0 <= k < n && k < |goal| ==> goal[k].kind in levels && levels[goal[k].kind] == SliceLevel(goal[k])
  }

  /** Levels are stored for slices of `goal` only. */
  ghost predicate Known(levels: map<SliceType, int>, goal: Goal) {
    forall t :: t in levels ==> Find(goal, t) < |goal|
  }

  /** The levels stored for the slices are those of `goal`. */
  ghost predicate Stored(levels: map<SliceType, int>, goal: Goal) {
    StoredUpTo(levels, goal, |goal|) && Known(levels, goal)
  }

  lemma StoreNext(levels: map<SliceType, int>, goal: Goal, k: nat)
    requires Distinct(goal) && k < |goal| && StoredUpTo(levels, goal, k) && Known(levels, goal)
    ensures var more := levels[goal[k].kind := SliceLevel(goal[k])];
            StoredUpTo(more, goal, k + 1) && Known(more, goal)
  {
    hide SliceLevel, Find;
  }

  /** What a slice adds to the count of removable copies: 2 if safe, 1 if endangered. */
  function Spare(level: int): nat {
    if level > 0 then 2 else if level == 0 then 1 else 0
  }

  /** The sum of the spares over the slices whose type is in `done`. */
  function SpareIn(goal: Goal, done: set<SliceType>): nat {
    if |goal| == 0 then 0
    else SpareIn(goal[..|goal| - 1], done) + if goal[|goal| - 1].kind in done then Spare(SliceLevel(goal[|goal| - 1])) else 0
  }

  function SafeIn(goal: Goal, done: set<SliceType>): nat {
    if |goal| == 0 then 0
    else SafeIn(goal[..|goal| - 1], done) + if goal[|goal| - 1].kind in done && SliceLevel(goal[|goal| - 1]) > 0 then 1 else 0
  }

  lemma {:induction false} SpareOther(goal: Goal, done: set<SliceType>, t: SliceType)
    requires forall i :: 0 <= i < |goal| ==> goal[i].kind != t
    ensures SpareIn(goal, done + {t}) == SpareIn(goal, done) && SafeIn(goal, done + {t}) == SafeIn(goal, done)
  {
    if |goal| > 0 {
      SpareOther(goal[..|goal| - 1], done, t);
    }
  }

  lemma {:induction false} SpareAdd(goal: Goal, done: set<SliceType>, k: nat)
    requires Distinct(goal) && k < |goal| && goal[k].kind !in done
    ensures SpareIn(goal, done + {goal[k].kind}) == SpareIn(goal, done) + Spare(SliceLevel(goal[k]))
    ensures SafeIn(goal, done + {goal[k].kind}) == SafeIn(goal, done) + if SliceLevel(goal[k]) > 0 then 1 else 0
  {
    var last := |goal| - 1;
    if k == last {
      SpareOther(goal[..last], done, goal[k].kind);
    } else {
      SpareAdd(goal[..last], done, k);
    }
  }

  lemma {:induction false} SpareNone(goal: Goal)
    ensures SpareIn(goal, {}) == 0 && SafeIn(goal, {}) == 0
  {
    if |goal| > 0 {
      SpareNone(goal[..|goal| - 1]);
    }
  }

  /** The spares of a part of the slices are no more than the level of all plus one. */
  lemma {:induction false} SpareBelowSum(goal: Goal, done: set<SliceType>)
    ensures SpareIn(goal, done) <= Sum(goal)
    ensures SafeIn(goal, done) * 2 <= SpareIn(goal, done)
  {
    if |goal| > 0 {
      SpareBelowSum(goal[..|goal| - 1], done);
    }
  }

  /** `evalSliceRedundancyLevel` */
  method EvalSlice(s: Slice) returns (level: int)
    ensures level == SliceLevel(s)
    ensures (forall p :: 0 <= p < |s.parts| ==> Sorted(s.parts[p])) ==>
              level == if s.kind == STANDARD then BagSizes(s.parts) - 1
                       else if s.kind == TAPE then -1 else NonEmptyBags(s.parts) - DataParts(s.kind)
  {
    if forall p :: 0 <= p < |s.parts| ==> Sorted(s.parts[p]) {
      CopiesAreBags(s.parts);
    }
    hide Sorted, BagSizes, NonEmptyBags;
    var kinds: int, copies: int := 0, 0;
    var i := 0;
    while i < |s.parts|
      invariant i <= |s.parts| && copies == Copies(s.parts[..i]) && kinds == Present(s.parts[..i])
    {
      assert s.parts[..i + 1][..i] == s.parts[..i];
      var count := CountLabels(s.parts[i]);
      copies := copies + count;
      kinds := kinds + if count > 0 then 1 else 0;
      i := i + 1;
    }
    assert s.parts[..i] == s.parts;
    if s.kind == STANDARD {
      return copies - 1;
    } else if s.kind >= XOR_FIRST {
      return kinds - DataParts(s.kind);
    }
    return -1;
  }

  // ----- Which copies may go.

  /** All slices, by their types. */
  function Kinds(goal: Goal): set<SliceType> {
    set k | 0 <= k < |goal| :: goal[k].kind
  }

  /** The exception: the target wants a single copy, and after the removal there is one left. */
  predicate SingleCopy(goal: Goal, target: Goal, t: SliceType, p: nat, l: Label)
    requires Find(goal, t) < |goal| && p < |goal[Find(goal, t)].parts|
  {
    && Find(target, t) < |target| && Copies(target[Find(target, t)].parts) == 1
    && Copies(LosePart(goal[Find(goal, t)], p, l).parts) >= 1
  }

  /** The answer of `canRemovePart` for a chunk with a target. */
  predicate Removable(goal: Goal, target: Goal, t: SliceType, p: nat, l: Label)
    requires Find(goal, t) < |goal| ==> p < |goal[Find(goal, t)].parts|
  {
    && Level(goal) >= 1 && Find(goal, t) < |goal|
    && var s := goal[Find(goal, t)];
    || SpareIn(goal, Kinds(goal)) > 2
    || SliceLevel(s) < 0
    || (SafeIn(goal, Kinds(goal)) == 1 && (SingleCopy(goal, target, t, p, l) || SliceLevel(LosePart(s, p, l)) > 0))
  }

  /** One slice takes its own share of the spares; the others are covered by their weight. */
  lemma {:induction false} SpareRest(goal: Goal, k: nat)
    requires k < |goal|
    ensures SpareIn(goal, Kinds(goal)) <= Sum(goal) - Weight(SliceLevel(goal[k])) + Spare(SliceLevel(goal[k]))
  {
    SpareRestIn(goal, Kinds(goal), k);
  }

  lemma {:induction false} SpareRestIn(goal: Goal, done: set<SliceType>, k: nat)
    requires k < |goal|
    ensures SpareIn(goal, done) <= Sum(goal) - Weight(SliceLevel(goal[k])) + Spare(SliceLevel(goal[k]))
  {
    var last := |goal| - 1;
    if k < last {
      SpareRestIn(goal[..last], done, k);
    } else {
      SpareBelowSum(goal[..last], done);
    }
  }

  /** Counting all slices: spares are weights cut off at 2. */
  lemma {:induction false} SpareBounds(goal: Goal, done: set<SliceType>)
    requires Kinds(goal) <= done
    ensures SpareIn(goal, done) == 0 ==> Sum(goal) == 0
    ensures SpareIn(goal, done) == 1 ==> Sum(goal) == 1
    ensures SafeIn(goal, done) == 0 ==> Sum(goal) == SpareIn(goal, done)
  {
    if |goal| > 0 {
      var g := goal[..|goal| - 1];
      assert goal[|goal| - 1].kind in Kinds(goal);
      assert Kinds(g) <= done by {
        forall k | 0 <= k < |g|
          ensures g[k].kind in done
        {
          assert goal[k].kind in Kinds(goal);
        }
      }
      SpareBounds(g, done);
      SpareBelowSum(g, done);
    }
  }

  lemma {:induction false} SpareShare(goal: Goal, done: set<SliceType>, k: nat)
    requires Kinds(goal) <= done && k < |goal|
    ensures SpareIn(goal, done) >= Spare(SliceLevel(goal[k])) + if Sum(goal) > Weight(SliceLevel(goal[k])) then 1 else 0
    ensures SliceLevel(goal[k]) > 0 ==> SafeIn(goal, done) > 0
    ensures SliceLevel(goal[k]) == 0 ==> SpareIn(goal, done) >= 2 * SafeIn(goal, done) + 1
  {
    var last := |goal| - 1;
    var g := goal[..last];
    assert goal[last].kind in Kinds(goal);
    assert Kinds(g) <= done by {
      forall i | 0 <= i < |g|
        ensures g[i].kind in done
      {
        assert goal[i].kind in Kinds(goal);
      }
    }
    if k < last {
      SpareShare(g, done, k);
    } else {
      SpareBounds(g, done);
      SpareBelowSum(g, done);
    }
  }

  /**
   A copy that may go leaves the chunk at level 1 at least exactly when other slices make the
   chunk safe or the slice stays safe itself; otherwise the target wants a single copy.
   */
  lemma RemovableIsSafe(goal: Goal, target: Goal, t: SliceType, p: nat, l: Label)
    requires Find(goal, t) < |goal| ==> p < |goal[Find(goal, t)].parts|
    requires Removable(goal, target, t, p, l)
    ensures Level(Lose(goal, Find(goal, t), p, l)) >= 1 <==>
              || SpareIn(goal, Kinds(goal)) > 2
              || SliceLevel(goal[Find(goal, t)]) < 0
              || SliceLevel(LosePart(goal[Find(goal, t)], p, l)) > 0
    ensures Level(Lose(goal, Find(goal, t), p, l)) < 1 ==> SingleCopy(goal, target, t, p, l)
  {
    hide SliceLevel, Find, SpareIn, SafeIn, Sum, SingleCopy;
    var k := Find(goal, t);
    LoseSum(goal, k, p, l);
    SliceLoss(goal[k], p, l);
    SpareRest(goal, k);
    SumSplit(goal, k);
    SpareShare(goal, Kinds(goal), k);
  }

  /** The exception is met: of two copies one may go when the target wants one, and then no loss is survived. */
  lemma SingleCopyCanEndanger()
    ensures exists goal: Goal, target: Goal, l: Label ::
              && Find(goal, STANDARD) < |goal| && 0 < |goal[Find(goal, STANDARD)].parts|
              && Removable(goal, target, STANDARD, 0, l) && Level(Lose(goal, Find(goal, STANDARD), 0, l)) == 0
  {
    var two, one := [Slice(STANDARD, [[Stock(1, 2)]])], [Slice(STANDARD, [[Stock(1, 1)]])];
    OneSlice(Stock(1, 2));
    OneSlice(Stock(1, 1));
    assert RemoveLabel([Stock(1, 2)], 1) == [Stock(1, 1)];
    assert LosePart(two[0], 0, 1) == one[0] && Lose(two, 0, 0, 1) == one;
    hide SliceLevel, Find, SpareIn, SafeIn, Sum, Copies, Kinds;
    assert Removable(two, one, STANDARD, 0, 1);
  }

  /** A chunk with one standard slice that has `c.count` copies. */
  lemma OneSlice(c: Stock)
    ensures var g := [Slice(STANDARD, [[c]])];
            && Find(g, STANDARD) == 0 && Copies(g[0].parts) == c.count && SliceLevel(g[0]) == c.count - 1
            && Sum(g) == Weight(c.count - 1) && Kinds(g) == {STANDARD}
            && SpareIn(g, Kinds(g)) == Spare(c.count - 1) && SafeIn(g, Kinds(g)) == if c.count > 1 then 1 else 0
  {
    var g := [Slice(STANDARD, [[c]])];
    assert g[..0] == [] && [c][..0] == [] && CountLabels([]) == 0;
    assert g[0].kind in Kinds(g);
    OnePart(g[0].parts);
    assert Sum(g[..0]) == 0 && SpareIn(g[..0], Kinds(g)) == 0 && SafeIn(g[..0], Kinds(g)) == 0;
  }

  /**
   A copy of an available slice of a safe chunk is refused only when its removal would bring
   the level below 1, or when the chunk has level 1 and the slice is at its last redundancy.
   */
  lemma RefusalReason(goal: Goal, target: Goal, t: SliceType, p: nat, l: Label)
    requires Find(goal, t) < |goal| && p < |goal[Find(goal, t)].parts| && Level(goal) >= 1
    requires !Removable(goal, target, t, p, l)
    ensures Level(Lose(goal, Find(goal, t), p, l)) < 1 || (Level(goal) == 1 && SliceLevel(goal[Find(goal, t)]) == 0)
  {
    hide SliceLevel, Find, SpareIn, SafeIn, Sum, SingleCopy;
    var k := Find(goal, t);
    LoseSum(goal, k, p, l);
    SpareBounds(goal, Kinds(goal));
    SpareShare(goal, Kinds(goal), k);
    SpareBelowSum(goal, Kinds(goal));
  }

  // ----- The calculator.

  lemma SumNext(goal: Goal, k: nat)
    requires k < |goal|
    ensures Sum(goal[..k + 1]) == Sum(goal[..k]) + Weight(SliceLevel(goal[k]))
    ensures Sum(goal[..0]) == 0 && goal[..|goal|] == goal
  {
    assert goal[..k + 1][..k] == goal[..k];
  }

  class Calculator {
    var available: Goal
    var target: Goal
    var redundancyLevel: int
    var sliceLevels: map<SliceType, int>

    /** The levels have been evaluated for what is available now. */
    ghost predicate Current()
      reads this
    {
      Distinct(available) && Stored(sliceLevels, available) && redundancyLevel == Level(available)
    }

    /** `removePart` */
    method RemovePart(t: SliceType, part: nat, l: Label)
      requires Find(available, t) < |available| ==> part < |available[Find(available, t)].parts|
      modifies this`available
      ensures available == if Find(old(available), t) < |old(available)| then Lose(old(available), Find(old(available), t), part, l) else old(available)
      ensures var k := Find(available, t);
              && k == Find(old(available), t)
              && (k < |available| && Sorted(old(available)[k].parts[part]) ==>
                    && Sorted(available[k].parts[part])
                    && Bag(available[k].parts[part]) == Bag(old(available)[k].parts[part]) - multiset{l})
    {
      var k := Find(available, t);
      if k == |available| {
        return;
      }
      if Sorted(available[k].parts[part]) {
        RemoveLabelBag(available[k].parts[part], l);
      }
      FindKept(available, Lose(available, k, part, l), t);
      hide RemoveLabel, Bag, Find;
      available := Lose(available, k, part, l);
    }

    /** `evalRedundancyLevel` */
    method EvalRedundancyLevel()
      requires Distinct(available) && Known(sliceLevels, available)
      modifies this`redundancyLevel, this`sliceLevels
      ensures Current()
    {
      assert StoredUpTo(sliceLevels, available, 0) && Sum(available[..0]) == 0 && available[..|available|] == available;
      hide SliceLevel, Find, StoredUpTo, Known, Sum, Weight;
      redundancyLevel := 0;
      var k: nat := 0;
      while k < |available|
        invariant k <= |available| && redundancyLevel == Sum(available[..k])
        invariant StoredUpTo(sliceLevels, available, k) && Known(sliceLevels, available)
      {
        StoreNext(sliceLevels, available, k);
        SumNext(available, k);
        var extra := EvalSlice(available[k]);
        sliceLevels := sliceLevels[available[k].kind := extra];
        redundancyLevel := redundancyLevel + Weight(extra);
        k := k + 1;
      }
      redundancyLevel := redundancyLevel - 1;
    }

    /** What the slice type `t` counts for in the level as last evaluated. */
    ghost function Share(t: SliceType): nat
      reads this
    {
      if t in sliceLevels then Weight(sliceLevels[t]) else 0
    }

    /**
     `updateRedundancyLevel` after a change to slice `t` only: the result is that of a new
     evaluation exactly when the slice had been evaluated before.
     */
    method UpdateRedundancyLevel(t: SliceType)
      requires Distinct(available)
      requires forall k :: 0 <= k < |available| && available[k].kind != t ==>
                 available[k].kind in sliceLevels && sliceLevels[available[k].kind] == SliceLevel(available[k])
      requires Known(sliceLevels, available)
      requires Find(available, t) < |available| ==>
                 redundancyLevel == Level(available) - Weight(SliceLevel(available[Find(available, t)])) + Share(t)
      requires Find(available, t) == |available| ==> redundancyLevel == Level(available)
      modifies this`redundancyLevel, this`sliceLevels
      ensures Current() <==> Find(available, t) == |available| || t in old(sliceLevels)
      ensures redundancyLevel == Level(available) - if Find(available, t) == |available| || t in old(sliceLevels) then 0 else 1
      ensures Stored(sliceLevels, available)
    {
      hide SliceLevel, Find, Sum;
      var k := Find(available, t);
      if k == |available| {
        return;
      }
      var before := if t in sliceLevels then sliceLevels[t] else 0;
      var now := EvalSlice(available[k]);
      sliceLevels := sliceLevels[t := now];
      redundancyLevel := redundancyLevel + Max(now, -1) - Max(before, -1);
    }

    /** The loop of `removePartBasicTest` over the stored levels: safe and endangered slices. */
    method CountStates() returns (safe: nat, endangered: nat)
      requires Current()
      ensures safe == SafeIn(available, Kinds(available)) && 2 * safe + endangered == SpareIn(available, Kinds(available))
    {
      StoredKinds(sliceLevels, available);
      SpareNone(available);
      hide SliceLevel, Find, SpareIn, SafeIn, Sum, Kinds;
      safe, endangered := 0, 0;
      var rest := sliceLevels.Keys;
      assert Kinds(available) - rest == {};
      while rest != {}
        invariant rest <= sliceLevels.Keys
        invariant safe == SafeIn(available, Kinds(available) - rest)
        invariant 2 * safe + endangered == SpareIn(available, Kinds(available) - rest)
        decreases rest
      {
        var t: SliceType :| t in rest;
        SpareAdd(available, Kinds(available) - rest, Find(available, t));
        assert Kinds(available) - (rest - {t}) == Kinds(available) - rest + {t};
        if sliceLevels[t] > 0 {
          safe := safe + 1;
        } else if sliceLevels[t] == 0 {
          endangered := endangered + 1;
        }
        rest := rest - {t};
      }
      assert Kinds(available) - rest == Kinds(available);
    }

    /** `canRemovePart` */
    method CanRemovePart(t: SliceType, part: nat, l: Label) returns (can: bool)
      requires Current()
      requires Find(available, t) < |available| ==> part < |available[Find(available, t)].parts|
      ensures can <==> target == [] || Removable(available, target, t, part, l)
    {
      hide SliceLevel, Find, SpareIn, SafeIn, Sum, Copies, StoredUpTo;
      if target == [] {
        return true;
      }
      var k := Find(available, t);
      if redundancyLevel < 1 || k == |available| {
        return false;
      }
      var safe, endangered := CountStates();
      if 2 * safe + endangered > 2 {
        return true;
      }
      StoredAt(sliceLevels, available, k);
      if sliceLevels[t] < 0 {
        return true;
      }
      if safe != 1 {
        return false;
      }
      var slice := LosePart(available[k], part, l);
      var kt := Find(target, t);
      if kt < |target| && Copies(target[kt].parts) == 1 && Copies(slice.parts) >= 1 {
        return true;
      }
      var level := EvalSlice(slice);
      return level > 0;
    }
  }

  lemma StoredAt(levels: map<SliceType, int>, goal: Goal, k: nat)
    requires Stored(levels, goal) && k < |goal|
    ensures goal[k].kind in levels && levels[goal[k].kind] == SliceLevel(goal[k])
  {
    hide SliceLevel, Find;
  }

  lemma StoredKinds(levels: map<SliceType, int>, goal: Goal)
    requires Stored(levels, goal)
    ensures levels.Keys == Kinds(goal)
  {
    hide SliceLevel;
    forall t | t in levels
      ensures t in Kinds(goal)
    {
      assert goal[Find(goal, t)].kind == t;
    }
  }

  function Max(a: int, b: int): int {
    if a < b then b else a
  }

  /** A chunk with one copy is evaluated and then gets all parts of an xor slice: the update is off by one. */
  method NewSliceOffByOne() returns (c: Calculator)
    ensures Distinct(c.available) && Stored(c.sliceLevels, c.available)
    ensures c.redundancyLevel == Level(c.available) - 1
  {
    c := new Calculator;
    c.available, c.sliceLevels := [Slice(STANDARD, [[Stock(1, 1)]])], map[];
    c.EvalRedundancyLevel();
    AddXorSlice(c);
  }

  method AddXorSlice(c: Calculator)
    requires c.Current() && |c.available| == 1 && c.available[0].kind == STANDARD
    modifies c
    ensures Distinct(c.available) && Stored(c.sliceLevels, c.available)
    ensures c.redundancyLevel == Level(c.available) - 1
  {
    hide SliceLevel, Weight;
    ghost var was := c.available;
    var part := [Stock(1, 1)];
    c.available := c.available + [Slice(XOR_FIRST, [part, part, part])];
    SumNext(c.available, 1);
    assert c.available[..1] == was && c.available[..2] == c.available;
    hide Sum;
    c.UpdateRedundancyLevel(XOR_FIRST);
  }
}
