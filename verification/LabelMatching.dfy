/**
 Which copies of a slice part have to be made and deleted. Available and wanted copies are
 sorted lists of (label, count); a wanted wildcard, the greatest label, accepts any copy.
 */
module LabelMatching {

  const WILDCARD := 65535

  type Label = l: nat | l <= WILDCARD

  datatype Stock = Stock(media: Label, count: nat)

  predicate Sorted(ls: seq<Stock>) {
    forall i, j :: 0 <= i < j < |ls| ==> ls[i].media < ls[j].media
  }

  predicate Positive(ls: seq<Stock>) {
    forall i :: 0 <= i < |ls| ==> ls[i].count > 0
  }

  /** The copies a sorted list stands for. */
  function Bag(ls: seq<Stock>): multiset<Label> {
    if |ls| == 0 then multiset{} else Bag(ls[..|ls| - 1])[ls[|ls| - 1].media := ls[|ls| - 1].count]
  }

  function Monus(a: nat, b: nat): nat {
    if a < b then 0 else a - b
  }

  /** The wanted copies without the wildcards. */
  function Named(want: multiset<Label>): multiset<Label> {
    want[WILDCARD := 0]
  }

  /** `have` is what `want` asks for: as many copies, and of each named label at least its number. */
  ghost predicate Satisfies(have: multiset<Label>, want: multiset<Label>) {
    |have| == |want| && Named(want) <= have
  }

  function Creates(have: multiset<Label>, want: multiset<Label>): nat {
    |Named(want) - have| + Monus(want[WILDCARD], |have - Named(want)|)
  }

  function Deletes(have: multiset<Label>, want: multiset<Label>): nat {
    Monus(|have - Named(want)|, want[WILDCARD])
  }

  // ----- The counts are the least possible.

  lemma NamedSize(want: multiset<Label>)
    ensures |want| == |Named(want)| + want[WILDCARD]
  {
  }

  /** Any copies made and deleted that reach the goal are at least that many. */
  lemma CountsAreLeast(have: multiset<Label>, want: multiset<Label>, made: multiset<Label>, gone: multiset<Label>)
    requires gone <= have && Satisfies(have - gone + made, want)
    ensures |made| >= Creates(have, want) && |gone| >= Deletes(have, want)
  {
    var named := Named(want);
    NamedSize(want);
    assert named - have <= made by {
      forall l: Label
        ensures (named - have)[l] <= made[l]
      {
        assert named[l] <= (have - gone + made)[l];
      }
    }
    assert |named - have| <= |made| by {
      assert made == (named - have) + (made - (named - have));
    }
    assert have == gone + (have - gone);
    assert |have - named| - |named - have| == |have| - |named|;
  }

  /** Some `n` of the copies in `m`. */
  ghost function Part(m: multiset<Label>, n: nat): (p: multiset<Label>)
    requires n <= |m|
    ensures p <= m && |p| == n
    decreases n
  {
    if n == 0 then multiset{}
    else
      var l :| l in m;
      multiset{l} + Part(m - multiset{l}, n - 1)
  }

  lemma SizesDiffer(a: multiset<Label>, b: multiset<Label>)
    ensures |a - b| - |b - a| == |a| - |b|
  {
  }

  lemma SwapSize(have: multiset<Label>, gone: multiset<Label>, made: multiset<Label>)
    requires gone <= have
    ensures |have - gone + made| == |have| - |gone| + |made|
  {
    assert have == gone + (have - gone);
  }

  lemma SwapCovers(have: multiset<Label>, named: multiset<Label>, gone: multiset<Label>, made: multiset<Label>)
    requires gone <= have - named && named - have <= made
    ensures gone <= have && named <= have - gone + made
  {
    forall l: Label
      ensures named[l] <= (have - gone + made)[l] && gone[l] <= have[l]
    {
      assert gone[l] <= (have - named)[l] && (named - have)[l] <= made[l];
    }
  }

  /** ... and that many suffice: some copies made and deleted reach the goal. */
  lemma CountsSuffice(have: multiset<Label>, want: multiset<Label>) returns (made: multiset<Label>, gone: multiset<Label>)
    ensures gone <= have && Satisfies(have - gone + made, want)
    ensures |made| == Creates(have, want) && |gone| == Deletes(have, want)
  {
    hide Part, Named;
    var named := Named(want);
    NamedSize(want);
    gone := Part(have - named, Deletes(have, want));
    var fill := multiset{}[WILDCARD := Monus(want[WILDCARD], |have - named|)];
    made := (named - have) + fill;
    SwapCovers(have, named, gone, made);
    SwapSize(have, gone, made);
    SizesDiffer(have, named);
  }

  /** Nothing is left to do exactly when the goal is met. */
  lemma NothingLeft(have: multiset<Label>, want: multiset<Label>)
    ensures Creates(have, want) == 0 && Deletes(have, want) == 0 <==> Satisfies(have, want)
  {
    var named := Named(want);
    NamedSize(want);
    SizesDiffer(have, named);
    if Creates(have, want) == 0 {
      assert named - have == multiset{};
      assert named <= have by {
        forall l: Label
          ensures named[l] <= have[l]
        {
          assert (named - have)[l] == 0;
        }
      }
    }
    if Satisfies(have, want) {
      assert named - have == multiset{};
    }
  }

  // ----- Repair, one copy at a time.

  /** What `getLabelsToRecover` lists: the missing named copies and the wildcards nobody fills. */
  function Recover(have: multiset<Label>, want: multiset<Label>): multiset<Label> {
    (Named(want) - have)[WILDCARD := Monus(want[WILDCARD], |have - Named(want)|)]
  }

  /** What `getRemovePool` offers: the surplus labels, while there are more than wildcards. */
  function Pool(have: multiset<Label>, want: multiset<Label>): multiset<Label> {
    if |have - Named(want)| > want[WILDCARD] then have - Named(want) else multiset{}
  }

  lemma RecoverSize(have: multiset<Label>, want: multiset<Label>)
    ensures |Recover(have, want)| == Creates(have, want)
  {
  }

  lemma AddCopy(have: multiset<Label>, named: multiset<Label>, l: Label)
    ensures l in named - have ==>
              named - (have + multiset{l}) == (named - have) - multiset{l} && (have + multiset{l}) - named == have - named
    ensures l !in named - have ==>
              named - (have + multiset{l}) == named - have && (have + multiset{l}) - named == (have - named) + multiset{l}
  {
  }

  /**
   Making a copy that the list asks for, with any label at all for a wildcard, brings the first
   count down by one and leaves the second alone.
   */
  lemma RecoverStep(have: multiset<Label>, want: multiset<Label>, l: Label)
    requires l in Recover(have, want) || WILDCARD in Recover(have, want)
    ensures Creates(have + multiset{l}, want) == Creates(have, want) - 1
    ensures Deletes(have + multiset{l}, want) == Deletes(have, want)
  {
    AddCopy(have, Named(want), l);
  }

  lemma PutBack(have: multiset<Label>, l: Label)
    requires l in have
    ensures have - multiset{l} + multiset{l} == have
  {
  }

  /** Deleting a copy of any label in the pool brings the second count down by one only. */
  lemma RemoveStep(have: multiset<Label>, want: multiset<Label>, l: Label)
    requires l in Pool(have, want)
    ensures l in have
    ensures Creates(have - multiset{l}, want) == Creates(have, want)
    ensures Deletes(have - multiset{l}, want) == Deletes(have, want) - 1
  {
    hide Named;
    var h := have - multiset{l};
    PutBack(have, l);
    AddCopy(h, Named(want), l);
  }

  /** The pool offers something exactly while there is something to delete. */
  lemma PoolNonEmpty(have: multiset<Label>, want: multiset<Label>)
    ensures Pool(have, want) != multiset{} <==> Deletes(have, want) > 0
  {
    if Deletes(have, want) > 0 {
      var l :| l in have - Named(want);
      assert l in Pool(have, want);
    }
  }

  datatype Repair = Make(l: Label) | Drop(l: Label)

  predicate Allowed(have: multiset<Label>, want: multiset<Label>, r: Repair) {
    match r
    case Make(l) => l in Recover(have, want) || WILDCARD in Recover(have, want)
    case Drop(l) => l in Pool(have, want)
  }

  function Apply(have: multiset<Label>, r: Repair): multiset<Label> {
    match r
    case Make(l) => have + multiset{l}
    case Drop(l) => have - multiset{l}
  }

  ghost predicate RepairRun(states: seq<multiset<Label>>, repairs: seq<Repair>, want: multiset<Label>) {
    |states| == |repairs| + 1 &&
    forall k :: 0 <= k < |repairs| ==> Allowed(states[k], want, repairs[k]) && states[k + 1] == Apply(states[k], repairs[k])
  }

  lemma RepairTail(states: seq<multiset<Label>>, repairs: seq<Repair>, want: multiset<Label>)
    requires RepairRun(states, repairs, want) && |repairs| > 0
    ensures RepairRun(states[1..], repairs[1..], want) && Allowed(states[0], want, repairs[0])
    ensures states[1..][0] == Apply(states[0], repairs[0]) && states[1..][|repairs| - 1] == states[|repairs|]
  {
    hide Allowed, Apply;
  }

  /** Short of the goal there is always something to repair. */
  lemma RepairGoesOn(have: multiset<Label>, want: multiset<Label>) returns (r: Repair)
    requires !Satisfies(have, want)
    ensures Allowed(have, want, r)
  {
    NothingLeft(have, want);
    RecoverSize(have, want);
    PoolNonEmpty(have, want);
    hide Creates, Deletes, Satisfies, Recover, Pool;
    if Creates(have, want) > 0 {
      var l :| l in Recover(have, want);
      r := Make(l);
    } else {
      var l :| l in Pool(have, want);
      r := Drop(l);
    }
  }

  /**
   Every repair run comes one step nearer each time; it is at the goal after exactly so many
   steps, and before that it can go on.
   */
  lemma {:induction false} RepairEnds(states: seq<multiset<Label>>, repairs: seq<Repair>, want: multiset<Label>)
    requires RepairRun(states, repairs, want)
    ensures |repairs| <= Creates(states[0], want) + Deletes(states[0], want)
    ensures Satisfies(states[|repairs|], want) <==> |repairs| == Creates(states[0], want) + Deletes(states[0], want)
    ensures !Satisfies(states[|repairs|], want) ==> exists r :: Allowed(states[|repairs|], want, r)
    decreases |repairs|
  {
    hide Creates, Deletes, Satisfies, Recover, Pool;
    if |repairs| == 0 {
      NothingLeft(states[0], want);
      if !Satisfies(states[0], want) {
        var r := RepairGoesOn(states[0], want);
      }
    } else {
      match repairs[0] {
        case Make(l) => RecoverStep(states[0], want, l);
        case Drop(l) => RemoveStep(states[0], want, l);
      }
      RepairTail(states, repairs, want);
      RepairEnds(states[1..], repairs[1..], want);
    }
  }

  // ----- The merging loops.

  lemma BagAppend(ls: seq<Stock>, k: nat)
    requires k < |ls|
    ensures Bag(ls[..k + 1]) == Bag(ls[..k])[ls[k].media := ls[k].count]
  {
    assert ls[..k + 1][..k] == ls[..k];
  }

  lemma {:induction false} BagAbsent(ls: seq<Stock>, l: Label)
    requires forall i :: 0 <= i < |ls| ==> ls[i].media != l
    ensures Bag(ls)[l] == 0
  {
    if |ls| > 0 {
      BagAbsent(ls[..|ls| - 1], l);
    }
  }

  function Wildcards(want: seq<Stock>): nat {
    if |want| > 0 && want[|want| - 1].media == WILDCARD then want[|want| - 1].count else 0
  }

  /** The number of named entries: all but a final wildcard. */
  function NamedLength(want: seq<Stock>): (n: nat)
    ensures n <= |want|
  {
    if |want| > 0 && want[|want| - 1].media == WILDCARD then |want| - 1 else |want|
  }

  lemma NamedBag(want: seq<Stock>)
    requires Sorted(want)
    ensures Bag(want)[WILDCARD] == Wildcards(want)
    ensures Named(Bag(want)) == Bag(want[..NamedLength(want)])
  {
    var n := NamedLength(want);
    assert want[..|want|] == want;
    BagAbsent(want[..n], WILDCARD);
    if n < |want| {
      BagAppend(want, n);
    }
  }

  lemma OnlyHave(have: multiset<Label>, named: multiset<Label>, l: Label, n: nat)
    requires have[l] == 0 && named[l] == 0
    ensures have[l := n] - named == (have - named)[l := n] && named - have[l := n] == named - have
    ensures |have[l := n] - named| == |have - named| + n
  {
  }

  lemma OnlyNamed(have: multiset<Label>, named: multiset<Label>, l: Label, n: nat)
    requires have[l] == 0 && named[l] == 0
    ensures have - named[l := n] == have - named && named[l := n] - have == (named - have)[l := n]
    ensures |named[l := n] - have| == |named - have| + n
  {
  }

  lemma Both(have: multiset<Label>, named: multiset<Label>, l: Label, n: nat, m: nat)
    requires have[l] == 0 && named[l] == 0
    ensures have[l := n] - named[l := m] == (have - named)[l := Monus(n, m)]
    ensures named[l := m] - have[l := n] == (named - have)[l := Monus(m, n)]
    ensures |have[l := n] - named[l := m]| == |have - named| + Monus(n, m)
    ensures |named[l := m] - have[l := n]| == |named - have| + Monus(m, n)
  {
  }

  /** `have` up to `i` and `want` up to `j` have been merged; what is left of each is above both. */
  ghost predicate Merged(have: seq<Stock>, i: nat, want: seq<Stock>, j: nat) {
    && Sorted(have) && Sorted(want) && i <= |have| && j <= |want|
    && (forall x, y :: 0 <= x < i && j <= y < |want| ==> have[x].media < want[y].media)
    && (forall x, y :: 0 <= x < j && i <= y < |have| ==> want[x].media < have[y].media)
  }

  /** The surplus and the missing copies among those merged so far. */
  function Surplus(have: seq<Stock>, i: nat, want: seq<Stock>, j: nat): multiset<Label>
    requires i <= |have| && j <= |want|
  {
    Bag(have[..i]) - Bag(want[..j])
  }

  function Missing(have: seq<Stock>, i: nat, want: seq<Stock>, j: nat): multiset<Label>
    requires i <= |have| && j <= |want|
  {
    Bag(want[..j]) - Bag(have[..i])
  }

  /** `b` is `a` with `n` copies of the label `l`, of which it had none. */
  ghost predicate Gains(b: multiset<Label>, a: multiset<Label>, l: Label, n: nat) {
    a[l] == 0 && b == a[l := n] && |b| == |a| + n
  }

  lemma NextHave(have: seq<Stock>, i: nat, want: seq<Stock>, j: nat)
    requires Merged(have, i, want, j) && i < |have| && (j < |want| ==> have[i].media < want[j].media)
    ensures Merged(have, i + 1, want, j)
    ensures Gains(Surplus(have, i + 1, want, j), Surplus(have, i, want, j), have[i].media, have[i].count)
    ensures Missing(have, i + 1, want, j) == Missing(have, i, want, j)
  {
    BagAppend(have, i);
    BagAbsent(have[..i], have[i].media);
    BagAbsent(want[..j], have[i].media);
    OnlyHave(Bag(have[..i]), Bag(want[..j]), have[i].media, have[i].count);
  }

  lemma NextWant(have: seq<Stock>, i: nat, want: seq<Stock>, j: nat)
    requires Merged(have, i, want, j) && j < |want| && (i < |have| ==> want[j].media < have[i].media)
    ensures Merged(have, i, want, j + 1)
    ensures Surplus(have, i, want, j + 1) == Surplus(have, i, want, j)
    ensures Gains(Missing(have, i, want, j + 1), Missing(have, i, want, j), want[j].media, want[j].count)
  {
    BagAppend(want, j);
    BagAbsent(have[..i], want[j].media);
    BagAbsent(want[..j], want[j].media);
    OnlyNamed(Bag(have[..i]), Bag(want[..j]), want[j].media, want[j].count);
  }

  lemma NextBoth(have: seq<Stock>, i: nat, want: seq<Stock>, j: nat)
    requires Merged(have, i, want, j) && i < |have| && j < |want| && have[i].media == want[j].media
    ensures Merged(have, i + 1, want, j + 1)
    ensures Gains(Surplus(have, i + 1, want, j + 1), Surplus(have, i, want, j), have[i].media, Monus(have[i].count, want[j].count))
    ensures Gains(Missing(have, i + 1, want, j + 1), Missing(have, i, want, j), have[i].media, Monus(want[j].count, have[i].count))
  {
    BagAppend(have, i);
    BagAppend(want, j);
    BagAbsent(have[..i], want[j].media);
    BagAbsent(want[..j], want[j].media);
    Both(Bag(have[..i]), Bag(want[..j]), have[i].media, have[i].count, want[j].count);
  }

  lemma MergeStart(have: seq<Stock>, dst: seq<Stock>)
    requires Sorted(have) && Sorted(dst)
    ensures var want := dst[..NamedLength(dst)];
            Merged(have, 0, want, 0) && Surplus(have, 0, want, 0) == multiset{} == Missing(have, 0, want, 0)
    ensures forall j :: 0 <= j < |dst| ==> (dst[j].media != WILDCARD <==> j < NamedLength(dst))
  {
  }

  lemma MergeEnd(have: seq<Stock>, dst: seq<Stock>)
    requires Sorted(have) && Sorted(dst)
    ensures var want := dst[..NamedLength(dst)];
            Surplus(have, |have|, want, |want|) == Bag(have) - Named(Bag(dst)) &&
            Missing(have, |have|, want, |want|) == Named(Bag(dst)) - Bag(have)
    ensures Bag(dst)[WILDCARD] == Wildcards(dst)
  {
    var want := dst[..NamedLength(dst)];
    NamedBag(dst);
    assert have[..|have|] == have && want[..|want|] == want;
  }

  function Min(a: nat, b: nat): nat {
    if a < b then a else b
  }

  /** The label the next wanted entry has, or one above all when there is none. */
  ghost predicate Bound(bound: int, want: seq<Stock>, j: nat) {
    if j < |want| then bound == want[j].media else bound == WILDCARD + 1
  }

  /**
   The loop over available copies that no named entry wants: each fills a wildcard as long as
   there are some, and is counted for removal otherwise.
   */
  method SkipUnwanted(src: seq<Stock>, from: nat, bound: int, left: nat, ghost w: nat, ghost want: seq<Stock>, ghost j: nat)
    returns (i: nat, wcount: nat, removed: nat)
    requires from <= |src| && j <= |want| && Merged(src, from, want, j) && Bound(bound, want, j)
    requires left == Monus(w, |Surplus(src, from, want, j)|)
    ensures from <= i <= |src| && Merged(src, i, want, j) && (i < |src| ==> src[i].media >= bound)
    ensures Missing(src, i, want, j) == Missing(src, from, want, j)
    ensures wcount == Monus(w, |Surplus(src, i, want, j)|)
    ensures Monus(|Surplus(src, i, want, j)|, w) == Monus(|Surplus(src, from, want, j)|, w) + removed
  {
    hide Merged, Surplus, Missing;
    i, wcount, removed := from, left, 0;
    while i < |src| && src[i].media < bound
      invariant from <= i <= |src| && Merged(src, i, want, j)
      invariant Missing(src, i, want, j) == Missing(src, from, want, j)
      invariant wcount == Monus(w, |Surplus(src, i, want, j)|)
      invariant Monus(|Surplus(src, i, want, j)|, w) == Monus(|Surplus(src, from, want, j)|, w) + removed
    {
      NextHave(src, i, want, j);
      removed := removed + src[i].count - Min(wcount, src[i].count);
      wcount := wcount - Min(wcount, src[i].count);
      i := i + 1;
    }
  }

  /** Where the counters of `operationCount` stand. */
  ghost predicate Counted(w: nat, wcount: nat, create: nat, delete: nat, surplus: multiset<Label>, missing: multiset<Label>) {
    create == |missing| && wcount == Monus(w, |surplus|) && delete == Monus(|surplus|, w)
  }

  /** `operationCount` */
  method OperationCount(src: seq<Stock>, dst: seq<Stock>) returns (create: nat, delete: nat)
    requires Sorted(src) && Sorted(dst)
    ensures create == Creates(Bag(src), Bag(dst)) && delete == Deletes(Bag(src), Bag(dst))
  {
    hide Bag, Named, Merged, Surplus, Missing, Sorted, Wildcards, NamedLength;
    ghost var want := dst[..NamedLength(dst)];
    var wcount: nat := Wildcards(dst);
    ghost var w := wcount;
    MergeStart(src, dst);
    create, delete := 0, 0;
    var i, j := 0, 0;
    var removed: nat;
    while j < |dst| && dst[j].media != WILDCARD
      invariant i <= |src| && j <= |want| && Merged(src, i, want, j)
      invariant Counted(w, wcount, create, delete, Surplus(src, i, want, j), Missing(src, i, want, j))
    {
      i, wcount, removed := SkipUnwanted(src, i, dst[j].media, wcount, w, want, j);
      delete := delete + removed;
      if i < |src| && src[i].media == dst[j].media {
        NextBoth(src, i, want, j);
        if dst[j].count < src[i].count {
          var remove := src[i].count - dst[j].count;
          delete := delete + remove - Min(wcount, remove);
          wcount := wcount - Min(wcount, remove);
        } else if dst[j].count > src[i].count {
          create := create + dst[j].count - src[i].count;
        }
        i := i + 1;
      } else {
        NextWant(src, i, want, j);
        create := create + dst[j].count;
      }
      j := j + 1;
    }
    i, wcount, removed := SkipUnwanted(src, i, WILDCARD + 1, wcount, w, want, j);
    delete := delete + removed;
    MergeEnd(src, dst);
    create := create + wcount;
  }

  lemma {:induction false} BagLast(ls: seq<Stock>, x: Stock)
    ensures Bag(ls + [x]) == Bag(ls)[x.media := x.count]
  {
    var v := ls + [x];
    assert v[..|v| - 1] == ls && v[|v| - 1] == x;
  }

  /** A sorted list whose labels are all among the first `j` of `dst`. */
  predicate Under(ls: seq<Stock>, dst: seq<Stock>, j: nat) {
    && Sorted(ls)
    && forall k :: 0 <= k < |ls| ==> 0 < j <= |dst| && ls[k].media <= dst[j - 1].media
  }

  /** `ls` with an entry at the end, unless its count is zero. */
  function Put(ls: seq<Stock>, l: Label, n: nat): seq<Stock> {
    if n > 0 then ls + [Stock(l, n)] else ls
  }

  lemma PutSorted(ls: seq<Stock>, l: Label, n: nat)
    requires Sorted(ls) && forall k :: 0 <= k < |ls| ==> ls[k].media < l
    ensures Sorted(Put(ls, l, n))
  {
  }

  lemma GainsNew(a: multiset<Label>, l: Label, n: nat)
    requires a[l] == 0
    ensures Gains(a[l := n], a, l, n) && Gains(a, a, l, 0)
  {
    assert a[l := 0] == a;
  }

  lemma PutBag(ls: seq<Stock>, l: Label, n: nat)
    requires Sorted(ls) && forall k :: 0 <= k < |ls| ==> ls[k].media < l
    ensures Sorted(Put(ls, l, n)) && Gains(Bag(Put(ls, l, n)), Bag(ls), l, n)
  {
    PutSorted(ls, l, n);
    hide Bag, Sorted, Gains;
    BagLast(ls, Stock(l, n));
    BagAbsent(ls, l);
    GainsNew(Bag(ls), l, n);
  }

  lemma UnderPut(ls: seq<Stock>, dst: seq<Stock>, j: nat, n: nat)
    requires Under(ls, dst, j) && Sorted(dst) && j < |dst|
    ensures Under(Put(ls, dst[j].media, n), dst, j + 1)
    ensures Gains(Bag(Put(ls, dst[j].media, n)), Bag(ls), dst[j].media, n)
  {
    hide Bag, Gains;
    assert j > 0 ==> dst[j - 1].media < dst[j].media;
    PutBag(ls, dst[j].media, n);
  }

  lemma WildcardsLast(ls: seq<Stock>, dst: seq<Stock>, j: nat, n: nat)
    requires Under(ls, dst, j) && Sorted(dst) && j <= NamedLength(dst)
    ensures Sorted(Put(ls, WILDCARD, n)) && Bag(Put(ls, WILDCARD, n)) == Bag(ls)[WILDCARD := n]
  {
    assert j > 0 ==> dst[j - 1].media < WILDCARD;
    PutBag(ls, WILDCARD, n);
    hide Bag;
  }

  /** One round of the loop of `getLabelsToRecover` at entry `j` of `dst`, behind the unwanted copies. */
  method RecoverRound(src: seq<Stock>, i: nat, dst: seq<Stock>, j: nat, left: nat, listed: seq<Stock>, ghost w: nat)
    returns (i': nat, wcount: nat, result: seq<Stock>)
    requires Sorted(dst) && Positive(dst) && j < NamedLength(dst)
    requires i <= |src| && Merged(src, i, dst[..NamedLength(dst)], j) && (i < |src| ==> src[i].media >= dst[j].media)
    requires Under(listed, dst, j) && Bag(listed) == Missing(src, i, dst[..NamedLength(dst)], j)
    requires left == Monus(w, |Surplus(src, i, dst[..NamedLength(dst)], j)|)
    ensures i' <= |src| && Merged(src, i', dst[..NamedLength(dst)], j + 1)
    ensures Under(result, dst, j + 1) && Bag(result) == Missing(src, i', dst[..NamedLength(dst)], j + 1)
    ensures wcount == Monus(w, |Surplus(src, i', dst[..NamedLength(dst)], j + 1)|)
  {
    hide Bag, Merged, Surplus, Missing, NamedLength, Sorted, Under;
    ghost var want := dst[..NamedLength(dst)];
    i', wcount, result := i, left, listed;
    if i < |src| && src[i].media == dst[j].media {
      NextBoth(src, i, want, j);
      UnderPut(listed, dst, j, Monus(dst[j].count, src[i].count));
      if dst[j].count > src[i].count {
        result := result + [Stock(dst[j].media, dst[j].count - src[i].count)];
      }
      if dst[j].count < src[i].count {
        wcount := wcount - Min(wcount, src[i].count - dst[j].count);
      }
      i' := i + 1;
    } else {
      NextWant(src, i, want, j);
      UnderPut(listed, dst, j, dst[j].count);
      result := result + [Stock(dst[j].media, dst[j].count)];
    }
  }

  lemma RecoverDone(src: seq<Stock>, dst: seq<Stock>, listed: seq<Stock>, j: nat, wcount: nat)
    requires Sorted(src) && Sorted(dst) && Under(listed, dst, j) && j == NamedLength(dst)
    requires var want := dst[..NamedLength(dst)];
             Bag(listed) == Missing(src, |src|, want, |want|) && wcount == Monus(Wildcards(dst), |Surplus(src, |src|, want, |want|)|)
    ensures Sorted(Put(listed, WILDCARD, wcount)) && Bag(Put(listed, WILDCARD, wcount)) == Recover(Bag(src), Bag(dst))
  {
    hide Bag, Named, Surplus, Missing, Wildcards, NamedLength, Sorted, Under, Put;
    MergeEnd(src, dst);
    WildcardsLast(listed, dst, j, wcount);
  }

  /** `getLabelsToRecover` where the part exists on both sides */
  method LabelsToRecover(src: seq<Stock>, dst: seq<Stock>) returns (result: seq<Stock>)
    requires Sorted(src) && Sorted(dst) && Positive(dst)
    ensures Sorted(result) && Bag(result) == Recover(Bag(src), Bag(dst))
  {
    assert Bag([]) == multiset{} && Under([], dst, 0);
    hide Bag, Named, Merged, Surplus, Missing, Wildcards, NamedLength, Sorted, Under, Positive, Recover;
    ghost var want := dst[..NamedLength(dst)];
    var wcount: nat := Wildcards(dst);
    ghost var w := wcount;
    MergeStart(src, dst);
    result := [];
    var i: nat, j: nat := 0, 0;
    var removed: nat;
    while j < |dst| && dst[j].media != WILDCARD
      invariant i <= |src| && j <= |want| && Merged(src, i, want, j) && Under(result, dst, j)
      invariant Bag(result) == Missing(src, i, want, j) && wcount == Monus(w, |Surplus(src, i, want, j)|)
    {
      i, wcount, removed := SkipUnwanted(src, i, dst[j].media, wcount, w, want, j);
      i, wcount, result := RecoverRound(src, i, dst, j, wcount, result, w);
      j := j + 1;
    }
    i, wcount, removed := SkipUnwanted(src, i, WILDCARD + 1, wcount, w, want, j);
    RecoverDone(src, dst, result, j, wcount);
    if wcount > 0 {
      result := result + [Stock(WILDCARD, wcount)];
    }
  }

  /** `pool` has one copy of each label that `surplus` has. */
  ghost predicate Ones(pool: multiset<Label>, surplus: multiset<Label>) {
    forall l: Label :: pool[l] == if surplus[l] > 0 then 1 else 0
  }

  lemma OnesGain(pool: multiset<Label>, more: multiset<Label>, surplus: multiset<Label>, larger: multiset<Label>, l: Label, n: nat)
    requires Ones(pool, surplus) && Gains(larger, surplus, l, n) && Gains(more, pool, l, if n > 0 then 1 else 0)
    ensures Ones(more, larger)
  {
  }

  /** A sorted list of labels below those still to come. */
  ghost predicate Before(ls: seq<Stock>, have: seq<Stock>, i: nat) {
    Sorted(ls) && forall k, y :: 0 <= k < |ls| && i <= y < |have| ==> ls[k].media < have[y].media
  }

  lemma BeforePut(pool: seq<Stock>, have: seq<Stock>, i: nat, n: nat)
    requires Sorted(have) && i < |have| && Before(pool, have, i)
    ensures Before(Put(pool, have[i].media, n), have, i + 1)
    ensures Sorted(pool) && forall k :: 0 <= k < |pool| ==> pool[k].media < have[i].media
  {
    PutSorted(pool, have[i].media, n);
  }

  /** One label of `have` goes to the pool if it has a surplus of `n`. */
  lemma PoolPut(pool: seq<Stock>, have: seq<Stock>, i: nat, n: nat, surplus: multiset<Label>, larger: multiset<Label>)
    requires Sorted(have) && i < |have| && Before(pool, have, i)
    requires Ones(Bag(pool), surplus) && Gains(larger, surplus, have[i].media, n)
    ensures var next := Put(pool, have[i].media, if n > 0 then 1 else 0);
            Before(next, have, i + 1) && Ones(Bag(next), larger)
  {
    BeforePut(pool, have, i, if n > 0 then 1 else 0);
    hide Bag, Gains, Ones, Before, Sorted, Put;
    PutBag(pool, have[i].media, if n > 0 then 1 else 0);
    OnesGain(Bag(pool), Bag(Put(pool, have[i].media, if n > 0 then 1 else 0)), surplus, larger, have[i].media, n);
  }

  /** The loop over available copies no named entry wants: all of them go to the pool. */
  method PoolUnwanted(src: seq<Stock>, from: nat, bound: int, listed: seq<Stock>, sum: nat, ghost want: seq<Stock>, ghost j: nat)
    returns (i: nat, wcount: nat, result: seq<Stock>)
    requires Positive(src) && Sorted(src)
    requires from <= |src| && j <= |want| && Merged(src, from, want, j) && Bound(bound, want, j)
    requires Before(listed, src, from) && Ones(Bag(listed), Surplus(src, from, want, j)) && sum == |Surplus(src, from, want, j)|
    ensures from <= i <= |src| && Merged(src, i, want, j) && (i < |src| ==> src[i].media >= bound)
    ensures Before(result, src, i) && Ones(Bag(result), Surplus(src, i, want, j)) && wcount == |Surplus(src, i, want, j)|
  {
    hide Merged, Surplus, Missing, Before, Ones, Bag, Sorted;
    i, wcount, result := from, sum, listed;
    while i < |src| && src[i].media < bound
      invariant from <= i <= |src| && Merged(src, i, want, j)
      invariant Before(result, src, i) && Ones(Bag(result), Surplus(src, i, want, j)) && wcount == |Surplus(src, i, want, j)|
    {
      NextHave(src, i, want, j);
      PoolPut(result, src, i, src[i].count, Surplus(src, i, want, j), Surplus(src, i + 1, want, j));
      result := result + [Stock(src[i].media, 1)];
      wcount := wcount + src[i].count;
      i := i + 1;
    }
  }

  /** One round of the loop of `getRemovePool` at entry `j` of `dst`, behind the unwanted copies. */
  method PoolRound(src: seq<Stock>, i: nat, dst: seq<Stock>, j: nat, listed: seq<Stock>, sum: nat)
    returns (i': nat, wcount: nat, result: seq<Stock>)
    requires Sorted(src) && Sorted(dst) && j < NamedLength(dst)
    requires i <= |src| && Merged(src, i, dst[..NamedLength(dst)], j) && (i < |src| ==> src[i].media >= dst[j].media)
    requires Before(listed, src, i) && Ones(Bag(listed), Surplus(src, i, dst[..NamedLength(dst)], j))
    requires sum == |Surplus(src, i, dst[..NamedLength(dst)], j)|
    ensures i' <= |src| && Merged(src, i', dst[..NamedLength(dst)], j + 1)
    ensures Before(result, src, i') && Ones(Bag(result), Surplus(src, i', dst[..NamedLength(dst)], j + 1))
    ensures wcount == |Surplus(src, i', dst[..NamedLength(dst)], j + 1)|
  {
    hide Merged, Surplus, Missing, Before, Ones, Bag, Sorted, NamedLength;
    ghost var want := dst[..NamedLength(dst)];
    i', wcount, result := i, sum, listed;
    if i < |src| && src[i].media == dst[j].media {
      NextBoth(src, i, want, j);
      PoolPut(listed, src, i, Monus(src[i].count, dst[j].count), Surplus(src, i, want, j), Surplus(src, i + 1, want, j + 1));
      if dst[j].count < src[i].count {
        result := result + [Stock(src[i].media, 1)];
        wcount := wcount + (src[i].count - dst[j].count);
      }
      i' := i + 1;
    } else {
      NextWant(src, i, want, j);
    }
  }

  /** The pool is what was collected, unless the wildcards take it all. */
  lemma PoolDone(src: seq<Stock>, dst: seq<Stock>, listed: seq<Stock>, wildcards: nat)
    requires Sorted(src) && Sorted(dst) && Before(listed, src, |src|)
    requires var want := dst[..NamedLength(dst)]; Ones(Bag(listed), Surplus(src, |src|, want, |want|))
    requires wildcards == if NamedLength(dst) < |dst| then dst[NamedLength(dst)].count else 0
    ensures var want := dst[..NamedLength(dst)];
            var result := if |Surplus(src, |src|, want, |want|)| <= wildcards then [] else listed;
            Sorted(result) && Ones(Bag(result), Pool(Bag(src), Bag(dst)))
  {
    assert Bag([]) == multiset{};
    MergeEnd(src, dst);
    assert wildcards == Wildcards(dst);
    hide Bag, Named, Surplus;
  }

  lemma PoolNone(src: seq<Stock>)
    ensures Before([], src, 0) && Ones(Bag([]), multiset{})
  {
  }

  /** `getRemovePool` where the part exists on both sides */
  method RemovePool(src: seq<Stock>, dst: seq<Stock>) returns (result: seq<Stock>)
    requires Sorted(src) && Sorted(dst) && Positive(src)
    ensures Sorted(result) && Ones(Bag(result), Pool(Bag(src), Bag(dst)))
  {
    hide Bag, Named, Merged, Surplus, Missing, Wildcards, NamedLength, Positive, Before, Ones, Sorted, Pool, Gains;
    PoolNone(src);
    ghost var want := dst[..NamedLength(dst)];
    MergeStart(src, dst);
    result := [];
    var wcount: nat := 0;
    var i: nat, j: nat := 0, 0;
    while j < |dst| && dst[j].media != WILDCARD
      invariant i <= |src| && j <= |want| && Merged(src, i, want, j) && Before(result, src, i)
      invariant Ones(Bag(result), Surplus(src, i, want, j)) && wcount == |Surplus(src, i, want, j)|
    {
      i, wcount, result := PoolUnwanted(src, i, dst[j].media, result, wcount, want, j);
      i, wcount, result := PoolRound(src, i, dst, j, result, wcount);
      j := j + 1;
    }
    var wildcards: nat := if j < |dst| then dst[j].count else 0;
    i, wcount, result := PoolUnwanted(src, i, WILDCARD + 1, result, wcount, want, j);
    PoolDone(src, dst, result, wildcards);
    if wcount <= wildcards {
      result := [];
    }
  }
}
