/**
 The choice of a disk for a new chunk. Every disk has a carry; each round adds to it the
 disk's weight, which grows with its free space, and the disk with the greatest carry of at
 least 1 is chosen and pays 1. Disk sizes and flags do not change here; numbers are reals.
 */
module FolderChoice {
  import opened Wrappers

  /** A disk: whether new chunks may go to it, and its available and total space. */
  datatype Disk = Disk(working: bool, avail: nat, total: nat)

  predicate Eligible(d: Disk) {
    d.working && d.total > 0 && d.avail > 0
  }

  function Ratio(d: Disk): (r: real)
    requires Eligible(d)
    ensures r > 0.0
  {
    d.avail as real / d.total as real
  }

  /** The greatest ratio of an eligible disk; 0 when there is none. */
  function MaxAvail(disks: seq<Disk>): real {
    if |disks| == 0 then 0.0
    else
      var m, d := MaxAvail(disks[..|disks| - 1]), disks[|disks| - 1];
      if Eligible(d) && Ratio(d) > m then Ratio(d) else m
  }

  function AnyEligible(disks: seq<Disk>): bool {
    exists i :: 0 <= i < |disks| && Eligible(disks[i])
  }

  /** The least ratio of an eligible disk; 0 when there is none. */
  function MinAvail(disks: seq<Disk>): real {
    if |disks| == 0 then 0.0
    else
      var m, d := MinAvail(disks[..|disks| - 1]), disks[|disks| - 1];
      if Eligible(d) && (!AnyEligible(disks[..|disks| - 1]) || m > Ratio(d)) then Ratio(d) else m
  }

  /** Below this ratio a disk gets nothing in a round. */
  function Floor(disks: seq<Disk>): real {
    if MaxAvail(disks) < 0.01 then 0.0
    else if MinAvail(disks) * 0.8 < 0.01 then 0.01
    else MinAvail(disks) * 0.8
  }

  function Weight(disks: seq<Disk>, i: nat): real
    requires i < |disks|
  {
    if Eligible(disks[i]) && Ratio(disks[i]) > Floor(disks) && MaxAvail(disks) > Floor(disks)
    then (Ratio(disks[i]) - Floor(disks)) / (MaxAvail(disks) - Floor(disks))
    else 0.0
  }

  // ----- Weights.

  lemma {:induction false} MaxIsUpper(disks: seq<Disk>, i: nat)
    requires i < |disks| && Eligible(disks[i])
    ensures Ratio(disks[i]) <= MaxAvail(disks)
  {
    if i < |disks| - 1 {
      MaxIsUpper(disks[..|disks| - 1], i);
    }
  }

  lemma {:induction false} MinIsLower(disks: seq<Disk>, i: nat)
    requires i < |disks| && Eligible(disks[i])
    ensures 0.0 < MinAvail(disks) <= Ratio(disks[i])
  {
    var rest := disks[..|disks| - 1];
    if i < |disks| - 1 {
      assert Eligible(rest[i]);
      MinIsLower(rest, i);
    } else if AnyEligible(rest) {
      var j :| 0 <= j < |rest| && Eligible(rest[j]);
      MinIsLower(rest, j);
    }
  }

  lemma {:induction false} MaxIsMet(disks: seq<Disk>) returns (i: nat)
    requires MaxAvail(disks) > 0.0
    ensures i < |disks| && Eligible(disks[i]) && Ratio(disks[i]) == MaxAvail(disks)
  {
    i := |disks| - 1;
    if !Eligible(disks[i]) || Ratio(disks[i]) != MaxAvail(disks) {
      i := MaxIsMet(disks[..|disks| - 1]);
    }
  }

  lemma {:induction false} MaxNonNegative(disks: seq<Disk>)
    ensures MaxAvail(disks) >= 0.0
  {
    if |disks| > 0 {
      MaxNonNegative(disks[..|disks| - 1]);
    }
  }

  /** The floor is below the greatest ratio, except when that is exactly 0.01 and the least one is small. */
  lemma FloorBelowMax(disks: seq<Disk>)
    requires AnyEligible(disks)
    ensures 0.0 < MaxAvail(disks) && 0.0 <= Floor(disks) <= MaxAvail(disks)
    ensures Floor(disks) == MaxAvail(disks) <==> MaxAvail(disks) == 0.01
  {
    var i: nat :| i < |disks| && Eligible(disks[i]);
    MaxIsUpper(disks, i);
    MinIsLower(disks, i);
  }

  lemma QuotientAtMostOne(a: real, b: real)
    requires 0.0 < a <= b
    ensures 0.0 < a / b <= 1.0
  {
  }

  lemma SelfQuotient(a: real)
    requires a > 0.0
    ensures a / a == 1.0
  {
  }

  lemma WeightRange(disks: seq<Disk>, i: nat)
    requires i < |disks|
    ensures 0.0 <= Weight(disks, i) <= 1.0
  {
    if Eligible(disks[i]) && Ratio(disks[i]) > Floor(disks) && MaxAvail(disks) > Floor(disks) {
      MaxIsUpper(disks, i);
      QuotientAtMostOne(Ratio(disks[i]) - Floor(disks), MaxAvail(disks) - Floor(disks));
    }
  }

  /** Some disk has weight 1, unless the greatest ratio is exactly 0.01. */
  lemma FullWeight(disks: seq<Disk>) returns (i: nat)
    requires AnyEligible(disks) && MaxAvail(disks) != 0.01
    ensures i < |disks| && Eligible(disks[i]) && Weight(disks, i) == 1.0
  {
    FloorBelowMax(disks);
    i := MaxIsMet(disks);
    SelfQuotient(MaxAvail(disks) - Floor(disks));
  }

  // ----- The choice.

  /** `best` is the last disk among the first `n` with the greatest carry of at least 1. */
  ghost predicate Best(disks: seq<Disk>, carry: seq<real>, n: nat, best: Option<nat>)
    requires |carry| == |disks|
  {
    match best
    case None => forall i :: 0 <= i < n && i < |disks| && Eligible(disks[i]) ==> carry[i] < 1.0
    case Some(b) =>
      b < n && b < |disks| && Eligible(disks[b]) && carry[b] >= 1.0 &&
      forall i :: 0 <= i < n && i < |disks| && Eligible(disks[i]) ==> carry[i] <= carry[b] && (i > b ==> carry[i] < carry[b])
  }

  lemma BestPays(disks: seq<Disk>, carry: seq<real>, b: nat)
    requires |carry| == |disks| && Best(disks, carry, |disks|, Some(b))
    ensures b < |disks| && carry[b] >= 1.0 && AnyEligible(disks) && !Best(disks, carry, |disks|, None)
  {
  }

  /** A round: every disk gains its weight. */
  function Gained(disks: seq<Disk>, carry: seq<real>): seq<real>
    requires |carry| == |disks|
  {
    seq(|carry|, i requires 0 <= i < |carry| => carry[i] + Weight(disks, i))
  }

  /** The chosen disk pays. */
  function Paid(carry: seq<real>, best: Option<nat>): seq<real> {
    if best.Some? && best.value < |carry| then carry[best.value := carry[best.value] - 1.0] else carry
  }

  /** Carries stay below 2, and are the start values plus what was gained minus what was paid. */
  ghost predicate Balanced(disks: seq<Disk>, start: seq<real>, carry: seq<real>, rounds: nat, picks: seq<nat>) {
    && |carry| == |start| == |picks| == |disks|
    && (forall i :: 0 <= i < |disks| ==> 0.0 <= start[i] <= 1.0 && 0.0 <= carry[i] < 2.0)
    && (forall i :: 0 <= i < |disks| ==> carry[i] == start[i] + rounds as real * Weight(disks, i) - picks[i] as real)
  }

  lemma GainKeeps(disks: seq<Disk>, start: seq<real>, carry: seq<real>, rounds: nat, picks: seq<nat>)
    requires Balanced(disks, start, carry, rounds, picks) && Best(disks, carry, |disks|, None)
    ensures Balanced(disks, start, Gained(disks, carry), rounds + 1, picks)
  {
    hide Weight, Eligible, Ratio, Floor, MaxAvail;
    forall i | 0 <= i < |disks|
      ensures 0.0 <= Gained(disks, carry)[i] < 2.0
      ensures Gained(disks, carry)[i] == start[i] + (rounds + 1) as real * Weight(disks, i) - picks[i] as real
    {
      WeightRange(disks, i);
      WeightStep(disks, i);
      assert (rounds + 1) as real * Weight(disks, i) == rounds as real * Weight(disks, i) + Weight(disks, i);
    }
  }

  lemma PayKeeps(disks: seq<Disk>, start: seq<real>, carry: seq<real>, rounds: nat, picks: seq<nat>, b: nat)
    requires Balanced(disks, start, carry, rounds, picks) && b < |disks| && carry[b] >= 1.0
    ensures Balanced(disks, start, Paid(carry, Some(b)), rounds, picks[b := picks[b] + 1])
  {
    hide Weight;
  }

  /** What the second loop adds is the weight. */
  lemma WeightStep(disks: seq<Disk>, i: nat)
    requires i < |disks|
    ensures !Eligible(disks[i]) ==> Weight(disks, i) == 0.0
    ensures Eligible(disks[i]) && Ratio(disks[i]) > Floor(disks) ==>
              MaxAvail(disks) > Floor(disks) &&
              Weight(disks, i) == (Ratio(disks[i]) - Floor(disks)) / (MaxAvail(disks) - Floor(disks))
    ensures Eligible(disks[i]) && Ratio(disks[i]) <= Floor(disks) ==> Weight(disks, i) == 0.0
  {
    if Eligible(disks[i]) {
      MaxIsUpper(disks, i);
    }
  }

  /** After a round some disk can pay, unless the greatest ratio is exactly 0.01. */
  lemma SomeoneCanPay(disks: seq<Disk>, start: seq<real>, carry: seq<real>, rounds: nat, picks: seq<nat>, best: Option<nat>)
    requires Balanced(disks, start, carry, rounds, picks) && AnyEligible(disks)
    requires Best(disks, carry, |disks|, None) && Best(disks, Gained(disks, carry), |disks|, best)
    ensures best.None? <==> MaxAvail(disks) == 0.01
  {
    FloorBelowMax(disks);
    if MaxAvail(disks) != 0.01 {
      var i := FullWeight(disks);
      assert Gained(disks, carry)[i] >= 1.0;
    }
  }

  lemma MaxIsZero(disks: seq<Disk>)
    ensures MaxAvail(disks) == 0.0 <==> !AnyEligible(disks)
  {
    MaxNonNegative(disks);
    if AnyEligible(disks) {
      FloorBelowMax(disks);
    } else if MaxAvail(disks) > 0.0 {
      var i := MaxIsMet(disks);
      assert false;
    }
  }

  class Folders {
    const disks: seq<Disk>
    var carry: seq<real>
    ghost const start: seq<real>
    ghost var rounds: nat
    ghost var picks: seq<nat>

    ghost predicate Valid()
      reads this
    {
      Balanced(disks, start, carry, rounds, picks)
    }

    constructor (d: seq<Disk>, c: seq<real>)
      requires |c| == |d| && forall i :: 0 <= i < |c| ==> 0.0 <= c[i] <= 1.0
      ensures Valid() && disks == d && carry == c && start == c && rounds == 0
    {
      disks, carry, start, rounds, picks := d, c, c, 0, seq(|d|, _ => 0);
    }

    /** How far picks are from rounds times weight. */
    lemma FairShare(i: nat)
      requires Valid() && i < |disks|
      ensures -2.0 < picks[i] as real - rounds as real * Weight(disks, i) <= 1.0
    {
    }

    /** The first loop: a disk that can pay already, and the range of ratios. */
    method Scan() returns (best: Option<nat>, minavail: real, maxavail: real)
      requires Valid()
      ensures Best(disks, carry, |disks|, best) && minavail == MinAvail(disks) && maxavail == MaxAvail(disks)
    {
      hide Weight, Ratio;
      best, minavail, maxavail := None, 0.0, 0.0;
      var maxcarry := 1.0;
      var ok := false;
      var i: nat := 0;
      while i < |disks|
        invariant i <= |disks| && Best(disks, carry, i, best)
        invariant maxcarry == if best.Some? then carry[best.value] else 1.0
        invariant minavail == MinAvail(disks[..i]) && maxavail == MaxAvail(disks[..i]) && ok == AnyEligible(disks[..i])
      {
        assert disks[..i + 1][..i] == disks[..i];
        assert AnyEligible(disks[..i + 1]) <==> AnyEligible(disks[..i]) || Eligible(disks[i]) by {
          EligibleNext(disks, i);
        }
        var d := disks[i];
        if Eligible(d) {
          if carry[i] >= maxcarry {
            maxcarry, best := carry[i], Some(i);
          }
          var pavail := Ratio(d);
          if !ok || minavail > pavail {
            minavail, ok := pavail, true;
          }
          if pavail > maxavail {
            maxavail := pavail;
          }
        }
        i := i + 1;
      }
      assert disks[..i] == disks;
    }

    /** The second loop: every disk gains, and the best of them is chosen. */
    method Gain(s: real, d: real) returns (best: Option<nat>)
      requires Valid() && Best(disks, carry, |disks|, None)
      requires s == Floor(disks) && d == MaxAvail(disks) - s && AnyEligible(disks)
      modifies this`carry
      ensures carry == Gained(disks, old(carry)) && Best(disks, carry, |disks|, best)
    {
      hide Ratio, Floor, MaxAvail, Weight;
      best := None;
      var maxcarry := 1.0;
      var i: nat := 0;
      while i < |disks|
        invariant i <= |disks| && |carry| == |disks|
        invariant forall k :: 0 <= k < |disks| ==> carry[k] == if k < i then Gained(disks, old(carry))[k] else old(carry)[k]
        invariant Best(disks, carry, i, best)
        invariant maxcarry == if best.Some? then carry[best.value] else 1.0
      {
        WeightStep(disks, i);
        if Eligible(disks[i]) {
          var pavail := Ratio(disks[i]);
          if pavail > s {
            carry := carry[i := carry[i] + (pavail - s) / d];
          }
          if carry[i] >= maxcarry {
            maxcarry, best := carry[i], Some(i);
          }
        }
        i := i + 1;
      }
    }

    /** `hdd_getfolder` */
    method GetFolder() returns (r: Option<nat>)
      requires Valid()
      modifies this`carry, this`rounds, this`picks
      ensures Valid()
      ensures old(rounds) <= rounds <= old(rounds) + 1
      ensures var before := if rounds > old(rounds) then Gained(disks, old(carry)) else old(carry);
              |before| == |disks| && Best(disks, before, |disks|, r) && carry == Paid(before, r)
      ensures rounds > old(rounds) <==> AnyEligible(disks) && Best(disks, old(carry), |disks|, None)
      ensures r.None? <==> !AnyEligible(disks) || (MaxAvail(disks) == 0.01 && Best(disks, old(carry), |disks|, None))
      ensures picks == if r.Some? then old(picks)[r.value := old(picks)[r.value] + 1] else old(picks)
    {
      hide Weight, Ratio, Gained, MaxAvail, MinAvail, Eligible, Best, AnyEligible;
      var best, minavail, maxavail := Scan();
      if best.Some? {
        BestPays(disks, carry, best.value);
        PayKeeps(disks, start, carry, rounds, picks, best.value);
        carry := carry[best.value := carry[best.value] - 1.0];
        picks := picks[best.value := picks[best.value] + 1];
        return best;
      }
      MaxIsZero(disks);
      if maxavail == 0.0 {
        return None;
      }
      var s;
      if maxavail < 0.01 {
        s := 0.0;
      } else {
        s := minavail * 0.8;
        if s < 0.01 {
          s := 0.01;
        }
      }
      var d := maxavail - s;
      GainKeeps(disks, start, carry, rounds, picks);
      best := Gain(s, d);
      SomeoneCanPay(disks, start, old(carry), rounds, picks, best);
      rounds := rounds + 1;
      if best.Some? {
        BestPays(disks, carry, best.value);
        PayKeeps(disks, start, carry, rounds, picks, best.value);
        carry := carry[best.value := carry[best.value] - 1.0];
        picks := picks[best.value := picks[best.value] + 1];
      }
      return best;
    }
  }

  lemma EligibleNext(disks: seq<Disk>, i: nat)
    requires i < |disks|
    ensures AnyEligible(disks[..i + 1]) <==> AnyEligible(disks[..i]) || Eligible(disks[i])
  {
    var a, b := disks[..i], disks[..i + 1];
    if AnyEligible(a) {
      var k :| 0 <= k < |a| && Eligible(a[k]);
      assert Eligible(b[k]);
    }
    if Eligible(disks[i]) {
      assert Eligible(b[i]);
    }
    if AnyEligible(b) {
      var k :| 0 <= k < |b| && Eligible(b[k]);
      assert k < i ==> Eligible(a[k]);
    }
  }

  /** One disk with 1 of 100 units free. */
  function FullDisk(): seq<Disk> {
    [Disk(true, 1, 100)]
  }

  lemma FullDiskRatios()
    ensures AnyEligible(FullDisk()) && MaxAvail(FullDisk()) == 0.01 && Weight(FullDisk(), 0) == 0.0
  {
    var d := FullDisk();
    assert Eligible(d[0]);
    assert d[..0] == [] && MaxAvail(d[..0]) == 0.0;
    assert MaxAvail(d) == 0.01;
    FloorBelowMax(d);
  }

  /** A round gives this disk nothing. */
  lemma FullDiskGains()
    ensures |FullDisk()| == 1 && Gained(FullDisk(), [0.0]) == [0.0] && Best(FullDisk(), [0.0], 1, None)
  {
    FullDiskRatios();
    hide MaxAvail, AnyEligible, Weight;
  }

  /** With this disk, however often a folder is asked for, none is found. */
  method NeverChosen(n: nat) returns (f: Folders, answers: seq<Option<nat>>)
    ensures f.Valid() && f.disks == FullDisk() && |answers| == n
    ensures forall k :: 0 <= k < n ==> answers[k] == None
  {
    FullDiskRatios();
    FullDiskGains();
    hide *;
    f := new Folders(FullDisk(), [0.0]);
    answers := [];
    while |answers| < n
      invariant fresh(f) && f.Valid() && f.disks == FullDisk() && f.carry == [0.0] && |answers| <= n
      invariant forall k :: 0 <= k < |answers| ==> answers[k] == None
    {
      var r := AskFullDisk(f);
      answers := answers + [r];
    }
  }

  method AskFullDisk(f: Folders) returns (r: Option<nat>)
    requires f.Valid() && f.disks == FullDisk() && f.carry == [0.0]
    modifies f
    ensures f.Valid() && r == None && f.disks == FullDisk() && f.carry == [0.0]
  {
    FullDiskRatios();
    FullDiskGains();
    hide MaxAvail, AnyEligible, Weight, FullDisk, Gained, Best, Folders.Valid;
    r := f.GetFolder();
  }
}
