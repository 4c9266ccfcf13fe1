/**
 Access control lists: the sorted vector of named entries with the packed rights of owner,
 group, others and mask, and its text and extended-attribute encodings.
 */
module AccessControl {
  import opened Numerals

  // ----- Packed rights: a word of four nibbles.

  const OTHER := 0
  const GROUP := 1
  const OWNER := 2
  const MASK := 3
  const UNSET := 15
  const NO_RIGHTS := 0xF000

  /** `(word >> 4 * k) & 0xF` */
  function Nibble(word: nat, k: nat): (r: nat)
    ensures r < 16
  {
    if k == 0 then word % 16 else Nibble(word / 16, k - 1)
  }

  /** The word with nibble `k` replaced. */
  function SetNibble(word: nat, k: nat, v: nat): nat
    requires v < 16
  {
    if k == 0 then word / 16 * 16 + v else SetNibble(word / 16, k - 1, v) * 16 + word % 16
  }

  lemma {:induction false} NibbleLaws(word: nat, k: nat, v: nat, j: nat)
    requires v < 16
    ensures Nibble(SetNibble(word, k, v), j) == if j == k then v else Nibble(word, j)
    decreases j
  {
    var w := SetNibble(word, k, v);
    if k == 0 {
      assert w / 16 == word / 16 && w % 16 == v;
    } else {
      assert w / 16 == SetNibble(word / 16, k - 1, v) && w % 16 == word % 16;
      if j > 0 {
        NibbleLaws(word / 16, k - 1, v, j - 1);
      }
    }
  }

  lemma DivideBound(word: nat, p: nat)
    ensures word < 16 * p <==> word / 16 < p
    ensures word % 16 < 16 && word == word / 16 * 16 + word % 16
  {
  }

  lemma {:induction false} SetNibbleSize(word: nat, k: nat, v: nat, n: nat)
    requires v < 16 && k < n && word < Pow16(n)
    ensures SetNibble(word, k, v) < Pow16(n)
  {
    var p := Pow16(n - 1);
    DivideBound(word, p);
    if k > 0 {
      SetNibbleSize(word / 16, k - 1, v, n - 1);
    }
  }

  /** Words with the same nibbles are the same. */
  lemma {:induction false} NibblesDecide(a: nat, b: nat, n: nat)
    requires a < Pow16(n) && b < Pow16(n) && forall k :: 0 <= k < n ==> Nibble(a, k) == Nibble(b, k)
    ensures a == b
    decreases n
  {
    if n > 0 {
      assert Nibble(a, 0) == Nibble(b, 0);
      forall k | 0 <= k < n - 1
        ensures Nibble(a / 16, k) == Nibble(b / 16, k)
      {
        assert Nibble(a, k + 1) == Nibble(b, k + 1);
      }
      NibblesDecide(a / 16, b / 16, n - 1);
    }
  }

  // ----- The list of named entries.

  datatype Kind = NamedUser | NamedGroup

  datatype Entry = Entry(kind: Kind, id: nat, rights: nat)

  const MAX_ENTRIES := 65535
  const NO_ID := 0xFFFF_FFFF

  function Rank(k: Kind): nat {
    if k == NamedUser then 0 else 1
  }

  /** Entries are ordered by kind, then by id. */
  predicate Below(e: Entry, kind: Kind, id: nat) {
    Rank(e.kind) < Rank(kind) || (e.kind == kind && e.id < id)
  }

  predicate Sorted(list: seq<Entry>) {
    forall i, j :: 0 <= i < j < |list| ==> Below(list[i], list[j].kind, list[j].id)
  }

  /** `lower_bound` of `Entry(kind, id, 0)` */
  function LowerBound(list: seq<Entry>, kind: Kind, id: nat): (k: nat)
    ensures k <= |list|
    ensures forall i :: 0 <= i < k ==> Below(list[i], kind, id)
    ensures k < |list| ==> !Below(list[k], kind, id)
  {
    if |list| == 0 || !Below(list[0], kind, id) then 0 else 1 + LowerBound(list[1..], kind, id)
  }

  predicate Has(list: seq<Entry>, kind: Kind, id: nat) {
    var k := LowerBound(list, kind, id);
    k < |list| && list[k].kind == kind && list[k].id == id
  }

  function Insert(list: seq<Entry>, kind: Kind, id: nat, rights: nat): seq<Entry> {
    var k := LowerBound(list, kind, id);
    if Has(list, kind, id) then list[k := list[k].(rights := rights)]
    else if |list| < MAX_ENTRIES then list[..k] + [Entry(kind, id, rights)] + list[k..]
    else list
  }

  function Erase(list: seq<Entry>, kind: Kind, id: nat): seq<Entry> {
    var k := LowerBound(list, kind, id);
    if Has(list, kind, id) then list[..k] + list[k + 1..] else list
  }

  // ----- It refines a map.

  function Key(e: Entry): (Kind, nat) {
    (e.kind, e.id)
  }

  lemma KeysDiffer(list: seq<Entry>, i: nat, j: nat)
    requires Sorted(list) && i < |list| && j < |list|
    ensures Key(list[i]) == Key(list[j]) <==> i == j
  {
  }

  /** The list stands for the map `m` from (kind, id) to rights. */
  ghost predicate Represents(list: seq<Entry>, m: map<(Kind, nat), nat>) {
    && Sorted(list)
    && (forall i :: 0 <= i < |list| ==> Key(list[i]) in m && m[Key(list[i])] == list[i].rights)
    && (forall key :: key in m ==> exists i :: 0 <= i < |list| && Key(list[i]) == key)
  }

  lemma {:induction false} BoundFinds(list: seq<Entry>, i: nat, kind: Kind, id: nat)
    requires Sorted(list) && i < |list| && Key(list[i]) == (kind, id)
    ensures LowerBound(list, kind, id) == i && Has(list, kind, id)
  {
  }

  /** `getEntry`: found exactly when the map has it, with the map's rights. */
  lemma LookupIsMap(list: seq<Entry>, m: map<(Kind, nat), nat>, kind: Kind, id: nat)
    requires Represents(list, m)
    ensures Has(list, kind, id) <==> (kind, id) in m
    ensures Has(list, kind, id) ==> list[LowerBound(list, kind, id)].rights == m[(kind, id)]
  {
    hide LowerBound;
    if (kind, id) in m {
      var i: nat :| i < |list| && Key(list[i]) == (kind, id);
      BoundFinds(list, i, kind, id);
    }
  }

  lemma InsertSorted(list: seq<Entry>, kind: Kind, id: nat, rights: nat)
    requires Sorted(list)
    ensures Sorted(Insert(list, kind, id, rights))
  {
    hide LowerBound;
    var k := LowerBound(list, kind, id);
    if k < |list| && !Has(list, kind, id) {
      forall j | k <= j < |list|
        ensures Below(Entry(kind, id, rights), list[j].kind, list[j].id)
      {
        if k < j {
          assert Below(list[k], list[j].kind, list[j].id);
        }
      }
    }
  }

  lemma EraseSorted(list: seq<Entry>, kind: Kind, id: nat)
    requires Sorted(list)
    ensures Sorted(Erase(list, kind, id))
  {
    hide LowerBound;
  }

  lemma PrefixSorted(done: seq<Entry>, todo: seq<Entry>)
    requires Sorted(done + todo) && |todo| > 0
    ensures Sorted(done + [todo[0]])
  {
    var a, b := done + [todo[0]], done + todo;
    assert forall i :: 0 <= i < |a| ==> a[i] == b[i];
  }

  lemma OverwriteIsUpdate(list: seq<Entry>, m: map<(Kind, nat), nat>, k: nat, rights: nat)
    requires Represents(list, m) && k < |list|
    ensures Represents(list[k := list[k].(rights := rights)], m[Key(list[k]) := rights])
  {
    var next := list[k := list[k].(rights := rights)];
    assert forall i :: 0 <= i < |list| ==> Key(next[i]) == Key(list[i]);
    forall i | 0 <= i < |list|
      ensures i != k ==> Key(list[i]) != Key(list[k])
    {
      KeysDiffer(list, i, k);
    }
    var n := m[Key(list[k]) := rights];
    forall key | key in n
      ensures exists i :: 0 <= i < |next| && Key(next[i]) == key
    {
      var i :| 0 <= i < |list| && Key(list[i]) == key;
      assert Key(next[i]) == key;
    }
  }

  lemma GrowIsUpdate(list: seq<Entry>, m: map<(Kind, nat), nat>, k: nat, e: Entry)
    requires Represents(list, m) && k <= |list| && Key(e) !in m && Sorted(list[..k] + [e] + list[k..])
    ensures Represents(list[..k] + [e] + list[k..], m[Key(e) := e.rights])
  {
    hide Sorted;
    var next := list[..k] + [e] + list[k..];
    assert next[k] == e;
    assert forall i :: 0 <= i < |next| && i != k ==> next[i] == list[if i < k then i else i - 1];
    forall key | key in m
      ensures exists i :: 0 <= i < |next| && Key(next[i]) == key
    {
      var i :| 0 <= i < |list| && Key(list[i]) == key;
      assert Key(next[if i < k then i else i + 1]) == key;
    }
    assert Key(next[k]) == Key(e);
  }

  /** `setEntry` updates the map, unless it would have to grow a full list. */
  lemma InsertIsUpdate(list: seq<Entry>, m: map<(Kind, nat), nat>, kind: Kind, id: nat, rights: nat)
    requires Represents(list, m)
    ensures Represents(Insert(list, kind, id, rights), if Has(list, kind, id) || |list| < MAX_ENTRIES then m[(kind, id) := rights] else m)
  {
    InsertSorted(list, kind, id, rights);
    LookupIsMap(list, m, kind, id);
    var k := LowerBound(list, kind, id);
    if Has(list, kind, id) {
      OverwriteIsUpdate(list, m, k, rights);
    } else if |list| < MAX_ENTRIES {
      GrowIsUpdate(list, m, k, Entry(kind, id, rights));
    }
    hide LowerBound, Represents, Sorted;
  }

  lemma ShrinkIsRemove(list: seq<Entry>, m: map<(Kind, nat), nat>, k: nat)
    requires Represents(list, m) && k < |list| && Sorted(list[..k] + list[k + 1..])
    ensures Represents(list[..k] + list[k + 1..], m - {Key(list[k])})
  {
    hide Sorted;
    var next := list[..k] + list[k + 1..];
    assert forall i :: 0 <= i < |next| ==> next[i] == list[if i < k then i else i + 1];
    forall i | 0 <= i < |list|
      ensures i != k ==> Key(list[i]) != Key(list[k])
    {
      KeysDiffer(list, i, k);
    }
    forall key | key in m && key != Key(list[k])
      ensures exists i :: 0 <= i < |next| && Key(next[i]) == key
    {
      var i :| 0 <= i < |list| && Key(list[i]) == key;
      assert Key(next[if i < k then i else i - 1]) == key;
    }
  }

  /** `removeEntry` removes the key. */
  lemma EraseIsRemove(list: seq<Entry>, m: map<(Kind, nat), nat>, kind: Kind, id: nat)
    requires Represents(list, m)
    ensures Represents(Erase(list, kind, id), m - {(kind, id)})
  {
    EraseSorted(list, kind, id);
    LookupIsMap(list, m, kind, id);
    if Has(list, kind, id) {
      ShrinkIsRemove(list, m, LowerBound(list, kind, id));
    } else {
      assert m - {(kind, id)} == m;
    }
    hide LowerBound, Represents, Sorted;
  }

  // ----- The whole list.

  datatype Acl = Acl(list: seq<Entry>, basic: nat)

  /** What an entry is for: a named user or group, or one of the packed rights. */
  datatype Tag = Named(kind: Kind) | Basic(nibble: nat)

  const EMPTY := Acl([], NO_RIGHTS)

  predicate ValidTag(t: Tag) {
    t.Basic? ==> t.nibble <= MASK
  }

  /** `setEntry` */
  function SetEntry(acl: Acl, tag: Tag, id: nat, rights: nat): Acl
    requires rights <= 7
  {
    match tag
    case Named(kind) => acl.(list := Insert(acl.list, kind, id, rights))
    case Basic(k) => acl.(basic := SetNibble(acl.basic, k, rights))
  }

  /** `removeEntry` */
  function RemoveEntry(acl: Acl, tag: Tag, id: nat): Acl {
    match tag
    case Named(kind) => acl.(list := Erase(acl.list, kind, id))
    case Basic(k) => acl.(basic := SetNibble(acl.basic, k, if k == MASK then UNSET else 0))
  }

  /** Whether `getEntry` finds something. */
  predicate HasEntry(acl: Acl, tag: Tag, id: nat) {
    match tag
    case Named(kind) => Has(acl.list, kind, id)
    case Basic(k) => k == MASK ==> Nibble(acl.basic, MASK) != UNSET
  }

  predicate ValidEntry(e: Entry) {
    e.id <= NO_ID && e.rights <= 7
  }

  predicate ValidList(list: seq<Entry>) {
    Sorted(list) && |list| <= MAX_ENTRIES && forall i :: 0 <= i < |list| ==> ValidEntry(list[i])
  }

  predicate ValidBasic(word: nat) {
    && word < 0x10000 && Nibble(word, OWNER) <= 7 && Nibble(word, GROUP) <= 7 && Nibble(word, OTHER) <= 7
    && (Nibble(word, MASK) <= 7 || Nibble(word, MASK) == UNSET)
  }

  ghost predicate Valid(acl: Acl) {
    ValidList(acl.list) && ValidBasic(acl.basic)
  }

  lemma BasicKept(word: nat, k: nat, v: nat)
    requires ValidBasic(word) && k <= MASK && (v <= 7 || (v == UNSET && k == MASK))
    ensures ValidBasic(SetNibble(word, k, v))
  {
    NibbleLaws(word, k, v, OWNER);
    NibbleLaws(word, k, v, GROUP);
    NibbleLaws(word, k, v, OTHER);
    NibbleLaws(word, k, v, MASK);
    FourNibbles();
    SetNibbleSize(word, k, v, 4);
    hide Nibble, SetNibble, Pow16;
  }

  lemma EmptyMask()
    ensures Nibble(NO_RIGHTS, MASK) == UNSET
  {
    assert NO_RIGHTS / 16 == 0xF00 && 0xF00 / 16 == 0xF0 && 0xF0 / 16 == 0xF;
    assert Nibble(0xF, 0) == 15 && Nibble(0xF0, 1) == 15 && Nibble(0xF00, 2) == 15;
  }

  lemma FourNibbles()
    ensures Pow16(4) == 0x10000
  {
  }

  /** Every operation keeps the list in order. */
  lemma SetEntryKeeps(acl: Acl, tag: Tag, id: nat, rights: nat)
    requires Valid(acl) && ValidTag(tag) && id <= NO_ID && rights <= 7
    ensures Valid(SetEntry(acl, tag, id, rights))
  {
    hide LowerBound, Sorted, Nibble, SetNibble;
    match tag {
      case Named(kind) => InsertSorted(acl.list, kind, id, rights);
      case Basic(k) => BasicKept(acl.basic, k, rights);
    }
  }

  lemma RemoveEntryKeeps(acl: Acl, tag: Tag, id: nat)
    requires Valid(acl) && ValidTag(tag)
    ensures Valid(RemoveEntry(acl, tag, id))
  {
    hide LowerBound, Sorted, Nibble, SetNibble;
    match tag {
      case Named(kind) => EraseSorted(acl.list, kind, id);
      case Basic(k) => BasicKept(acl.basic, k, if k == MASK then UNSET else 0);
    }
  }

  /** Rights set are rights found; all others stay. */
  lemma BasicSetGet(acl: Acl, k: nat, rights: nat, j: nat)
    requires rights <= 7 && k <= MASK && j <= MASK
    ensures Nibble(SetEntry(acl, Basic(k), 0, rights).basic, j) == if j == k then rights else Nibble(acl.basic, j)
    ensures Nibble(RemoveEntry(acl, Basic(k), 0).basic, j) == if j != k then Nibble(acl.basic, j) else if k == MASK then UNSET else 0
  {
    NibbleLaws(acl.basic, k, rights, j);
    NibbleLaws(acl.basic, k, if k == MASK then UNSET else 0, j);
  }

  /** Putting an entry behind all others. */
  lemma InsertLast(list: seq<Entry>, e: Entry)
    requires Sorted(list + [e]) && |list| < MAX_ENTRIES
    ensures !Has(list, e.kind, e.id) && Insert(list, e.kind, e.id, e.rights) == list + [e]
  {
    var all := list + [e];
    assert forall i :: 0 <= i < |list| ==> Below(all[i], all[|list|].kind, all[|list|].id);
    assert forall i :: 0 <= i < |list| ==> list[i] == all[i];
    assert LowerBound(list, e.kind, e.id) == |list|;
    hide LowerBound, Sorted;
  }

  lemma Regroup(done: seq<Entry>, todo: seq<Entry>)
    requires |todo| > 0
    ensures done + [todo[0]] + todo[1..] == done + todo
  {
  }

  /** The list as it is updated in place. */
  class AccessControlList {
    var list: seq<Entry>
    var basicPermissions: nat

    ghost function Model(): Acl
      reads this
    {
      Acl(list, basicPermissions)
    }

    constructor ()
      ensures Model() == EMPTY && Valid(Model())
    {
      list, basicPermissions := [], NO_RIGHTS;
      EmptyIsValid();
    }

    /** `setEntry` */
    method Set(tag: Tag, id: nat, rights: nat)
      requires Valid(Model()) && ValidTag(tag) && id <= NO_ID && rights <= 7
      modifies this
      ensures Model() == SetEntry(old(Model()), tag, id, rights) && Valid(Model())
    {
      SetEntryKeeps(Model(), tag, id, rights);
      hide Sorted, Nibble, SetNibble;
      match tag
      case Named(kind) =>
        var k := LowerBound(list, kind, id);
        if k != |list| {
          if list[k].kind == kind && list[k].id == id {
            list := list[k := list[k].(rights := rights)];
            return;
          }
        }
        if |list| < MAX_ENTRIES {
          list := list[..k] + [Entry(kind, id, rights)] + list[k..];
        }
      case Basic(k) =>
        basicPermissions := SetNibble(basicPermissions, k, rights);
    }

    /** `removeEntry` */
    method Remove(tag: Tag, id: nat)
      requires Valid(Model()) && ValidTag(tag)
      modifies this
      ensures Model() == RemoveEntry(old(Model()), tag, id) && Valid(Model())
    {
      RemoveEntryKeeps(Model(), tag, id);
      hide Sorted, Nibble, SetNibble;
      match tag
      case Named(kind) =>
        var k := LowerBound(list, kind, id);
        if k != |list| && list[k].kind == kind && list[k].id == id {
          list := list[..k] + list[k + 1..];
        }
      case Basic(k) =>
        basicPermissions := SetNibble(basicPermissions, k, if k == MASK then UNSET else 0);
    }
  }

  lemma EmptyIsValid()
    ensures Valid(EMPTY)
  {
    EmptyMask();
    assert NO_RIGHTS / 16 == 0xF00 && 0xF00 / 16 == 0xF0;
    assert Nibble(0xF0, 0) == 0 && Nibble(0xF00, 0) == 0 && Nibble(0xF00, 1) == Nibble(0xF0, 0);
    assert Nibble(NO_RIGHTS, 2) == Nibble(0xF00, 1) && Nibble(NO_RIGHTS, 1) == Nibble(0xF00, 0);
  }

  // ----- Any sequence of changes.

  datatype Change = SetTo(tag: Tag, id: nat, rights: nat) | Unset(tag: Tag, id: nat)

  predicate ValidChange(c: Change) {
    ValidTag(c.tag) && (c.SetTo? ==> c.id <= NO_ID && c.rights <= 7)
  }

  /** The map of named entries that the changes describe, starting from none. */
  function Described(changes: seq<Change>): map<(Kind, nat), nat> {
    if changes == [] then map[]
    else
      var m, c := Described(changes[..|changes| - 1]), changes[|changes| - 1];
      if c.tag.Basic? then m
      else if c.Unset? then m - {(c.tag.kind, c.id)}
      else if (c.tag.kind, c.id) in m || |m| < MAX_ENTRIES then m[(c.tag.kind, c.id) := c.rights]
      else m
  }

  /** The packed right `k` that they describe: the last one set, none at first and after a removal. */
  function DescribedBasic(changes: seq<Change>, k: nat): nat {
    if changes == [] then (if k == MASK then UNSET else 0)
    else
      var c := changes[|changes| - 1];
      if c.tag == Basic(k) then (if c.SetTo? then c.rights else if k == MASK then UNSET else 0)
      else DescribedBasic(changes[..|changes| - 1], k)
  }

  lemma {:induction false} SizeOfMap(list: seq<Entry>, m: map<(Kind, nat), nat>)
    requires Represents(list, m)
    ensures |list| == |m|
    decreases |list|
  {
    if |list| == 0 {
      assert m.Keys == {};
    } else {
      var k := |list| - 1;
      assert list[..k] + list[k + 1..] == list[..k];
      ShrinkIsRemove(list, m, k);
      SizeOfMap(list[..k], m - {Key(list[k])});
      assert m.Keys == (m - {Key(list[k])}).Keys + {Key(list[k])};
    }
  }

  /** The list stands for what the changes describe. */
  ghost predicate StandsFor(acl: Acl, changes: seq<Change>) {
    Valid(acl) && Represents(acl.list, Described(changes)) &&
    forall k :: 0 <= k <= MASK ==> Nibble(acl.basic, k) == DescribedBasic(changes, k)
  }

  function Changed(acl: Acl, c: Change): Acl
    requires ValidChange(c)
  {
    match c
    case SetTo(tag, id, rights) => SetEntry(acl, tag, id, rights)
    case Unset(tag, id) => RemoveEntry(acl, tag, id)
  }

  lemma ChangedValid(acl: Acl, c: Change)
    requires Valid(acl) && ValidChange(c)
    ensures Valid(Changed(acl, c))
  {
    hide Valid, SetEntry, RemoveEntry;
    match c {
      case SetTo(tag, id, rights) => SetEntryKeeps(acl, tag, id, rights);
      case Unset(tag, id) => RemoveEntryKeeps(acl, tag, id);
    }
  }

  lemma ChangedNamed(acl: Acl, changes: seq<Change>, c: Change)
    requires ValidChange(c) && Represents(acl.list, Described(changes))
    ensures Represents(Changed(acl, c).list, Described(changes + [c]))
  {
    assert (changes + [c])[..|changes|] == changes;
    SizeOfMap(acl.list, Described(changes));
    if c.tag.Named? {
      LookupIsMap(acl.list, Described(changes), c.tag.kind, c.id);
      hide Represents, Has, LowerBound, Insert, Erase;
      if c.SetTo? {
        InsertIsUpdate(acl.list, Described(changes), c.tag.kind, c.id, c.rights);
      } else {
        EraseIsRemove(acl.list, Described(changes), c.tag.kind, c.id);
      }
    }
  }

  lemma ChangedBasic(acl: Acl, changes: seq<Change>, c: Change, k: nat)
    requires ValidChange(c) && k <= MASK && Nibble(acl.basic, k) == DescribedBasic(changes, k)
    ensures Nibble(Changed(acl, c).basic, k) == DescribedBasic(changes + [c], k)
  {
    assert (changes + [c])[..|changes|] == changes;
    if c.tag.Basic? {
      hide Nibble, SetNibble;
      NibbleLaws(acl.basic, c.tag.nibble, if c.SetTo? then c.rights else if c.tag.nibble == MASK then UNSET else 0, k);
    }
  }

  lemma StandsForNext(acl: Acl, changes: seq<Change>, c: Change)
    requires StandsFor(acl, changes) && ValidChange(c)
    ensures StandsFor(Changed(acl, c), changes + [c])
  {
    hide Changed, Represents, Described, DescribedBasic, Nibble, Valid;
    ChangedValid(acl, c);
    ChangedNamed(acl, changes, c);
    forall k | 0 <= k <= MASK
      ensures Nibble(Changed(acl, c).basic, k) == DescribedBasic(changes + [c], k)
    {
      ChangedBasic(acl, changes, c, k);
    }
  }

  lemma StandsForNothing()
    ensures StandsFor(EMPTY, [])
  {
    EmptyIsValid();
    EmptyMask();
    assert Represents([], map[]);
    EmptyRights();
    hide Nibble;
  }

  lemma EmptyRights()
    ensures Nibble(NO_RIGHTS, OTHER) == 0 && Nibble(NO_RIGHTS, GROUP) == 0 && Nibble(NO_RIGHTS, OWNER) == 0
  {
    assert NO_RIGHTS / 16 == 0xF00 && 0xF00 / 16 == 0xF0;
    assert Nibble(0xF0, 0) == 0 && Nibble(0xF00, 0) == 0 && Nibble(0xF00, 1) == Nibble(0xF0, 0);
    assert Nibble(NO_RIGHTS, 2) == Nibble(0xF00, 1) && Nibble(NO_RIGHTS, 1) == Nibble(0xF00, 0);
  }

  lemma StandsForValid(acl: Acl, changes: seq<Change>)
    requires StandsFor(acl, changes)
    ensures Valid(acl)
  {
  }

  method Apply(a: AccessControlList, c: Change)
    requires Valid(a.Model()) && ValidChange(c)
    modifies a
    ensures a.Model() == Changed(old(a.Model()), c)
  {
    hide Valid, SetEntry, RemoveEntry;
    match c {
      case SetTo(tag, id, rights) => a.Set(tag, id, rights);
      case Unset(tag, id) => a.Remove(tag, id);
    }
  }

  /** After any changes to a new list, it stands for what they describe. */
  method Edit(changes: seq<Change>) returns (a: AccessControlList)
    requires forall k :: 0 <= k < |changes| ==> ValidChange(changes[k])
    ensures StandsFor(a.Model(), changes)
  {
    hide StandsFor, ValidChange, Valid;
    a := new AccessControlList();
    StandsForNothing();
    var k: nat := 0;
    while k < |changes|
      invariant k <= |changes| && fresh(a) && StandsFor(a.Model(), changes[..k])
    {
      StandsForNext(a.Model(), changes[..k], changes[k]);
      assert changes[..k + 1] == changes[..k] + [changes[k]];
      StandsForValid(a.Model(), changes[..k]);
      Apply(a, changes[k]);
      k := k + 1;
    }
    assert changes[..k] == changes;
  }
}
