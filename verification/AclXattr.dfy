/** The extended-attribute form of an access control list: a version and 8-byte entries. */
module AclXattr {
  import opened Words
  import opened Wrappers
  import opened Numerals
  import opened AccessControl

  type Bytes = seq<Byte>

  const XATTR_VERSION := 2

  // ----- Little-endian numbers.

  function Le16(v: nat): Bytes {
    [v % 256, v / 256 % 256]
  }

  function Le32(v: nat): Bytes {
    Le16(v % 0x10000) + Le16(v / 0x10000 % 0x10000)
  }

  function Get16(b: Bytes, at: nat): nat
    requires at + 2 <= |b|
  {
    b[at] + b[at + 1] as int * 256
  }

  function Get32(b: Bytes, at: nat): nat
    requires at + 4 <= |b|
  {
    Get16(b, at) + Get16(b, at + 2) * 0x10000
  }

  lemma GetLe16(v: nat)
    requires v < 0x10000
    ensures v % 256 + v / 256 % 256 * 256 == v
  {
  }

  // ----- Entries.

  /** The tag of `struct posix_acl_entry`. */
  function TagCode(t: Tag): nat
    requires ValidTag(t)
  {
    match t
    case Named(kind) => if kind == NamedUser then 0x02 else 0x08
    case Basic(k) => if k == OWNER then 0x01 else if k == GROUP then 0x04 else if k == MASK then 0x10 else 0x20
  }

  /** `convertTag` */
  function ConvertTag(code: nat): Outcome<Tag> {
    if code == 0x01 then Ok(Basic(OWNER))
    else if code == 0x02 then Ok(Named(NamedUser))
    else if code == 0x04 then Ok(Basic(GROUP))
    else if code == 0x08 then Ok(Named(NamedGroup))
    else if code == 0x10 then Ok(Basic(MASK))
    else if code == 0x20 then Ok(Basic(OTHER))
    else Invalid
  }

  /** `storeEntry` */
  function Store(t: Tag, id: nat, rights: nat): (b: Bytes)
    requires ValidTag(t)
    ensures |b| == 8
  {
    Le16(TagCode(t)) + Le16(rights) + Le32(id)
  }

  /** `extractEntry`; the rights field keeps four bits. */
  function Extract(b: Bytes): Outcome<(Tag, nat, nat)> {
    if |b| < 8 then Invalid
    else
      var tag, rights, id := ConvertTag(Get16(b, 0)), Get16(b, 2) % 16, Get32(b, 4);
      if !tag.Ok? || rights > 7 || (tag.value.Basic? && id != NO_ID) then Invalid
      else Ok((tag.value, id, rights))
  }

  lemma ExtractStore(t: Tag, id: nat, rights: nat, rest: Bytes)
    requires ValidTag(t) && id <= NO_ID && rights <= 7 && (t.Basic? ==> id == NO_ID)
    ensures Extract(Store(t, id, rights) + rest) == Ok((t, id, rights))
    ensures (Store(t, id, rights) + rest)[8..] == rest
  {
    var b := Store(t, id, rights) + rest;
    assert b[0] == TagCode(t) % 256 && b[1] == TagCode(t) / 256 % 256;
    assert b[2] == rights % 256 && b[3] == rights / 256 % 256;
    var lo, hi := id % 0x10000, id / 0x10000 % 0x10000;
    assert b[4] == lo % 256 && b[5] == lo / 256 % 256 && b[6] == hi % 256 && b[7] == hi / 256 % 256;
    GetLe16(lo);
    GetLe16(hi);
    GetLe16(TagCode(t));
    assert Get16(b, 0) == TagCode(t) && Get16(b, 2) == rights && Get32(b, 4) == id;
    hide Store, Get16, Get32, Le16, Le32;
  }

  // ----- Whole lists.

  /** The entries of one kind, in order. */
  function OfKind(list: seq<Entry>, kind: Kind): seq<Entry> {
    if |list| == 0 then []
    else (if list[0].kind == kind then [list[0]] else []) + OfKind(list[1..], kind)
  }

  function StoreAll(list: seq<Entry>): Bytes {
    if |list| == 0 then [] else Store(Named(list[0].kind), list[0].id, list[0].rights) + StoreAll(list[1..])
  }

  function StoreBasic(word: nat, k: nat): Bytes
    requires k <= MASK
  {
    Store(Basic(k), NO_ID, Nibble(word, k))
  }

  function StoreMask(word: nat): Bytes {
    if Nibble(word, MASK) == UNSET then [] else StoreBasic(word, MASK)
  }

  /** `aclObjectToXattr` */
  function ToXattr(acl: Acl): Bytes {
    Le32(XATTR_VERSION) + (StoreBasic(acl.basic, OWNER) + (StoreAll(OfKind(acl.list, NamedUser)) +
    (StoreBasic(acl.basic, GROUP) + (StoreAll(OfKind(acl.list, NamedGroup)) + (StoreMask(acl.basic) + StoreBasic(acl.basic, OTHER))))))
  }

  /** The loop of `extractAclObject`; `tags` are the packed rights seen so far. */
  function ReadEntries(acl: Acl, tags: set<nat>, b: Bytes): Outcome<Acl>
    decreases |b|
  {
    if |b| == 0 then (if {OWNER, GROUP, OTHER} <= tags then Ok(acl) else Invalid)
    else
      var e := Extract(b);
      if !e.Ok? then Invalid
      else
        var (tag, id, rights) := e.value;
        if tag.Basic? && tag.nibble in tags then Invalid
        else ReadEntries(SetEntry(acl, tag, id, rights), if tag.Basic? then tags + {tag.nibble} else tags, b[8..])
  }

  /** `extractAclObject` */
  function FromXattr(b: Bytes): Outcome<Acl> {
    if |b| < 4 || Get32(b, 0) != XATTR_VERSION then Invalid else ReadEntries(EMPTY, {}, b[4..])
  }

  lemma ReadBasic(acl: Acl, tags: set<nat>, word: nat, k: nat, rest: Bytes)
    requires k <= MASK && k !in tags && Nibble(word, k) <= 7
    ensures ReadEntries(acl, tags, StoreBasic(word, k) + rest) ==
            ReadEntries(acl.(basic := SetNibble(acl.basic, k, Nibble(word, k))), tags + {k}, rest)
  {
    hide Extract, Store, Nibble, SetNibble;
    ExtractStore(Basic(k), NO_ID, Nibble(word, k), rest);
  }

  /** Entries that come in order are put one behind the other. */
  lemma {:induction false} ReadAll(done: seq<Entry>, todo: seq<Entry>, basic: nat, tags: set<nat>, rest: Bytes)
    requires ValidList(done + todo)
    ensures ReadEntries(Acl(done, basic), tags, StoreAll(todo) + rest) == ReadEntries(Acl(done + todo, basic), tags, rest)
    decreases |todo|
  {
    if |todo| == 0 {
      assert StoreAll(todo) + rest == rest && done + todo == done;
      hide ReadEntries;
    } else {
      hide ReadEntries, StoreAll, ValidList;
      ReadOne(done, todo, basic, tags, rest);
      Regroup(done, todo);
      ReadAll(done + [todo[0]], todo[1..], basic, tags, rest);
    }
  }

  lemma ReadOne(done: seq<Entry>, todo: seq<Entry>, basic: nat, tags: set<nat>, rest: Bytes)
    requires ValidList(done + todo) && |todo| > 0
    ensures ReadEntries(Acl(done, basic), tags, StoreAll(todo) + rest) ==
            ReadEntries(Acl(done + [todo[0]], basic), tags, StoreAll(todo[1..]) + rest)
  {
    hide Extract, Store, Insert, Sorted;
    var e := todo[0];
    var tail := StoreAll(todo[1..]) + rest;
    assert StoreAll(todo) + rest == Store(Named(e.kind), e.id, e.rights) + tail;
    assert ValidEntry((done + todo)[|done|]);
    ExtractStore(Named(e.kind), e.id, e.rights, tail);
    PrefixSorted(done, todo);
    InsertLast(done, e);
  }

  lemma {:induction false} NoUsers(list: seq<Entry>)
    requires Sorted(list) && |list| > 0 && list[0].kind == NamedGroup
    ensures OfKind(list, NamedUser) == [] && OfKind(list, NamedGroup) == list
  {
    if |list| > 1 {
      assert Below(list[0], list[1].kind, list[1].id);
      NoUsers(list[1..]);
    }
  }

  /** A sorted list is its users followed by its groups. */
  lemma {:induction false} UsersThenGroups(list: seq<Entry>)
    requires Sorted(list)
    ensures OfKind(list, NamedUser) + OfKind(list, NamedGroup) == list
  {
    if |list| > 0 {
      if list[0].kind == NamedGroup {
        NoUsers(list);
      } else {
        UsersThenGroups(list[1..]);
      }
    }
  }

  /** The packed rights in the order in which they are read. */
  function FourRights(word: nat): nat {
    var two := SetNibble(SetNibble(NO_RIGHTS, OWNER, Nibble(word, OWNER)), GROUP, Nibble(word, GROUP));
    SetNibble(if Nibble(word, MASK) == UNSET then two else SetNibble(two, MASK, Nibble(word, MASK)), OTHER, Nibble(word, OTHER))
  }

  lemma FourRightsNibbles(word: nat, j: nat)
    requires j <= MASK && Nibble(NO_RIGHTS, MASK) == UNSET
    ensures Nibble(FourRights(word), j) == Nibble(word, j)
  {
    hide Nibble, SetNibble;
    var a := SetNibble(NO_RIGHTS, OWNER, Nibble(word, OWNER));
    var b := SetNibble(a, GROUP, Nibble(word, GROUP));
    var c := if Nibble(word, MASK) == UNSET then b else SetNibble(b, MASK, Nibble(word, MASK));
    NibbleLaws(NO_RIGHTS, OWNER, Nibble(word, OWNER), j);
    NibbleLaws(a, GROUP, Nibble(word, GROUP), j);
    NibbleLaws(b, MASK, Nibble(word, MASK), j);
    NibbleLaws(c, OTHER, Nibble(word, OTHER), j);
  }

  lemma FourRightsSize(word: nat)
    ensures FourRights(word) < Pow16(4)
  {
    hide Nibble, SetNibble;
    FourNibbles();
    var a := SetNibble(NO_RIGHTS, OWNER, Nibble(word, OWNER));
    var b := SetNibble(a, GROUP, Nibble(word, GROUP));
    var c := if Nibble(word, MASK) == UNSET then b else SetNibble(b, MASK, Nibble(word, MASK));
    SetNibbleSize(NO_RIGHTS, OWNER, Nibble(word, OWNER), 4);
    SetNibbleSize(a, GROUP, Nibble(word, GROUP), 4);
    SetNibbleSize(b, MASK, Nibble(word, MASK), 4);
    SetNibbleSize(c, OTHER, Nibble(word, OTHER), 4);
  }

  lemma FourRightsBack(word: nat)
    requires ValidBasic(word)
    ensures FourRights(word) == word
  {
    hide Nibble, SetNibble, FourRights;
    EmptyMask();
    FourNibbles();
    FourRightsSize(word);
    forall j | 0 <= j < 4
      ensures Nibble(FourRights(word), j) == Nibble(word, j)
    {
      FourRightsNibbles(word, j);
    }
    NibblesDecide(FourRights(word), word, 4);
  }

  lemma ReadVersion(rest: Bytes)
    ensures |Le32(XATTR_VERSION) + rest| >= 4 && Get32(Le32(XATTR_VERSION) + rest, 0) == XATTR_VERSION
    ensures (Le32(XATTR_VERSION) + rest)[4..] == rest
  {
    assert Le32(XATTR_VERSION) == [2, 0, 0, 0];
  }

  /** The mask, where there is one, and the rights of others end the attribute. */
  lemma ReadEnd(list: seq<Entry>, two: nat, word: nat)
    requires ValidBasic(word)
    ensures ReadEntries(Acl(list, two), {OWNER, GROUP}, StoreMask(word) + StoreBasic(word, OTHER)) ==
            Ok(Acl(list, SetNibble(if Nibble(word, MASK) == UNSET then two else SetNibble(two, MASK, Nibble(word, MASK)), OTHER, Nibble(word, OTHER))))
  {
    hide Nibble, SetNibble, StoreBasic;
    var masked := if Nibble(word, MASK) == UNSET then two else SetNibble(two, MASK, Nibble(word, MASK));
    var tags := if Nibble(word, MASK) == UNSET then {OWNER, GROUP} else {OWNER, GROUP, MASK};
    assert StoreBasic(word, OTHER) + [] == StoreBasic(word, OTHER);
    if Nibble(word, MASK) == UNSET {
      assert StoreMask(word) + StoreBasic(word, OTHER) == StoreBasic(word, OTHER);
    } else {
      ReadBasic(Acl(list, two), {OWNER, GROUP}, word, MASK, StoreBasic(word, OTHER));
      assert {OWNER, GROUP} + {MASK} == tags;
    }
    ReadBasic(Acl(list, masked), tags, word, OTHER, []);
  }

  /** Reading undoes writing, for every list. */
  lemma XattrRoundTrip(acl: Acl)
    requires Valid(acl)
    ensures FromXattr(ToXattr(acl)) == Ok(acl)
  {
    hide Nibble, SetNibble, StoreBasic, StoreMask, StoreAll, OfKind, ReadEntries, Le32, Get32, Sorted;
    var word := acl.basic;
    var users, groups := OfKind(acl.list, NamedUser), OfKind(acl.list, NamedGroup);
    var r5 := StoreMask(word) + StoreBasic(word, OTHER);
    var r4 := StoreAll(groups) + r5;
    var r3 := StoreBasic(word, GROUP) + r4;
    var r2 := StoreAll(users) + r3;
    var one := SetNibble(NO_RIGHTS, OWNER, Nibble(word, OWNER));
    var two := SetNibble(one, GROUP, Nibble(word, GROUP));
    UsersThenGroups(acl.list);
    UsersValid(users, groups);
    ReadVersion(StoreBasic(word, OWNER) + r2);
    ReadBasic(EMPTY, {}, word, OWNER, r2);
    assert {} + {OWNER} == {OWNER} && {OWNER} + {GROUP} == {OWNER, GROUP};
    assert [] + users == users;
    ReadAll([], users, one, {OWNER}, r3);
    ReadBasic(Acl(users, one), {OWNER}, word, GROUP, r4);
    ReadAll(users, groups, two, {OWNER, GROUP}, r5);
    ReadEnd(acl.list, two, word);
    FourRightsBack(word);
  }

  lemma UsersValid(users: seq<Entry>, groups: seq<Entry>)
    requires ValidList(users + groups)
    ensures ValidList(users)
  {
    assert forall i :: 0 <= i < |users| ==> users[i] == (users + groups)[i];
  }

  // ----- The loops.

  /** The entries of one kind are appended; the others are passed over. */
  method StoreKind(buffer: Bytes, list: seq<Entry>, kind: Kind) returns (b: Bytes)
    ensures b == buffer + StoreAll(OfKind(list, kind))
  {
    hide Store;
    b := buffer;
    var i: nat := 0;
    while i < |list|
      invariant i <= |list| && b + StoreAll(OfKind(list[i..], kind)) == buffer + StoreAll(OfKind(list, kind))
    {
      assert list[i..][1..] == list[i + 1..];
      ghost var rest := OfKind(list[i + 1..], kind);
      if list[i].kind == kind {
        assert OfKind(list[i..], kind) == [list[i]] + rest;
        assert ([list[i]] + rest)[1..] == rest;
        b := b + Store(Named(kind), list[i].id, list[i].rights);
      } else {
        assert OfKind(list[i..], kind) == rest;
      }
      i := i + 1;
    }
  }

  /** `aclObjectToXattr` */
  method WriteXattr(acl: Acl) returns (b: Bytes)
    ensures b == ToXattr(acl)
  {
    hide Nibble, StoreBasic, StoreAll, OfKind, Le32;
    b := Le32(XATTR_VERSION) + StoreBasic(acl.basic, OWNER);
    b := StoreKind(b, acl.list, NamedUser);
    b := b + StoreBasic(acl.basic, GROUP);
    b := StoreKind(b, acl.list, NamedGroup);
    if Nibble(acl.basic, MASK) != UNSET {
      b := b + StoreBasic(acl.basic, MASK);
    }
    b := b + StoreBasic(acl.basic, OTHER);
  }

  /** `extractAclObject` */
  method ReadXattr(b: Bytes) returns (r: Outcome<Acl>)
    ensures r == FromXattr(b)
  {
    hide Extract, SetEntry, Get32;
    if |b| < 4 || Get32(b, 0) != XATTR_VERSION {
      return Invalid;
    }
    var acl, tags := EMPTY, {};
    var at: nat := 4;
    while at < |b|
      invariant 4 <= at <= |b| && FromXattr(b) == ReadEntries(acl, tags, b[at..])
    {
      ExtractNeedsEight(b[at..]);
      var e := Extract(b[at..]);
      if !e.Ok? {
        return Invalid;
      }
      var (tag, id, rights) := e.value;
      assert b[at..][8..] == b[at + 8..];
      acl := SetEntry(acl, tag, id, rights);
      if tag.Basic? {
        if tag.nibble in tags {
          return Invalid;
        }
        tags := tags + {tag.nibble};
      }
      at := at + 8;
    }
    if OWNER !in tags || GROUP !in tags || OTHER !in tags {
      return Invalid;
    }
    return Ok(acl);
  }

  lemma ExtractNeedsEight(b: Bytes)
    ensures Extract(b).Ok? ==> |b| >= 8 && Extract(b).value.2 <= 7
  {
  }
}
