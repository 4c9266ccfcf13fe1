/** The text form of an access control list, `A` with three digits and one clause per entry. */
module AclText {
  import opened Wrappers
  import opened Numerals
  import opened AccessControl

  // ----- Writing.

  function EntryText(e: Entry): string {
    (if e.kind == NamedUser then "/u:" else "/g:") + (Dec(e.id) + (":" + RightsText(e.rights)))
  }

  /** `accessMaskToChar` */
  function RightsText(rights: nat): string {
    if rights > 7 then "?" else [DigitChar(rights)]
  }

  function ListText(list: seq<Entry>): string {
    if |list| == 0 then "" else EntryText(list[0]) + ListText(list[1..])
  }

  function MaskText(word: nat): string {
    if Nibble(word, MASK) == UNSET then "" else "/m::" + RightsText(Nibble(word, MASK))
  }

  /** `toString` */
  function ToText(acl: Acl): string {
    "A" + (RightsText(Nibble(acl.basic, OWNER)) + (RightsText(Nibble(acl.basic, GROUP)) +
    (RightsText(Nibble(acl.basic, OTHER)) + (ListText(acl.list) + MaskText(acl.basic)))))
  }

  // ----- Reading. The text ends at its end or at a zero character.

  predicate AtEnd(s: string) {
    |s| == 0 || s[0] == '\0'
  }

  predicate IsSpace(c: char) {
    c == ' ' || '\t' <= c <= '\r'
  }

  function SkipSpace(s: string): string {
    if |s| > 0 && IsSpace(s[0]) then SkipSpace(s[1..]) else s
  }

  const LONG_MAX := WORD64 / 2 - 1

  /** The clipped `long` as a 32-bit id. */
  function ToId(v: nat, minus: bool): nat {
    var value: int := if minus then (if v > LONG_MAX + 1 then -LONG_MAX - 1 else -(v as int)) else if v > LONG_MAX then LONG_MAX else v;
    value % WORD32
  }

  /** `strtol` in base 10, cut to 32 bits: the number and what is left; refused when there are no digits. */
  function Strtol(s: string): (r: Outcome<(nat, string)>)
    ensures !r.Abort?
  {
    var t := SkipSpace(s);
    var minus := |t| > 0 && t[0] == '-';
    var u := if |t| > 0 && (t[0] == '-' || t[0] == '+') then t[1..] else t;
    var n := Run(u, false);
    if n == 0 then Invalid
    else
      Ok((ToId(Value(u[..n], 10), minus), u[n..]))
  }

  /** `accessMaskFromChar` */
  function ReadRights(s: string): (r: Outcome<(nat, string)>)
    ensures !r.Abort? && (r.Ok? ==> r.value.0 <= 7 && |r.value.1| < |s|)
  {
    if |s| > 0 && '0' <= s[0] <= '7' then Ok((DigitValue(s[0]), s[1..])) else Invalid
  }

  /** `entryTypeFromChar` */
  function TagOf(c: char): Outcome<Tag> {
    if c == 'u' then Ok(Named(NamedUser))
    else if c == 'g' then Ok(Named(NamedGroup))
    else if c == 'm' then Ok(Basic(MASK))
    else Invalid
  }

  /** The id of an entry; none written means `NO_ID`. */
  function ReadId(s: string): Outcome<(nat, string)> {
    if |s| > 0 && s[0] == ':' then Ok((NO_ID, s)) else Strtol(s)
  }

  /** One clause `/t:id:r`. */
  function ReadClause(s: string): Outcome<((Tag, nat, nat), string)> {
    var s :- Expect(s, "/");
    if AtEnd(s) then Invalid
    else
      var tag := TagOf(s[0]);
      var s :- Expect(s[1..], ":");
      var (id, s) :- ReadId(s);
      var s :- Expect(s, ":");
      var (rights, s) :- ReadRights(s);
      var tag :- tag;
      Ok(((tag, id, rights), s))
  }

  lemma SkipSpaceShorter(s: string)
    ensures |SkipSpace(s)| <= |s|
  {
  }

  lemma ClauseShorter(s: string)
    ensures ReadClause(s).Ok? ==> |ReadClause(s).value.1| < |s| && ReadClause(s).value.0.2 <= 7
  {
    if ReadClause(s).Ok? {
      var s1 := Expect(s, "/").value;
      var s2 := Expect(s1[1..], ":").value;
      SkipSpaceShorter(s2);
      hide Run, Value, SkipSpace;
    }
  }

  /** The loop of `fromString` over the clauses. */
  function ReadClauses(acl: Acl, s: string): Outcome<Acl>
    decreases |s|
  {
    if AtEnd(s) then Ok(acl)
    else
      ClauseShorter(s);
      var ((tag, id, rights), rest) :- ReadClause(s);
      if HasEntry(acl, tag, id) || (tag.Named? && id == NO_ID) then Invalid
      else ReadClauses(SetEntry(acl, tag, id, rights), rest)
  }

  /** `fromString` */
  function FromText(s: string): Outcome<Acl> {
    if |s| < 4 then Invalid
    else
      var s :- Expect(s, "A");
      var (owner, s) :- ReadRights(s);
      var (group, s) :- ReadRights(s);
      var (other, s) :- ReadRights(s);
      ReadClauses(SetEntry(SetEntry(SetEntry(EMPTY, Basic(OWNER), 0, owner), Basic(GROUP), 0, group), Basic(OTHER), 0, other), s)
  }

  // ----- Reading back what was written.

  lemma ToIdSmall(v: nat)
    requires v <= NO_ID
    ensures ToId(v, false) == v
  {
  }

  lemma ReadIdText(id: nat, rest: string)
    requires id <= NO_ID
    ensures ReadId(Dec(id) + (":" + rest)) == Ok((id, ":" + rest))
  {
    hide Run, Dec, Value, ToId;
    DecValue(id);
    RunOf(Dec(id), ":" + rest, false);
    ToIdSmall(id);
    var s := Dec(id) + (":" + rest);
    assert s[0] == Dec(id)[0];
    assert SkipSpace(s) == s;
    assert s[..|Dec(id)|] == Dec(id) && s[|Dec(id)|..] == ":" + rest;
  }

  lemma ReadRightsText(rights: nat, rest: string)
    requires rights <= 7
    ensures ReadRights(RightsText(rights) + rest) == Ok((rights, rest))
  {
    DigitCharValue(rights);
  }

  lemma ClauseText(e: Entry, rest: string)
    requires ValidEntry(e)
    ensures ReadClause(EntryText(e) + rest) == Ok(((Named(e.kind), e.id, e.rights), rest))
  {
    hide Dec, RightsText, ReadRights, ReadId;
    var r1 := RightsText(e.rights) + rest;
    var r2 := ":" + r1;
    var r3 := Dec(e.id) + r2;
    var c := if e.kind == NamedUser then "u" else "g";
    assert EntryText(e) + rest == "/" + (c + (":" + r3));
    ExpectText("/", c + (":" + r3));
    assert (c + (":" + r3))[1..] == ":" + r3;
    ExpectText(":", r3);
    ReadIdText(e.id, r1);
    ExpectText(":", r1);
    ReadRightsText(e.rights, rest);
    hide Expect;
  }

  lemma MaskClause(rights: nat)
    requires rights <= 7
    ensures ReadClause("/m::" + RightsText(rights)) == Ok(((Basic(MASK), NO_ID, rights), ""))
  {
    hide RightsText, ReadRights;
    var r := RightsText(rights);
    assert "/m::" + r == "/" + ("m" + (":" + (":" + r)));
    ExpectText("/", "m" + (":" + (":" + r)));
    assert ("m" + (":" + (":" + r)))[1..] == ":" + (":" + r);
    ExpectText(":", ":" + r);
    ExpectText(":", r);
    assert r == r + "";
    ReadRightsText(rights, "");
  }

  lemma EntryTextStarts(e: Entry, rest: string)
    ensures !AtEnd(EntryText(e) + rest)
  {
    hide Dec, RightsText;
  }

  /** Whether some entry has the id that the text form uses for "none". */
  predicate Unnamed(list: seq<Entry>) {
    exists i :: 0 <= i < |list| && list[i].id == NO_ID
  }

  /** Reading the clauses of `todo` adds them to `done`; an entry without a proper id is refused. */
  lemma {:induction false} ReadList(done: seq<Entry>, todo: seq<Entry>, basic: nat, tail: string)
    requires ValidList(done + todo)
    ensures ReadClauses(Acl(done, basic), ListText(todo) + tail) ==
            if Unnamed(todo) then Invalid else ReadClauses(Acl(done + todo, basic), tail)
    decreases |todo|
  {
    if |todo| == 0 {
      assert ListText(todo) + tail == tail && done + todo == done;
      hide ReadClauses;
    } else {
      hide ReadClauses, ListText, Unnamed, Sorted;
      ReadOne(done, todo, basic, tail);
      var e := todo[0];
      Regroup(done, todo);
      UnnamedFirst(todo);
      if e.id != NO_ID {
        ReadList(done + [e], todo[1..], basic, tail);
      }
    }
  }

  lemma UnnamedFirst(todo: seq<Entry>)
    requires |todo| > 0
    ensures Unnamed(todo) <==> todo[0].id == NO_ID || Unnamed(todo[1..])
  {
    if Unnamed(todo[1..]) {
      var i :| 0 <= i < |todo| - 1 && todo[1..][i].id == NO_ID;
      assert todo[i + 1].id == NO_ID;
    }
    if Unnamed(todo) && todo[0].id != NO_ID {
      var i :| 0 <= i < |todo| && todo[i].id == NO_ID;
      assert todo[1..][i - 1].id == NO_ID;
    }
  }

  lemma ReadOne(done: seq<Entry>, todo: seq<Entry>, basic: nat, tail: string)
    requires ValidList(done + todo) && |todo| > 0
    ensures ReadClauses(Acl(done, basic), ListText(todo) + tail) ==
            if todo[0].id == NO_ID then Invalid else ReadClauses(Acl(done + [todo[0]], basic), ListText(todo[1..]) + tail)
  {
    hide EntryText, ReadClause, Has, Insert, Sorted;
    var e := todo[0];
    var rest := ListText(todo[1..]) + tail;
    var s := ListText(todo) + tail;
    assert s == EntryText(e) + rest;
    assert ValidEntry((done + todo)[|done|]);
    ClauseText(e, rest);
    EntryTextStarts(e, rest);
    PrefixSorted(done, todo);
    InsertLast(done, e);
  }

  /** The packed rights without the mask, as they are set from the three digits. */
  function ThreeRights(word: nat): nat {
    SetNibble(SetNibble(SetNibble(NO_RIGHTS, OWNER, Nibble(word, OWNER)), GROUP, Nibble(word, GROUP)), OTHER, Nibble(word, OTHER))
  }

  lemma ThreeRightsNibbles(word: nat, j: nat)
    requires j <= MASK
    ensures Nibble(ThreeRights(word), j) == if j == MASK then UNSET else Nibble(word, j)
  {
    var a := SetNibble(NO_RIGHTS, OWNER, Nibble(word, OWNER));
    var b := SetNibble(a, GROUP, Nibble(word, GROUP));
    NibbleLaws(NO_RIGHTS, OWNER, Nibble(word, OWNER), j);
    NibbleLaws(a, GROUP, Nibble(word, GROUP), j);
    NibbleLaws(b, OTHER, Nibble(word, OTHER), j);
    EmptyMask();
    hide SetNibble, Nibble;
  }

  lemma ThreeRightsSize(word: nat)
    ensures ThreeRights(word) < Pow16(4)
  {
    FourNibbles();
    var a := SetNibble(NO_RIGHTS, OWNER, Nibble(word, OWNER));
    SetNibbleSize(NO_RIGHTS, OWNER, Nibble(word, OWNER), 4);
    SetNibbleSize(a, GROUP, Nibble(word, GROUP), 4);
    SetNibbleSize(SetNibble(a, GROUP, Nibble(word, GROUP)), OTHER, Nibble(word, OTHER), 4);
    hide SetNibble, Nibble, Pow16;
  }

  /** The three digits and the mask give the packed rights back. */
  lemma RightsBack(word: nat)
    requires ValidBasic(word)
    ensures word == if Nibble(word, MASK) == UNSET then ThreeRights(word) else SetNibble(ThreeRights(word), MASK, Nibble(word, MASK))
  {
    hide SetNibble, Nibble, Pow16, ThreeRights;
    FourNibbles();
    ThreeRightsSize(word);
    var three := ThreeRights(word);
    var v := Nibble(word, MASK);
    var back := if v == UNSET then three else SetNibble(three, MASK, v);
    SetNibbleSize(three, MASK, v, 4);
    forall j | 0 <= j < 4
      ensures Nibble(back, j) == Nibble(word, j)
    {
      ThreeRightsNibbles(word, j);
      NibbleLaws(three, MASK, v, j);
    }
    NibblesDecide(back, word, 4);
  }

  lemma ReadMask(list: seq<Entry>, word: nat)
    requires ValidBasic(word)
    ensures ReadClauses(Acl(list, ThreeRights(word)), MaskText(word)) == Ok(Acl(list, word))
  {
    hide SetNibble, Nibble, ThreeRights, RightsText, ReadClause;
    RightsBack(word);
    ThreeRightsNibbles(word, MASK);
    if Nibble(word, MASK) != UNSET {
      MaskClause(Nibble(word, MASK));
      assert ReadClauses(Acl(list, word), "") == Ok(Acl(list, word));
    }
  }

  /**
   Reading undoes writing, for every list but those with an entry whose id is that for "none";
   these are refused.
   */
  lemma TextRoundTrip(acl: Acl)
    requires Valid(acl)
    ensures FromText(ToText(acl)) == if Unnamed(acl.list) then Invalid else Ok(acl)
  {
    hide Nibble, SetNibble, RightsText, ReadRights, ListText, MaskText, ReadClauses, Sorted, Expect, Unnamed;
    var owner, group, other := Nibble(acl.basic, OWNER), Nibble(acl.basic, GROUP), Nibble(acl.basic, OTHER);
    var r1 := ListText(acl.list) + MaskText(acl.basic);
    var r2 := RightsText(other) + r1;
    var r3 := RightsText(group) + r2;
    var r4 := RightsText(owner) + r3;
    RightsLength(owner);
    RightsLength(group);
    RightsLength(other);
    ExpectText("A", r4);
    ReadRightsText(owner, r3);
    ReadRightsText(group, r2);
    ReadRightsText(other, r1);
    assert [] + acl.list == acl.list;
    ReadList([], acl.list, ThreeRights(acl.basic), MaskText(acl.basic));
    ReadMask(acl.list, acl.basic);
  }

  lemma RightsLength(rights: nat)
    ensures |RightsText(rights)| == 1
  {
  }

  // ----- The loops.

  /** `toString` as a loop over the entries */
  method WriteText(acl: Acl) returns (s: string)
    ensures s == ToText(acl)
  {
    hide Nibble, RightsText, EntryText, MaskText;
    s := "A" + RightsText(Nibble(acl.basic, OWNER)) + RightsText(Nibble(acl.basic, GROUP)) + RightsText(Nibble(acl.basic, OTHER));
    var i: nat := 0;
    while i < |acl.list|
      invariant i <= |acl.list|
      invariant s + (ListText(acl.list[i..]) + MaskText(acl.basic)) == ToText(acl)
    {
      assert acl.list[i..][1..] == acl.list[i + 1..];
      s := s + EntryText(acl.list[i]);
      i := i + 1;
    }
    assert ListText(acl.list[i..]) == "";
    s := s + MaskText(acl.basic);
  }

  /** `fromString` as a loop over the clauses */
  method ReadText(s: string) returns (r: Outcome<Acl>)
    ensures r == FromText(s)
  {
    hide ReadClause, SetEntry, HasEntry, ReadRights, Expect;
    if |s| < 4 {
      return Invalid;
    }
    var rest :- Expect(s, "A");
    var acl := EMPTY;
    var owner :- ReadRights(rest);
    acl := SetEntry(acl, Basic(OWNER), 0, owner.0);
    var group :- ReadRights(owner.1);
    acl := SetEntry(acl, Basic(GROUP), 0, group.0);
    var other :- ReadRights(group.1);
    acl := SetEntry(acl, Basic(OTHER), 0, other.0);
    rest := other.1;
    while !AtEnd(rest)
      invariant FromText(s) == ReadClauses(acl, rest)
      decreases |rest|
    {
      ClauseShorter(rest);
      var clause :- ReadClause(rest);
      var (tag, id, rights) := clause.0;
      if HasEntry(acl, tag, id) || (tag.Named? && id == NO_ID) {
        return Invalid;
      }
      acl := SetEntry(acl, tag, id, rights);
      rest := clause.1;
    }
    return Ok(acl);
  }
}
