/**
 Chunk file names: printing a chunk's identity and parsing it back.
 */
module ChunkFilename {
  import opened Wrappers
  import opened Numerals

  /** The kind of a chunk part; part 0 of an xor slice is the parity. */
  datatype PartType = Standard | Xor(level: nat, part: nat) | Ec(data: nat, parity: nat, part: nat)

  datatype Name = Name(kind: PartType, id: nat, version: nat, moosefs: bool)

  predicate ValidType(k: PartType) {
    match k
    case Standard => true
    case Xor(level, part) => 2 <= level <= 9 && part <= level
    case Ec(data, parity, part) => 2 <= data <= 32 && 1 <= parity <= 32 && part < data + parity
  }

  predicate ValidName(n: Name) {
    ValidType(n.kind) && n.id < WORD64 && n.version < WORD32
  }

  // ----- Printing.

  function TypeText(k: PartType): string {
    match k
    case Standard => ""
    case Xor(level, part) => (if part == 0 then "xor_parity_of_" else "xor_" + Dec(part) + "_of_") + Dec(level) + "_"
    case Ec(data, parity, part) => "ec2_" + EcText(part + 1, data, parity)
  }

  function EcText(number: nat, data: nat, parity: nat): string {
    Dec(number) + ("_of_" + (Dec(data) + ("_" + (Dec(parity) + "_"))))
  }

  function Extension(moosefs: bool): string {
    if moosefs then ".mfs" else ".liz"
  }

  /** The file name of `generateFilenameForVersion`, without its directory. */
  function Print(n: Name): string {
    "chunk_" + (TypeText(n.kind) + (Hex(n.id, 16) + ("_" + (Hex(n.version, 8) + Extension(n.moosefs)))))
  }

  // ----- Parsing: each step gives its value and what is left.

  /** A decimal number without leading zero, of at most `digits` digits; a run up to the end is an error. */
  function ReadNumber(s: string, digits: nat): (r: Outcome<(nat, string)>)
    ensures !r.Abort?
  {
    if |s| > 0 && s[0] == '0' then Invalid
    else
      var n := Run(s, false);
      if n == 0 || n == |s| || n > digits || Value(s[..n], 10) >= WORD64 then Invalid
      else Ok((Value(s[..n], 10), s[n..]))
  }

  function ReadHex(s: string, width: nat): (r: Outcome<(nat, string)>)
    ensures !r.Abort?
  {
    var n := Run(s, true);
    if n != width || n == |s| then Invalid else Ok((Value(s[..n], 16), s[n..]))
  }

  /** The conversion of a parsed 64-bit number to `int` keeps 32 bits. */
  function ToInt(v: nat): int {
    var low := v % WORD32;
    if low < WORD32 / 2 then low else low - WORD32
  }

  const ANY_LENGTH := 20

  /** The three numbers of an erasure-code name, as written. */
  function ReadEcNumbers(s: string): Outcome<((nat, nat, nat), string)> {
    var (number, s) :- ReadNumber(s, ANY_LENGTH);
    var s :- Expect(s, "_of_");
    var (data, s) :- ReadNumber(s, ANY_LENGTH);
    var s :- Expect(s, "_");
    var (parity, s) :- ReadNumber(s, ANY_LENGTH);
    var s :- Expect(s, "_");
    Ok(((number, data, parity), s))
  }

  /** `parseECChunkType` */
  function ParseEc(s: string): Outcome<(PartType, string)> {
    var ((number, data, parity), s) :- ReadEcNumbers(s);
    var k, m, part := ToInt(data), ToInt(parity), ToInt(number) - 1;
    if k < 2 || k > 32 || m < 1 || m > 32 || part >= k + m then Invalid
    else if part < 0 then Abort
    else Ok((Ec(k, m, part), s))
  }

  /** `parseXorChunkType` */
  function ParseXor(s: string): Outcome<(PartType, string)> {
    var parity := Expect(s, "parity_of_");
    if parity.Ok? then
      var (level, s) :- ReadNumber(parity.value, 2);
      var s :- Expect(s, "_");
      if level < 2 || level > 9 then Invalid else Ok((Xor(level, 0), s))
    else
      var (part, s) :- ReadNumber(s, 2);
      var s :- Expect(s, "_of_");
      var (level, s) :- ReadNumber(s, 2);
      var s :- Expect(s, "_");
      if level < 2 || level > 9 || part > level then Invalid else Ok((Xor(level, part), s))
  }

  /** `parseChunkType`; `ec_` is an older spelling of `ec2_`. */
  function ParseType(s: string): Outcome<(PartType, string)> {
    if Expect(s, "ec2_").Ok? then ParseEc(Expect(s, "ec2_").value)
    else if Expect(s, "ec_").Ok? then ParseEc(Expect(s, "ec_").value)
    else if Expect(s, "xor_").Ok? then ParseXor(Expect(s, "xor_").value)
    else Ok((Standard, s))
  }

  /** The part of a name behind its type. */
  function ParseRest(s: string, kind: PartType): Outcome<Name> {
    var (id, s) :- ReadHex(s, 16);
    var s :- Expect(s, "_");
    var (version, s) :- ReadHex(s, 8);
    if s == ".liz" then Ok(Name(kind, id, version, false))
    else if s == ".mfs" then Ok(Name(kind, id, version, true))
    else Invalid
  }

  /** `ChunkFilenameParser::parse` */
  function Parse(s: string): Outcome<Name> {
    var s :- Expect(s, "chunk_");
    var (kind, s) :- ParseType(s);
    ParseRest(s, kind)
  }

  // ----- Each step undoes its printing.

  lemma ReadDec(v: nat, rest: string, digits: nat)
    requires 0 < v < WORD64 && |Dec(v)| <= digits && |rest| > 0 && !IsDigit(rest[0])
    ensures ReadNumber(Dec(v) + rest, digits) == Ok((v, rest))
  {
    DecValue(v);
    RunOf(Dec(v), rest, false);
    var s := Dec(v) + rest;
    assert s[..|Dec(v)|] == Dec(v) && s[|Dec(v)|..] == rest;
    hide Run, Dec, Value;
  }

  lemma ReadHexText(v: nat, n: nat, rest: string)
    requires 0 < n && v < Pow16(n) && |rest| > 0 && !IsHexDigit(rest[0])
    ensures ReadHex(Hex(v, n) + rest, n) == Ok((v, rest))
  {
    HexValue(v, n);
    RunOf(Hex(v, n), rest, true);
    var s := Hex(v, n) + rest;
    assert s[..n] == Hex(v, n) && s[n..] == rest;
    hide Run, Hex, Value;
  }

  lemma {:induction false} DecLength(v: nat, n: nat)
    requires 0 < n && v < Pow10(n)
    ensures |Dec(v)| <= n
    decreases n
  {
    if v >= 10 {
      DecLength(v / 10, n - 1);
    }
  }

  function Pow10(n: nat): nat {
    if n == 0 then 1 else 10 * Pow10(n - 1)
  }

  /** Numbers that fit into 64 bits have at most 20 digits. */
  lemma WideDec(v: nat)
    requires v < WORD64
    ensures |Dec(v)| <= ANY_LENGTH
  {
    assert Pow10(5) == 100000 && Pow10(10) == 100000 * Pow10(5);
    assert Pow10(15) == 100000 * Pow10(10) && Pow10(20) == 100000 * Pow10(15);
    DecLength(v, ANY_LENGTH);
  }

  lemma ReadEcText(number: nat, data: nat, parity: nat, rest: string)
    requires 0 < number < WORD64 && 0 < data < WORD64 && 0 < parity < WORD64
    ensures ReadEcNumbers(EcText(number, data, parity) + rest) == Ok(((number, data, parity), rest))
  {
    hide Dec, ReadNumber, Expect;
    WideDec(number);
    WideDec(data);
    WideDec(parity);
    var r1 := "_" + rest;
    var r2 := Dec(parity) + r1;
    var r3 := "_" + r2;
    var r4 := Dec(data) + r3;
    var r5 := "_of_" + r4;
    assert EcText(number, data, parity) + rest == Dec(number) + r5;
    ReadDec(number, r5, ANY_LENGTH);
    ExpectText("_of_", r4);
    ReadDec(data, r3, ANY_LENGTH);
    ExpectText("_", r2);
    ReadDec(parity, r1, ANY_LENGTH);
    ExpectText("_", rest);
  }

  lemma SmallDec(v: nat)
    requires v < 100
    ensures |Dec(v)| <= 2
  {
    assert Pow10(2) == 100;
    DecLength(v, 2);
  }

  lemma ToIntSmall(v: nat)
    ensures ToInt(v) == v <==> v < WORD32 / 2
  {
    if v < WORD32 {
      assert v % WORD32 == v;
    }
  }

  lemma ParseEcText(k: PartType, rest: string)
    requires k.Ec? && ValidType(k)
    ensures ParseEc(EcText(k.part + 1, k.data, k.parity) + rest) == Ok((k, rest))
  {
    hide ReadEcNumbers, EcText, ToInt;
    ReadEcText(k.part + 1, k.data, k.parity, rest);
    ToIntSmall(k.part + 1);
    ToIntSmall(k.data);
    ToIntSmall(k.parity);
  }

  lemma ParseXorParity(level: nat, rest: string)
    requires 2 <= level <= 9
    ensures ParseXor("parity_of_" + (Dec(level) + ("_" + rest))) == Ok((Xor(level, 0), rest))
  {
    hide Dec, ReadNumber, Expect;
    SmallDec(level);
    ExpectText("parity_of_", Dec(level) + ("_" + rest));
    ReadDec(level, "_" + rest, 2);
    ExpectText("_", rest);
  }

  /** A number does not begin like another word. */
  lemma NumberIsNoWord(v: nat, rest: string, word: string)
    requires |word| > 0 && !IsDigit(word[0])
    ensures Expect(Dec(v) + rest, word) == Invalid
  {
    DecValue(v);
    hide Dec;
    var s := Dec(v) + rest;
    assert IsDigit(s[0]);
    assert |word| <= |s| ==> s[..|word|][0] == s[0];
  }

  lemma ParseXorPart(level: nat, part: nat, rest: string)
    requires 2 <= level <= 9 && 1 <= part <= level
    ensures ParseXor(Dec(part) + ("_of_" + (Dec(level) + ("_" + rest)))) == Ok((Xor(level, part), rest))
  {
    hide Dec, ReadNumber, Expect;
    SmallDec(level);
    SmallDec(part);
    NumberIsNoWord(part, "_of_" + (Dec(level) + ("_" + rest)), "parity_of_");
    ReadDec(part, "_of_" + (Dec(level) + ("_" + rest)), 2);
    ExpectText("_of_", Dec(level) + ("_" + rest));
    ReadDec(level, "_" + rest, 2);
    ExpectText("_", rest);
  }

  lemma WordsDiffer(s: string, rest: string)
    ensures s == "xor_" + rest ==> Expect(s, "ec2_") == Invalid && Expect(s, "ec_") == Invalid
    ensures |s| > 0 && IsHexDigit(s[0]) ==> Expect(s, "ec2_") == Invalid && Expect(s, "ec_") == Invalid && Expect(s, "xor_") == Invalid
  {
    assert |s| >= 4 && s[..4] == "ec2_" ==> s[0] == 'e';
    assert |s| >= 3 && s[..3] == "ec_" ==> s[0] == 'e';
    assert |s| >= 4 && s[..4] == "xor_" ==> s[0] == 'x';
  }

  lemma ParseXorText(k: PartType, rest: string)
    requires k.Xor? && ValidType(k)
    ensures TypeText(k) + rest == "xor_" + (TypeText(k)[4..] + rest)
    ensures ParseXor(TypeText(k)[4..] + rest) == Ok((k, rest))
  {
    hide Dec, ParseXor;
    var tail := Dec(k.level) + ("_" + rest);
    if k.part == 0 {
      ParseXorParity(k.level, rest);
      assert TypeText(k)[4..] + rest == "parity_of_" + tail;
    } else {
      ParseXorPart(k.level, k.part, rest);
      assert TypeText(k)[4..] + rest == Dec(k.part) + ("_of_" + tail);
    }
  }

  lemma ParseTypeText(k: PartType, rest: string)
    requires ValidType(k) && |rest| > 0 && IsHexDigit(rest[0])
    ensures ParseType(TypeText(k) + rest) == Ok((k, rest))
  {
    hide Dec, ParseEc, ParseXor, Expect, EcText;
    var s := TypeText(k) + rest;
    match k {
      case Standard =>
        assert s == rest;
        WordsDiffer(s, "");
      case Xor(level, part) =>
        ParseXorText(k, rest);
        var all := TypeText(k)[4..] + rest;
        WordsDiffer(s, all);
        ExpectText("xor_", all);
      case Ec(data, parity, part) =>
        var all := EcText(part + 1, data, parity) + rest;
        assert s == "ec2_" + all;
        ExpectText("ec2_", all);
        ParseEcText(k, rest);
    }
  }

  lemma Pow16Words()
    ensures Pow16(16) == WORD64 && Pow16(8) == WORD32
  {
    assert Pow16(4) == 0x10000;
    assert Pow16(8) == 0x10000 * Pow16(4);
    assert Pow16(12) == 0x10000 * Pow16(8);
    assert Pow16(16) == 0x10000 * Pow16(12);
  }

  lemma ParseRestText(n: Name)
    requires ValidName(n)
    ensures ParseRest(Hex(n.id, 16) + ("_" + (Hex(n.version, 8) + Extension(n.moosefs))), n.kind) == Ok(n)
  {
    hide Hex, ReadHex, Expect, Pow16;
    Pow16Words();
    ReadHexText(n.id, 16, "_" + (Hex(n.version, 8) + Extension(n.moosefs)));
    ExpectText("_", Hex(n.version, 8) + Extension(n.moosefs));
    ReadHexText(n.version, 8, Extension(n.moosefs));
  }

  /** Parsing undoes printing. */
  lemma ParsePrint(n: Name)
    requires ValidName(n)
    ensures Parse(Print(n)) == Ok(n)
  {
    hide Hex, Expect, ParseType, ParseRest, TypeText, ReadHex;
    var rest := Hex(n.id, 16) + ("_" + (Hex(n.version, 8) + Extension(n.moosefs)));
    Pow16Words();
    HexValue(n.id, 16);
    ExpectText("chunk_", TypeText(n.kind) + rest);
    ParseTypeText(n.kind, rest);
    ParseRestText(n);
  }

  // ----- Each step only accepts what printing would produce.

  lemma ExpectOk(s: string, text: string)
    requires Expect(s, text).Ok?
    ensures s == text + Expect(s, text).value
  {
  }

  lemma ReadNumberOk(s: string, digits: nat)
    requires ReadNumber(s, digits).Ok?
    ensures var (v, rest) := ReadNumber(s, digits).value; v > 0 && s == Dec(v) + rest
  {
    var n := Run(s, false);
    ValueDec(s[..n]);
    assert s == s[..n] + s[n..];
    hide Run, Dec, Value;
  }

  lemma ReadHexOk(s: string, width: nat)
    requires ReadHex(s, width).Ok?
    ensures var (v, rest) := ReadHex(s, width).value; v < Pow16(width) && s == Hex(v, width) + rest
  {
    var n := Run(s, true);
    ValueHex(s[..n]);
    assert s == s[..n] + s[n..];
    hide Run, Hex, Value;
  }

  lemma ReadEcOk(s: string)
    requires ReadEcNumbers(s).Ok?
    ensures var ((number, data, parity), rest) := ReadEcNumbers(s).value;
            number > 0 && data > 0 && parity > 0 && s == EcText(number, data, parity) + rest
  {
    hide Dec, ReadNumber, Expect;
    var (number, s1) := ReadNumber(s, ANY_LENGTH).value;
    ReadNumberOk(s, ANY_LENGTH);
    ExpectOk(s1, "_of_");
    var s2 := Expect(s1, "_of_").value;
    var (data, s3) := ReadNumber(s2, ANY_LENGTH).value;
    ReadNumberOk(s2, ANY_LENGTH);
    ExpectOk(s3, "_");
    var s4 := Expect(s3, "_").value;
    var (parity, s5) := ReadNumber(s4, ANY_LENGTH).value;
    ReadNumberOk(s4, ANY_LENGTH);
    ExpectOk(s5, "_");
  }

  /** Whether the numbers of an erasure-code name survive the conversion to `int`. */
  predicate NumbersFit(s: string) {
    ReadEcNumbers(s).Ok? ==>
      var ((number, data, parity), _) := ReadEcNumbers(s).value;
      number < WORD32 / 2 && data < WORD32 / 2 && parity < WORD32 / 2
  }

  lemma ParseEcOk(s: string)
    requires ParseEc(s).Ok?
    ensures var (k, rest) := ParseEc(s).value;
            ValidType(k) && k.Ec? && (NumbersFit(s) ==> s == EcText(k.part + 1, k.data, k.parity) + rest)
  {
    hide ReadEcNumbers, EcText, ToInt;
    ReadEcOk(s);
    var ((number, data, parity), rest) := ReadEcNumbers(s).value;
    ToIntSmall(number);
    ToIntSmall(data);
    ToIntSmall(parity);
  }

  lemma ParseXorOk(s: string)
    requires ParseXor(s).Ok?
    ensures var (k, rest) := ParseXor(s).value;
            ValidType(k) && k.Xor? && "xor_" + s == TypeText(k) + rest
  {
    hide Dec, ReadNumber, Expect;
    var parity := Expect(s, "parity_of_");
    if parity.Ok? {
      ExpectOk(s, "parity_of_");
      ReadNumberOk(parity.value, 2);
      ExpectOk(ReadNumber(parity.value, 2).value.1, "_");
    } else {
      ReadNumberOk(s, 2);
      var s1 := ReadNumber(s, 2).value.1;
      ExpectOk(s1, "_of_");
      var s2 := Expect(s1, "_of_").value;
      ReadNumberOk(s2, 2);
      ExpectOk(ReadNumber(s2, 2).value.1, "_");
    }
  }

  lemma ParseRestOk(s: string, kind: PartType)
    requires ParseRest(s, kind).Ok? && ValidType(kind)
    ensures var n := ParseRest(s, kind).value;
            n.kind == kind && ValidName(n) && s == Hex(n.id, 16) + ("_" + (Hex(n.version, 8) + Extension(n.moosefs)))
  {
    hide Hex, ReadHex, Expect, Pow16;
    Pow16Words();
    ReadHexOk(s, 16);
    var s1 := ReadHex(s, 16).value.1;
    ExpectOk(s1, "_");
    ReadHexOk(Expect(s1, "_").value, 8);
  }

  // ----- Printing undoes parsing, on names whose numbers fit.

  /** Not the older spelling, and no number too large for `int`. */
  predicate Plain(s: string) {
    var t := Expect(s, "chunk_");
    t.Ok? ==>
      if Expect(t.value, "ec2_").Ok? then NumbersFit(Expect(t.value, "ec2_").value)
      else Expect(t.value, "ec_").Invalid?
  }

  lemma TypeIsPlain(k: PartType, rest: string)
    requires ValidType(k) && |rest| > 0 && IsHexDigit(rest[0])
    ensures Plain("chunk_" + (TypeText(k) + rest))
  {
    hide Dec, Expect, EcText, ReadEcNumbers;
    var t := TypeText(k) + rest;
    ExpectText("chunk_", t);
    match k {
      case Standard =>
        assert t == rest;
        WordsDiffer(t, "");
      case Xor(level, part) =>
        ParseXorText(k, rest);
        WordsDiffer(t, TypeText(k)[4..] + rest);
      case Ec(data, parity, part) =>
        var all := EcText(part + 1, data, parity) + rest;
        assert t == "ec2_" + all;
        ExpectText("ec2_", all);
        ReadEcText(part + 1, data, parity, rest);
    }
  }

  lemma ParseTypeOk(s: string)
    requires ParseType(s).Ok?
    ensures var (k, rest) := ParseType(s).value;
            ValidType(k) && (Plain("chunk_" + s) ==> s == TypeText(k) + rest)
  {
    hide Expect, ParseEc, ParseXor, EcText, NumbersFit;
    ExpectText("chunk_", s);
    if Expect(s, "ec2_").Ok? {
      ExpectOk(s, "ec2_");
      ParseEcOk(Expect(s, "ec2_").value);
    } else if Expect(s, "ec_").Ok? {
      ParseEcOk(Expect(s, "ec_").value);
    } else if Expect(s, "xor_").Ok? {
      ExpectOk(s, "xor_");
      ParseXorOk(Expect(s, "xor_").value);
    }
  }

  /** An accepted name is printed back character for character exactly when it is plain. */
  lemma PrintParse(s: string)
    requires Parse(s).Ok?
    ensures ValidName(Parse(s).value)
    ensures Print(Parse(s).value) == s <==> Plain(s)
  {
    hide Expect, ParseType, ParseRest, TypeText, Hex, Plain;
    var n := Parse(s).value;
    ExpectOk(s, "chunk_");
    var t := Expect(s, "chunk_").value;
    ParseTypeOk(t);
    var (kind, rest) := ParseType(t).value;
    ParseRestOk(rest, kind);
    Pow16Words();
    HexValue(n.id, 16);
    TypeIsPlain(n.kind, Hex(n.id, 16) + ("_" + (Hex(n.version, 8) + Extension(n.moosefs))));
  }

  /** What stands behind the word that announces an erasure-code part, if the name has one. */
  function EcTail(s: string): Option<string> {
    var t := Expect(s, "chunk_");
    if !t.Ok? then None
    else if Expect(t.value, "ec2_").Ok? then Some(Expect(t.value, "ec2_").value)
    else if Expect(t.value, "ec_").Ok? then Some(Expect(t.value, "ec_").value)
    else None
  }

  /** The numbers of a slice with a part number that becomes negative or zero as an `int`. */
  predicate NoSuchPart(number: nat, data: nat, parity: nat) {
    && 2 <= data % WORD32 <= 32 && 1 <= parity % WORD32 <= 32
    && (number % WORD32 == 0 || number % WORD32 >= WORD32 / 2)
  }

  lemma ParseEcAborts(s: string)
    ensures ParseEc(s).Abort? <==>
              && ReadEcNumbers(s).Ok?
              && var ((number, data, parity), _) := ReadEcNumbers(s).value;
              NoSuchPart(number, data, parity)
  {
    EcNumbersNeverAbort(s);
    hide ReadEcNumbers;
  }

  lemma EcNumbersNeverAbort(s: string)
    ensures !ReadEcNumbers(s).Abort?
  {
    hide ReadNumber, Expect;
  }

  lemma XorNeverAborts(s: string)
    ensures !ParseXor(s).Abort?
  {
    hide ReadNumber, Expect;
  }

  lemma RestNeverAborts(s: string, kind: PartType)
    ensures !ParseRest(s, kind).Abort?
  {
    hide ReadHex, Expect;
  }

  /** A name runs into the assertion on part numbers exactly when its erasure-code numbers denote no part. */
  lemma ParseAborts(s: string)
    ensures Parse(s).Abort? <==>
              && EcTail(s).Some? && ReadEcNumbers(EcTail(s).value).Ok?
              && var ((number, data, parity), _) := ReadEcNumbers(EcTail(s).value).value;
              NoSuchPart(number, data, parity)
  {
    if EcTail(s).Some? {
      ParseEcAborts(EcTail(s).value);
    }
    var t := Expect(s, "chunk_");
    if t.Ok? {
      if Expect(t.value, "xor_").Ok? {
        XorNeverAborts(Expect(t.value, "xor_").value);
      }
      if ParseType(t.value).Ok? {
        RestNeverAborts(ParseType(t.value).value.1, ParseType(t.value).value.0);
      }
    }
    hide ReadEcNumbers, ParseEc, ParseXor, ParseRest, NoSuchPart;
  }

  /** Part 2^32 of any slice is such a number, whatever follows. */
  lemma WideNumberAborts(data: nat, parity: nat, rest: string)
    requires 2 <= data <= 32 && 1 <= parity <= 32
    ensures Parse("chunk_ec2_" + (EcText(WORD32, data, parity) + rest)).Abort?
  {
    hide Expect, EcText, ReadEcNumbers, ParseEc, ParseXor, ParseRest;
    var t := EcText(WORD32, data, parity) + rest;
    var s := "chunk_ec2_" + t;
    assert s == "chunk_" + ("ec2_" + t);
    ExpectText("chunk_", "ec2_" + t);
    ExpectText("ec2_", t);
    ReadEcText(WORD32, data, parity, rest);
    ParseAborts(s);
  }

  /** Other names of the same erasure-code part: a number may be larger by a multiple of 2^32. */
  lemma WideNumberIsAccepted(n: Name, more: nat)
    requires ValidName(n) && n.kind.Ec? && 0 < more < WORD32 / 2
    ensures var s := "chunk_ec2_" + (EcText(n.kind.part + 1, n.kind.data + more * WORD32, n.kind.parity) +
                     (Hex(n.id, 16) + ("_" + (Hex(n.version, 8) + Extension(n.moosefs)))));
            Parse(s) == Ok(n) && !Plain(s) && Print(n) != s
  {
    hide Expect, ParseRest, Hex, EcText, ReadEcNumbers, Plain;
    var rest := Hex(n.id, 16) + ("_" + (Hex(n.version, 8) + Extension(n.moosefs)));
    var wide := n.kind.data + more * WORD32;
    assert wide % WORD32 == n.kind.data;
    var t := EcText(n.kind.part + 1, wide, n.kind.parity) + rest;
    var s := "chunk_ec2_" + t;
    assert s == "chunk_" + ("ec2_" + t);
    ExpectText("chunk_", "ec2_" + t);
    ExpectText("ec2_", t);
    ReadEcText(n.kind.part + 1, wide, n.kind.parity, rest);
    ParseRestText(n);
    assert ParseEc(t) == Ok((n.kind, rest));
    WideIsNotPlain(t);
    PrintParse(s);
  }

  lemma WideIsNotPlain(t: string)
    requires !NumbersFit(t)
    ensures !Plain("chunk_" + ("ec2_" + t))
  {
    hide Expect, NumbersFit;
    ExpectText("chunk_", "ec2_" + t);
    ExpectText("ec2_", t);
  }

  // ----- The parser as a cursor over the name.

  lemma {:induction false} RunUnique(s: string, hex: bool, n: nat)
    requires n <= |s| && (if hex then AllHex(s[..n]) else AllDigits(s[..n]))
    requires n < |s| ==> !(if hex then IsHexDigit(s[n]) else IsDigit(s[n]))
    ensures Run(s, hex) == n
    decreases |s|
  {
    if n > 0 {
      assert s[..n][0] == s[0];
      assert s[1..][..n - 1] == s[..n][1..];
      RunUnique(s[1..], hex, n - 1);
    }
  }

  datatype Consumed = Matched | NoMatch | EndOfData

  class FilenameParser {
    const data: string
    var previous: nat
    var position: nat

    ghost predicate Valid()
      reads this
    {
      previous <= position <= |data|
    }

    /** What has not been consumed yet. */
    ghost function Rest(): string
      requires Valid()
      reads this
    {
      data[position..]
    }

    constructor (name: string)
      ensures Valid() && data == name && Rest() == name
    {
      data, previous, position := name, 0, 0;
    }

    method ConsumeText(text: string) returns (ok: bool)
      requires Valid() && |text| > 0
      modifies this
      ensures Valid() && (ok <==> Expect(old(Rest()), text).Ok?)
      ensures Rest() == if ok then Expect(old(Rest()), text).value else old(Rest())
    {
      if position == |data| || |data| < position + |text| || data[position..position + |text|] != text {
        assert position + |text| <= |data| ==> data[position..][..|text|] == data[position..position + |text|];
        return false;
      }
      assert data[position..][..|text|] == data[position..position + |text|];
      previous, position := position, position + |text|;
      return true;
    }

    /** `consume` with a character class; running into the end of the name is an exception. */
    method ConsumeRun(hex: bool) returns (r: Consumed, run: string)
      requires Valid()
      modifies this
      ensures Valid()
      ensures var n := Run(old(Rest()), hex);
              && (r == Matched <==> 0 < n < |old(Rest())|)
              && (r == Matched ==> run == old(Rest())[..n] && Rest() == old(Rest())[n..])
              && (r != Matched ==> Rest() == old(Rest()))
    {
      hide Run;
      ghost var rest := Rest();
      run := "";
      if position == |data| {
        RunUnique(rest, hex, 0);
        return NoMatch, run;
      }
      var at := position;
      while at < |data| && (if hex then IsHexDigit(data[at]) else IsDigit(data[at]))
        invariant position <= at <= |data|
        invariant if hex then AllHex(data[position..at]) else AllDigits(data[position..at])
      {
        assert data[position..at + 1] == data[position..at] + [data[at]];
        at := at + 1;
      }
      assert rest[..at - position] == data[position..at];
      RunUnique(rest, hex, at - position);
      if at == |data| {
        return EndOfData, run;
      }
      if at == position {
        return NoMatch, run;
      }
      run := data[position..at];
      previous, position := position, at;
      return Matched, run;
    }

    /** A number of a name: no leading zero, not too long, and within 64 bits. */
    method Number(digits: nat) returns (r: Outcome<nat>)
      requires Valid()
      modifies this
      ensures Valid() && match ReadNumber(old(Rest()), digits)
                         case Ok(v) => r == Ok(v.0) && Rest() == v.1
                         case _ => r == Invalid
    {
      hide Run, Value;
      ghost var rest := Rest();
      var zero := ConsumeText("0");
      if zero {
        ExpectOk(rest, "0");
        return Invalid;
      }
      assert |rest| > 0 ==> rest[..1] == [rest[0]];
      var status, run := ConsumeRun(false);
      if status != Matched || |run| > digits || Value(run, 10) >= WORD64 {
        return Invalid;
      }
      return Ok(Value(run, 10));
    }

    method EcType() returns (r: Outcome<PartType>)
      requires Valid()
      modifies this
      ensures Valid() && match ParseEc(old(Rest()))
                         case Ok(v) => r == Ok(v.0) && Rest() == v.1
                         case Invalid => r == Invalid
                         case Abort => r == Abort
    {
      hide ReadNumber, Expect, ToInt;
      var number :- Number(ANY_LENGTH);
      var ok := ConsumeText("_of_");
      if !ok {
        return Invalid;
      }
      var data :- Number(ANY_LENGTH);
      ok := ConsumeText("_");
      if !ok {
        return Invalid;
      }
      var parity :- Number(ANY_LENGTH);
      ok := ConsumeText("_");
      if !ok {
        return Invalid;
      }
      var k, m, part := ToInt(data), ToInt(parity), ToInt(number) - 1;
      if k < 2 || k > 32 || m < 1 || m > 32 || part >= k + m {
        return Invalid;
      }
      if part < 0 {
        return Abort;
      }
      return Ok(Ec(k, m, part));
    }

    method XorType() returns (r: Outcome<PartType>)
      requires Valid()
      modifies this
      ensures Valid() && match ParseXor(old(Rest()))
                         case Ok(v) => r == Ok(v.0) && Rest() == v.1
                         case Invalid => r == Invalid
                         case Abort => r == Abort
    {
      hide ReadNumber, Expect;
      var parity := ConsumeText("parity_of_");
      var part := 0;
      if !parity {
        part :- Number(2);
        var ok := ConsumeText("_of_");
        if !ok {
          return Invalid;
        }
      }
      var level :- Number(2);
      var ok := ConsumeText("_");
      if !ok || level < 2 || level > 9 || part > level {
        return Invalid;
      }
      return Ok(Xor(level, part));
    }

    method Type() returns (r: Outcome<PartType>)
      requires Valid()
      modifies this
      ensures Valid() && match ParseType(old(Rest()))
                         case Ok(v) => r == Ok(v.0) && Rest() == v.1
                         case Invalid => r == Invalid
                         case Abort => r == Abort
    {
      hide Expect, ParseEc, ParseXor;
      var ec2 := ConsumeText("ec2_");
      if ec2 {
        r := EcType();
        return;
      }
      var ec := ConsumeText("ec_");
      if ec {
        r := EcType();
        return;
      }
      var xr := ConsumeText("xor_");
      if xr {
        r := XorType();
        return;
      }
      return Ok(Standard);
    }

    method HexNumber(width: nat) returns (r: Outcome<nat>)
      requires Valid() && width > 0
      modifies this
      ensures Valid() && match ReadHex(old(Rest()), width)
                         case Ok(v) => r == Ok(v.0) && Rest() == v.1
                         case _ => r == Invalid
    {
      hide Run, Value;
      var status, run := ConsumeRun(true);
      if status != Matched || |run| != width {
        return Invalid;
      }
      return Ok(Value(run, 16));
    }

    /** The end of a name: the format, and nothing behind it. */
    method End() returns (r: Outcome<bool>)
      requires Valid()
      modifies this
      ensures r == if old(Rest()) == ".liz" then Ok(false) else if old(Rest()) == ".mfs" then Ok(true) else Invalid
    {
      ghost var tail := Rest();
      var moosefs := false;
      var ok := ConsumeText(".liz");
      if !ok {
        moosefs := ConsumeText(".mfs");
        if !moosefs {
          return Invalid;
        }
      }
      ExpectOk(tail, Extension(moosefs));
      if position != |data| {
        return Invalid;
      }
      return Ok(moosefs);
    }

    /** `parse` on a fresh parser */
    method ParseAll() returns (r: Outcome<Name>)
      requires Valid() && position == 0
      modifies this
      ensures r == Parse(data)
    {
      hide ParseType, ReadHex, Expect;
      assert Rest() == data;
      var ok := ConsumeText("chunk_");
      if !ok {
        return Invalid;
      }
      var kind :- Type();
      var id :- HexNumber(16);
      ok := ConsumeText("_");
      if !ok {
        return Invalid;
      }
      var version :- HexNumber(8);
      var moosefs :- End();
      return Ok(Name(kind, id, version, moosefs));
    }
  }
}
