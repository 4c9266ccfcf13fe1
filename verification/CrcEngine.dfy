/**
 The chunkserver's CRC code on a little-endian machine: the slicing-by-four tables, the
 checksum loop over a possibly unaligned buffer, and the combine tables obtained by
 repeatedly squaring a 32x32 matrix over GF(2).
 */
module CrcEngine {
  import opened Words
  import opened CrcSpec

  // ----- What the tables must hold.

  /** `crc_table[k][i]` is byte `i` advanced over `k + 1` zero bytes. */
  ghost predicate MainTableOk(poly: Word, t: array2<Word>)
    reads t
  {
    && t.Length0 == 4 && t.Length1 == 256
    && forall k, i :: 0 <= k < 4 && 0 <= i < 256 ==> t[k, i] == Advance(poly, FromByte(i), 8 * (k + 1))
  }

  /** Column `i` of the matrix is the image of bit `i` under `n` register turns. */
  ghost predicate Represents(poly: Word, m: seq<Word>, n: nat) {
    |m| == WIDTH && forall i :: 0 <= i < WIDTH ==> m[i] == Advance(poly, Basis(i), n)
  }

  /** `crc_combine_table[i][j][k]` is byte `k`, placed at byte `j`, advanced over `2^i` zero bytes. */
  ghost predicate CombineTableOk(poly: Word, t: array3<Word>)
    reads t
  {
    && t.Length0 == 32 && t.Length1 == 4 && t.Length2 == 256
    && forall i :: 0 <= i < 32 ==> RowOk(poly, t, i, 8 * Pow2(i))
  }

  ghost predicate RowOk(poly: Word, t: array3<Word>, i: nat, n: nat)
    requires t.Length0 == 32 && t.Length1 == 4 && t.Length2 == 256 && i < 32
    reads t
  {
    forall j, k :: 0 <= j < 4 && 0 <= k < 256 ==> t[i, j, k] == Advance(poly, Shl(FromByte(k), 8 * j), n)
  }

  // ----- Matrix application.

  /** Sum of the columns `m[j], m[j + 1], ...` selected by the bits of `v`. */
  function Apply(m: seq<Word>, j: nat, v: Word): Word
    requires |m| == WIDTH && j <= WIDTH
    decreases WIDTH - j
  {
    if v == ZERO || j == WIDTH then ZERO
    else Xor(if v[0] then m[j] else ZERO, Apply(m, j + 1, Shr(v, 1)))
  }

  /** A matrix that represents `n` turns maps `v`, shifted to bit `j`, like `n` turns do. */
  lemma {:induction false} ApplyIsAdvance(poly: Word, m: seq<Word>, n: nat, j: nat, v: Word)
    requires Represents(poly, m, n) && j <= WIDTH
    ensures Apply(m, j, v) == Advance(poly, Shl(v, j), n)
    decreases WIDTH - j
  {
    hide Step;
    if v == ZERO || j == WIDTH {
      assert Shl(v, j) == ZERO;
      AdvanceZero(poly, n);
    } else {
      var low := if v[0] then Basis(j) else ZERO;
      assert Shl(v, j) == Xor(low, Shl(Shr(v, 1), j + 1));
      AdvanceLinear(poly, low, Shl(Shr(v, 1), j + 1), n);
      AdvanceZero(poly, n);
      ApplyIsAdvance(poly, m, n, j + 1, Shr(v, 1));
    }
  }

  /** Applying the matrix to its own columns doubles the number of turns. */
  lemma SquareDoubles(poly: Word, m: seq<Word>, sqr: seq<Word>, n: nat)
    requires Represents(poly, m, n)
    requires |sqr| == WIDTH && forall i :: 0 <= i < WIDTH ==> sqr[i] == Apply(m, 0, m[i])
    ensures Represents(poly, sqr, 2 * n)
  {
    hide Step, Apply;
    forall i | 0 <= i < WIDTH
      ensures sqr[i] == Advance(poly, Basis(i), 2 * n)
    {
      ApplyIsAdvance(poly, m, n, 0, m[i]);
      assert Shl(m[i], 0) == m[i];
      AdvanceAdd(poly, Basis(i), n, n);
    }
  }

  /** The column-summing loop shared by the matrix square and the combine tables. */
  method SumColumns(m: seq<Word>, start: nat, word: Word) returns (s: Word)
    requires |m| == WIDTH && start <= WIDTH
    ensures s == Apply(m, start, word)
  {
    hide Xor, Shr;
    s := ZERO;
    var j, v := start, word;
    XorZero(Apply(m, start, word));
    while v != ZERO && j < WIDTH
      invariant start <= j <= WIDTH
      invariant Xor(s, Apply(m, j, v)) == Apply(m, start, word)
      decreases WIDTH - j
    {
      ghost var rest := Apply(m, j + 1, Shr(v, 1));
      XorZero(rest);
      if v[0] {
        XorAssoc(s, m[j], rest);
        s := Xor(s, m[j]);
      }
      j, v := j + 1, Shr(v, 1);
    }
    XorZero(s);
  }

  /** `crc_matrix_square` */
  method MatrixSquare(ghost poly: Word, sqr: array<Word>, m: array<Word>, ghost n: nat)
    requires sqr != m && sqr.Length == WIDTH
    requires Represents(poly, m[..], n)
    modifies sqr
    ensures Represents(poly, sqr[..], 2 * n)
  {
    hide Apply, Advance;
    var i := 0;
    while i < WIDTH
      invariant 0 <= i <= WIDTH
      invariant m[..] == old(m[..])
      invariant forall h :: 0 <= h < i ==> sqr[h] == Apply(m[..], 0, m[h])
    {
      var s := SumColumns(m[..], 0, m[i]);
      sqr[i] := s;
      i := i + 1;
    }
    SquareDoubles(poly, m[..], sqr[..], n);
  }

  // ----- Slicing.

  /** A byte-aligned word advanced over whole bytes only loses the bytes shifted out. */
  lemma AdvancePlacedByte(poly: Word, b: Byte, k: nat, n: nat)
    requires k < 4 && k <= n
    ensures Advance(poly, Shl(FromByte(b), 8 * k), 8 * n) == Advance(poly, FromByte(b), 8 * (n - k))
  {
    hide Step;
    AdvanceAdd(poly, Shl(FromByte(b), 8 * k), 8 * k, 8 * (n - k));
    AdvanceShl(poly, FromByte(b), 8 * k);
  }

  /** Any advance of a word is the sum of the advances of its four bytes. */
  lemma AdvanceByBytes(poly: Word, w: Word, n: nat)
    ensures Advance(poly, w, n) ==
            Xor(Xor(Advance(poly, Shl(FromByte(ByteAt(w, 3)), 24), n), Advance(poly, Shl(FromByte(ByteAt(w, 2)), 16), n)),
                Xor(Advance(poly, Shl(FromByte(ByteAt(w, 1)), 8), n), Advance(poly, FromByte(ByteAt(w, 0)), n)))
  {
    hide Step, Advance, FromByte, ByteAt, Shl, Xor;
    WordIsItsBytes(w);
    var b0, b1, b2, b3 := FromByte(ByteAt(w, 0)), Shl(FromByte(ByteAt(w, 1)), 8), Shl(FromByte(ByteAt(w, 2)), 16), Shl(FromByte(ByteAt(w, 3)), 24);
    AdvanceLinear(poly, Xor(b3, b2), Xor(b1, b0), n);
    AdvanceLinear(poly, b3, b2, n);
    AdvanceLinear(poly, b1, b0, n);
  }

  /** Up to four bytes as a little-endian word. */
  function LoadWord(d: seq<Byte>): (w: Word)
    requires |d| <= 4
    ensures forall i {:trigger w[i]} :: 8 * |d| <= i < WIDTH ==> !w[i]
  {
    if d == [] then ZERO else Xor(FromByte(d[0]), Shl(LoadWord(d[1..]), 8))
  }

  /** Feeding up to four bytes is adding them as one word and advancing over their length. */
  lemma {:induction false} FeedWord(poly: Word, c: Word, d: seq<Byte>)
    requires |d| <= 4
    ensures FeedBytes(poly, c, d) == Advance(poly, Xor(c, LoadWord(d)), 8 * |d|)
    decreases |d|
  {
    hide Step;
    if d == [] {
      XorZero(c);
    } else {
      var b, rest := FromByte(d[0]), LoadWord(d[1..]);
      FeedWord(poly, FeedByte(poly, c, d[0]), d[1..]);
      XorAssoc(c, b, Shl(rest, 8));
      AdvanceAdd(poly, Xor(c, LoadWord(d)), 8, 8 * |d[1..]|);
      AdvanceLinear(poly, Xor(c, b), Shl(rest, 8), 8);
      AdvanceShl(poly, rest, 8);
    }
  }

  /** The first matrix of `crc_generate_combine_tables` is one register turn. */
  lemma SingleTurnMatrix(poly: Word, m: seq<Word>)
    requires |m| == WIDTH && m[0] == poly
    requires forall i :: 1 <= i < WIDTH ==> m[i] == Basis(i - 1)
    ensures Represents(poly, m, 1)
  {
    forall i | 0 <= i < WIDTH
      ensures m[i] == Advance(poly, Basis(i), 1)
    {
      assert Advance(poly, Basis(i), 1) == Step(poly, Basis(i));
      if i == 0 {
        assert Xor(poly, Shr(Basis(0), 1)) == poly;
      } else {
        assert Shr(Basis(i), 1) == Basis(i - 1);
      }
    }
  }

  /** The tables of one polynomial, and the checksum functions that use them. */
  class Crc {
    const poly: Word
    const crcTable: array2<Word>
    const combineTable: array3<Word>

    ghost predicate Ready()
      reads this, crcTable, combineTable
    {
      MainTableOk(poly, crcTable) && CombineTableOk(poly, combineTable)
    }

    /** `mycrc32_init` */
    constructor (poly: Word)
      ensures Ready() && this.poly == poly
      ensures fresh(crcTable) && fresh(combineTable)
    {
      this.poly := poly;
      crcTable := new Word[4, 256]((i, j) => ZERO);
      combineTable := new Word[32, 4, 256]((i, j, k) => ZERO);
      new;
      GenerateMainTables();
      GenerateCombineTables();
    }

    /** `crc_generate_main_tables` */
    method GenerateMainTables()
      requires crcTable.Length0 == 4 && crcTable.Length1 == 256
      modifies crcTable
      ensures MainTableOk(poly, crcTable)
    {
      hide Step, Advance, FromByte, EightTurns;
      var i := 0;
      while i < 256
        invariant 0 <= i <= 256
        invariant forall h :: 0 <= h < i ==> crcTable[0, h] == Advance(poly, FromByte(h), 8)
      {
        EightTurnsIsAdvance(poly, FromByte(i));
        crcTable[0, i] := EightTurns(poly, FromByte(i));
        i := i + 1;
      }
      i := 0;
      while i < 256
        invariant 0 <= i <= 256
        invariant forall h :: 0 <= h < 256 ==> crcTable[0, h] == Advance(poly, FromByte(h), 8)
        invariant forall k, h :: 0 <= k < 4 && 0 <= h < i ==> crcTable[k, h] == Advance(poly, FromByte(h), 8 * (k + 1))
      {
        var c := crcTable[0, i];
        var j := 1;
        while j < 4
          invariant 1 <= j <= 4
          invariant c == Advance(poly, FromByte(i), 8 * j)
          invariant forall h :: 0 <= h < 256 ==> crcTable[0, h] == Advance(poly, FromByte(h), 8)
          invariant forall k, h :: 0 <= k < 4 && 0 <= h < i ==> crcTable[k, h] == Advance(poly, FromByte(h), 8 * (k + 1))
          invariant forall k :: 0 <= k < j ==> crcTable[k, i] == Advance(poly, FromByte(i), 8 * (k + 1))
        {
          OneByteByTable(poly, c);
          AdvanceAdd(poly, FromByte(i), 8 * j, 8);
          c := Xor(crcTable[0, ByteAt(c, 0)], Shr(c, 8));
          crcTable[j, i] := c;
          j := j + 1;
        }
        i := i + 1;
      }
    }

    /** `crc_generate_combine_tables` */
    method GenerateCombineTables()
      requires combineTable.Length0 == 32 && combineTable.Length1 == 4 && combineTable.Length2 == 256
      modifies combineTable
      ensures CombineTableOk(poly, combineTable)
    {
      hide RowOk, Represents;
      var m1, m2 := new Word[32](i => ZERO), new Word[32](i => ZERO);
      FirstMatrix(m1);
      MatrixSquare(poly, m2, m1, 1);
      MatrixSquare(poly, m1, m2, 2);
      var i := 0;
      while i < 32
        invariant 0 <= i <= 32
        invariant fresh(m1) && fresh(m2) && m1 != m2 && m1.Length == m2.Length == WIDTH
        invariant Represents(poly, if i % 2 == 0 then m1[..] else m2[..], 4 * Pow2(i))
        invariant forall a :: 0 <= a < i ==> RowOk(poly, combineTable, a, 8 * Pow2(a))
      {
        var mc;
        if i % 2 == 1 {
          MatrixSquare(poly, m1, m2, 4 * Pow2(i));
          mc := m1;
        } else {
          MatrixSquare(poly, m2, m1, 4 * Pow2(i));
          mc := m2;
        }
        FillRow(i, mc[..], 8 * Pow2(i));
        i := i + 1;
      }
    }

    method FirstMatrix(m1: array<Word>)
      requires m1.Length == WIDTH
      modifies m1
      ensures Represents(poly, m1[..], 1)
    {
      hide Basis, Shl, Advance;
      m1[0] := poly;
      var j := Basis(0);
      var i := 1;
      while i < 32
        invariant 1 <= i <= 32
        invariant j == Basis(i - 1)
        invariant m1[0] == poly && forall h :: 1 <= h < i ==> m1[h] == Basis(h - 1)
      {
        m1[i] := j;
        BasisShl(i - 1);
        j := Shl(j, 1);
        i := i + 1;
      }
      SingleTurnMatrix(poly, m1[..]);
    }

    method FillRow(i: nat, mc: seq<Word>, ghost n: nat)
      requires combineTable.Length0 == 32 && combineTable.Length1 == 4 && combineTable.Length2 == 256
      requires i < 32 && Represents(poly, mc, n)
      modifies combineTable
      ensures RowOk(poly, combineTable, i, n)
      ensures forall a, l :: 0 <= a < 32 && a != i && old(RowOk(poly, combineTable, a, l)) ==> RowOk(poly, combineTable, a, l)
    {
      hide Step, Advance, FromByte, Shl, Basis, Shr, Apply;
      var j := 0;
      while j < 4
        invariant 0 <= j <= 4
        invariant forall b, c :: 0 <= b < j && 0 <= c < 256 ==>
          combineTable[i, b, c] == Advance(poly, Shl(FromByte(c), 8 * b), n)
        invariant forall a, b, c :: 0 <= a < 32 && a != i && 0 <= b < 4 && 0 <= c < 256 ==>
          combineTable[a, b, c] == old(combineTable[a, b, c])
      {
        var k := 0;
        while k < 256
          invariant 0 <= k <= 256
          invariant forall b, c :: 0 <= b < j && 0 <= c < 256 ==>
            combineTable[i, b, c] == Advance(poly, Shl(FromByte(c), 8 * b), n)
          invariant forall c :: 0 <= c < k ==> combineTable[i, j, c] == Advance(poly, Shl(FromByte(c), 8 * j), n)
          invariant forall a, b, c :: 0 <= a < 32 && a != i && 0 <= b < 4 && 0 <= c < 256 ==>
            combineTable[a, b, c] == old(combineTable[a, b, c])
        {
          var sum := SumColumns(mc, 8 * j, FromByte(k));
          ApplyIsAdvance(poly, mc, n, 8 * j, FromByte(k));
          combineTable[i, j, k] := sum;
          k := k + 1;
        }
        j := j + 1;
      }
    }

    /** `CRC_ONE_BYTE` */
    method OneByte(crc: Word, b: Byte) returns (r: Word)
      requires Ready()
      ensures r == FeedByte(poly, crc, b)
    {
      hide Step, Advance, FromByte, ByteAt;
      var x := Xor(crc, FromByte(b));
      OneByteByTable(poly, x);
      ShrXorByte(crc, b);
      r := Xor(crcTable[0, ByteAt(x, 0)], Shr(crc, 8));
    }

    /** `CRC_FOUR_BYTES` */
    method FourBytes(crc: Word, d: seq<Byte>) returns (r: Word)
      requires Ready() && |d| == 4
      ensures r == FeedBytes(poly, crc, d)
    {
      hide Step, Advance, FromByte, ByteAt, LoadWord, Shl;
      var x := Xor(crc, LoadWord(d));
      FeedWord(poly, crc, d);
      AdvanceByBytes(poly, x, 32);
      AdvancePlacedByte(poly, ByteAt(x, 1), 1, 4);
      AdvancePlacedByte(poly, ByteAt(x, 2), 2, 4);
      AdvancePlacedByte(poly, ByteAt(x, 3), 3, 4);
      r := Xor(Xor(crcTable[3, ByteAt(x, 0)], crcTable[2, ByteAt(x, 1)]),
               Xor(crcTable[1, ByteAt(x, 2)], crcTable[0, ByteAt(x, 3)]));
      XorReverse(crcTable[3, ByteAt(x, 0)], crcTable[2, ByteAt(x, 1)], crcTable[1, ByteAt(x, 2)], crcTable[0, ByteAt(x, 3)]);
    }

    /**
     `mycrc32`: bytes up to the next word boundary, then eight words at a time, then single
     words, then the tail. `address` is the address of the first byte.
     */
    method Crc32(seed: Word, block: seq<Byte>, address: nat) returns (crc: Word)
      requires Ready()
      ensures crc == CrcSpec.Crc32(poly, seed, block)
    {
      hide Step, Advance, FromByte, ByteAt, CrcSpec.Crc32, Xor;
      crc := Xor(seed, ONES);
      ghost var start := crc;
      var pos: nat, leng: nat := 0, |block|;
      assert block[..0] == [];
      while leng != 0 && (address + pos) % 4 != 0
        invariant pos + leng == |block|
        invariant crc == FeedBytes(poly, start, block[..pos])
      {
        crc, pos := ByteStep(crc, start, block, pos);
        leng := leng - 1;
      }
      while leng >= 32
        invariant pos + leng == |block|
        invariant crc == FeedBytes(poly, start, block[..pos])
      {
        crc, pos := WordStep(crc, start, block, pos);
        crc, pos := WordStep(crc, start, block, pos);
        crc, pos := WordStep(crc, start, block, pos);
        crc, pos := WordStep(crc, start, block, pos);
        crc, pos := WordStep(crc, start, block, pos);
        crc, pos := WordStep(crc, start, block, pos);
        crc, pos := WordStep(crc, start, block, pos);
        crc, pos := WordStep(crc, start, block, pos);
        leng := leng - 32;
      }
      while leng >= 4
        invariant pos + leng == |block|
        invariant crc == FeedBytes(poly, start, block[..pos])
      {
        crc, pos := WordStep(crc, start, block, pos);
        leng := leng - 4;
      }
      while leng != 0
        invariant pos + leng == |block|
        invariant crc == FeedBytes(poly, start, block[..pos])
      {
        crc, pos := ByteStep(crc, start, block, pos);
        leng := leng - 1;
      }
      assert block[..pos] == block;
      Crc32ByBytes(poly, seed, block);
      crc := Xor(crc, ONES);
    }

    method ByteStep(crc: Word, ghost start: Word, block: seq<Byte>, pos: nat) returns (r: Word, next: nat)
      requires Ready() && pos < |block| && crc == FeedBytes(poly, start, block[..pos])
      ensures next == pos + 1 && r == FeedBytes(poly, start, block[..next])
    {
      hide Step, Advance;
      r := OneByte(crc, block[pos]);
      next := pos + 1;
      FeedBytesConcat(poly, start, block[..pos], [block[pos]]);
      assert block[..next] == block[..pos] + [block[pos]];
    }

    method WordStep(crc: Word, ghost start: Word, block: seq<Byte>, pos: nat) returns (r: Word, next: nat)
      requires Ready() && pos + 4 <= |block| && crc == FeedBytes(poly, start, block[..pos])
      ensures next == pos + 4 && r == FeedBytes(poly, start, block[..next])
    {
      hide Step, Advance;
      r := FourBytes(crc, block[pos..pos + 4]);
      next := pos + 4;
      FeedBytesConcat(poly, start, block[..pos], block[pos..next]);
      assert block[..next] == block[..pos] + block[pos..next];
    }

    /** `mycrc32_combine`: advance `crc1` by the binary digits of `leng2`, then add `crc2`. */
    method Combine(crc1: Word, crc2: Word, leng2: nat) returns (r: Word)
      requires Ready()
      requires leng2 < Pow2(32)
      ensures r == CrcSpec.Combine(poly, crc1, crc2, leng2)
    {
      hide Advance, Xor, Scaled;
      var c, l: nat, i: nat := crc1, leng2, 0;
      ScaledEnds(leng2, 0);
      while l != 0
        invariant i <= 32 && l < Pow2(32 - i)
        invariant Advance(poly, c, 8 * Scaled(l, i)) == Advance(poly, crc1, 8 * leng2)
      {
        assert i < 32;
        HalveLength(poly, c, l, i);
        if l % 2 == 1 {
          c := AdvanceRow(c, i);
        }
        i := i + 1;
        l := l / 2;
      }
      ScaledEnds(0, i);
      AdvanceNone(poly, c);
      r := Xor(c, crc2);
    }

    /** Entry `i` of the combine tables advances a checksum by `2^i` zero bytes. */
    method AdvanceRow(c: Word, i: nat) returns (r: Word)
      requires Ready() && i < 32
      ensures r == Advance(poly, c, 8 * Pow2(i))
    {
      hide Step, Advance, FromByte, ByteAt, Shl;
      AdvanceByBytes(poly, c, 8 * Pow2(i));
      ShlNone(FromByte(ByteAt(c, 0)));
      assert RowOk(poly, combineTable, i, 8 * Pow2(i));
      r := Xor(Xor(combineTable[i, 3, ByteAt(c, 3)], combineTable[i, 2, ByteAt(c, 2)]),
               Xor(combineTable[i, 1, ByteAt(c, 1)], combineTable[i, 0, ByteAt(c, 0)]));
    }
  }

  /** `l` as the binary digits from `i` upwards of a length. */
  function Scaled(l: nat, i: nat): nat {
    l * Pow2(i)
  }

  lemma ScaledEnds(l: nat, i: nat)
    ensures Scaled(l, 0) == l && Scaled(0, i) == 0
  {
  }

  lemma TwiceTimes(h: nat, p: nat)
    ensures h * (2 * p) == h * p + h * p
  {
  }

  lemma SumTimes(a: nat, b: nat, p: nat)
    ensures (a + b) * p == a * p + b * p
  {
  }

  lemma ScaledHalves(l: nat, i: nat)
    ensures Scaled(l, i) == (if l % 2 == 1 then Pow2(i) else 0) + Scaled(l / 2, i + 1)
  {
    var h, p := l / 2, Pow2(i);
    SumTimes(l % 2, h + h, p);
    SumTimes(h, h, p);
    TwiceTimes(h, p);
  }

  /** Advancing by `l * 2^i` bytes is advancing by the low digit of `l`, then by the rest. */
  lemma HalveLength(poly: Word, c: Word, l: nat, i: nat)
    ensures Advance(poly, c, 8 * Scaled(l, i)) ==
            Advance(poly, if l % 2 == 1 then Advance(poly, c, 8 * Pow2(i)) else c, 8 * Scaled(l / 2, i + 1))
  {
    hide Step, Scaled;
    ScaledHalves(l, i);
    AdvanceAdd(poly, c, 8 * (if l % 2 == 1 then Pow2(i) else 0), 8 * Scaled(l / 2, i + 1));
  }

  lemma ShlNone(w: Word)
    ensures Shl(w, 0) == w
  {
  }

  /** Eight unrolled turns, as written out for each entry of the first table. */
  function EightTurns(poly: Word, c: Word): Word {
    Step(poly, Step(poly, Step(poly, Step(poly, Step(poly, Step(poly, Step(poly, Step(poly, c))))))))
  }

  lemma EightTurnsIsAdvance(poly: Word, c: Word)
    ensures EightTurns(poly, c) == Advance(poly, c, 8)
  {
    hide Step;
    var c2 := Step(poly, Step(poly, c));
    var c4 := Step(poly, Step(poly, c2));
    var c6 := Step(poly, Step(poly, c4));
    assert Advance(poly, c6, 2) == Advance(poly, Step(poly, c6), 1) == EightTurns(poly, c);
    assert Advance(poly, c4, 4) == Advance(poly, c6, 2);
    assert Advance(poly, c2, 6) == Advance(poly, c4, 4);
  }

  lemma AdvanceNone(poly: Word, c: Word)
    ensures Advance(poly, c, 0) == c
  {
  }

  lemma BasisShl(k: nat)
    ensures Shl(Basis(k), 1) == Basis(k + 1)
  {
  }

  /** Advancing over a byte: the low byte goes through the table, the rest is shifted. */
  lemma OneByteByTable(poly: Word, c: Word)
    ensures Advance(poly, c, 8) == Xor(Advance(poly, FromByte(ByteAt(c, 0)), 8), Shr(c, 8))
  {
    hide Step;
    ByteAtBits(c, 0);
    assert c == Xor(LowByte(Shr(c, 0)), Shl(Shr(c, 8), 8));
    AdvanceLinear(poly, LowByte(Shr(c, 0)), Shl(Shr(c, 8), 8), 8);
    AdvanceShl(poly, Shr(c, 8), 8);
  }

  lemma ShrXorByte(c: Word, b: Byte)
    ensures Shr(Xor(c, FromByte(b)), 8) == Shr(c, 8)
  {
  }

  lemma XorReverse(a: Word, b: Word, c: Word, d: Word)
    ensures Xor(Xor(a, b), Xor(c, d)) == Xor(Xor(d, c), Xor(b, a))
  {
  }
}
