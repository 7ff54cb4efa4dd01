/** The Serpent cipher as its specification gives it, on rows of bits and with S-boxes as tables, and the proof that
    the cipher of serpent.c is that cipher.

    A block is four rows of 32 bits; the S-boxes work on its 32 columns. */
module SerpentSpec {
  import opened BitSlice
  import opened WordOps
  import opened SerpentBoxes
  import opened Serpent

  type Row = x: seq<bool> | |x| == 32 witness seq(32, i => false)

  /** The position that a rotation to the left by r brings to position j. */
  function Back(j: nat, r: nat): (k: nat)
    requires j < 32 && r <= 32
    ensures k < 32
  {
    if j >= r then j - r else j + 32 - r
  }

  function Rotated(x: Row, r: nat): Row
    requires r <= 32
  {
    seq(32, j requires 0 <= j < 32 => x[Back(j, r)])
  }

  function Shifted(x: Row, r: nat): Row {
    seq(32, j requires 0 <= j < 32 => j >= r && x[j - r])
  }

  function Sum(x: Row, y: Row): Row {
    seq(32, j requires 0 <= j < 32 => x[j] != y[j])
  }

  /** The linear transformation, row by row. */
  function Linear(x: Quad<Row>): Quad<Row> {
    var a := Rotated(x.a, 13);
    var c := Rotated(x.c, 3);
    var b := Rotated(Sum(Sum(x.b, a), c), 1);
    var d := Rotated(Sum(Sum(x.d, c), Shifted(a, 3)), 7);
    Quad(Rotated(Sum(Sum(a, b), d), 5), b, Rotated(Sum(Sum(c, d), Shifted(b, 7)), 22), d)
  }

  function Column(x: Quad<Row>, j: nat): Quad<bool>
    requires j < 32
  {
    Quad(x.a[j], x.b[j], x.c[j], x.d[j])
  }

  /** The four bits of a number below 16. */
  function BitsOf(n: nat): Quad<bool> {
    Quad(n % 2 == 1, n / 2 % 2 == 1, n / 4 % 2 == 1, n / 8 % 2 == 1)
  }

  /** S-box i on one column. */
  function Looked(i: nat, q: Quad<bool>): Quad<bool> {
    if Nibble(q) < 16 then BitsOf(Table(i)[Nibble(q)]) else q
  }

  /** S-box i on every column. */
  function Substituted(i: nat, x: Quad<Row>): Quad<Row> {
    Quad(seq(32, j requires 0 <= j < 32 => Looked(i, Column(x, j)).a),
         seq(32, j requires 0 <= j < 32 => Looked(i, Column(x, j)).b),
         seq(32, j requires 0 <= j < 32 => Looked(i, Column(x, j)).c),
         seq(32, j requires 0 <= j < 32 => Looked(i, Column(x, j)).d))
  }

  function Mixed(x: Quad<Row>, k: Quad<Row>): Quad<Row> {
    Quad(Sum(x.a, k.a), Sum(x.b, k.b), Sum(x.c, k.c), Sum(x.d, k.d))
  }

  /** The state before round i: each round mixes in its key, substitutes, and applies the linear transformation. */
  function Rounds(p: Quad<Row>, keys: nat -> Quad<Row>, i: nat): Quad<Row> {
    if i == 0 then p
    else Linear(Substituted((i - 1) % 8, Mixed(Rounds(p, keys, i - 1), keys(i - 1))))
  }

  /** The whole cipher: in the last of its 32 rounds a second key takes the place of the linear transformation. */
  function Published(p: Quad<Row>, keys: nat -> Quad<Row>): Quad<Row> {
    Mixed(Substituted(7, Mixed(Rounds(p, keys, 31), keys(31))), keys(32))
  }

  // ---- Words as rows. ----

  function RowOf(x: bv32): Row {
    seq(32, j requires 0 <= j => Bit(x, j))
  }

  function RowsOf(x: Block): Quad<Row> {
    Quad(RowOf(x.a), RowOf(x.b), RowOf(x.c), RowOf(x.d))
  }

  function KeyRows(k: seq<bv32>): nat -> Quad<Row> {
    (i: nat) => RowsOf(KeyAt(k, i))
  }

  /** Different blocks have different rows. */
  lemma RowsDetermine(x: bv32, y: bv32)
    requires RowOf(x) == RowOf(y)
    ensures x == y
  {
    hide Bit;
    forall k: nat | k < 32 ensures Bit(x, k) == Bit(y, k) {
      assert RowOf(x)[k] == RowOf(y)[k];
    }
    BitsDetermine(x, y);
  }

  lemma XorRow(x: bv32, y: bv32)
    ensures RowOf(Xor(x, y)) == Sum(RowOf(x), RowOf(y))
  {
    hide Bit; hide Xor;
    forall j: nat | j < 32 ensures RowOf(Xor(x, y))[j] == Sum(RowOf(x), RowOf(y))[j] {
      BitOps(x, y, j);
    }
  }

  // ---- Rotations and shifts, one bit at a time. ----

  function Shl1(x: bv32): bv32 { x << 1 }

  function Top(x: bv32): bv32 { x >> 31 }

  function Below(x: bv32): bv32 { x & 0x7fff_ffff }

  lemma HalfRol1(x: bv32)
    ensures Half(Rol1(x)) == Below(x) && Half(Shl1(x)) == Below(x)
    ensures Low(Rol1(x)) == Low(Top(x)) && !Low(Shl1(x))
  {
  }

  lemma BelowBit(x: bv32, k: nat)
    requires k < 31
    ensures Bit(Below(x), k) == Bit(x, k)
  {
    hide Bit;
    assert Ones(0x7fff_ffff, 31) by { Ones31(); }
    BitOfOnes(0x7fff_ffff, 31, k);
    BitOps(x, 0x7fff_ffff, k);
    assert Below(x) == And(x, 0x7fff_ffff);
  }

  lemma Ones31()
    ensures Ones(0x7fff_ffff, 31)
  {
    assert Ones(0, 0);
    assert Ones(1, 1);
    assert Ones(3, 2);
    assert Ones(7, 3);
    OnesStep(0x7f, 3);
    OnesStep(0x7ff, 7);
    OnesStep(0x7fff, 11);
    OnesStep(0x7_ffff, 15);
    OnesStep(0x7f_ffff, 19);
    OnesStep(0x7ff_ffff, 23);
    OnesStep(0x7fff_ffff, 27);
  }

  lemma ByteBit(x: bv32, k: nat)
    ensures Bit(x, k + 8) == Bit(ByteDown(x), k)
  {
    hide Half; hide Low; hide ByteDown;
    EightHalves(x);
    var x4 := Half(Half(Half(Half(x))));
    assert Bit(x, k + 8) == Bit(Half(x), k + 7) == Bit(Half(Half(x)), k + 6);
    assert Bit(Half(Half(x)), k + 6) == Bit(Half(Half(Half(x))), k + 5) == Bit(x4, k + 4);
    assert Bit(x4, k + 4) == Bit(Half(x4), k + 3) == Bit(Half(Half(x4)), k + 2);
    assert Bit(Half(Half(x4)), k + 2) == Bit(Half(Half(Half(x4))), k + 1) == Bit(Half(Half(Half(Half(x4)))), k);
  }

  lemma TopBit(x: bv32)
    ensures Bit(x, 31) == Low(Top(x))
  {
    hide Bit; hide Half; hide Low; hide ByteDown; hide Top;
    ByteBit(x, 23);
    ByteBit(ByteDown(x), 15);
    ByteBit(ByteDown(ByteDown(x)), 7);
    TopByte(ByteDown(ByteDown(ByteDown(x))));
    TopIs(x);
  }

  lemma TopByte(y: bv32)
    ensures Bit(y, 7) == Low(Half(Half(Half(Half(Half(Half(Half(y))))))))
  {
    hide Half; hide Low;
    assert Bit(y, 7) == Bit(Half(y), 6) == Bit(Half(Half(y)), 5) == Bit(Half(Half(Half(y))), 4);
    var y3 := Half(Half(Half(y)));
    assert Bit(y3, 4) == Bit(Half(y3), 3) == Bit(Half(Half(y3)), 2) == Bit(Half(Half(Half(y3))), 1);
    var y6 := Half(Half(Half(y3)));
    assert Bit(y6, 1) == Bit(Half(y6), 0) == Low(Half(y6));
  }

  lemma TopIs(x: bv32)
    ensures Half(Half(Half(Half(Half(Half(Half(ByteDown(ByteDown(ByteDown(x)))))))))) == Top(x)
  {
  }

  lemma Rol1Bit(x: bv32, k: nat)
    requires k < 32
    ensures Bit(Rol1(x), k) == Bit(x, Back(k, 1))
    ensures Bit(Shl1(x), k) == (k >= 1 && Bit(x, k - 1))
  {
    hide Half; hide Low; hide Rol1; hide Shl1; hide Below; hide Top;
    HalfRol1(x);
    if k == 0 {
      TopBit(x);
    } else {
      BelowBit(x, k - 1);
    }
  }

  /** Repeated rotation and shift by one. */
  function RolN(x: bv32, r: nat): bv32 {
    if r == 0 then x else Rol1(RolN(x, r - 1))
  }

  function ShlN(x: bv32, r: nat): bv32 {
    if r == 0 then x else Shl1(ShlN(x, r - 1))
  }

  lemma {:induction false} RolBit(x: bv32, r: nat, k: nat)
    requires r <= 32 && k < 32
    ensures Bit(RolN(x, r), k) == Bit(x, Back(k, r))
    decreases r
  {
    hide Bit; hide Rol1;
    if r != 0 {
      Rol1Bit(RolN(x, r - 1), k);
      RolBit(x, r - 1, Back(k, 1));
    }
  }

  lemma {:induction false} ShlBit(x: bv32, r: nat, k: nat)
    requires k < 32
    ensures Bit(ShlN(x, r), k) == (k >= r && Bit(x, k - r))
    decreases r
  {
    hide Bit; hide Shl1;
    if r != 0 {
      Rol1Bit(ShlN(x, r - 1), k);
      if k >= 1 { ShlBit(x, r - 1, k - 1); }
    }
  }

  lemma {:induction false} RolSum(x: bv32, r: nat, s: nat)
    ensures RolN(x, r + s) == RolN(RolN(x, r), s)
    decreases s
  {
    hide Rol1;
    if s != 0 { RolSum(x, r, s - 1); }
  }

  lemma RolBy3(x: bv32)
    ensures Rol3(x) == Rol1(Rol1(Rol1(x)))
  {
  }

  lemma RolBy5(x: bv32)
    ensures Rol5(x) == Rol1(Rol1(Rol3(x)))
  {
  }

  lemma RolBy7(x: bv32)
    ensures Rol7(x) == Rol1(Rol1(Rol5(x)))
  {
  }

  lemma RolBy13(x: bv32)
    ensures Rol13(x) == Rol7(Rol5(Rol1(x)))
  {
  }

  lemma RolBy22(x: bv32)
    ensures Rol22(x) == Rol7(Rol7(Rol7(Rol1(x))))
  {
  }

  lemma Rotations(x: bv32)
    ensures Rol3(x) == Rol1(Rol1(Rol1(x))) && Rol5(x) == Rol1(Rol1(Rol3(x))) && Rol7(x) == Rol1(Rol1(Rol5(x)))
    ensures Rol13(x) == Rol7(Rol5(Rol1(x))) && Rol22(x) == Rol7(Rol7(Rol7(Rol1(x))))
  {
    hide Rol1; hide Rol3; hide Rol5; hide Rol7; hide Rol13; hide Rol22;
    RolBy3(x);
    RolBy5(x);
    RolBy7(x);
    RolBy13(x);
    RolBy22(x);
  }

  lemma Shifts(x: bv32)
    ensures Shl3(x) == Shl1(Shl1(Shl1(x))) && Shl7(x) == Shl1(Shl3(Shl3(x)))
  {
  }

  lemma RolSmall(x: bv32)
    ensures RolN(x, 1) == Rol1(x) && RolN(x, 3) == Rol3(x) && RolN(x, 5) == Rol5(x) && RolN(x, 7) == Rol7(x)
  {
    hide Rol1; hide Rol3; hide Rol5; hide Rol7; hide Rol13; hide Rol22;
    Rotations(x);
    assert RolN(x, 1) == Rol1(RolN(x, 0));
    assert RolN(x, 2) == Rol1(RolN(x, 1));
    assert RolN(x, 3) == Rol1(RolN(x, 2));
    assert RolN(x, 4) == Rol1(RolN(x, 3));
    assert RolN(x, 5) == Rol1(RolN(x, 4));
    assert RolN(x, 6) == Rol1(RolN(x, 5));
    assert RolN(x, 7) == Rol1(RolN(x, 6));
  }

  lemma RolLarge(x: bv32)
    ensures RolN(x, 13) == Rol13(x) && RolN(x, 22) == Rol22(x)
  {
    hide Rol1; hide Rol3; hide Rol5; hide Rol7; hide Rol13; hide Rol22; hide RolN;
    Rotations(x);
    RolSmall(x);
    var y := Rol1(x);
    RolSmall(y);
    RolSum(x, 1, 5);
    RolSmall(Rol5(y));
    RolSum(x, 6, 7);
    RolSum(x, 1, 7);
    RolSmall(Rol7(y));
    RolSum(x, 8, 7);
    RolSmall(Rol7(Rol7(y)));
    RolSum(x, 15, 7);
  }

  lemma ShlSmall(x: bv32)
    ensures ShlN(x, 3) == Shl3(x) && ShlN(x, 7) == Shl7(x)
  {
    hide Shl1; hide Shl3; hide Shl7;
    Shifts(x);
    Shifts(Shl3(x));
    assert ShlN(x, 1) == Shl1(ShlN(x, 0));
    assert ShlN(x, 2) == Shl1(ShlN(x, 1));
    assert ShlN(x, 3) == Shl1(ShlN(x, 2));
    assert ShlN(x, 4) == Shl1(ShlN(x, 3));
    assert ShlN(x, 5) == Shl1(ShlN(x, 4));
    assert ShlN(x, 6) == Shl1(ShlN(x, 5));
    assert ShlN(x, 7) == Shl1(ShlN(x, 6));
  }

  lemma RolRow(x: bv32, r: nat)
    requires r <= 32
    ensures RowOf(RolN(x, r)) == Rotated(RowOf(x), r)
  {
    hide Bit; hide RolN;
    forall j: nat | j < 32 ensures RowOf(RolN(x, r))[j] == Rotated(RowOf(x), r)[j] {
      RolBit(x, r, j);
    }
  }

  lemma ShlRow(x: bv32, r: nat)
    ensures RowOf(ShlN(x, r)) == Shifted(RowOf(x), r)
  {
    hide Bit; hide ShlN;
    forall j: nat | j < 32 ensures RowOf(ShlN(x, r))[j] == Shifted(RowOf(x), r)[j] {
      ShlBit(x, r, j);
    }
  }

  /** On rows, the linear transformation of the code is the published one. */
  lemma LinearRows(x: Block)
    ensures RowsOf(L(x)) == Linear(RowsOf(x))
  {
    hide Xor; hide Shl3; hide Shl7; hide Rol1; hide Rol3; hide Rol5; hide Rol7; hide Rol13; hide Rol22;
    hide RowOf; hide Rotated; hide Shifted; hide Sum; hide RolN; hide ShlN;
    var a, c := Rol13(x.a), Rol3(x.c);
    RolLarge(x.a); RolRow(x.a, 13);
    RolSmall(x.c); RolRow(x.c, 3);
    var b', d' := Xor(Xor(x.b, a), c), Xor(Xor(x.d, c), Shl3(a));
    XorRow(x.b, a); XorRow(Xor(x.b, a), c);
    ShlSmall(a); ShlRow(a, 3);
    XorRow(x.d, c); XorRow(Xor(x.d, c), Shl3(a));
    var b, d := Rol1(b'), Rol7(d');
    RolSmall(b'); RolRow(b', 1);
    RolSmall(d'); RolRow(d', 7);
    LinearRowsEnd(a, b, c, d);
  }

  lemma LinearRowsEnd(a: bv32, b: bv32, c: bv32, d: bv32)
    ensures RowOf(Rol5(Xor(Xor(a, b), d))) == Rotated(Sum(Sum(RowOf(a), RowOf(b)), RowOf(d)), 5)
    ensures RowOf(Rol22(Xor(Xor(c, d), Shl7(b)))) == Rotated(Sum(Sum(RowOf(c), RowOf(d)), Shifted(RowOf(b), 7)), 22)
  {
    hide Xor; hide Shl3; hide Shl7; hide Rol1; hide Rol3; hide Rol5; hide Rol7; hide Rol13; hide Rol22;
    hide RowOf; hide Rotated; hide Shifted; hide Sum; hide RolN; hide ShlN;
    var a', c' := Xor(Xor(a, b), d), Xor(Xor(c, d), Shl7(b));
    XorRow(a, b); XorRow(Xor(a, b), d);
    RolSmall(a'); RolRow(a', 5);
    ShlSmall(b); ShlRow(b, 7);
    XorRow(c, d); XorRow(Xor(c, d), Shl7(b));
    RolLarge(c'); RolRow(c', 22);
  }

  lemma MixRows(x: Block, k: Block)
    ensures RowsOf(Mix(x, k)) == Mixed(RowsOf(x), RowsOf(k))
  {
    hide Xor; hide RowOf; hide Sum;
    XorRow(x.a, k.a);
    XorRow(x.b, k.b);
    XorRow(x.c, k.c);
    XorRow(x.d, k.d);
  }

  lemma NibbleBits(q: Quad<bool>)
    ensures BitsOf(Nibble(q)) == q
  {
  }

  /** Every column goes through the table. */
  lemma BoxColumn(i: nat, x: Block, j: nat)
    requires i < 8 && j < 32
    ensures Column(RowsOf(Box(i, WORDS, x)), j) == Looked(i, Column(RowsOf(x), j))
  {
    hide Box; hide Bit; hide Table; hide Nibble; hide BitsOf; hide WORDS;
    BoxIsTable(i, x, j);
    ColumnBits(x, j);
    ColumnBits(Box(i, WORDS, x), j);
    NibbleBits(Column(RowsOf(Box(i, WORDS, x)), j));
  }

  lemma ColumnBits(x: Block, j: nat)
    requires j < 32
    ensures Column(RowsOf(x), j) == MapQuad(BitAt(j), x)
  {
    hide Bit;
  }

  lemma BoxRows(i: nat, x: Block)
    requires i < 8
    ensures RowsOf(Box(i, WORDS, x)) == Substituted(i, RowsOf(x))
  {
    hide Box; hide RowsOf; hide Looked; hide WORDS;
    var y, z := RowsOf(Box(i, WORDS, x)), Substituted(i, RowsOf(x));
    forall j: nat | j < 32 ensures Column(y, j) == Column(z, j) {
      BoxColumn(i, x, j);
    }
    SameColumns(y, z);
  }

  lemma SameColumns(y: Quad<Row>, z: Quad<Row>)
    requires forall j: nat :: j < 32 ==> Column(y, j) == Column(z, j)
    ensures y == z
  {
    forall j: nat | j < 32 ensures y.a[j] == z.a[j] && y.b[j] == z.b[j] && y.c[j] == z.c[j] && y.d[j] == z.d[j] {
      assert Column(y, j) == Column(z, j);
    }
    assert y.a == z.a && y.b == z.b && y.c == z.c && y.d == z.d;
  }

  lemma {:induction false} RoundRows(p: Block, k: seq<bv32>, i: nat)
    ensures RowsOf(Encrypted(p, k, i)) == Mixed(Rounds(RowsOf(p), KeyRows(k), i), KeyRows(k)(i))
  {
    hide Box; hide Mix; hide L; hide KeyAt; hide RowsOf; hide Substituted; hide Linear; hide Mixed; hide WORDS;
    if i == 0 {
      MixRows(p, KeyAt(k, 0));
    } else {
      RoundRows(p, k, i - 1);
      var x := Encrypted(p, k, i - 1);
      BoxRows((i - 1) % 8, x);
      LinearRows(Box((i - 1) % 8, WORDS, x));
      MixRows(L(Box((i - 1) % 8, WORDS, x)), KeyAt(k, i));
    }
  }

  /** The cipher of serpent.c is Serpent: for every block and every expanded key, bit by bit. */
  lemma IsSerpent(p: Block, k: seq<bv32>)
    ensures RowsOf(Cipher(p, k)) == Published(RowsOf(p), KeyRows(k))
  {
    hide Box; hide Mix; hide KeyAt; hide RowsOf; hide Substituted; hide Mixed; hide WORDS; hide Encrypted; hide Rounds;
    RoundRows(p, k, 31);
    BoxRows(7, Encrypted(p, k, 31));
    MixRows(Box(7, WORDS, Encrypted(p, k, 31)), KeyAt(k, 32));
  }

  /** And its decryption finds the block that Serpent encrypts to the one given. */
  lemma DecipherIsInverse(c: Block, k: seq<bv32>)
    ensures Published(RowsOf(Decipher(c, k)), KeyRows(k)) == RowsOf(c)
  {
    hide Cipher; hide Decipher; hide Published; hide RowsOf; hide KeyRows;
    IsSerpent(Decipher(c, k), k);
    DecipherInverts(c, k);
  }

  /** Which is the only one. */
  lemma DecipherIsUnique(p: Block, c: Block, k: seq<bv32>)
    requires Published(RowsOf(p), KeyRows(k)) == RowsOf(c)
    ensures p == Decipher(c, k)
  {
    hide Cipher; hide Decipher; hide Published; hide KeyRows; hide RowOf;
    IsSerpent(p, k);
    var x := Cipher(p, k);
    RowsDetermine(x.a, c.a);
    RowsDetermine(x.b, c.b);
    RowsDetermine(x.c, c.c);
    RowsDetermine(x.d, c.d);
    CipherInverts(p, k);
  }
}
