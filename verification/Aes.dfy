/** The cipher of aes.c: key schedule, encryption and decryption over the generated tables. */
module Aes {
  import opened ByteIndex
  import opened Gf256
  import opened AesSpec
  import opened AesTables

  // ---- Four table look-ups summed are one column of a round. ----

  function XorW4(w: bv32, x: bv32, y: bv32, z: bv32): bv32 {
    XorW(XorW(XorW(w, x), y), z)
  }

  /** tab[0][b0] ^ tab[1][b1] ^ tab[2][b2] ^ tab[3][b3] */
  function Look(tab: array2<bv32>, b0: bv8, b1: bv8, b2: bv8, b3: bv8): bv32
    requires tab.Length0 == 4 && tab.Length1 == 256
    reads tab
  {
    XorW4(tab[0, Index(b0)], tab[1, Index(b1)], tab[2, Index(b2)], tab[3, Index(b3)])
  }

  function SumColumns(c: Column, d: Column, e: Column, f: Column): Column {
    AddColumn(AddColumn(AddColumn(c, d), e), f)
  }

  lemma ColXor4(w: bv32, x: bv32, y: bv32, z: bv32)
    ensures Col(XorW4(w, x, y, z)) == SumColumns(Col(w), Col(x), Col(y), Col(z))
  {
    hide Col;
    hide AddColumn;
    hide XorW;
    ColXor(w, x);
    ColXor(XorW(w, x), y);
    ColXor(XorW(XorW(w, x), y), z);
  }

  lemma LookUp(tab: array2<bv32>, base: bv8 -> Column, b0: bv8, b1: bv8, b2: bv8, b3: bv8)
    requires Holds(tab, base, 256)
    ensures Col(Look(tab, b0, b1, b2, b3))
         == SumColumns(base(b0), Rotated(base(b1), 1), Rotated(base(b2), 2), Rotated(base(b3), 3))
  {
    hide Col;
    hide ByteAt;
    hide SumColumns;
    hide Rotated;
    hide XorW4;
    hide Index;
    ByteAtIndex(b0);
    ByteAtIndex(b1);
    ByteAtIndex(b2);
    ByteAtIndex(b3);
    ColXor4(tab[0, Index(b0)], tab[1, Index(b1)], tab[2, Index(b2)], tab[3, Index(b3)]);
    RotatedNot(base(b0));
  }

  lemma RotatedNot(c: Column)
    ensures Rotated(c, 0) == c
  {
  }

  lemma Sum4WithZeros(a: bv8)
    ensures Sum4(a, 0, 0, 0) == a && Sum4(0, a, 0, 0) == a && Sum4(0, 0, a, 0) == a && Sum4(0, 0, 0, a) == a
  {
  }

  /** ls_box: the S-box on the four bytes of a word. */
  lemma ForwardSub(c: Column)
    ensures SumColumns(FlBase(c.b0), Rotated(FlBase(c.b1), 1), Rotated(FlBase(c.b2), 2), Rotated(FlBase(c.b3), 3))
         == SubWord(c)
  {
    hide Add;
    hide SubByte;
    Sum4WithZeros(SubByte(c.b0));
    Sum4WithZeros(SubByte(c.b1));
    Sum4WithZeros(SubByte(c.b2));
    Sum4WithZeros(SubByte(c.b3));
  }

  lemma InverseSub(c: Column)
    ensures SumColumns(IlBase(c.b0), Rotated(IlBase(c.b1), 1), Rotated(IlBase(c.b2), 2), Rotated(IlBase(c.b3), 3))
         == InvSubWord(c)
  {
    hide Add;
    hide InvSubByte;
    Sum4WithZeros(InvSubByte(c.b0));
    Sum4WithZeros(InvSubByte(c.b1));
    Sum4WithZeros(InvSubByte(c.b2));
    Sum4WithZeros(InvSubByte(c.b3));
  }

  /** The forward tables compute S-box and MixColumns at once. */
  lemma ForwardMix(c: Column)
    ensures SumColumns(FtBase(c.b0), Rotated(FtBase(c.b1), 1), Rotated(FtBase(c.b2), 2), Rotated(FtBase(c.b3), 3))
         == MixColumn(SubWord(c))
  {
    hide Add;
    hide SubByte;
    hide Mul;
    var s := SubWord(c);
    Sum4Rotate(Mul(s.b1, 2), Mul(s.b2, 3), s.b3, s.b0);
    Sum4Rotate(Mul(s.b2, 2), Mul(s.b3, 3), s.b0, s.b1);
    Sum4Rotate(s.b1, Mul(s.b2, 2), Mul(s.b3, 3), s.b0);
    Sum4Rotate(Mul(s.b3, 2), Mul(s.b0, 3), s.b1, s.b2);
    Sum4Rotate(s.b2, Mul(s.b3, 2), Mul(s.b0, 3), s.b1);
    Sum4Rotate(s.b1, s.b2, Mul(s.b3, 2), Mul(s.b0, 3));
  }

  /** The inverse tables compute the inverse S-box and InvMixColumns at once. */
  lemma InverseMix(c: Column)
    ensures SumColumns(ItBase(c.b0), Rotated(ItBase(c.b1), 1), Rotated(ItBase(c.b2), 2), Rotated(ItBase(c.b3), 3))
         == InvMixColumn(InvSubWord(c))
  {
    hide Add;
    hide InvSubByte;
    hide Mul;
    var s := InvSubWord(c);
    Sum4Rotate(Mul(s.b1, 14), Mul(s.b2, 11), Mul(s.b3, 13), Mul(s.b0, 9));
    Sum4Rotate(Mul(s.b2, 14), Mul(s.b3, 11), Mul(s.b0, 13), Mul(s.b1, 9));
    Sum4Rotate(Mul(s.b1, 9), Mul(s.b2, 14), Mul(s.b3, 11), Mul(s.b0, 13));
    Sum4Rotate(Mul(s.b3, 14), Mul(s.b0, 11), Mul(s.b1, 13), Mul(s.b2, 9));
    Sum4Rotate(Mul(s.b2, 9), Mul(s.b3, 14), Mul(s.b0, 11), Mul(s.b1, 13));
    Sum4Rotate(Mul(s.b1, 13), Mul(s.b2, 9), Mul(s.b3, 14), Mul(s.b0, 11));
  }

  // ---- imix_col ----

  lemma MulBy9(x: bv8)
    ensures Mul(x, 9) == Add(Xtime(Xtime(Xtime(x))), x)
  {
    hide Xtime;
    hide Add;
    var x1 := Xtime(x);
    var x2 := Xtime(x1);
    var x3 := Xtime(x2);
    assert MulBits(x, 9, 8) == Add(x, MulBits(x1, 4, 7));
    assert MulBits(x1, 4, 7) == MulBits(x2, 2, 6);
    assert MulBits(x2, 2, 6) == MulBits(x3, 1, 5);
    assert MulBits(x3, 1, 5) == Add(x3, MulBits(Xtime(x3), 0, 4));
    NoBitsLeft(Xtime(x3), 4);
    AddZero(x3);
    AddComm(x, x3);
  }

  lemma {:induction false} NoBitsLeft(x: bv8, n: nat)
    ensures MulBits(x, 0, n) == 0
    decreases n
  {
    hide Xtime;
    if n != 0 { NoBitsLeft(Xtime(x), n - 1); }
  }

  lemma MulBy2(x: bv8)
    ensures Mul(x, 2) == Xtime(x)
  {
    hide Xtime;
    hide Add;
    var x1 := Xtime(x);
    assert MulBits(x, 2, 8) == MulBits(x1, 1, 7);
    assert MulBits(x1, 1, 7) == Add(x1, MulBits(Xtime(x1), 0, 6));
    NoBitsLeft(Xtime(x1), 6);
    AddZero(x1);
  }

  /** The other multiples imix_col needs, as sums of doublings and the multiple by 9. */
  lemma MulBySums(x: bv8)
    ensures var u := Xtime(x); var v := Xtime(u); var w := Xtime(v); var t := Add(w, x);
            Mul(x, 14) == Add(Add(u, v), w) && Mul(x, 11) == Add(u, t) && Mul(x, 13) == Add(v, t) && Mul(x, 9) == t
  {
    hide Mul;
    hide Xtime;
    hide Add;
    var u := Xtime(x);
    var v := Xtime(u);
    var w := Xtime(v);
    MulBy9(x);
    SumsOfPowers();
    MulBy2(x);
    MulBy2(u);
    MulBy2(v);
    MulAssociates(x, 2, 2);
    MulAssociates(x, 4, 2);
    MulSplit(x, 2, 4);
    MulSplit(x, 6, 8);
    MulSplit(x, 2, 9);
    MulSplit(x, 4, 9);
  }

  lemma MulSplit(x: bv8, j: bv8, k: bv8)
    ensures Mul(x, Add(j, k)) == Add(Mul(x, j), Mul(x, k))
  {
    hide Mul;
    hide Add;
    MulCommutes(x, Add(j, k));
    MulCommutes(x, j);
    MulCommutes(x, k);
    MulDistributes(j, k, x);
  }

  lemma SumsOfPowers()
    ensures Add(2, 4) == 6 && Add(6, 8) == 14 && Add(2, 9) == 11 && Add(4, 9) == 13
    ensures Mul(2, 2) == 4 && Mul(4, 2) == 8
  {
  }

  /** imix_col: InvMixColumn on a word, with four bytes doubled at once. */
  function ImixCol(x: bv32): bv32 {
    var u := StarX(x);
    var v := StarX(u);
    var w := StarX(v);
    var t := XorW(w, x);
    XorW(XorW(XorW(u, v), w), XorW(XorW(RotL24(XorW(u, t)), RotL16(XorW(v, t))), RotL8(t)))
  }

  function XtimeColumn(c: Column): Column {
    Column(Xtime(c.b0), Xtime(c.b1), Xtime(c.b2), Xtime(c.b3))
  }

  lemma ColStar(x: bv32)
    ensures Col(StarX(x)) == XtimeColumn(Col(x))
  {
    hide Byte0;
    hide Byte1;
    hide Byte2;
    hide Byte3;
    hide StarX;
    hide Xtime;
    ColStarX(x);
  }

  /** imix_col on columns. */
  function ImixColumn(c: Column): Column {
    var u := XtimeColumn(c);
    var v := XtimeColumn(u);
    var w := XtimeColumn(v);
    var t := AddColumn(w, c);
    AddColumn(AddColumn(AddColumn(u, v), w),
              AddColumn(AddColumn(Rotated(AddColumn(u, t), 3), Rotated(AddColumn(v, t), 2)), Rotated(t, 1)))
  }

  lemma ImixColOnColumns(x: bv32)
    ensures Col(ImixCol(x)) == ImixColumn(Col(x))
  {
    hide Col;
    hide StarX;
    hide XorW;
    hide AddColumn;
    hide XtimeColumn;
    hide Rotated;
    hide RotL8;
    hide RotL16;
    hide RotL24;
    var u := StarX(x);
    var v := StarX(u);
    var w := StarX(v);
    var t := XorW(w, x);
    ColStar(x);
    ColStar(u);
    ColStar(v);
    ColXor(w, x);
    ColXor(u, t);
    ColXor(v, t);
    EntryRotations(XorW(u, t));
    EntryRotations(XorW(v, t));
    EntryRotations(t);
    ColXor(u, v);
    ColXor(XorW(u, v), w);
    var p, q, r := RotL24(XorW(u, t)), RotL16(XorW(v, t)), RotL8(t);
    ColXor(p, q);
    ColXor(XorW(p, q), r);
    ColXor(XorW(XorW(u, v), w), XorW(XorW(p, q), r));
  }

  lemma ImixByte(a: bv8, p: bv8, q: bv8, r: bv8)
    ensures Add(a, Add(Add(p, q), r)) == Sum4(a, p, q, r)
  {
    hide Add;
    AddAssoc(a, Add(p, q), r);
    AddAssoc(a, p, q);
  }

  lemma ImixColumnIsInvMix(c: Column)
    ensures ImixColumn(c) == InvMixColumn(c)
  {
    hide Mul;
    hide Xtime;
    hide Add;
    hide Sum4;
    MulBySums(c.b0);
    MulBySums(c.b1);
    MulBySums(c.b2);
    MulBySums(c.b3);
    ImixByte(Mul(c.b0, 14), Mul(c.b1, 11), Mul(c.b2, 13), Mul(c.b3, 9));
    ImixByte(Mul(c.b1, 14), Mul(c.b2, 11), Mul(c.b3, 13), Mul(c.b0, 9));
    ImixByte(Mul(c.b2, 14), Mul(c.b3, 11), Mul(c.b0, 13), Mul(c.b1, 9));
    ImixByte(Mul(c.b3, 14), Mul(c.b0, 11), Mul(c.b1, 13), Mul(c.b2, 9));
  }

  /** imix_col is InvMixColumn. */
  lemma ImixColIsInvMix(x: bv32)
    ensures Col(ImixCol(x)) == InvMixColumn(Col(x))
  {
    hide Col;
    hide ImixCol;
    hide ImixColumn;
    hide InvMixColumn;
    ImixColOnColumns(x);
    ImixColumnIsInvMix(Col(x));
  }
}
