/** The AES cipher as FIPS 197 defines it: sections 5.1 (Cipher), 5.2 (KeyExpansion) and 5.3 (InvCipher). */
module AesSpec {
  import opened Gf256

  /** One column of the state, or one word of the key schedule. */
  datatype Column = Column(b0: bv8, b1: bv8, b2: bv8, b3: bv8)

  datatype State = State(c0: Column, c1: Column, c2: Column, c3: Column)

  /** The affine transformation (5.1) over GF(2): bit i is the sum of bits i, i+4, i+5, i+6, i+7 and of bit i of 0x63. */
  function Affine(b: bv8): bv8 {
    b ^ ((b << 4) | (b >> 4)) ^ ((b << 3) | (b >> 5)) ^ ((b << 2) | (b >> 6)) ^ ((b << 1) | (b >> 7)) ^ 0x63
  }

  function InvAffine(b: bv8): bv8 {
    ((b << 1) | (b >> 7)) ^ ((b << 3) | (b >> 5)) ^ ((b << 6) | (b >> 2)) ^ 0x05
  }

  lemma AffineInverts(b: bv8)
    ensures InvAffine(Affine(b)) == b && Affine(InvAffine(b)) == b
  {
  }

  /** The S-box: multiplicative inverse, then the affine transformation. */
  ghost function SubByte(b: bv8): bv8 {
    Affine(Inverse(b))
  }

  ghost function InvSubByte(b: bv8): bv8 {
    Inverse(InvAffine(b))
  }

  lemma SubByteInverts(b: bv8)
    ensures InvSubByte(SubByte(b)) == b && SubByte(InvSubByte(b)) == b
  {
    hide Affine;
    hide InvAffine;
    hide Inverse;
    AffineInverts(Inverse(b));
    InverseInvolutive(b);
    InverseInvolutive(InvAffine(b));
    AffineInverts(b);
  }

  function AddColumn(c: Column, d: Column): Column {
    Column(Add(c.b0, d.b0), Add(c.b1, d.b1), Add(c.b2, d.b2), Add(c.b3, d.b3))
  }

  /** AddRoundKey */
  function AddState(s: State, k: State): State {
    State(AddColumn(s.c0, k.c0), AddColumn(s.c1, k.c1), AddColumn(s.c2, k.c2), AddColumn(s.c3, k.c3))
  }

  ghost function SubWord(c: Column): Column {
    Column(SubByte(c.b0), SubByte(c.b1), SubByte(c.b2), SubByte(c.b3))
  }

  ghost function SubBytes(s: State): State {
    State(SubWord(s.c0), SubWord(s.c1), SubWord(s.c2), SubWord(s.c3))
  }

  ghost function InvSubWord(c: Column): Column {
    Column(InvSubByte(c.b0), InvSubByte(c.b1), InvSubByte(c.b2), InvSubByte(c.b3))
  }

  ghost function InvSubBytes(s: State): State {
    State(InvSubWord(s.c0), InvSubWord(s.c1), InvSubWord(s.c2), InvSubWord(s.c3))
  }

  /** Row r moves r places to the left. */
  function ShiftRows(s: State): State {
    State(Column(s.c0.b0, s.c1.b1, s.c2.b2, s.c3.b3), Column(s.c1.b0, s.c2.b1, s.c3.b2, s.c0.b3),
          Column(s.c2.b0, s.c3.b1, s.c0.b2, s.c1.b3), Column(s.c3.b0, s.c0.b1, s.c1.b2, s.c2.b3))
  }

  function InvShiftRows(s: State): State {
    State(Column(s.c0.b0, s.c3.b1, s.c2.b2, s.c1.b3), Column(s.c1.b0, s.c0.b1, s.c3.b2, s.c2.b3),
          Column(s.c2.b0, s.c1.b1, s.c0.b2, s.c3.b3), Column(s.c3.b0, s.c2.b1, s.c1.b2, s.c0.b3))
  }

  function Sum4(a: bv8, b: bv8, c: bv8, d: bv8): bv8 {
    Add(Add(Add(a, b), c), d)
  }

  function MixByte(a: bv8, b: bv8, c: bv8, d: bv8): bv8 {
    Sum4(Mul(a, 2), Mul(b, 3), c, d)
  }

  function MixColumn(c: Column): Column {
    Column(MixByte(c.b0, c.b1, c.b2, c.b3), MixByte(c.b1, c.b2, c.b3, c.b0),
           MixByte(c.b2, c.b3, c.b0, c.b1), MixByte(c.b3, c.b0, c.b1, c.b2))
  }

  function MixColumns(s: State): State {
    State(MixColumn(s.c0), MixColumn(s.c1), MixColumn(s.c2), MixColumn(s.c3))
  }

  function InvMixByte(a: bv8, b: bv8, c: bv8, d: bv8): bv8 {
    Sum4(Mul(a, 14), Mul(b, 11), Mul(c, 13), Mul(d, 9))
  }

  function InvMixColumn(c: Column): Column {
    Column(InvMixByte(c.b0, c.b1, c.b2, c.b3), InvMixByte(c.b1, c.b2, c.b3, c.b0),
           InvMixByte(c.b2, c.b3, c.b0, c.b1), InvMixByte(c.b3, c.b0, c.b1, c.b2))
  }

  function InvMixColumns(s: State): State {
    State(InvMixColumn(s.c0), InvMixColumn(s.c1), InvMixColumn(s.c2), InvMixColumn(s.c3))
  }

  /** The schedule words used in a round. */
  function RoundKey(w: seq<Column>, r: nat): State
    requires 4 * r + 4 <= |w|
  {
    State(w[4 * r], w[4 * r + 1], w[4 * r + 2], w[4 * r + 3])
  }

  /** The state after r of the equal rounds of Cipher. */
  ghost function CipherRounds(s: State, w: seq<Column>, r: nat): State
    requires 4 * r + 4 <= |w|
  {
    if r == 0 then AddState(s, RoundKey(w, 0))
    else AddState(MixColumns(ShiftRows(SubBytes(CipherRounds(s, w, r - 1)))), RoundKey(w, r))
  }

  /** Figure 5. */
  ghost function Cipher(s: State, w: seq<Column>, nr: nat): State
    requires 0 < nr && 4 * nr + 4 <= |w|
  {
    AddState(ShiftRows(SubBytes(CipherRounds(s, w, nr - 1))), RoundKey(w, nr))
  }

  /** The state after k of the equal rounds of InvCipher. */
  ghost function InvCipherRounds(s: State, w: seq<Column>, nr: nat, k: nat): State
    requires k < nr && 4 * nr + 4 <= |w|
    decreases k
  {
    if k == 0 then AddState(s, RoundKey(w, nr))
    else InvMixColumns(AddState(InvSubBytes(InvShiftRows(InvCipherRounds(s, w, nr, k - 1))), RoundKey(w, nr - k)))
  }

  /** Figure 12. */
  ghost function InvCipher(s: State, w: seq<Column>, nr: nat): State
    requires 0 < nr && 4 * nr + 4 <= |w|
  {
    AddState(InvSubBytes(InvShiftRows(InvCipherRounds(s, w, nr, nr - 1))), RoundKey(w, 0))
  }

  // ---- The parts of the inverse cipher undo the parts of the cipher. ----

  lemma AddTwice(a: bv8, b: bv8)
    ensures Add(Add(a, b), b) == a
  {
  }

  lemma AddStateTwice(s: State, k: State)
    ensures AddState(AddState(s, k), k) == s
  {
    hide Add;
    AddTwice(s.c0.b0, k.c0.b0); AddTwice(s.c0.b1, k.c0.b1); AddTwice(s.c0.b2, k.c0.b2); AddTwice(s.c0.b3, k.c0.b3);
    AddTwice(s.c1.b0, k.c1.b0); AddTwice(s.c1.b1, k.c1.b1); AddTwice(s.c1.b2, k.c1.b2); AddTwice(s.c1.b3, k.c1.b3);
    AddTwice(s.c2.b0, k.c2.b0); AddTwice(s.c2.b1, k.c2.b1); AddTwice(s.c2.b2, k.c2.b2); AddTwice(s.c2.b3, k.c2.b3);
    AddTwice(s.c3.b0, k.c3.b0); AddTwice(s.c3.b1, k.c3.b1); AddTwice(s.c3.b2, k.c3.b2); AddTwice(s.c3.b3, k.c3.b3);
  }

  lemma ShiftRowsInverts(s: State)
    ensures InvShiftRows(ShiftRows(s)) == s
  {
  }

  lemma SubWordInverts(c: Column)
    ensures InvSubWord(SubWord(c)) == c
  {
    hide SubByte;
    hide InvSubByte;
    SubByteInverts(c.b0);
    SubByteInverts(c.b1);
    SubByteInverts(c.b2);
    SubByteInverts(c.b3);
  }

  lemma SubBytesInverts(s: State)
    ensures InvSubBytes(SubBytes(s)) == s
  {
    hide SubWord;
    hide InvSubWord;
    SubWordInverts(s.c0);
    SubWordInverts(s.c1);
    SubWordInverts(s.c2);
    SubWordInverts(s.c3);
  }

  lemma MulSum4(a: bv8, b: bv8, c: bv8, d: bv8, k: bv8)
    ensures Mul(Sum4(a, b, c, d), k) == Sum4(Mul(a, k), Mul(b, k), Mul(c, k), Mul(d, k))
  {
    hide Add;
    hide Mul;
    MulDistributes(Add(Add(a, b), c), d, k);
    MulDistributes(Add(a, b), c, k);
    MulDistributes(a, b, k);
  }

  lemma MulOfSum4(b: bv8, k0: bv8, k1: bv8, k2: bv8, k3: bv8)
    ensures Sum4(Mul(b, k0), Mul(b, k1), Mul(b, k2), Mul(b, k3)) == Mul(b, Sum4(k0, k1, k2, k3))
  {
    hide Sum4;
    hide Mul;
    MulSum4(k0, k1, k2, k3, b);
    MulCommutes(b, k0);
    MulCommutes(b, k1);
    MulCommutes(b, k2);
    MulCommutes(b, k3);
    MulCommutes(b, Sum4(k0, k1, k2, k3));
  }

  lemma Sum4Add(a0: bv8, a1: bv8, a2: bv8, a3: bv8, b0: bv8, b1: bv8, b2: bv8, b3: bv8)
    ensures Add(Sum4(a0, a1, a2, a3), Sum4(b0, b1, b2, b3)) == Sum4(Add(a0, b0), Add(a1, b1), Add(a2, b2), Add(a3, b3))
  {
    hide Add;
    Regroup(Add(Add(a0, a1), a2), a3, Add(Add(b0, b1), b2), b3);
    Regroup(Add(a0, a1), a2, Add(b0, b1), b2);
    Regroup(a0, a1, b0, b1);
  }

  lemma Sum4Rotate(a: bv8, b: bv8, c: bv8, d: bv8)
    ensures Sum4(a, b, c, d) == Sum4(d, a, b, c)
  {
    hide Add;
    AddComm(Add(Add(a, b), c), d);
    AddAssoc(d, Add(a, b), c);
    AddAssoc(d, a, b);
  }

  /** Rows summed, then added up, are columns summed. */
  lemma Transpose(a0: bv8, a1: bv8, a2: bv8, a3: bv8, b0: bv8, b1: bv8, b2: bv8, b3: bv8,
                  c0: bv8, c1: bv8, c2: bv8, c3: bv8, d0: bv8, d1: bv8, d2: bv8, d3: bv8)
    ensures Sum4(Sum4(a0, a1, a2, a3), Sum4(b0, b1, b2, b3), Sum4(c0, c1, c2, c3), Sum4(d0, d1, d2, d3))
         == Sum4(Sum4(a0, b0, c0, d0), Sum4(a1, b1, c1, d1), Sum4(a2, b2, c2, d2), Sum4(a3, b3, c3, d3))
  {
    hide Add;
    Sum4Add(a0, a1, a2, a3, b0, b1, b2, b3);
    Sum4Add(Add(a0, b0), Add(a1, b1), Add(a2, b2), Add(a3, b3), c0, c1, c2, c3);
    Sum4Add(Add(Add(a0, b0), c0), Add(Add(a1, b1), c1), Add(Add(a2, b2), c2), Add(Add(a3, b3), c3), d0, d1, d2, d3);
  }

  /** A multiple of a mixed byte, as multiples of the bytes mixed. */
  lemma MulMixByte(a: bv8, b: bv8, c: bv8, d: bv8, k: bv8)
    ensures Mul(MixByte(a, b, c, d), k) == Sum4(Mul(a, Mul(2, k)), Mul(b, Mul(3, k)), Mul(c, k), Mul(d, k))
  {
    hide Sum4;
    hide Mul;
    MulSum4(Mul(a, 2), Mul(b, 3), c, d, k);
    MulAssociates(a, 2, k);
    MulAssociates(b, 3, k);
  }

  lemma Constants()
    ensures Mul(2, 14) == 0x1c && Mul(3, 14) == 0x12 && Mul(2, 11) == 0x16 && Mul(3, 11) == 0x1d
    ensures Mul(2, 13) == 0x1a && Mul(3, 13) == 0x17 && Mul(2, 9) == 0x12 && Mul(3, 9) == 0x1b
    ensures Sum4(0x1c, 11, 13, 0x1b) == 1 && Sum4(0x12, 0x16, 13, 9) == 0
    ensures Sum4(14, 0x1d, 0x1a, 9) == 0 && Sum4(14, 11, 0x17, 0x12) == 0
  {
  }

  lemma Sum4OfOne(a: bv8)
    ensures Sum4(a, 0, 0, 0) == a
  {
  }

  lemma InvMixMixByte(a: bv8, b: bv8, c: bv8, d: bv8)
    ensures InvMixByte(MixByte(a, b, c, d), MixByte(b, c, d, a), MixByte(c, d, a, b), MixByte(d, a, b, c)) == a
  {
    hide Mul;
    hide Sum4;
    hide MixByte;
    Constants();
    MulMixByte(a, b, c, d, 14);
    MulMixByte(b, c, d, a, 11);
    Sum4Rotate(Mul(b, 0x16), Mul(c, 0x1d), Mul(d, 11), Mul(a, 11));
    MulMixByte(c, d, a, b, 13);
    Sum4Rotate(Mul(c, 0x1a), Mul(d, 0x17), Mul(a, 13), Mul(b, 13));
    Sum4Rotate(Mul(b, 13), Mul(c, 0x1a), Mul(d, 0x17), Mul(a, 13));
    MulMixByte(d, a, b, c, 9);
    Sum4Rotate(Mul(a, 0x1b), Mul(b, 9), Mul(c, 9), Mul(d, 0x12));
    Transpose(Mul(a, 0x1c), Mul(b, 0x12), Mul(c, 14), Mul(d, 14),
              Mul(a, 11), Mul(b, 0x16), Mul(c, 0x1d), Mul(d, 11),
              Mul(a, 13), Mul(b, 13), Mul(c, 0x1a), Mul(d, 0x17),
              Mul(a, 0x1b), Mul(b, 9), Mul(c, 9), Mul(d, 0x12));
    MulOfSum4(a, 0x1c, 11, 13, 0x1b);
    MulOfSum4(b, 0x12, 0x16, 13, 9);
    MulOfSum4(c, 14, 0x1d, 0x1a, 9);
    MulOfSum4(d, 14, 11, 0x17, 0x12);
    MulCommutes(a, 1);
    MulOne(a);
    MulByZero(b);
    MulByZero(c);
    MulByZero(d);
    Sum4OfOne(a);
  }

  /** InvMixColumns undoes MixColumns. */
  lemma MixColumnInverts(c: Column)
    ensures InvMixColumn(MixColumn(c)) == c
  {
    hide MixByte;
    hide InvMixByte;
    InvMixMixByte(c.b0, c.b1, c.b2, c.b3);
    InvMixMixByte(c.b1, c.b2, c.b3, c.b0);
    InvMixMixByte(c.b2, c.b3, c.b0, c.b1);
    InvMixMixByte(c.b3, c.b0, c.b1, c.b2);
  }

  lemma MixColumnsInverts(s: State)
    ensures InvMixColumns(MixColumns(s)) == s
  {
    hide MixColumn;
    hide InvMixColumn;
    MixColumnInverts(s.c0);
    MixColumnInverts(s.c1);
    MixColumnInverts(s.c2);
    MixColumnInverts(s.c3);
  }

  lemma InvMixByteAdd(a: bv8, b: bv8, c: bv8, d: bv8, a': bv8, b': bv8, c': bv8, d': bv8)
    ensures InvMixByte(Add(a, a'), Add(b, b'), Add(c, c'), Add(d, d'))
         == Add(InvMixByte(a, b, c, d), InvMixByte(a', b', c', d'))
  {
    hide Mul;
    hide Sum4;
    hide Add;
    MulDistributes(a, a', 14);
    MulDistributes(b, b', 11);
    MulDistributes(c, c', 13);
    MulDistributes(d, d', 9);
    Sum4Add(Mul(a, 14), Mul(b, 11), Mul(c, 13), Mul(d, 9), Mul(a', 14), Mul(b', 11), Mul(c', 13), Mul(d', 9));
  }

  /** InvMixColumns is linear, which is what lets it be moved past AddRoundKey (section 5.3.5). */
  lemma InvMixColumnAdd(c: Column, d: Column)
    ensures InvMixColumn(AddColumn(c, d)) == AddColumn(InvMixColumn(c), InvMixColumn(d))
  {
    hide InvMixByte;
    hide Add;
    InvMixByteAdd(c.b0, c.b1, c.b2, c.b3, d.b0, d.b1, d.b2, d.b3);
    InvMixByteAdd(c.b1, c.b2, c.b3, c.b0, d.b1, d.b2, d.b3, d.b0);
    InvMixByteAdd(c.b2, c.b3, c.b0, c.b1, d.b2, d.b3, d.b0, d.b1);
    InvMixByteAdd(c.b3, c.b0, c.b1, c.b2, d.b3, d.b0, d.b1, d.b2);
  }

  /** Going back k rounds from the end of Cipher lands on the state before the last k rounds, short of ShiftRows
      and SubBytes. */
  lemma {:induction false} InvCipherRoundsUndo(s: State, w: seq<Column>, nr: nat, k: nat)
    requires k < nr && 4 * nr + 4 <= |w|
    ensures InvCipherRounds(Cipher(s, w, nr), w, nr, k) == ShiftRows(SubBytes(CipherRounds(s, w, nr - 1 - k)))
    decreases k
  {
    hide AddState;
    hide ShiftRows;
    hide InvShiftRows;
    hide SubBytes;
    hide InvSubBytes;
    hide MixColumns;
    hide InvMixColumns;
    hide RoundKey;
    if k == 0 {
      AddStateTwice(ShiftRows(SubBytes(CipherRounds(s, w, nr - 1))), RoundKey(w, nr));
    } else {
      InvCipherRoundsUndo(s, w, nr, k - 1);
      var before, here := CipherRounds(s, w, nr - 1 - k), CipherRounds(s, w, nr - k);
      ShiftRowsInverts(SubBytes(here));
      SubBytesInverts(here);
      var mixed := MixColumns(ShiftRows(SubBytes(before)));
      assert here == AddState(mixed, RoundKey(w, nr - k));
      AddStateTwice(mixed, RoundKey(w, nr - k));
      MixColumnsInverts(ShiftRows(SubBytes(before)));
    }
  }

  /** InvCipher undoes Cipher under any key schedule. */
  lemma CipherInverts(s: State, w: seq<Column>, nr: nat)
    requires 0 < nr && 4 * nr + 4 <= |w|
    ensures InvCipher(Cipher(s, w, nr), w, nr) == s
  {
    hide AddState;
    hide ShiftRows;
    hide InvShiftRows;
    hide SubBytes;
    hide InvSubBytes;
    hide RoundKey;
    hide InvCipherRounds;
    InvCipherRoundsUndo(s, w, nr, nr - 1);
    var first := CipherRounds(s, w, 0);
    ShiftRowsInverts(SubBytes(first));
    SubBytesInverts(first);
    AddStateTwice(s, RoundKey(w, 0));
  }

  // ---- Section 5.2: key expansion. ----

  function RotWord(c: Column): Column {
    Column(c.b1, c.b2, c.b3, c.b0)
  }

  /** x^(i-1) */
  function RconByte(i: nat): bv8 {
    if i <= 1 then 1 else Xtime(RconByte(i - 1))
  }

  function Rcon(i: nat): Column {
    Column(RconByte(i), 0, 0, 0)
  }

  /** What is added to the word nk places back (figure 11). */
  ghost function Temp(prev: Column, nk: nat, i: nat): Column
    requires 0 < nk
  {
    if i % nk == 0 then AddColumn(SubWord(RotWord(prev)), Rcon(i / nk))
    else if nk > 6 && i % nk == 4 then SubWord(prev)
    else prev
  }

  /** Word i of the expanded key. */
  ghost function ExpandedWord(key: seq<Column>, i: nat): Column
    requires 0 < |key|
  {
    if i < |key| then key[i]
    else AddColumn(ExpandedWord(key, i - |key|), Temp(ExpandedWord(key, i - 1), |key|, i))
  }

  ghost function KeyExpansion(key: seq<Column>, n: nat): (w: seq<Column>)
    requires 0 < |key|
    ensures |w| == n
  {
    seq(n, i requires 0 <= i => ExpandedWord(key, i))
  }
}
