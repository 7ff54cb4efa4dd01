/** aes_set_key, aes_encrypt and aes_decrypt. */
module AesCipher {
  import opened ByteIndex
  import opened Gf256
  import opened AesSpec
  import opened AesTables
  import opened Aes
  import opened Wrappers

  /** The four words of a block in flight (b0 or b1 in the source). */
  datatype Quad = Quad(w0: bv32, w1: bv32, w2: bv32, w3: bv32)

  function StateOf(q: Quad): State {
    State(Col(q.w0), Col(q.w1), Col(q.w2), Col(q.w3))
  }

  function XorQuad(q: Quad, k: Quad): Quad {
    Quad(XorW(q.w0, k.w0), XorW(q.w1, k.w1), XorW(q.w2, k.w2), XorW(q.w3, k.w3))
  }

  lemma StateXor(q: Quad, k: Quad)
    ensures StateOf(XorQuad(q, k)) == AddState(StateOf(q), StateOf(k))
  {
    hide Col;
    hide XorW;
    hide AddColumn;
    ColXor(q.w0, k.w0);
    ColXor(q.w1, k.w1);
    ColXor(q.w2, k.w2);
    ColXor(q.w3, k.w3);
  }

  /** f_nround and f_lround without the round key: ShiftRows picks the bytes, the table does the rest. */
  function Forward(tab: array2<bv32>, b: Quad): Quad
    requires tab.Length0 == 4 && tab.Length1 == 256
    reads tab
  {
    Quad(Look(tab, Byte0(b.w0), Byte1(b.w1), Byte2(b.w2), Byte3(b.w3)),
         Look(tab, Byte0(b.w1), Byte1(b.w2), Byte2(b.w3), Byte3(b.w0)),
         Look(tab, Byte0(b.w2), Byte1(b.w3), Byte2(b.w0), Byte3(b.w1)),
         Look(tab, Byte0(b.w3), Byte1(b.w0), Byte2(b.w1), Byte3(b.w2)))
  }

  /** i_nround and i_lround without the round key. */
  function Backward(tab: array2<bv32>, b: Quad): Quad
    requires tab.Length0 == 4 && tab.Length1 == 256
    reads tab
  {
    Quad(Look(tab, Byte0(b.w0), Byte1(b.w3), Byte2(b.w2), Byte3(b.w1)),
         Look(tab, Byte0(b.w1), Byte1(b.w0), Byte2(b.w3), Byte3(b.w2)),
         Look(tab, Byte0(b.w2), Byte1(b.w1), Byte2(b.w0), Byte3(b.w3)),
         Look(tab, Byte0(b.w3), Byte1(b.w2), Byte2(b.w1), Byte3(b.w0)))
  }

  lemma LookFt(tab: array2<bv32>, b0: bv8, b1: bv8, b2: bv8, b3: bv8)
    requires Holds(tab, FtBase, 256)
    ensures Col(Look(tab, b0, b1, b2, b3)) == MixColumn(SubWord(Column(b0, b1, b2, b3)))
  {
    hide Col; hide Look; hide Holds; hide SumColumns; hide Rotated; hide FtBase; hide MixColumn; hide SubWord;
    HeldShape(tab, FtBase);
    LookUp(tab, FtBase, b0, b1, b2, b3);
    ForwardMix(Column(b0, b1, b2, b3));
  }

  lemma LookFl(tab: array2<bv32>, b0: bv8, b1: bv8, b2: bv8, b3: bv8)
    requires Holds(tab, FlBase, 256)
    ensures Col(Look(tab, b0, b1, b2, b3)) == SubWord(Column(b0, b1, b2, b3))
  {
    hide Col; hide Look; hide Holds; hide SumColumns; hide Rotated; hide FlBase; hide SubWord;
    HeldShape(tab, FlBase);
    LookUp(tab, FlBase, b0, b1, b2, b3);
    ForwardSub(Column(b0, b1, b2, b3));
  }

  lemma LookIt(tab: array2<bv32>, b0: bv8, b1: bv8, b2: bv8, b3: bv8)
    requires Holds(tab, ItBase, 256)
    ensures Col(Look(tab, b0, b1, b2, b3)) == InvMixColumn(InvSubWord(Column(b0, b1, b2, b3)))
  {
    hide Col; hide Look; hide Holds; hide SumColumns; hide Rotated; hide ItBase; hide InvMixColumn; hide InvSubWord;
    HeldShape(tab, ItBase);
    LookUp(tab, ItBase, b0, b1, b2, b3);
    InverseMix(Column(b0, b1, b2, b3));
  }

  lemma LookIl(tab: array2<bv32>, b0: bv8, b1: bv8, b2: bv8, b3: bv8)
    requires Holds(tab, IlBase, 256)
    ensures Col(Look(tab, b0, b1, b2, b3)) == InvSubWord(Column(b0, b1, b2, b3))
  {
    hide Col; hide Look; hide Holds; hide SumColumns; hide Rotated; hide IlBase; hide InvSubWord;
    HeldShape(tab, IlBase);
    LookUp(tab, IlBase, b0, b1, b2, b3);
    InverseSub(Column(b0, b1, b2, b3));
  }

  lemma HeldShape(tab: array2<bv32>, base: bv8 -> Column)
    requires Holds(tab, base, 256)
    ensures tab.Length0 == 4 && tab.Length1 == 256
  {
  }

  /** A middle round of aes_encrypt is a round of Cipher. */
  lemma ForwardIsRound(tab: array2<bv32>, b: Quad)
    requires Holds(tab, FtBase, 256)
    ensures StateOf(Forward(tab, b)) == MixColumns(ShiftRows(SubBytes(StateOf(b))))
  {
    hide Look; hide Holds; hide MixColumn; hide SubByte; hide Byte0; hide Byte1; hide Byte2; hide Byte3;
    HeldShape(tab, FtBase);
    LookFt(tab, Byte0(b.w0), Byte1(b.w1), Byte2(b.w2), Byte3(b.w3));
    LookFt(tab, Byte0(b.w1), Byte1(b.w2), Byte2(b.w3), Byte3(b.w0));
    LookFt(tab, Byte0(b.w2), Byte1(b.w3), Byte2(b.w0), Byte3(b.w1));
    LookFt(tab, Byte0(b.w3), Byte1(b.w0), Byte2(b.w1), Byte3(b.w2));
  }

  /** The last round has no MixColumns. */
  lemma ForwardIsLastRound(tab: array2<bv32>, b: Quad)
    requires Holds(tab, FlBase, 256)
    ensures StateOf(Forward(tab, b)) == ShiftRows(SubBytes(StateOf(b)))
  {
    hide Look; hide Holds; hide SubByte; hide Byte0; hide Byte1; hide Byte2; hide Byte3;
    HeldShape(tab, FlBase);
    LookFl(tab, Byte0(b.w0), Byte1(b.w1), Byte2(b.w2), Byte3(b.w3));
    LookFl(tab, Byte0(b.w1), Byte1(b.w2), Byte2(b.w3), Byte3(b.w0));
    LookFl(tab, Byte0(b.w2), Byte1(b.w3), Byte2(b.w0), Byte3(b.w1));
    LookFl(tab, Byte0(b.w3), Byte1(b.w0), Byte2(b.w1), Byte3(b.w2));
  }

  lemma BackwardIsRound(tab: array2<bv32>, b: Quad)
    requires Holds(tab, ItBase, 256)
    ensures StateOf(Backward(tab, b)) == InvMixColumns(InvSubBytes(InvShiftRows(StateOf(b))))
  {
    hide Look; hide Holds; hide InvMixColumn; hide InvSubByte; hide Byte0; hide Byte1; hide Byte2; hide Byte3;
    HeldShape(tab, ItBase);
    LookIt(tab, Byte0(b.w0), Byte1(b.w3), Byte2(b.w2), Byte3(b.w1));
    LookIt(tab, Byte0(b.w1), Byte1(b.w0), Byte2(b.w3), Byte3(b.w2));
    LookIt(tab, Byte0(b.w2), Byte1(b.w1), Byte2(b.w0), Byte3(b.w3));
    LookIt(tab, Byte0(b.w3), Byte1(b.w2), Byte2(b.w1), Byte3(b.w0));
  }

  lemma BackwardIsLastRound(tab: array2<bv32>, b: Quad)
    requires Holds(tab, IlBase, 256)
    ensures StateOf(Backward(tab, b)) == InvSubBytes(InvShiftRows(StateOf(b)))
  {
    hide Look; hide Holds; hide InvSubByte; hide Byte0; hide Byte1; hide Byte2; hide Byte3;
    HeldShape(tab, IlBase);
    LookIl(tab, Byte0(b.w0), Byte1(b.w3), Byte2(b.w2), Byte3(b.w1));
    LookIl(tab, Byte0(b.w1), Byte1(b.w0), Byte2(b.w3), Byte3(b.w2));
    LookIl(tab, Byte0(b.w2), Byte1(b.w1), Byte2(b.w0), Byte3(b.w3));
    LookIl(tab, Byte0(b.w3), Byte1(b.w2), Byte2(b.w1), Byte3(b.w0));
  }

  // ---- Bytes in and out. ----

  /** u32_in */
  function U32In(b: seq<bv8>, at: nat): bv32
    requires at + 4 <= |b|
  {
    Pack(b[at], b[at + 1], b[at + 2], b[at + 3])
  }

  function ColumnIn(b: seq<bv8>, at: nat): Column
    requires at + 4 <= |b|
  {
    Column(b[at], b[at + 1], b[at + 2], b[at + 3])
  }

  /** A block as a state (section 3.4). */
  function StateIn(b: seq<bv8>): State
    requires |b| == 16
  {
    State(ColumnIn(b, 0), ColumnIn(b, 4), ColumnIn(b, 8), ColumnIn(b, 12))
  }

  function ColumnBytes(c: Column): seq<bv8> {
    [c.b0, c.b1, c.b2, c.b3]
  }

  function StateBytes(s: State): (b: seq<bv8>)
    ensures |b| == 16
  {
    ColumnBytes(s.c0) + ColumnBytes(s.c1) + ColumnBytes(s.c2) + ColumnBytes(s.c3)
  }

  lemma StateBytesIn(s: State)
    ensures StateIn(StateBytes(s)) == s
  {
  }

  lemma StateInBytes(b: seq<bv8>)
    requires |b| == 16
    ensures StateBytes(StateIn(b)) == b
  {
  }

  lemma ColU32In(b: seq<bv8>, at: nat)
    requires at + 4 <= |b|
    ensures Col(U32In(b, at)) == ColumnIn(b, at)
  {
    hide Col;
    hide Pack;
    ColPack(b[at], b[at + 1], b[at + 2], b[at + 3]);
  }

  function QuadIn(b: seq<bv8>): Quad
    requires |b| == 16
  {
    Quad(U32In(b, 0), U32In(b, 4), U32In(b, 8), U32In(b, 12))
  }

  lemma StateQuadIn(b: seq<bv8>)
    requires |b| == 16
    ensures StateOf(QuadIn(b)) == StateIn(b)
  {
    hide Col;
    hide U32In;
    hide ColumnIn;
    ColU32In(b, 0);
    ColU32In(b, 4);
    ColU32In(b, 8);
    ColU32In(b, 12);
  }

  /** u32_out */
  function WordBytes(w: bv32): seq<bv8> {
    [Byte0(w), Byte1(w), Byte2(w), Byte3(w)]
  }

  function QuadBytes(q: Quad): seq<bv8> {
    WordBytes(q.w0) + WordBytes(q.w1) + WordBytes(q.w2) + WordBytes(q.w3)
  }

  lemma WordBytesOfColumn(w: bv32)
    ensures WordBytes(w) == ColumnBytes(Col(w))
  {
    hide Byte0; hide Byte1; hide Byte2; hide Byte3;
  }

  lemma QuadBytesOfState(q: Quad)
    ensures QuadBytes(q) == StateBytes(StateOf(q))
  {
    hide Col; hide WordBytes; hide ColumnBytes;
    WordBytesOfColumn(q.w0);
    WordBytesOfColumn(q.w1);
    WordBytesOfColumn(q.w2);
    WordBytesOfColumn(q.w3);
  }

  /** The words of a key as columns. */
  function KeyColumns(key: seq<bv8>): (w: seq<Column>)
    requires |key| % 4 == 0
    ensures |w| == |key| / 4
  {
    seq(|key| / 4, i requires 0 <= i < |key| / 4 => ColumnIn(key, 4 * i))
  }

  predicate KeySize(n: nat) { n == 16 || n == 24 || n == 32 }

  /** The number of rounds for a key size in bytes: 10, 12 or 14. */
  function RoundsFor(keyLength: nat): nat { keyLength / 4 + 6 }

  // ---- The key schedule. ----

  /** The first n words of the schedule are expanded. */
  ghost predicate Expanded(E: array<bv32>, key: seq<Column>, n: nat)
    requires 0 < |key|
    reads E
  {
    n <= E.Length && forall j: nat :: j < n ==> Col(E[j]) == ExpandedWord(key, j)
  }

  /** t ^= E_KEY[j - nk]; E_KEY[j] = t */
  method Append(E: array<bv32>, ghost key: seq<Column>, nk: nat, j: nat, u: bv32) returns (t: bv32)
    requires 0 < |key| == nk <= j < E.Length && Expanded(E, key, j)
    requires Col(u) == Temp(ExpandedWord(key, j - 1), |key|, j)
    modifies E
    ensures Expanded(E, key, j + 1) && t == E[j] && Col(t) == ExpandedWord(key, j)
  {
    hide Col;
    hide XorW;
    hide Temp;
    hide AddColumn;
    var back := E[j - nk];
    t := XorW(u, back);
    ColXor(u, back);
    AddColumnComm(Col(u), Col(back));
    E[j] := t;
  }

  lemma AddColumnComm(c: Column, d: Column)
    ensures AddColumn(c, d) == AddColumn(d, c)
  {
    hide Add;
    AddComm(c.b0, d.b0);
    AddComm(c.b1, d.b1);
    AddComm(c.b2, d.b2);
    AddComm(c.b3, d.b3);
  }

  /** ls_box(rotr(t, 8)) ^ rco_tab[i] and ls_box(t) */
  method RotSubRcon(tabs: Tables, t: bv32, i: nat) returns (r: bv32)
    requires tabs.Good() && i < 10
    ensures Col(r) == AddColumn(SubWord(RotWord(Col(t))), Rcon(i + 1))
  {
    hide Col; hide Look; hide Holds; hide AddColumn; hide SubWord; hide Rcon; hide XorW; hide RotL24;
    var rot := RotL24(t);
    EntryRotations(t);
    RotatedIsRotWord(Col(t));
    var s := SubWordOf(tabs, rot);
    ColXor(s, tabs.rco[i]);
    r := XorW(s, tabs.rco[i]);
  }

  lemma RotatedIsRotWord(c: Column)
    ensures Rotated(c, 3) == RotWord(c)
  {
  }

  method SubWordOf(tabs: Tables, t: bv32) returns (r: bv32)
    requires tabs.Good()
    ensures Col(r) == SubWord(Col(t))
  {
    hide Look; hide Holds; hide SubWord; hide Byte0; hide Byte1; hide Byte2; hide Byte3;
    HeldShape(tabs.fl, FlBase);
    r := Look(tabs.fl, Byte0(t), Byte1(t), Byte2(t), Byte3(t));
    LookFl(tabs.fl, Byte0(t), Byte1(t), Byte2(t), Byte3(t));
  }

  lemma TempRcon(prev: Column, nk: nat, i: nat)
    requires nk == 4 || nk == 6 || nk == 8
    ensures Temp(prev, nk, nk * i + nk) == AddColumn(SubWord(RotWord(prev)), Rcon(i + 1))
  {
    hide Temp; hide AddColumn; hide SubWord; hide Rcon; hide RotWord;
    TempRconAt(prev, nk, nk * i + nk, i + 1);
    assert (nk == 4 ==> (4 * i + 4) % 4 == 0 && (4 * i + 4) / 4 == i + 1);
    assert (nk == 6 ==> (6 * i + 6) % 6 == 0 && (6 * i + 6) / 6 == i + 1);
    assert (nk == 8 ==> (8 * i + 8) % 8 == 0 && (8 * i + 8) / 8 == i + 1);
  }

  lemma TempRconAt(prev: Column, nk: nat, j: nat, q: nat)
    requires 0 < nk
    ensures j % nk == 0 && j / nk == q ==> Temp(prev, nk, j) == AddColumn(SubWord(RotWord(prev)), Rcon(q))
  {
    hide AddColumn; hide SubWord; hide Rcon; hide RotWord;
  }

  lemma TempPlain(prev: Column, nk: nat, j: nat)
    requires 0 < nk && j % nk != 0 && (nk <= 6 || j % nk != 4)
    ensures Temp(prev, nk, j) == prev
  {
    hide AddColumn; hide SubWord; hide Rcon;
  }

  lemma TempSub(prev: Column, i: nat)
    ensures Temp(prev, 8, 8 * i + 12) == SubWord(prev)
  {
    hide AddColumn; hide SubWord; hide Rcon;
  }

  /** A word that is just added to the one nk places back. */
  method AppendPlain(E: array<bv32>, ghost key: seq<Column>, nk: nat, j: nat, u: bv32) returns (t: bv32)
    requires 0 < |key| == nk <= j < E.Length && Expanded(E, key, j) && u == E[j - 1]
    requires j % nk != 0 && (nk <= 6 || j % nk != 4)
    modifies E
    ensures Expanded(E, key, j + 1) && t == E[j]
  {
    hide Col; hide Temp; hide ExpandedWord;
    TempPlain(ExpandedWord(key, j - 1), nk, j);
    t := Append(E, key, nk, j, u);
  }

  method AppendThree(E: array<bv32>, ghost key: seq<Column>, nk: nat, j: nat, u: bv32) returns (t: bv32)
    requires 0 < |key| == nk <= j && j + 2 < E.Length && Expanded(E, key, j) && u == E[j - 1]
    requires j % nk != 0 && (j + 1) % nk != 0 && (j + 2) % nk != 0
    requires nk <= 6 || (j % nk != 4 && (j + 1) % nk != 4 && (j + 2) % nk != 4)
    modifies E
    ensures Expanded(E, key, j + 3) && t == E[j + 2]
  {
    hide Expanded;
    t := AppendPlain(E, key, nk, j, u);
    t := AppendPlain(E, key, nk, j + 1, t);
    t := AppendPlain(E, key, nk, j + 2, t);
  }

  /** A word at a multiple of nk. */
  method AppendRcon(tabs: Tables, E: array<bv32>, ghost key: seq<Column>, nk: nat, i: nat, u: bv32) returns (t: bv32)
    requires tabs.Good() && E != tabs.rco && i < 10 && (nk == 4 || nk == 6 || nk == 8) && |key| == nk
    requires nk * i + nk < E.Length && Expanded(E, key, nk * i + nk) && u == E[nk * i + nk - 1]
    modifies E
    ensures Expanded(E, key, nk * i + nk + 1) && t == E[nk * i + nk]
  {
    hide Col; hide Temp; hide ExpandedWord; hide AddColumn; hide SubWord; hide Rcon; hide RotWord;
    var j := nk * i + nk;
    var r := RotSubRcon(tabs, u, i);
    TempRcon(ExpandedWord(key, j - 1), nk, i);
    t := Append(E, key, nk, j, r);
  }

  /** loop4 ten times. */
  method Expand128(tabs: Tables, E: array<bv32>, ghost key: seq<Column>)
    requires tabs.Good() && E != tabs.rco && E.Length == 64 && |key| == 4 && Expanded(E, key, 4)
    modifies E
    ensures Expanded(E, key, 44)
  {
    hide Expanded;
    var t := E[3];
    for i := 0 to 10
      invariant Expanded(E, key, 4 * i + 4) && t == E[4 * i + 3]
      invariant tabs.Good()
    {
      t := AppendRcon(tabs, E, key, 4, i, t);
      t := AppendThree(E, key, 4, 4 * i + 5, t);
    }
  }

  /** loop6 eight times. */
  method Expand192(tabs: Tables, E: array<bv32>, ghost key: seq<Column>)
    requires tabs.Good() && E != tabs.rco && E.Length == 64 && |key| == 6 && Expanded(E, key, 6)
    modifies E
    ensures Expanded(E, key, 54)
  {
    hide Expanded;
    var t := E[5];
    for i := 0 to 8
      invariant Expanded(E, key, 6 * i + 6) && t == E[6 * i + 5]
      invariant tabs.Good()
    {
      t := AppendRcon(tabs, E, key, 6, i, t);
      t := AppendThree(E, key, 6, 6 * i + 7, t);
      t := AppendPlain(E, key, 6, 6 * i + 10, t);
      t := AppendPlain(E, key, 6, 6 * i + 11, t);
    }
  }

  /** loop8 seven times; the last turn fills E[60..63], past the words that are used. */
  method Expand256(tabs: Tables, E: array<bv32>, ghost key: seq<Column>)
    requires tabs.Good() && E != tabs.rco && E.Length == 64 && |key| == 8 && Expanded(E, key, 8)
    modifies E
    ensures Expanded(E, key, 64)
  {
    hide Expanded;
    var t := E[7];
    for i := 0 to 7
      invariant Expanded(E, key, 8 * i + 8) && t == E[8 * i + 7]
      invariant tabs.Good()
    {
      t := AppendRcon(tabs, E, key, 8, i, t);
      t := AppendThree(E, key, 8, 8 * i + 9, t);
      t := AppendSub(tabs, E, key, i, t);
      t := AppendThree(E, key, 8, 8 * i + 13, t);
    }
  }

  /** The extra S-box step in the middle of a 256-bit key. */
  method AppendSub(tabs: Tables, E: array<bv32>, ghost key: seq<Column>, i: nat, u: bv32) returns (t: bv32)
    requires tabs.Good() && E != tabs.rco && |key| == 8
    requires 8 * i + 12 < E.Length && Expanded(E, key, 8 * i + 12) && u == E[8 * i + 11]
    modifies E
    ensures Expanded(E, key, 8 * i + 13) && t == E[8 * i + 12]
  {
    hide Col; hide Temp; hide ExpandedWord; hide SubWord;
    var r := SubWordOf(tabs, u);
    TempSub(ExpandedWord(key, 8 * i + 11), i);
    t := Append(E, key, 8, 8 * i + 12, r);
  }

  /** struct aes_ctx.  E has four words more than in the source, where the last turn of loop8 runs over into D[0..3]
      just before those are assigned. */
  /** The FIPS 197 schedule of a key, one column per word of E. */
  ghost function Schedule(key: seq<bv8>): (w: seq<Column>)
    requires KeySize(|key|)
    ensures |w| == |key| + 28
  {
    KeyExpansion(KeyColumns(key), |key| + 28)
  }

  class Context {
    var keyLength: nat
    const E: array<bv32>
    const D: array<bv32>

    constructor ()
      ensures E.Length == 64 && D.Length == 60 && E != D && fresh(E) && fresh(D)
    {
      keyLength := 0;
      E := new bv32[64];
      D := new bv32[60];
    }

    ghost predicate Shaped() {
      E.Length == 64 && D.Length == 60 && E != D
    }

    /** The context holds the two schedules of a key. */
    ghost predicate Keyed(key: seq<bv8>)
      reads this, E, D
    {
      && Shaped() && KeySize(|key|) && keyLength == |key|
      && Expanded(E, KeyColumns(key), keyLength + 28)
      && Mixed(keyLength + 24)
    }

    /** D is E with InvMixColumns applied, except for the first round key. */
    ghost predicate Mixed(n: nat)
      reads E, D
    {
      && Shaped() && n <= 60
      && (forall j: nat :: j < 4 && j < n ==> D[j] == E[j])
      && (forall j: nat :: 4 <= j < n ==> Col(D[j]) == InvMixColumn(Col(E[j])))
    }

    /** The words of the user's key. */
    method LoadWords(key: seq<bv8>)
      requires Shaped() && KeySize(|key|)
      modifies E
      ensures Expanded(E, KeyColumns(key), |key| / 4)
    {
      hide Col; hide U32In;
      for i := 0 to |key| / 4
        invariant forall j: nat :: j < i ==> Col(E[j]) == KeyColumns(key)[j]
      {
        ColU32In(key, 4 * i);
        E[i] := U32In(key, 4 * i);
      }
    }

    /** The loop of imix_col at the end of aes_set_key. */
    method MixWords()
      requires Shaped() && KeySize(keyLength)
      modifies D
      ensures Mixed(keyLength + 24)
    {
      hide Col; hide ImixCol; hide InvMixColumn;
      D[0] := E[0];
      D[1] := E[1];
      D[2] := E[2];
      D[3] := E[3];
      for i := 4 to keyLength + 24
        invariant Mixed(i)
      {
        D[i] := ImixCol(E[i]);
        ImixColIsInvMix(E[i]);
      }
    }

    /** aes_set_key */
    method SetKey(tabs: Tables, key: seq<bv8>) returns (err: int)
      requires Shaped() && tabs.Good() && tabs.rco != E && tabs.rco != D
      modifies this, E, D
      ensures err == if KeySize(|key|) then 0 else -EINVAL
      ensures err == 0 ==> Keyed(key)
      ensures err != 0 ==> keyLength == old(keyLength) && E[..] == old(E[..]) && D[..] == old(D[..])
    {
      if |key| != 16 && |key| != 24 && |key| != 32 {
        return -EINVAL;
      }
      hide Expanded;
      keyLength := |key|;
      LoadWords(key);
      ghost var cols := KeyColumns(key);
      match |key| {
        case 16 => Expand128(tabs, E, cols);
        case 24 => Expand192(tabs, E, cols);
        case _ => Expand256(tabs, E, cols);
      }
      MixWords();
      return 0;
    }

    function KeyQuad(A: array<bv32>, r: nat): Quad
      requires 4 * r + 4 <= A.Length
      reads A
    {
      Quad(A[4 * r], A[4 * r + 1], A[4 * r + 2], A[4 * r + 3])
    }

    lemma KeyQuadIsRoundKey(key: seq<bv8>, r: nat)
      requires Keyed(key) && 4 * r + 4 <= |key| + 28
      ensures StateOf(KeyQuad(E, r)) == RoundKey(Schedule(key), r)
    {
      hide Col; hide ExpandedWord;
    }

    lemma MixedQuadIsRoundKey(key: seq<bv8>, r: nat)
      requires Keyed(key) && 0 < r && 4 * r + 4 <= |key| + 24
      ensures StateOf(KeyQuad(D, r)) == InvMixColumns(RoundKey(Schedule(key), r))
    {
      hide Col; hide ExpandedWord; hide InvMixColumn;
    }

    /** f_nround */
    method EncryptRound(tabs: Tables, b: Quad, r: nat, ghost key: seq<bv8>, ghost s0: State) returns (c: Quad)
      requires Keyed(key) && tabs.Good() && 0 < r < RoundsFor(|key|)
      requires StateOf(b) == CipherRounds(s0, Schedule(key), r - 1)
      ensures StateOf(c) == CipherRounds(s0, Schedule(key), r)
    {
      hide StateOf; hide Forward; hide AddState; hide MixColumns; hide ShiftRows; hide SubBytes; hide RoundKey;
      hide KeyQuad; hide XorQuad; hide Holds; hide KeyExpansion;
      HeldShape(tabs.ft, FtBase);
      c := XorQuad(Forward(tabs.ft, b), KeyQuad(E, r));
      ForwardIsRound(tabs.ft, b);
      StateXor(Forward(tabs.ft, b), KeyQuad(E, r));
      KeyQuadIsRoundKey(key, r);
    }

    method EncryptTwoRounds(tabs: Tables, b: Quad, r: nat, ghost key: seq<bv8>, ghost s0: State) returns (c: Quad)
      requires Keyed(key) && tabs.Good() && 0 < r && r + 1 < RoundsFor(|key|)
      requires StateOf(b) == CipherRounds(s0, Schedule(key), r - 1)
      ensures StateOf(c) == CipherRounds(s0, Schedule(key), r + 1)
    {
      hide StateOf; hide CipherRounds; hide Schedule; hide Keyed;
      c := EncryptRound(tabs, b, r, key, s0);
      c := EncryptRound(tabs, c, r + 1, key, s0);
    }

    /** The nine rounds that every key size has. */
    method EncryptNineRounds(tabs: Tables, b: Quad, r: nat, ghost key: seq<bv8>, ghost s0: State) returns (c: Quad)
      requires Keyed(key) && tabs.Good() && 0 < r && r + 8 < RoundsFor(|key|)
      requires StateOf(b) == CipherRounds(s0, Schedule(key), r - 1)
      ensures StateOf(c) == CipherRounds(s0, Schedule(key), r + 8)
    {
      hide StateOf; hide CipherRounds; hide Schedule; hide Keyed;
      c := EncryptTwoRounds(tabs, b, r, key, s0);
      c := EncryptTwoRounds(tabs, c, r + 2, key, s0);
      c := EncryptTwoRounds(tabs, c, r + 4, key, s0);
      c := EncryptTwoRounds(tabs, c, r + 6, key, s0);
      c := EncryptRound(tabs, c, r + 8, key, s0);
    }

    lemma KeyedShape(key: seq<bv8>)
      requires Keyed(key)
      ensures Shaped() && KeySize(|key|) && keyLength == |key|
    {
    }

    lemma StartRounds(input: seq<bv8>, key: seq<bv8>)
      requires Keyed(key) && |input| == 16
      ensures StateOf(XorQuad(QuadIn(input), KeyQuad(E, 0))) == CipherRounds(StateIn(input), Schedule(key), 0)
    {
      hide StateOf; hide XorQuad; hide QuadIn; hide KeyQuad; hide AddState; hide RoundKey; hide KeyExpansion;
      hide StateIn;
      StateXor(QuadIn(input), KeyQuad(E, 0));
      StateQuadIn(input);
      KeyQuadIsRoundKey(key, 0);
    }

    /** f_lround */
    method EncryptLast(tabs: Tables, b: Quad, nr: nat, ghost key: seq<bv8>, ghost s0: State) returns (c: Quad)
      requires Keyed(key) && tabs.Good() && nr == RoundsFor(|key|)
      requires StateOf(b) == CipherRounds(s0, Schedule(key), nr - 1)
      ensures StateOf(c) == Cipher(s0, Schedule(key), nr)
    {
      hide StateOf; hide Forward; hide AddState; hide ShiftRows; hide SubBytes; hide RoundKey; hide CipherRounds;
      hide KeyQuad; hide XorQuad; hide Holds; hide KeyExpansion;
      HeldShape(tabs.fl, FlBase);
      c := XorQuad(Forward(tabs.fl, b), KeyQuad(E, nr));
      ForwardIsLastRound(tabs.fl, b);
      StateXor(Forward(tabs.fl, b), KeyQuad(E, nr));
      KeyQuadIsRoundKey(key, nr);
    }

    /** aes_encrypt */
    method Encrypt(tabs: Tables, input: seq<bv8>, ghost key: seq<bv8>) returns (output: seq<bv8>)
      requires Keyed(key) && tabs.Good() && |input| == 16
      ensures output == StateBytes(Cipher(StateIn(input), Schedule(key), RoundsFor(|key|)))
    {
      hide StateOf; hide CipherRounds; hide Cipher; hide Schedule; hide StateIn; hide QuadIn; hide XorQuad;
      hide KeyQuad;
      hide Keyed; hide StateBytes; hide QuadBytes;
      KeyedShape(key);
      ghost var s0 := StateIn(input);
      var b := XorQuad(QuadIn(input), KeyQuad(E, 0));
      StartRounds(input, key);
      var kp := 1;
      if keyLength > 24 {
        b := EncryptTwoRounds(tabs, b, kp, key, s0);
        kp := kp + 2;
      }
      if keyLength > 16 {
        b := EncryptTwoRounds(tabs, b, kp, key, s0);
        kp := kp + 2;
      }
      b := EncryptNineRounds(tabs, b, kp, key, s0);
      b := EncryptLast(tabs, b, kp + 9, key, s0);
      output := QuadBytes(b);
      QuadBytesOfState(b);
    }

    /** i_nround: by linearity of InvMixColumns, adding the mixed round key afterwards is adding the round key before. */
    method DecryptRound(tabs: Tables, b: Quad, k: nat, ghost key: seq<bv8>, ghost s0: State) returns (c: Quad)
      requires Keyed(key) && tabs.Good() && 0 < k < RoundsFor(|key|) == RoundsFor(keyLength)
      requires StateOf(b) == InvCipherRounds(s0, Schedule(key), RoundsFor(|key|), k - 1)
      ensures StateOf(c) == InvCipherRounds(s0, Schedule(key), RoundsFor(|key|), k)
    {
      hide StateOf; hide Backward; hide AddState; hide InvMixColumns; hide InvShiftRows; hide InvSubBytes;
      hide RoundKey;
      hide KeyQuad; hide XorQuad; hide Holds; hide KeyExpansion;
      HeldShape(tabs.it, ItBase);
      var r := RoundsFor(keyLength) - k;
      c := XorQuad(Backward(tabs.it, b), KeyQuad(D, r));
      BackwardIsRound(tabs.it, b);
      StateXor(Backward(tabs.it, b), KeyQuad(D, r));
      MixedQuadIsRoundKey(key, r);
      InvMixColumnsAdd(InvSubBytes(InvShiftRows(StateOf(b))), RoundKey(Schedule(key), r));
    }

    method DecryptTwoRounds(tabs: Tables, b: Quad, k: nat, ghost key: seq<bv8>, ghost s0: State) returns (c: Quad)
      requires Keyed(key) && tabs.Good() && 0 < k && k + 1 < RoundsFor(|key|) == RoundsFor(keyLength)
      requires StateOf(b) == InvCipherRounds(s0, Schedule(key), RoundsFor(|key|), k - 1)
      ensures StateOf(c) == InvCipherRounds(s0, Schedule(key), RoundsFor(|key|), k + 1)
    {
      hide StateOf; hide InvCipherRounds; hide Schedule; hide Keyed;
      c := DecryptRound(tabs, b, k, key, s0);
      c := DecryptRound(tabs, c, k + 1, key, s0);
    }

    method DecryptNineRounds(tabs: Tables, b: Quad, k: nat, ghost key: seq<bv8>, ghost s0: State) returns (c: Quad)
      requires Keyed(key) && tabs.Good() && 0 < k && k + 8 < RoundsFor(|key|) == RoundsFor(keyLength)
      requires StateOf(b) == InvCipherRounds(s0, Schedule(key), RoundsFor(|key|), k - 1)
      ensures StateOf(c) == InvCipherRounds(s0, Schedule(key), RoundsFor(|key|), k + 8)
    {
      hide StateOf; hide InvCipherRounds; hide Schedule; hide Keyed;
      c := DecryptTwoRounds(tabs, b, k, key, s0);
      c := DecryptTwoRounds(tabs, c, k + 2, key, s0);
      c := DecryptTwoRounds(tabs, c, k + 4, key, s0);
      c := DecryptTwoRounds(tabs, c, k + 6, key, s0);
      c := DecryptRound(tabs, c, k + 8, key, s0);
    }

    lemma StartBack(input: seq<bv8>, key: seq<bv8>)
      requires Keyed(key) && |input| == 16
      ensures StateOf(XorQuad(QuadIn(input), KeyQuad(E, RoundsFor(|key|))))
           == InvCipherRounds(StateIn(input), Schedule(key), RoundsFor(|key|), 0)
    {
      hide StateOf; hide XorQuad; hide QuadIn; hide KeyQuad; hide AddState; hide RoundKey; hide KeyExpansion;
      hide StateIn;
      StateXor(QuadIn(input), KeyQuad(E, RoundsFor(|key|)));
      StateQuadIn(input);
      KeyQuadIsRoundKey(key, RoundsFor(|key|));
    }

    /** i_lround, with D[0..3] equal to E[0..3] */
    method DecryptLast(tabs: Tables, b: Quad, ghost key: seq<bv8>, ghost s0: State) returns (c: Quad)
      requires Keyed(key) && tabs.Good()
      requires StateOf(b) == InvCipherRounds(s0, Schedule(key), RoundsFor(|key|), RoundsFor(|key|) - 1)
      ensures StateOf(c) == InvCipher(s0, Schedule(key), RoundsFor(|key|))
    {
      hide StateOf; hide Backward; hide AddState; hide InvShiftRows; hide InvSubBytes; hide RoundKey;
      hide InvCipherRounds;
      hide XorQuad; hide Holds; hide KeyExpansion;
      HeldShape(tabs.il, IlBase);
      c := XorQuad(Backward(tabs.il, b), KeyQuad(D, 0));
      assert KeyQuad(D, 0) == KeyQuad(E, 0);
      BackwardIsLastRound(tabs.il, b);
      StateXor(Backward(tabs.il, b), KeyQuad(D, 0));
      KeyQuadIsRoundKey(key, 0);
    }

    /** aes_decrypt */
    method Decrypt(tabs: Tables, input: seq<bv8>, ghost key: seq<bv8>) returns (output: seq<bv8>)
      requires Keyed(key) && tabs.Good() && |input| == 16
      ensures output == StateBytes(InvCipher(StateIn(input), Schedule(key), RoundsFor(|key|)))
    {
      hide StateOf; hide InvCipherRounds; hide InvCipher; hide Schedule; hide StateIn; hide QuadIn; hide XorQuad;
      hide KeyQuad;
      hide Keyed; hide StateBytes; hide QuadBytes;
      KeyedShape(key);
      ghost var s0 := StateIn(input);
      var b := XorQuad(QuadIn(input), KeyQuad(E, RoundsFor(keyLength)));
      StartBack(input, key);
      var k := 1;
      if keyLength > 24 {
        b := DecryptTwoRounds(tabs, b, k, key, s0);
        k := k + 2;
      }
      if keyLength > 16 {
        b := DecryptTwoRounds(tabs, b, k, key, s0);
        k := k + 2;
      }
      b := DecryptNineRounds(tabs, b, k, key, s0);
      b := DecryptLast(tabs, b, key, s0);
      output := QuadBytes(b);
      QuadBytesOfState(b);
    }

    /** Decryption returns the block that was encrypted, for every key size and every key. */
    method EncryptDecrypt(tabs: Tables, input: seq<bv8>, ghost key: seq<bv8>) returns (back: seq<bv8>)
      requires Keyed(key) && tabs.Good() && |input| == 16
      ensures back == input
    {
      hide Schedule; hide StateIn; hide StateBytes; hide Keyed; hide Cipher; hide InvCipher;
      KeyedShape(key);
      var c := Encrypt(tabs, input, key);
      ghost var s := Cipher(StateIn(input), Schedule(key), RoundsFor(|key|));
      StateBytesIn(s);
      back := Decrypt(tabs, c, key);
      CipherInverts(StateIn(input), Schedule(key), RoundsFor(|key|));
      StateInBytes(input);
    }
  }

  lemma InvMixColumnsAdd(s: State, k: State)
    ensures InvMixColumns(AddState(s, k)) == AddState(InvMixColumns(s), InvMixColumns(k))
  {
    hide InvMixColumn; hide AddColumn;
    InvMixColumnAdd(s.c0, k.c0);
    InvMixColumnAdd(s.c1, k.c1);
    InvMixColumnAdd(s.c2, k.c2);
    InvMixColumnAdd(s.c3, k.c3);
  }
}
