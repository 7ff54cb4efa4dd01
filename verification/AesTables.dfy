/** The generated tables of aes.c: gen_tabs and f_mult. */
module AesTables {
  import opened ByteIndex
  import opened Gf256
  import opened AesSpec

  // ---- 32-bit words and their bytes, least significant first. ----

  /** byte(x, 0) to byte(x, 3) */
  function Byte0(x: bv32): bv8 { (x & 0xff) as bv8 }

  function Byte1(x: bv32): bv8 { ((x >> 8) & 0xff) as bv8 }

  function Byte2(x: bv32): bv8 { ((x >> 16) & 0xff) as bv8 }

  function Byte3(x: bv32): bv8 { ((x >> 24) & 0xff) as bv8 }

  function Pack(b0: bv8, b1: bv8, b2: bv8, b3: bv8): bv32 {
    (b0 as bv32) | ((b1 as bv32) << 8) | ((b2 as bv32) << 16) | ((b3 as bv32) << 24)
  }

  /** generic_rotl32 by 8, 16 and 24; generic_rotr32 by 24, 16 and 8 */
  function RotL8(x: bv32): bv32 { (x << 8) | (x >> 24) }

  function RotL16(x: bv32): bv32 { (x << 16) | (x >> 16) }

  function RotL24(x: bv32): bv32 { (x << 24) | (x >> 8) }

  /** A word as a column of the state. */
  function Col(x: bv32): Column {
    Column(Byte0(x), Byte1(x), Byte2(x), Byte3(x))
  }

  lemma ColPack(b0: bv8, b1: bv8, b2: bv8, b3: bv8)
    ensures Col(Pack(b0, b1, b2, b3)) == Column(b0, b1, b2, b3)
  {
  }

  /** x ^ y on words. */
  function XorW(x: bv32, y: bv32): bv32 {
    x ^ y
  }

  lemma BytesXor(x: bv32, y: bv32)
    ensures ((x ^ y) & 0xff) as bv8 == ((x & 0xff) as bv8) ^ ((y & 0xff) as bv8)
    ensures (((x ^ y) >> 8) & 0xff) as bv8 == (((x >> 8) & 0xff) as bv8) ^ (((y >> 8) & 0xff) as bv8)
    ensures (((x ^ y) >> 16) & 0xff) as bv8 == (((x >> 16) & 0xff) as bv8) ^ (((y >> 16) & 0xff) as bv8)
    ensures (((x ^ y) >> 24) & 0xff) as bv8 == (((x >> 24) & 0xff) as bv8) ^ (((y >> 24) & 0xff) as bv8)
  {
  }

  lemma Byte0Xor(x: bv32, y: bv32)
    ensures Byte0(XorW(x, y)) == Add(Byte0(x), Byte0(y))
  {
    BytesXor(x, y);
  }

  lemma Byte1Xor(x: bv32, y: bv32)
    ensures Byte1(XorW(x, y)) == Add(Byte1(x), Byte1(y))
  {
    BytesXor(x, y);
  }

  lemma Byte2Xor(x: bv32, y: bv32)
    ensures Byte2(XorW(x, y)) == Add(Byte2(x), Byte2(y))
  {
    BytesXor(x, y);
  }

  lemma Byte3Xor(x: bv32, y: bv32)
    ensures Byte3(XorW(x, y)) == Add(Byte3(x), Byte3(y))
  {
    BytesXor(x, y);
  }

  lemma ColXor(x: bv32, y: bv32)
    ensures Col(XorW(x, y)) == AddColumn(Col(x), Col(y))
  {
    hide Byte0;
    hide Byte1;
    hide Byte2;
    hide Byte3;
    hide XorW;
    hide Add;
    Byte0Xor(x, y);
    Byte1Xor(x, y);
    Byte2Xor(x, y);
    Byte3Xor(x, y);
  }

  /** Rotating a word left by whole bytes moves the bytes of the column down. */
  lemma ColRotL8(x: bv32)
    ensures Col(RotL8(x)) == Column(Byte3(x), Byte0(x), Byte1(x), Byte2(x))
  {
  }

  lemma ColRotL16(x: bv32)
    ensures Col(RotL16(x)) == Column(Byte2(x), Byte3(x), Byte0(x), Byte1(x))
  {
  }

  lemma ColRotL24(x: bv32)
    ensures Col(RotL24(x)) == Column(Byte1(x), Byte2(x), Byte3(x), Byte0(x))
  {
  }

  /** star_x: four bytes multiplied by x at once. */
  function StarX(x: bv32): bv32 {
    ((x & 0x7f7f7f7f) << 1) ^ (((x & 0x80808080) >> 7) * 0x1b)
  }

  lemma ColStarX(x: bv32)
    ensures Col(StarX(x)) == Column(Xtime(Byte0(x)), Xtime(Byte1(x)), Xtime(Byte2(x)), Xtime(Byte3(x)))
  {
  }

  // ---- The field tables. ----

  /** pow_tab and log_tab: powers of 3 and logarithms to base 3. */
  ghost predicate FieldTables(pow: seq<bv8>, log: seq<bv8>) {
    && |pow| == 256 && |log| == 256
    && (forall i: nat :: i < 256 ==> pow[i] == Pow(i))
    && (forall i: nat :: i < 255 ==> log[Index(Pow(i))] == ByteAt(i))
  }

  /** The first loop of gen_tabs, and the reset of log_tab[1] after it. */
  method GenLogPow(powTab: array<bv8>, logTab: array<bv8>)
    requires powTab.Length == 256 && logTab.Length == 256 && powTab != logTab
    modifies powTab, logTab
    ensures FieldTables(powTab[..], logTab[..])
  {
    hide Pow;
    hide Index;
    hide ByteAt;
    PowStart();
    var p: bv8 := 1;
    for i := 0 to 256
      invariant p == Pow(i)
      invariant forall j: nat :: j < i ==> powTab[j] == Pow(j)
      invariant forall j: nat :: j < i && j < 255 && (i == 256 ==> j != 0) ==> logTab[Index(Pow(j))] == ByteAt(j)
    {
      forall j: nat | j < i && j < 255 && (i == 255 ==> j != 0) ensures Index(Pow(j)) != Index(Pow(i)) {
        LogClash(i, j);
      }
      powTab[i] := p;
      logTab[Index(p)] := ByteAt(i);
      NextPow(i, p);
      p := p ^ ((p << 1) ^ (if p & 0x80 != 0 then 0x1b else 0));
    }
    LogOfOne();
    logTab[Index(1)] := 0;
  }

  lemma NextPow(i: nat, p: bv8)
    requires p == Pow(i)
    ensures p ^ ((p << 1) ^ (if p & 0x80 != 0 then 0x1b else 0)) == Pow(i + 1)
  {
    XtimeByCases(p);
  }

  lemma LogClash(i: nat, j: nat)
    requires j < i <= 255 && j < 255 && (i == 255 ==> j != 0)
    ensures Index(Pow(j)) != Index(Pow(i))
  {
    hide Pow;
    hide Index;
    if i == 255 {
      Powers17();
      PowStart();
      PowInjective(0, j);
    } else {
      PowInjective(j, i);
    }
    if Index(Pow(j)) == Index(Pow(i)) { IndexInjective(Pow(j), Pow(i)); }
  }

  /** The slot of 1 belongs to exponent 0 alone. */
  lemma LogOfOne()
    ensures Pow(0) == 1 && ByteAt(0) == 0
    ensures forall j: nat :: 0 < j < 255 ==> Index(Pow(j)) != Index(1)
  {
    hide Pow;
    hide Index;
    PowStart();
    forall j: nat | 0 < j < 255 ensures Index(Pow(j)) != Index(1) { LogClash(j, 0); }
  }

  /** log_tab at a non-zero byte. */
  lemma LogEntry(pow: seq<bv8>, log: seq<bv8>, x: bv8)
    requires FieldTables(pow, log) && x != 0
    ensures Index(log[Index(x)]) == Log(x)
  {
    hide Pow;
    hide Index;
    hide ByteAt;
    assert log[Index(Pow(Log(x)))] == ByteAt(Log(x));
    IndexOfByte(Log(x));
  }

  /** The index f_mult looks up: a byte addition with end-around carry adds logarithms modulo 255. */
  function CarryIndex(aa: nat, bb: nat): nat {
    var cc := (aa + bb) % 256;
    cc + (if cc < aa then 1 else 0)
  }

  lemma CarryIndexIsSum(aa: nat, bb: nat)
    requires aa < 255 && bb < 255
    ensures CarryIndex(aa, bb) < 256
    ensures CarryIndex(aa, bb) == aa + bb || CarryIndex(aa, bb) + 255 == aa + bb
  {
  }

  /** f_mult */
  function FMult(pow: seq<bv8>, log: seq<bv8>, a: bv8, b: bv8): (r: bv8)
    requires FieldTables(pow, log) && a != 0 && b != 0
    ensures r == Mul(a, b)
  {
    FMultIsProduct(pow, log, a, b);
    pow[CarryIndex(Index(log[Index(a)]), Index(log[Index(b)]))]
  }

  lemma FMultIsProduct(pow: seq<bv8>, log: seq<bv8>, a: bv8, b: bv8)
    requires FieldTables(pow, log) && a != 0 && b != 0
    ensures CarryIndex(Index(log[Index(a)]), Index(log[Index(b)])) < 256
    ensures pow[CarryIndex(Index(log[Index(a)]), Index(log[Index(b)]))] == Mul(a, b)
  {
    hide Pow;
    hide Mul;
    hide CarryIndex;
    LogEntry(pow, log, a);
    LogEntry(pow, log, b);
    CarryIndexIsSum(Log(a), Log(b));
    var k := CarryIndex(Log(a), Log(b));
    PowAdd(Log(a), Log(b));
    PowPeriod(1, k);
    assert pow[k] == Pow(k);
  }

  /** ff_mult */
  function FfMult(pow: seq<bv8>, log: seq<bv8>, a: bv8, b: bv8): (r: bv8)
    requires FieldTables(pow, log)
    ensures r == Mul(a, b)
  {
    MulByZero(a);
    MulByZero(b);
    if a != 0 && b != 0 then FMult(pow, log, a, b) else 0
  }

  // ---- The S-box tables. ----

  ghost predicate SBoxTables(sbx: seq<bv8>, isb: seq<bv8>) {
    && |sbx| == 256 && |isb| == 256
    && (forall i: nat :: i < 256 ==> sbx[i] == SubByte(ByteAt(i)))
    && (forall i: nat :: i < 256 ==> isb[i] == InvSubByte(ByteAt(i)))
  }

  /** The affine map as gen_tabs computes it, with two rotations shared. */
  function AffineShared(p: bv8): bv8 {
    var q := ((p >> 7) | (p << 1)) ^ ((p >> 6) | (p << 2));
    p ^ (0x63 ^ q ^ ((q >> 6) | (q << 2)))
  }

  lemma AffineSharedIsAffine(p: bv8)
    ensures AffineShared(p) == Affine(p)
  {
  }

  /** What gen_tabs takes for the inverse of i. */
  function InverseOf(pow: seq<bv8>, log: seq<bv8>, i: nat): (r: bv8)
    requires FieldTables(pow, log) && i < 256
    ensures r == Inverse(ByteAt(i))
  {
    InverseEntry(pow, log, ByteAt(i));
    IndexOfByte(i);
    if i != 0 then pow[255 - Index(log[i])] else 0
  }

  lemma InverseEntry(pow: seq<bv8>, log: seq<bv8>, x: bv8)
    requires FieldTables(pow, log)
    ensures x != 0 ==> 0 < 255 - Index(log[Index(x)]) && pow[255 - Index(log[Index(x)])] == Inverse(x)
    ensures x == 0 ==> Inverse(x) == 0
    ensures x == 0 <==> Index(x) == 0
  {
    hide Pow;
    hide Index;
    hide ByteAt;
    Index255(x);
    if x != 0 { LogEntry(pow, log, x); }
  }

  /** The third loop of gen_tabs. */
  method GenSBox(pow: seq<bv8>, log: seq<bv8>, sbxTab: array<bv8>, isbTab: array<bv8>)
    requires FieldTables(pow, log)
    requires sbxTab.Length == 256 && isbTab.Length == 256 && sbxTab != isbTab
    modifies sbxTab, isbTab
    ensures SBoxTables(sbxTab[..], isbTab[..])
  {
    hide FieldTables;
    hide SubByte;
    hide Inverse;
    hide AffineShared;
    hide ByteAt;
    hide Index;
    for i := 0 to 256
      invariant forall j: nat :: j < i ==> sbxTab[j] == SubByte(ByteAt(j))
      invariant forall j: nat :: j < i ==> isbTab[Index(SubByte(ByteAt(j)))] == ByteAt(j)
    {
      var p := InverseOf(pow, log, i);
      p := AffineShared(p);
      SubByteShared(ByteAt(i));
      forall j: nat | j < i ensures Index(SubByte(ByteAt(j))) != Index(p) { SBoxClash(j, i); }
      sbxTab[i] := p;
      isbTab[Index(p)] := ByteAt(i);
    }
    SBoxComplete(sbxTab[..], isbTab[..]);
  }

  lemma SubByteShared(x: bv8)
    ensures AffineShared(Inverse(x)) == SubByte(x)
  {
    hide Inverse;
    hide Affine;
    hide AffineShared;
    AffineSharedIsAffine(Inverse(x));
  }

  lemma SBoxClash(j: nat, i: nat)
    requires j < i < 256
    ensures Index(SubByte(ByteAt(j))) != Index(SubByte(ByteAt(i)))
  {
    hide SubByte;
    hide InvSubByte;
    hide ByteAt;
    hide Index;
    SubByteInverts(ByteAt(j));
    SubByteInverts(ByteAt(i));
    IndexOfByte(j);
    IndexOfByte(i);
    if Index(SubByte(ByteAt(j))) == Index(SubByte(ByteAt(i))) {
      IndexInjective(SubByte(ByteAt(j)), SubByte(ByteAt(i)));
    }
  }

  lemma SBoxComplete(sbx: seq<bv8>, isb: seq<bv8>)
    requires |sbx| == 256 && |isb| == 256
    requires forall j: nat :: j < 256 ==> sbx[j] == SubByte(ByteAt(j))
    requires forall j: nat :: j < 256 ==> isb[Index(SubByte(ByteAt(j)))] == ByteAt(j)
    ensures SBoxTables(sbx, isb)
  {
    hide SubByte;
    hide InvSubByte;
    hide ByteAt;
    hide Index;
    forall i: nat | i < 256 ensures isb[i] == InvSubByte(ByteAt(i)) {
      var y := InvSubByte(ByteAt(i));
      SubByteInverts(ByteAt(i));
      ByteAtIndex(y);
      IndexOfByte(i);
      assert isb[Index(SubByte(ByteAt(Index(y))))] == ByteAt(Index(y));
    }
  }

  // ---- The round tables. ----

  /** A column with its bytes moved k places down. */
  function Rotated(c: Column, k: nat): Column {
    if k == 0 then c
    else if k == 1 then Column(c.b3, c.b0, c.b1, c.b2)
    else if k == 2 then Column(c.b2, c.b3, c.b0, c.b1)
    else Column(c.b1, c.b2, c.b3, c.b0)
  }

  /** S-box output alone (fl_tab), times the first column of the MixColumns matrix (ft_tab), and the same for
      the inverse S-box (il_tab, it_tab). */
  ghost function FlBase(x: bv8): Column {
    Column(SubByte(x), 0, 0, 0)
  }

  ghost function FtBase(x: bv8): Column {
    var s := SubByte(x);
    Column(Mul(s, 2), s, s, Mul(s, 3))
  }

  ghost function IlBase(x: bv8): Column {
    Column(InvSubByte(x), 0, 0, 0)
  }

  ghost function ItBase(x: bv8): Column {
    var s := InvSubByte(x);
    Column(Mul(s, 14), Mul(s, 9), Mul(s, 13), Mul(s, 11))
  }

  /** Row k of a table holds the base columns rotated by k bytes, for the first n bytes. */
  ghost predicate Holds(tab: array2<bv32>, base: bv8 -> Column, n: nat)
    reads tab
  {
    && tab.Length0 == 4 && tab.Length1 == 256 && n <= 256
    && forall k: nat, i: nat :: k < 4 && i < n ==> Col(tab[k, i]) == Rotated(base(ByteAt(i)), k)
  }

  lemma NothingHeld(tab: array2<bv32>, base: bv8 -> Column)
    requires tab.Length0 == 4 && tab.Length1 == 256
    ensures Holds(tab, base, 0)
  {
  }

  method SetEntry(tab: array2<bv32>, i: nat, t: bv32, ghost base: bv8 -> Column)
    requires i < 256 && Holds(tab, base, i) && Col(t) == base(ByteAt(i))
    modifies tab
    ensures Holds(tab, base, i + 1)
  {
    hide Col;
    hide ByteAt;
    tab[0, i] := t;
    tab[1, i] := RotL8(t);
    tab[2, i] := RotL16(t);
    tab[3, i] := RotL24(t);
    EntryRotations(t);
  }

  lemma EntryRotations(t: bv32)
    ensures Col(RotL8(t)) == Rotated(Col(t), 1)
    ensures Col(RotL16(t)) == Rotated(Col(t), 2)
    ensures Col(RotL24(t)) == Rotated(Col(t), 3)
  {
    hide Byte0;
    hide Byte1;
    hide Byte2;
    hide Byte3;
    hide RotL8;
    hide RotL16;
    hide RotL24;
    ColRotL8(t);
    ColRotL16(t);
    ColRotL24(t);
  }

  lemma ColLowByte(p: bv8)
    ensures Col(p as bv32) == Column(p, 0, 0, 0)
  {
  }

  /** The static tables of aes.c that outlive initialisation. */
  class Tables {
    const rco: array<bv32>
    const ft: array2<bv32>
    const it: array2<bv32>
    const fl: array2<bv32>
    const il: array2<bv32>

    ghost predicate Shaped() {
      && rco.Length == 10
      && ft.Length0 == it.Length0 == fl.Length0 == il.Length0 == 4
      && ft.Length1 == it.Length1 == fl.Length1 == il.Length1 == 256
      && ft != it && ft != fl && ft != il && it != fl && it != il && fl != il
    }

    /** Every table holds what section 4.2, 5.1 and 5.2 of FIPS 197 say. */
    ghost predicate Good()
      reads rco, ft, it, fl, il
    {
      && Shaped()
      && (forall i: nat :: i < 10 ==> Col(rco[i]) == Rcon(i + 1))
      && Holds(ft, FtBase, 256) && Holds(it, ItBase, 256) && Holds(fl, FlBase, 256) && Holds(il, IlBase, 256)
    }

    /** gen_tabs */
    constructor ()
      ensures Good() && fresh(rco) && fresh(ft) && fresh(it) && fresh(fl) && fresh(il)
    {
      rco := new bv32[10];
      ft := new bv32[4, 256];
      it := new bv32[4, 256];
      fl := new bv32[4, 256];
      il := new bv32[4, 256];
      new;
      var powTab, logTab, sbxTab, isbTab := new bv8[256], new bv8[256], new bv8[256], new bv8[256];
      GenLogPow(powTab, logTab);
      GenSBox(powTab[..], logTab[..], sbxTab, isbTab);
      GenRcon();
      GenRounds(powTab[..], logTab[..], sbxTab[..], isbTab[..]);
    }

    /** The second loop of gen_tabs. */
    method GenRcon()
      requires Shaped()
      modifies rco
      ensures forall i: nat :: i < 10 ==> Col(rco[i]) == Rcon(i + 1)
    {
      hide Col;
      var p: bv8 := 1;
      for i := 0 to 10
        invariant p == RconByte(i + 1)
        invariant forall j: nat :: j < i ==> Col(rco[j]) == Rcon(j + 1)
      {
        ColLowByte(p);
        rco[i] := p as bv32;
        XtimeByCases(p);
        p := (p << 1) ^ (if p & 0x80 != 0 then 0x1b else 0);
      }
    }

    /** The last loop of gen_tabs. */
    method GenRounds(pow: seq<bv8>, log: seq<bv8>, sbx: seq<bv8>, isb: seq<bv8>)
      requires Shaped() && FieldTables(pow, log) && SBoxTables(sbx, isb)
      modifies ft, it, fl, il
      ensures Holds(ft, FtBase, 256) && Holds(it, ItBase, 256) && Holds(fl, FlBase, 256) && Holds(il, IlBase, 256)
    {
      hide FieldTables;
      hide Col;
      hide Holds;
      hide ByteAt;
      hide SubByte;
      hide InvSubByte;
      hide Mul;
      NothingHeld(ft, FtBase);
      NothingHeld(it, ItBase);
      NothingHeld(fl, FlBase);
      NothingHeld(il, IlBase);
      for i := 0 to 256
        invariant Holds(ft, FtBase, i) && Holds(it, ItBase, i) && Holds(fl, FlBase, i) && Holds(il, IlBase, i)
      {
        var p := sbx[i];
        ColLowByte(p);
        SetEntry(fl, i, p as bv32, FlBase);
        SetEntry(ft, i, ForwardWord(pow, log, p), FtBase);
        p := isb[i];
        ColLowByte(p);
        SetEntry(il, i, p as bv32, IlBase);
        SetEntry(it, i, InverseWord(pow, log, p), ItBase);
      }
    }
  }

  function ForwardWord(pow: seq<bv8>, log: seq<bv8>, p: bv8): (t: bv32)
    requires FieldTables(pow, log)
    ensures Col(t) == Column(Mul(p, 2), p, p, Mul(p, 3))
  {
    ColPack(FfMult(pow, log, 2, p), p, p, FfMult(pow, log, 3, p));
    MulCommutes(2, p);
    MulCommutes(3, p);
    Pack(FfMult(pow, log, 2, p), p, p, FfMult(pow, log, 3, p))
  }

  function InverseWord(pow: seq<bv8>, log: seq<bv8>, p: bv8): (t: bv32)
    requires FieldTables(pow, log)
    ensures Col(t) == Column(Mul(p, 14), Mul(p, 9), Mul(p, 13), Mul(p, 11))
  {
    ColPack(FfMult(pow, log, 14, p), FfMult(pow, log, 9, p), FfMult(pow, log, 13, p), FfMult(pow, log, 11, p));
    MulCommutes(14, p);
    MulCommutes(9, p);
    MulCommutes(13, p);
    MulCommutes(11, p);
    Pack(FfMult(pow, log, 14, p), FfMult(pow, log, 9, p), FfMult(pow, log, 13, p), FfMult(pow, log, 11, p))
  }
}
