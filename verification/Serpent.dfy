/** The cipher of serpent.c over an arbitrary expanded key: encryption, decryption and the byte-reversed tnepres. */
module Serpent {
  import opened BitSlice
  import opened WordOps
  import opened SerpentBoxes

  type Block = Quad<bv32>

  // ---- The linear transformation and its inverse. ----

  function Rol1(x: bv32): bv32 { (x << 1) | (x >> 31) }

  function Ror1(x: bv32): bv32 { (x >> 1) | (x << 31) }

  function Rol3(x: bv32): bv32 { (x << 3) | (x >> 29) }

  function Ror3(x: bv32): bv32 { (x >> 3) | (x << 29) }

  function Rol5(x: bv32): bv32 { (x << 5) | (x >> 27) }

  function Ror5(x: bv32): bv32 { (x >> 5) | (x << 27) }

  function Rol7(x: bv32): bv32 { (x << 7) | (x >> 25) }

  function Ror7(x: bv32): bv32 { (x >> 7) | (x << 25) }

  function Rol13(x: bv32): bv32 { (x << 13) | (x >> 19) }

  function Ror13(x: bv32): bv32 { (x >> 13) | (x << 19) }

  function Rol22(x: bv32): bv32 { (x << 22) | (x >> 10) }

  function Ror22(x: bv32): bv32 { (x >> 22) | (x << 10) }

  function Shl3(x: bv32): bv32 { x << 3 }

  function Shl7(x: bv32): bv32 { x << 7 }

  /** The four words k[4*i] to k[4*i+3] of an expanded key. */
  function KeyAt(k: seq<bv32>, i: nat): Block {
    if |k| == 132 && i <= 32 then Quad(k[4 * i], k[4 * i + 1], k[4 * i + 2], k[4 * i + 3]) else Quad(0, 0, 0, 0)
  }

  /** The macro K: key mixing. */
  function Mix(x: Block, k: Block): Block {
    Quad(Xor(x.a, k.a), Xor(x.b, k.b), Xor(x.c, k.c), Xor(x.d, k.d))
  }

  /** The linear transformation of the Serpent specification. */
  function L(x: Block): Block {
    var a := Rol13(x.a);
    var c := Rol3(x.c);
    var b := Rol1(Xor(Xor(x.b, a), c));
    var d := Rol7(Xor(Xor(x.d, c), Shl3(a)));
    Quad(Rol5(Xor(Xor(a, b), d)), b, Rol22(Xor(Xor(c, d), Shl7(b))), d)
  }

  /** Its inverse. */
  function InvL(x: Block): Block {
    var c := Xor(Xor(Ror22(x.c), x.d), Shl7(x.b));
    var a := Xor(Xor(Ror5(x.a), x.b), x.d);
    Quad(Ror13(a), Xor(Xor(Ror1(x.b), a), c), Ror3(c), Xor(Xor(Ror7(x.d), c), Shl3(a)))
  }

  /** What the macro LK is for: linear transformation, then key mixing. */
  function LK(x: Block, k: Block): Block {
    Mix(L(x), k)
  }

  /** What the macro KL is for: key mixing, then the inverse linear transformation. */
  function KL(x: Block, k: Block): Block {
    InvL(Mix(x, k))
  }

  lemma RorRol1(x: bv32)
    ensures Ror1(Rol1(x)) == x
  {
  }

  lemma RorRol3(x: bv32)
    ensures Ror3(Rol3(x)) == x
  {
  }

  lemma RorRol5(x: bv32)
    ensures Ror5(Rol5(x)) == x
  {
  }

  lemma RorRol7(x: bv32)
    ensures Ror7(Rol7(x)) == x
  {
  }

  lemma RorRol13(x: bv32)
    ensures Ror13(Rol13(x)) == x
  {
  }

  lemma RorRol22(x: bv32)
    ensures Ror22(Rol22(x)) == x
  {
  }

  lemma RolRor1(x: bv32)
    ensures Rol1(Ror1(x)) == x
  {
  }

  lemma RolRor3(x: bv32)
    ensures Rol3(Ror3(x)) == x
  {
  }

  lemma RolRor5(x: bv32)
    ensures Rol5(Ror5(x)) == x
  {
  }

  lemma RolRor7(x: bv32)
    ensures Rol7(Ror7(x)) == x
  {
  }

  lemma RolRor13(x: bv32)
    ensures Rol13(Ror13(x)) == x
  {
  }

  lemma RolRor22(x: bv32)
    ensures Rol22(Ror22(x)) == x
  {
  }

  lemma MixTwice(x: Block, k: Block)
    ensures Mix(Mix(x, k), k) == x
  {
    hide Xor;
    XorTwice(x.a, k.a);
    XorTwice(x.b, k.b);
    XorTwice(x.c, k.c);
    XorTwice(x.d, k.d);
  }

  /** The inverse transformation undoes the transformation. */
  lemma LInverts(x: Block)
    ensures InvL(L(x)) == x
  {
    hide Xor; hide Shl3; hide Shl7;
    hide Rol1; hide Ror1; hide Rol3; hide Ror3; hide Rol5; hide Ror5; hide Rol7; hide Ror7; hide Rol13; hide Ror13;
    hide Rol22; hide Ror22;
    var a, c := Rol13(x.a), Rol3(x.c);
    var b, d := Rol1(Xor(Xor(x.b, a), c)), Rol7(Xor(Xor(x.d, c), Shl3(a)));
    RorRol5(Xor(Xor(a, b), d)); RorRol22(Xor(Xor(c, d), Shl7(b)));
    XorCommute(a, b, d); XorCommute(c, d, Shl7(b));
    RorRol1(Xor(Xor(x.b, a), c)); RorRol7(Xor(Xor(x.d, c), Shl3(a)));
    RorRol13(x.a); RorRol3(x.c);
    XorCommute(x.b, a, c); XorCommute(x.d, c, Shl3(a));
  }

  /** And the other way round. */
  lemma LUndone(x: Block)
    ensures L(InvL(x)) == x
  {
    hide Xor; hide Shl3; hide Shl7;
    hide Rol1; hide Ror1; hide Rol3; hide Ror3; hide Rol5; hide Ror5; hide Rol7; hide Ror7; hide Rol13; hide Ror13;
    hide Rol22; hide Ror22;
    var c, a := Xor(Xor(Ror22(x.c), x.d), Shl7(x.b)), Xor(Xor(Ror5(x.a), x.b), x.d);
    RolRor13(a); RolRor3(c);
    XorCommute(Ror1(x.b), a, c); XorCommute(Ror7(x.d), c, Shl3(a));
    RolRor1(x.b); RolRor7(x.d);
    XorCommute(Ror5(x.a), x.b, x.d); XorCommute(Ror22(x.c), x.d, Shl7(x.b));
    RolRor5(x.a); RolRor22(x.c);
  }

  /** KL undoes LK under the same round key. */
  lemma LinearInverts(x: Block, k: Block)
    ensures KL(LK(x, k), k) == x
  {
    hide L; hide InvL; hide Mix;
    MixTwice(L(x), k);
    LInverts(x);
  }

  /** And LK undoes KL. */
  lemma LinearUndone(x: Block, k: Block)
    ensures LK(KL(x, k), k) == x
  {
    hide L; hide InvL; hide Mix;
    LUndone(Mix(x, k));
    MixTwice(x, k);
  }

  /** Two operands can be taken out in the order they went in. */
  lemma XorCommute(x: bv32, y: bv32, z: bv32)
    ensures Xor(Xor(Xor(Xor(x, y), z), y), z) == x
  {
    XorCancel(x, y, z);
  }

  lemma XorCancel(x: bv32, y: bv32, z: bv32)
    ensures (((x ^ y) ^ z) ^ y) ^ z == x
  {
  }

  // ---- The cipher by rounds. ----

  /** The state after i of the rounds that end in the linear transformation. */
  function Encrypted(p: Block, k: seq<bv32>, i: nat): Block {
    if i == 0 then Mix(p, KeyAt(k, 0)) else LK(Box((i - 1) % 8, WORDS, Encrypted(p, k, i - 1)), KeyAt(k, i))
  }

  /** The whole cipher: 31 such rounds, and a last one that ends in key mixing. */
  function Cipher(p: Block, k: seq<bv32>): Block {
    Mix(Box(7, WORDS, Encrypted(p, k, 31)), KeyAt(k, 32))
  }

  /** The state of decryption with i rounds still to undo. */
  function Decrypted(c: Block, k: seq<bv32>, i: nat): Block
    requires i <= 31
    decreases 31 - i
  {
    if i == 31 then InvBox(7, WORDS, Mix(c, KeyAt(k, 32)))
    else InvBox(i % 8, WORDS, KL(Decrypted(c, k, i + 1), KeyAt(k, i + 1)))
  }

  function Decipher(c: Block, k: seq<bv32>): Block {
    Mix(Decrypted(c, k, 0), KeyAt(k, 0))
  }

  lemma {:induction false} DecryptedIsEncrypted(p: Block, k: seq<bv32>, i: nat)
    requires i <= 31
    ensures Decrypted(Cipher(p, k), k, i) == Encrypted(p, k, i)
    decreases 31 - i
  {
    hide Box; hide InvBox; hide Mix; hide LK; hide KL; hide KeyAt;
    if i == 31 {
      MixTwice(Box(7, WORDS, Encrypted(p, k, 31)), KeyAt(k, 32));
      BoxInverts(7, Encrypted(p, k, 31));
    } else {
      DecryptedIsEncrypted(p, k, i + 1);
      LinearInverts(Box(i % 8, WORDS, Encrypted(p, k, i)), KeyAt(k, i + 1));
      BoxInverts(i % 8, Encrypted(p, k, i));
    }
  }

  /** Decryption undoes encryption through all 32 rounds, under every expanded key. */
  lemma CipherInverts(p: Block, k: seq<bv32>)
    ensures Decipher(Cipher(p, k), k) == p
  {
    hide Mix; hide Cipher; hide KeyAt; hide Decrypted;
    DecryptedIsEncrypted(p, k, 0);
    MixTwice(p, KeyAt(k, 0));
  }

  lemma {:induction false} EncryptedIsDecrypted(c: Block, k: seq<bv32>, i: nat)
    requires i <= 31
    ensures Encrypted(Decipher(c, k), k, i) == Decrypted(c, k, i)
  {
    hide Box; hide InvBox; hide Mix; hide LK; hide KL; hide KeyAt;
    if i == 0 {
      MixTwice(Decrypted(c, k, 0), KeyAt(k, 0));
    } else {
      EncryptedIsDecrypted(c, k, i - 1);
      BoxUndone((i - 1) % 8, KL(Decrypted(c, k, i), KeyAt(k, i)));
      LinearUndone(Decrypted(c, k, i), KeyAt(k, i));
    }
  }

  /** Encryption undoes decryption. */
  lemma DecipherInverts(c: Block, k: seq<bv32>)
    ensures Cipher(Decipher(c, k), k) == c
  {
    hide Mix; hide Decipher; hide KeyAt; hide Box; hide InvBox; hide KL; hide LK;
    EncryptedIsDecrypted(c, k, 31);
    BoxUndone(7, Mix(c, KeyAt(k, 32)));
    MixTwice(c, KeyAt(k, 32));
  }

  // ---- The register-level programs. ----

  method Sub0(x0: bv32, x1: bv32, x2: bv32, x3: bv32) returns (y0: bv32, y1: bv32, y2: bv32, y3: bv32, y4: bv32)
    ensures Quad(y2, y1, y3, y0) == Box(0, WORDS, Quad(x0, x1, x2, x3))
  {
    hide S0;
    var r := S0(WORDS, x0, x1, x2, x3);
    y0, y1, y2, y3, y4 := r.x0, r.x1, r.x2, r.x3, r.x4;
  }

  method Sub1(x0: bv32, x1: bv32, x2: bv32, x3: bv32) returns (y0: bv32, y1: bv32, y2: bv32, y3: bv32, y4: bv32)
    ensures Quad(y4, y2, y3, y0) == Box(1, WORDS, Quad(x0, x1, x2, x3))
  {
    hide S1;
    var r := S1(WORDS, x0, x1, x2, x3);
    y0, y1, y2, y3, y4 := r.x0, r.x1, r.x2, r.x3, r.x4;
  }

  method Sub2(x0: bv32, x1: bv32, x2: bv32, x3: bv32) returns (y0: bv32, y1: bv32, y2: bv32, y3: bv32, y4: bv32)
    ensures Quad(y4, y1, y0, y3) == Box(2, WORDS, Quad(x0, x1, x2, x3))
  {
    hide S2;
    var r := S2(WORDS, x0, x1, x2, x3);
    y0, y1, y2, y3, y4 := r.x0, r.x1, r.x2, r.x3, r.x4;
  }

  method Sub3(x0: bv32, x1: bv32, x2: bv32, x3: bv32) returns (y0: bv32, y1: bv32, y2: bv32, y3: bv32, y4: bv32)
    ensures Quad(y3, y4, y1, y0) == Box(3, WORDS, Quad(x0, x1, x2, x3))
  {
    hide S3;
    var r := S3(WORDS, x0, x1, x2, x3);
    y0, y1, y2, y3, y4 := r.x0, r.x1, r.x2, r.x3, r.x4;
  }

  method Sub4(x0: bv32, x1: bv32, x2: bv32, x3: bv32) returns (y0: bv32, y1: bv32, y2: bv32, y3: bv32, y4: bv32)
    ensures Quad(y1, y2, y3, y4) == Box(4, WORDS, Quad(x0, x1, x2, x3))
  {
    hide S4;
    var r := S4(WORDS, x0, x1, x2, x3);
    y0, y1, y2, y3, y4 := r.x0, r.x1, r.x2, r.x3, r.x4;
  }

  method Sub5(x0: bv32, x1: bv32, x2: bv32, x3: bv32) returns (y0: bv32, y1: bv32, y2: bv32, y3: bv32, y4: bv32)
    ensures Quad(y4, y0, y1, y3) == Box(5, WORDS, Quad(x0, x1, x2, x3))
  {
    hide S5;
    var r := S5(WORDS, x0, x1, x2, x3);
    y0, y1, y2, y3, y4 := r.x0, r.x1, r.x2, r.x3, r.x4;
  }

  method Sub6(x0: bv32, x1: bv32, x2: bv32, x3: bv32) returns (y0: bv32, y1: bv32, y2: bv32, y3: bv32, y4: bv32)
    ensures Quad(y2, y4, y1, y3) == Box(6, WORDS, Quad(x0, x1, x2, x3))
  {
    hide S6;
    var r := S6(WORDS, x0, x1, x2, x3);
    y0, y1, y2, y3, y4 := r.x0, r.x1, r.x2, r.x3, r.x4;
  }

  method Sub7(x0: bv32, x1: bv32, x2: bv32, x3: bv32) returns (y0: bv32, y1: bv32, y2: bv32, y3: bv32, y4: bv32)
    ensures Quad(y4, y2, y3, y0) == Box(7, WORDS, Quad(x0, x1, x2, x3))
  {
    hide S7;
    var r := S7(WORDS, x0, x1, x2, x3);
    y0, y1, y2, y3, y4 := r.x0, r.x1, r.x2, r.x3, r.x4;
  }

  method InvSub0(x0: bv32, x1: bv32, x2: bv32, x3: bv32) returns (y0: bv32, y1: bv32, y2: bv32, y3: bv32, y4: bv32)
    ensures Quad(y2, y4, y1, y0) == InvBox(0, WORDS, Quad(x0, x1, x2, x3))
  {
    hide SI0;
    var r := SI0(WORDS, x0, x1, x2, x3);
    y0, y1, y2, y3, y4 := r.x0, r.x1, r.x2, r.x3, r.x4;
  }

  method InvSub1(x0: bv32, x1: bv32, x2: bv32, x3: bv32) returns (y0: bv32, y1: bv32, y2: bv32, y3: bv32, y4: bv32)
    ensures Quad(y4, y1, y2, y3) == InvBox(1, WORDS, Quad(x0, x1, x2, x3))
  {
    hide SI1;
    var r := SI1(WORDS, x0, x1, x2, x3);
    y0, y1, y2, y3, y4 := r.x0, r.x1, r.x2, r.x3, r.x4;
  }

  method InvSub2(x0: bv32, x1: bv32, x2: bv32, x3: bv32) returns (y0: bv32, y1: bv32, y2: bv32, y3: bv32, y4: bv32)
    ensures Quad(y1, y4, y3, y2) == InvBox(2, WORDS, Quad(x0, x1, x2, x3))
  {
    hide SI2;
    var r := SI2(WORDS, x0, x1, x2, x3);
    y0, y1, y2, y3, y4 := r.x0, r.x1, r.x2, r.x3, r.x4;
  }

  method InvSub3(x0: bv32, x1: bv32, x2: bv32, x3: bv32) returns (y0: bv32, y1: bv32, y2: bv32, y3: bv32, y4: bv32)
    ensures Quad(y2, y0, y4, y3) == InvBox(3, WORDS, Quad(x0, x1, x2, x3))
  {
    hide SI3;
    var r := SI3(WORDS, x0, x1, x2, x3);
    y0, y1, y2, y3, y4 := r.x0, r.x1, r.x2, r.x3, r.x4;
  }

  method InvSub4(x0: bv32, x1: bv32, x2: bv32, x3: bv32) returns (y0: bv32, y1: bv32, y2: bv32, y3: bv32, y4: bv32)
    ensures Quad(y0, y2, y4, y3) == InvBox(4, WORDS, Quad(x0, x1, x2, x3))
  {
    hide SI4;
    var r := SI4(WORDS, x0, x1, x2, x3);
    y0, y1, y2, y3, y4 := r.x0, r.x1, r.x2, r.x3, r.x4;
  }

  method InvSub5(x0: bv32, x1: bv32, x2: bv32, x3: bv32) returns (y0: bv32, y1: bv32, y2: bv32, y3: bv32, y4: bv32)
    ensures Quad(y1, y4, y0, y2) == InvBox(5, WORDS, Quad(x0, x1, x2, x3))
  {
    hide SI5;
    var r := SI5(WORDS, x0, x1, x2, x3);
    y0, y1, y2, y3, y4 := r.x0, r.x1, r.x2, r.x3, r.x4;
  }

  method InvSub6(x0: bv32, x1: bv32, x2: bv32, x3: bv32) returns (y0: bv32, y1: bv32, y2: bv32, y3: bv32, y4: bv32)
    ensures Quad(y2, y4, y3, y0) == InvBox(6, WORDS, Quad(x0, x1, x2, x3))
  {
    hide SI6;
    var r := SI6(WORDS, x0, x1, x2, x3);
    y0, y1, y2, y3, y4 := r.x0, r.x1, r.x2, r.x3, r.x4;
  }

  method InvSub7(x0: bv32, x1: bv32, x2: bv32, x3: bv32) returns (y0: bv32, y1: bv32, y2: bv32, y3: bv32, y4: bv32)
    ensures Quad(y1, y3, y0, y4) == InvBox(7, WORDS, Quad(x0, x1, x2, x3))
  {
    hide SI7;
    var r := SI7(WORDS, x0, x1, x2, x3);
    y0, y1, y2, y3, y4 := r.x0, r.x1, r.x2, r.x3, r.x4;
  }

  /** The macro LK as it runs, with its scratch register. */
  method Lk(x0: bv32, x1: bv32, x2: bv32, x3: bv32, k: seq<bv32>, i: nat)
    returns (y0: bv32, y1: bv32, y2: bv32, y3: bv32, y4: bv32)
    requires |k| == 132 && i <= 32
    ensures Quad(y0, y1, y2, y3) == LK(Quad(x0, x1, x2, x3), KeyAt(k, i))
  {
    hide Xor; hide Shl3; hide Shl7;
    hide Rol1; hide Ror1; hide Rol3; hide Ror3; hide Rol5; hide Ror5; hide Rol7; hide Ror7; hide Rol13; hide Ror13;
    hide Rol22; hide Ror22;
    y0, y1, y2, y3 := x0, x1, x2, x3;
    y0 := Rol13(y0);
    y2 := Rol3(y2); y1 := Xor(y1, y0); y4 := Shl3(y0);
    y3 := Xor(y3, y2); y1 := Xor(y1, y2);
    y1 := Rol1(y1); y3 := Xor(y3, y4);
    y3 := Rol7(y3); y4 := y1;
    y0 := Xor(y0, y1); y4 := Shl7(y4); y2 := Xor(y2, y3);
    y0 := Xor(y0, y3); y2 := Xor(y2, y4); y3 := Xor(y3, k[4 * i + 3]);
    y1 := Xor(y1, k[4 * i + 1]); y0 := Rol5(y0); y2 := Rol22(y2);
    y0 := Xor(y0, k[4 * i]); y2 := Xor(y2, k[4 * i + 2]);
  }

  /** The macro KL as it runs. */
  method Kl(x0: bv32, x1: bv32, x2: bv32, x3: bv32, k: seq<bv32>, i: nat)
    returns (y0: bv32, y1: bv32, y2: bv32, y3: bv32, y4: bv32)
    requires |k| == 132 && i <= 32
    ensures Quad(y0, y1, y2, y3) == KL(Quad(x0, x1, x2, x3), KeyAt(k, i))
  {
    hide Xor; hide Shl3; hide Shl7;
    hide Rol1; hide Ror1; hide Rol3; hide Ror3; hide Rol5; hide Ror5; hide Rol7; hide Ror7; hide Rol13; hide Ror13;
    hide Rol22; hide Ror22;
    y0, y1, y2, y3 := x0, x1, x2, x3;
    y0 := Xor(y0, k[4 * i]); y1 := Xor(y1, k[4 * i + 1]); y2 := Xor(y2, k[4 * i + 2]);
    y3 := Xor(y3, k[4 * i + 3]); y0 := Ror5(y0); y2 := Ror22(y2);
    XorRight(y0, y3, y1);
    y4 := y1; y2 := Xor(y2, y3); y0 := Xor(y0, y3);
    y4 := Shl7(y4); y0 := Xor(y0, y1); y1 := Ror1(y1);
    y2 := Xor(y2, y4); y3 := Ror7(y3); y4 := Shl3(y0);
    XorRight(y3, y4, y2);
    y1 := Xor(y1, y0); y3 := Xor(y3, y4); y0 := Ror13(y0);
    y1 := Xor(y1, y2); y3 := Xor(y3, y2); y2 := Ror3(y2);
  }

  /** The macro K as it runs. */
  method Km(x0: bv32, x1: bv32, x2: bv32, x3: bv32, k: seq<bv32>, i: nat)
    returns (y0: bv32, y1: bv32, y2: bv32, y3: bv32)
    requires |k| == 132 && i <= 32
    ensures Quad(y0, y1, y2, y3) == Mix(Quad(x0, x1, x2, x3), KeyAt(k, i))
  {
    hide Xor;
    y3 := Xor(x3, k[4 * i + 3]); y2 := Xor(x2, k[4 * i + 2]);
    y1 := Xor(x1, k[4 * i + 1]); y0 := Xor(x0, k[4 * i]);
  }

  /** Lines 1 to 8 of serpent_encrypt. */
  method EncryptRounds0(a0: bv32, a1: bv32, a2: bv32, a3: bv32, a4: bv32, k: seq<bv32>, ghost p: Block)
    returns (r0: bv32, r1: bv32, r2: bv32, r3: bv32, r4: bv32)
    requires |k| == 132 && Quad(a0, a1, a2, a3) == Encrypted(p, k, 0)
    ensures Quad(r2, r0, r4, r3) == Encrypted(p, k, 8)
  {
    hide Box; hide InvBox; hide LK; hide KL; hide Mix; hide KeyAt; hide WORDS;
    r0, r1, r2, r3, r4 := a0, a1, a2, a3, a4;
    r0, r1, r2, r3, r4 := Sub0(r0, r1, r2, r3); r2, r1, r3, r0, r4 := Lk(r2, r1, r3, r0, k, 1);
    assert Quad(r2, r1, r3, r0) == Encrypted(p, k, 1);
    r2, r1, r3, r0, r4 := Sub1(r2, r1, r3, r0); r4, r3, r0, r2, r1 := Lk(r4, r3, r0, r2, k, 2);
    assert Quad(r4, r3, r0, r2) == Encrypted(p, k, 2);
    r4, r3, r0, r2, r1 := Sub2(r4, r3, r0, r2); r1, r3, r4, r2, r0 := Lk(r1, r3, r4, r2, k, 3);
    assert Quad(r1, r3, r4, r2) == Encrypted(p, k, 3);
    r1, r3, r4, r2, r0 := Sub3(r1, r3, r4, r2); r2, r0, r3, r1, r4 := Lk(r2, r0, r3, r1, k, 4);
    assert Quad(r2, r0, r3, r1) == Encrypted(p, k, 4);
    r2, r0, r3, r1, r4 := Sub4(r2, r0, r3, r1); r0, r3, r1, r4, r2 := Lk(r0, r3, r1, r4, k, 5);
    assert Quad(r0, r3, r1, r4) == Encrypted(p, k, 5);
    r0, r3, r1, r4, r2 := Sub5(r0, r3, r1, r4); r2, r0, r3, r4, r1 := Lk(r2, r0, r3, r4, k, 6);
    assert Quad(r2, r0, r3, r4) == Encrypted(p, k, 6);
    r2, r0, r3, r4, r1 := Sub6(r2, r0, r3, r4); r3, r1, r0, r4, r2 := Lk(r3, r1, r0, r4, k, 7);
    assert Quad(r3, r1, r0, r4) == Encrypted(p, k, 7);
    r3, r1, r0, r4, r2 := Sub7(r3, r1, r0, r4); r2, r0, r4, r3, r1 := Lk(r2, r0, r4, r3, k, 8);
    assert Quad(r2, r0, r4, r3) == Encrypted(p, k, 8);
  }

  /** Lines 9 to 16 of serpent_encrypt. */
  method EncryptRounds8(a0: bv32, a1: bv32, a2: bv32, a3: bv32, a4: bv32, k: seq<bv32>, ghost p: Block)
    returns (r0: bv32, r1: bv32, r2: bv32, r3: bv32, r4: bv32)
    requires |k| == 132 && Quad(a2, a0, a4, a3) == Encrypted(p, k, 8)
    ensures Quad(r4, r2, r1, r3) == Encrypted(p, k, 16)
  {
    hide Box; hide InvBox; hide LK; hide KL; hide Mix; hide KeyAt; hide WORDS;
    r0, r1, r2, r3, r4 := a0, a1, a2, a3, a4;
    r2, r0, r4, r3, r1 := Sub0(r2, r0, r4, r3); r4, r0, r3, r2, r1 := Lk(r4, r0, r3, r2, k, 9);
    assert Quad(r4, r0, r3, r2) == Encrypted(p, k, 9);
    r4, r0, r3, r2, r1 := Sub1(r4, r0, r3, r2); r1, r3, r2, r4, r0 := Lk(r1, r3, r2, r4, k, 10);
    assert Quad(r1, r3, r2, r4) == Encrypted(p, k, 10);
    r1, r3, r2, r4, r0 := Sub2(r1, r3, r2, r4); r0, r3, r1, r4, r2 := Lk(r0, r3, r1, r4, k, 11);
    assert Quad(r0, r3, r1, r4) == Encrypted(p, k, 11);
    r0, r3, r1, r4, r2 := Sub3(r0, r3, r1, r4); r4, r2, r3, r0, r1 := Lk(r4, r2, r3, r0, k, 12);
    assert Quad(r4, r2, r3, r0) == Encrypted(p, k, 12);
    r4, r2, r3, r0, r1 := Sub4(r4, r2, r3, r0); r2, r3, r0, r1, r4 := Lk(r2, r3, r0, r1, k, 13);
    assert Quad(r2, r3, r0, r1) == Encrypted(p, k, 13);
    r2, r3, r0, r1, r4 := Sub5(r2, r3, r0, r1); r4, r2, r3, r1, r0 := Lk(r4, r2, r3, r1, k, 14);
    assert Quad(r4, r2, r3, r1) == Encrypted(p, k, 14);
    r4, r2, r3, r1, r0 := Sub6(r4, r2, r3, r1); r3, r0, r2, r1, r4 := Lk(r3, r0, r2, r1, k, 15);
    assert Quad(r3, r0, r2, r1) == Encrypted(p, k, 15);
    r3, r0, r2, r1, r4 := Sub7(r3, r0, r2, r1); r4, r2, r1, r3, r0 := Lk(r4, r2, r1, r3, k, 16);
    assert Quad(r4, r2, r1, r3) == Encrypted(p, k, 16);
  }

  /** Lines 17 to 24 of serpent_encrypt. */
  method EncryptRounds16(a0: bv32, a1: bv32, a2: bv32, a3: bv32, a4: bv32, k: seq<bv32>, ghost p: Block)
    returns (r0: bv32, r1: bv32, r2: bv32, r3: bv32, r4: bv32)
    requires |k| == 132 && Quad(a4, a2, a1, a3) == Encrypted(p, k, 16)
    ensures Quad(r1, r4, r0, r3) == Encrypted(p, k, 24)
  {
    hide Box; hide InvBox; hide LK; hide KL; hide Mix; hide KeyAt; hide WORDS;
    r0, r1, r2, r3, r4 := a0, a1, a2, a3, a4;
    r4, r2, r1, r3, r0 := Sub0(r4, r2, r1, r3); r1, r2, r3, r4, r0 := Lk(r1, r2, r3, r4, k, 17);
    assert Quad(r1, r2, r3, r4) == Encrypted(p, k, 17);
    r1, r2, r3, r4, r0 := Sub1(r1, r2, r3, r4); r0, r3, r4, r1, r2 := Lk(r0, r3, r4, r1, k, 18);
    assert Quad(r0, r3, r4, r1) == Encrypted(p, k, 18);
    r0, r3, r4, r1, r2 := Sub2(r0, r3, r4, r1); r2, r3, r0, r1, r4 := Lk(r2, r3, r0, r1, k, 19);
    assert Quad(r2, r3, r0, r1) == Encrypted(p, k, 19);
    r2, r3, r0, r1, r4 := Sub3(r2, r3, r0, r1); r1, r4, r3, r2, r0 := Lk(r1, r4, r3, r2, k, 20);
    assert Quad(r1, r4, r3, r2) == Encrypted(p, k, 20);
    r1, r4, r3, r2, r0 := Sub4(r1, r4, r3, r2); r4, r3, r2, r0, r1 := Lk(r4, r3, r2, r0, k, 21);
    assert Quad(r4, r3, r2, r0) == Encrypted(p, k, 21);
    r4, r3, r2, r0, r1 := Sub5(r4, r3, r2, r0); r1, r4, r3, r0, r2 := Lk(r1, r4, r3, r0, k, 22);
    assert Quad(r1, r4, r3, r0) == Encrypted(p, k, 22);
    r1, r4, r3, r0, r2 := Sub6(r1, r4, r3, r0); r3, r2, r4, r0, r1 := Lk(r3, r2, r4, r0, k, 23);
    assert Quad(r3, r2, r4, r0) == Encrypted(p, k, 23);
    r3, r2, r4, r0, r1 := Sub7(r3, r2, r4, r0); r1, r4, r0, r3, r2 := Lk(r1, r4, r0, r3, k, 24);
    assert Quad(r1, r4, r0, r3) == Encrypted(p, k, 24);
  }

  /** Lines 25 to 32 of serpent_encrypt. */
  method EncryptRounds24(a0: bv32, a1: bv32, a2: bv32, a3: bv32, a4: bv32, k: seq<bv32>, ghost p: Block)
    returns (r0: bv32, r1: bv32, r2: bv32, r3: bv32, r4: bv32)
    requires |k| == 132 && Quad(a1, a4, a0, a3) == Encrypted(p, k, 24)
    ensures Quad(r0, r1, r2, r3) == Cipher(p, k)
  {
    hide Box; hide InvBox; hide LK; hide KL; hide Mix; hide KeyAt; hide WORDS;
    r0, r1, r2, r3, r4 := a0, a1, a2, a3, a4;
    r1, r4, r0, r3, r2 := Sub0(r1, r4, r0, r3); r0, r4, r3, r1, r2 := Lk(r0, r4, r3, r1, k, 25);
    assert Quad(r0, r4, r3, r1) == Encrypted(p, k, 25);
    r0, r4, r3, r1, r2 := Sub1(r0, r4, r3, r1); r2, r3, r1, r0, r4 := Lk(r2, r3, r1, r0, k, 26);
    assert Quad(r2, r3, r1, r0) == Encrypted(p, k, 26);
    r2, r3, r1, r0, r4 := Sub2(r2, r3, r1, r0); r4, r3, r2, r0, r1 := Lk(r4, r3, r2, r0, k, 27);
    assert Quad(r4, r3, r2, r0) == Encrypted(p, k, 27);
    r4, r3, r2, r0, r1 := Sub3(r4, r3, r2, r0); r0, r1, r3, r4, r2 := Lk(r0, r1, r3, r4, k, 28);
    assert Quad(r0, r1, r3, r4) == Encrypted(p, k, 28);
    r0, r1, r3, r4, r2 := Sub4(r0, r1, r3, r4); r1, r3, r4, r2, r0 := Lk(r1, r3, r4, r2, k, 29);
    assert Quad(r1, r3, r4, r2) == Encrypted(p, k, 29);
    r1, r3, r4, r2, r0 := Sub5(r1, r3, r4, r2); r0, r1, r3, r2, r4 := Lk(r0, r1, r3, r2, k, 30);
    assert Quad(r0, r1, r3, r2) == Encrypted(p, k, 30);
    r0, r1, r3, r2, r4 := Sub6(r0, r1, r3, r2); r3, r4, r1, r2, r0 := Lk(r3, r4, r1, r2, k, 31);
    assert Quad(r3, r4, r1, r2) == Encrypted(p, k, 31);
    r3, r4, r1, r2, r0 := Sub7(r3, r4, r1, r2); r0, r1, r2, r3 := Km(r0, r1, r2, r3, k, 32);
  }

  /** serpent_encrypt on the four words of a block. */
  method Encrypt(p: Block, k: seq<bv32>) returns (c: Block)
    requires |k| == 132
    ensures c == Cipher(p, k)
  {
    hide Encrypted; hide Cipher;
    EncryptedStart(p, k);
    var r0, r1, r2, r3 := Km(p.a, p.b, p.c, p.d, k, 0);
    var r4: bv32 := 0;
    r0, r1, r2, r3, r4 := EncryptRounds0(r0, r1, r2, r3, r4, k, p);
    r0, r1, r2, r3, r4 := EncryptRounds8(r0, r1, r2, r3, r4, k, p);
    r0, r1, r2, r3, r4 := EncryptRounds16(r0, r1, r2, r3, r4, k, p);
    r0, r1, r2, r3, r4 := EncryptRounds24(r0, r1, r2, r3, r4, k, p);
    c := Quad(r0, r1, r2, r3);
  }

  lemma EncryptedStart(p: Block, k: seq<bv32>)
    ensures Encrypted(p, k, 0) == Mix(p, KeyAt(k, 0))
  {
  }

  /** Lines 1 to 8 of serpent_decrypt. */
  method DecryptRounds0(a0: bv32, a1: bv32, a2: bv32, a3: bv32, a4: bv32, k: seq<bv32>, ghost c: Block)
    returns (r0: bv32, r1: bv32, r2: bv32, r3: bv32, r4: bv32)
    requires |k| == 132 && InvBox(7, WORDS, Quad(a0, a1, a2, a3)) == Decrypted(c, k, 31)
    ensures InvBox(7, WORDS, Quad(r4, r2, r0, r1)) == Decrypted(c, k, 23)
  {
    hide Box; hide InvBox; hide LK; hide KL; hide Mix; hide KeyAt; hide WORDS;
    r0, r1, r2, r3, r4 := a0, a1, a2, a3, a4;
    r0, r1, r2, r3, r4 := InvSub7(r0, r1, r2, r3); r1, r3, r0, r4, r2 := Kl(r1, r3, r0, r4, k, 31);
    r1, r3, r0, r4, r2 := InvSub6(r1, r3, r0, r4); r0, r2, r4, r1, r3 := Kl(r0, r2, r4, r1, k, 30);
    r0, r2, r4, r1, r3 := InvSub5(r0, r2, r4, r1); r2, r3, r0, r4, r1 := Kl(r2, r3, r0, r4, k, 29);
    r2, r3, r0, r4, r1 := InvSub4(r2, r3, r0, r4); r2, r0, r1, r4, r3 := Kl(r2, r0, r1, r4, k, 28);
    r2, r0, r1, r4, r3 := InvSub3(r2, r0, r1, r4); r1, r2, r3, r4, r0 := Kl(r1, r2, r3, r4, k, 27);
    r1, r2, r3, r4, r0 := InvSub2(r1, r2, r3, r4); r2, r0, r4, r3, r1 := Kl(r2, r0, r4, r3, k, 26);
    r2, r0, r4, r3, r1 := InvSub1(r2, r0, r4, r3); r1, r0, r4, r3, r2 := Kl(r1, r0, r4, r3, k, 25);
    r1, r0, r4, r3, r2 := InvSub0(r1, r0, r4, r3); r4, r2, r0, r1, r3 := Kl(r4, r2, r0, r1, k, 24);
  }

  /** Lines 9 to 16 of serpent_decrypt. */
  method DecryptRounds8(a0: bv32, a1: bv32, a2: bv32, a3: bv32, a4: bv32, k: seq<bv32>, ghost c: Block)
    returns (r0: bv32, r1: bv32, r2: bv32, r3: bv32, r4: bv32)
    requires |k| == 132 && InvBox(7, WORDS, Quad(a4, a2, a0, a1)) == Decrypted(c, k, 23)
    ensures InvBox(7, WORDS, Quad(r3, r0, r4, r2)) == Decrypted(c, k, 15)
  {
    hide Box; hide InvBox; hide LK; hide KL; hide Mix; hide KeyAt; hide WORDS;
    r0, r1, r2, r3, r4 := a0, a1, a2, a3, a4;
    r4, r2, r0, r1, r3 := InvSub7(r4, r2, r0, r1); r2, r1, r4, r3, r0 := Kl(r2, r1, r4, r3, k, 23);
    r2, r1, r4, r3, r0 := InvSub6(r2, r1, r4, r3); r4, r0, r3, r2, r1 := Kl(r4, r0, r3, r2, k, 22);
    r4, r0, r3, r2, r1 := InvSub5(r4, r0, r3, r2); r0, r1, r4, r3, r2 := Kl(r0, r1, r4, r3, k, 21);
    r0, r1, r4, r3, r2 := InvSub4(r0, r1, r4, r3); r0, r4, r2, r3, r1 := Kl(r0, r4, r2, r3, k, 20);
    r0, r4, r2, r3, r1 := InvSub3(r0, r4, r2, r3); r2, r0, r1, r3, r4 := Kl(r2, r0, r1, r3, k, 19);
    r2, r0, r1, r3, r4 := InvSub2(r2, r0, r1, r3); r0, r4, r3, r1, r2 := Kl(r0, r4, r3, r1, k, 18);
    r0, r4, r3, r1, r2 := InvSub1(r0, r4, r3, r1); r2, r4, r3, r1, r0 := Kl(r2, r4, r3, r1, k, 17);
    r2, r4, r3, r1, r0 := InvSub0(r2, r4, r3, r1); r3, r0, r4, r2, r1 := Kl(r3, r0, r4, r2, k, 16);
  }

  /** Lines 17 to 24 of serpent_decrypt. */
  method DecryptRounds16(a0: bv32, a1: bv32, a2: bv32, a3: bv32, a4: bv32, k: seq<bv32>, ghost c: Block)
    returns (r0: bv32, r1: bv32, r2: bv32, r3: bv32, r4: bv32)
    requires |k| == 132 && InvBox(7, WORDS, Quad(a3, a0, a4, a2)) == Decrypted(c, k, 15)
    ensures InvBox(7, WORDS, Quad(r1, r4, r3, r0)) == Decrypted(c, k, 7)
  {
    hide Box; hide InvBox; hide LK; hide KL; hide Mix; hide KeyAt; hide WORDS;
    r0, r1, r2, r3, r4 := a0, a1, a2, a3, a4;
    r3, r0, r4, r2, r1 := InvSub7(r3, r0, r4, r2); r0, r2, r3, r1, r4 := Kl(r0, r2, r3, r1, k, 15);
    r0, r2, r3, r1, r4 := InvSub6(r0, r2, r3, r1); r3, r4, r1, r0, r2 := Kl(r3, r4, r1, r0, k, 14);
    r3, r4, r1, r0, r2 := InvSub5(r3, r4, r1, r0); r4, r2, r3, r1, r0 := Kl(r4, r2, r3, r1, k, 13);
    r4, r2, r3, r1, r0 := InvSub4(r4, r2, r3, r1); r4, r3, r0, r1, r2 := Kl(r4, r3, r0, r1, k, 12);
    r4, r3, r0, r1, r2 := InvSub3(r4, r3, r0, r1); r0, r4, r2, r1, r3 := Kl(r0, r4, r2, r1, k, 11);
    r0, r4, r2, r1, r3 := InvSub2(r0, r4, r2, r1); r4, r3, r1, r2, r0 := Kl(r4, r3, r1, r2, k, 10);
    r4, r3, r1, r2, r0 := InvSub1(r4, r3, r1, r2); r0, r3, r1, r2, r4 := Kl(r0, r3, r1, r2, k, 9);
    r0, r3, r1, r2, r4 := InvSub0(r0, r3, r1, r2); r1, r4, r3, r0, r2 := Kl(r1, r4, r3, r0, k, 8);
  }

  /** Lines 25 to 32 of serpent_decrypt. */
  method DecryptRounds24(a0: bv32, a1: bv32, a2: bv32, a3: bv32, a4: bv32, k: seq<bv32>, ghost c: Block)
    returns (r0: bv32, r1: bv32, r2: bv32, r3: bv32, r4: bv32)
    requires |k| == 132 && InvBox(7, WORDS, Quad(a1, a4, a3, a0)) == Decrypted(c, k, 7)
    ensures Quad(r2, r3, r1, r4) == Decipher(c, k)
  {
    hide Box; hide InvBox; hide LK; hide KL; hide Mix; hide KeyAt; hide WORDS;
    r0, r1, r2, r3, r4 := a0, a1, a2, a3, a4;
    r1, r4, r3, r0, r2 := InvSub7(r1, r4, r3, r0); r4, r0, r1, r2, r3 := Kl(r4, r0, r1, r2, k, 7);
    r4, r0, r1, r2, r3 := InvSub6(r4, r0, r1, r2); r1, r3, r2, r4, r0 := Kl(r1, r3, r2, r4, k, 6);
    r1, r3, r2, r4, r0 := InvSub5(r1, r3, r2, r4); r3, r0, r1, r2, r4 := Kl(r3, r0, r1, r2, k, 5);
    r3, r0, r1, r2, r4 := InvSub4(r3, r0, r1, r2); r3, r1, r4, r2, r0 := Kl(r3, r1, r4, r2, k, 4);
    r3, r1, r4, r2, r0 := InvSub3(r3, r1, r4, r2); r4, r3, r0, r2, r1 := Kl(r4, r3, r0, r2, k, 3);
    r4, r3, r0, r2, r1 := InvSub2(r4, r3, r0, r2); r3, r1, r2, r0, r4 := Kl(r3, r1, r2, r0, k, 2);
    r3, r1, r2, r0, r4 := InvSub1(r3, r1, r2, r0); r4, r1, r2, r0, r3 := Kl(r4, r1, r2, r0, k, 1);
    r4, r1, r2, r0, r3 := InvSub0(r4, r1, r2, r0); r2, r3, r1, r4 := Km(r2, r3, r1, r4, k, 0);
  }

  /** serpent_decrypt on the four words of a block. */
  method Decrypt(c: Block, k: seq<bv32>) returns (p: Block)
    requires |k| == 132
    ensures p == Decipher(c, k)
  {
    hide Decrypted; hide Decipher; hide InvBox;
    DecryptedStart(c, k);
    var r0, r1, r2, r3 := Km(c.a, c.b, c.c, c.d, k, 32);
    var r4: bv32 := 0;
    r0, r1, r2, r3, r4 := DecryptRounds0(r0, r1, r2, r3, r4, k, c);
    r0, r1, r2, r3, r4 := DecryptRounds8(r0, r1, r2, r3, r4, k, c);
    r0, r1, r2, r3, r4 := DecryptRounds16(r0, r1, r2, r3, r4, k, c);
    r0, r1, r2, r3, r4 := DecryptRounds24(r0, r1, r2, r3, r4, k, c);
    p := Quad(r2, r3, r1, r4);
  }

  lemma DecryptedStart(c: Block, k: seq<bv32>)
    ensures Decrypted(c, k, 31) == InvBox(7, WORDS, Mix(c, KeyAt(k, 32)))
  {
  }

  // ---- tnepres: the words and the bytes of the block in reverse order. ----

  /** swab32 */
  function Swab(x: bv32): bv32 {
    (x << 24) | ((x & 0xff00) << 8) | ((x >> 8) & 0xff00) | (x >> 24)
  }

  lemma SwabTwice(x: bv32)
    ensures Swab(Swab(x)) == x
  {
  }

  function Reversed(q: Block): Block {
    Quad(Swab(q.d), Swab(q.c), Swab(q.b), Swab(q.a))
  }

  lemma ReversedTwice(q: Block)
    ensures Reversed(Reversed(q)) == q
  {
    hide Swab;
    SwabTwice(q.a);
    SwabTwice(q.b);
    SwabTwice(q.c);
    SwabTwice(q.d);
  }

  /** tnepres_encrypt */
  method TnepresEncrypt(p: Block, k: seq<bv32>) returns (c: Block)
    requires |k| == 132
    ensures c == Reversed(Cipher(Reversed(p), k))
  {
    hide Cipher; hide Swab;
    var d := Encrypt(Reversed(p), k);
    c := Reversed(d);
  }

  /** tnepres_decrypt */
  method TnepresDecrypt(c: Block, k: seq<bv32>) returns (p: Block)
    requires |k| == 132
    ensures p == Reversed(Decipher(Reversed(c), k))
  {
    hide Decipher; hide Swab;
    var d := Decrypt(Reversed(c), k);
    p := Reversed(d);
  }

  /** The register programs of both ciphers undo each other. */
  method RoundTrip(p: Block, k: seq<bv32>) returns (serpent: Block, tnepres: Block)
    requires |k| == 132
    ensures serpent == p && tnepres == p
  {
    hide Cipher; hide Decipher; hide Reversed;
    serpent := Encrypt(p, k);
    serpent := Decrypt(serpent, k);
    CipherInverts(p, k);
    tnepres := TnepresEncrypt(p, k);
    tnepres := TnepresDecrypt(tnepres, k);
    ReversedTwice(Cipher(Reversed(p), k));
    CipherInverts(Reversed(p), k);
    ReversedTwice(p);
  }
}
