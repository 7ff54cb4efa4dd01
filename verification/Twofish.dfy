/** twofish.c over arbitrary key-dependent tables and subkeys, on the words of a block. */
module Twofish {
  import opened WordOps

  /** struct twofish_ctx: the tables, the whitening subkeys and the round subkeys. */
  datatype Keys = Keys(s: Boxes, w: seq<bv32>, k: seq<bv32>)

  ghost predicate Sized(t: Keys) { |t.w| == 8 && |t.k| == 32 }

  function G1(s: Boxes, a: bv32): bv32 {
    At(s.s1, a & 0xff) ^ At(s.s2, (a >> 8) & 0xff) ^ At(s.s3, (a >> 16) & 0xff) ^ At(s.s4, a >> 24)
  }

  function G2(s: Boxes, b: bv32): bv32 {
    At(s.s2, b & 0xff) ^ At(s.s3, (b >> 8) & 0xff) ^ At(s.s4, (b >> 16) & 0xff) ^ At(s.s1, b >> 24)
  }

  function Ror1(c: bv32): bv32 { (c >> 1) + (c << 31) }

  function Rol1(c: bv32): bv32 { (c << 1) + (c >> 31) }

  lemma Rotates(c: bv32)
    ensures Ror1(Rol1(c)) == c && Rol1(Ror1(c)) == c
  {
    SumIsOr(c);
    RorRol(c);
    RolRor(c);
  }

  lemma SumIsOr(c: bv32)
    ensures Ror1(c) == (c >> 1) | (c << 31) && Rol1(c) == (c << 1) | (c >> 31)
  {
  }

  lemma RorRol(c: bv32)
    ensures Ror1((c << 1) | (c >> 31)) == c
  {
  }

  lemma RolRor(c: bv32)
    ensures Rol1((c >> 1) | (c << 31)) == c
  {
  }

  /** What encryption XORs into the third and fourth word: x is G1, y is G2. */
  function EncC(x: bv32, y: bv32, k: bv32): bv32 { (x + y) + k }

  function EncD(x: bv32, y: bv32, k: bv32): bv32 { y + ((x + y) + k) }

  /** And decryption, which adds the subkey last. */
  function DecD(x: bv32, y: bv32, k: bv32): bv32 { (y + (x + y)) + k }

  lemma SameD(x: bv32, y: bv32, k: bv32)
    ensures EncD(x, y, k) == DecD(x, y, k)
  {
  }

  /** ENCROUND on (a, b, c, d) with subkeys k0 and k1. */
  function EncRound(s: Boxes, k0: bv32, k1: bv32, v: Four): Four {
    var x, y := G1(s, v.a), G2(s, v.b);
    Four(v.a, v.b, Ror1(Xor(v.c, EncC(x, y, k0))), Xor(Rol1(v.d), EncD(x, y, k1)))
  }

  function DecRound(s: Boxes, k0: bv32, k1: bv32, v: Four): Four {
    var x, y := G1(s, v.a), G2(s, v.b);
    Four(v.a, v.b, Xor(Rol1(v.c), EncC(x, y, k0)), Ror1(Xor(v.d, DecD(x, y, k1))))
  }

  lemma RoundInverts(s: Boxes, k0: bv32, k1: bv32, v: Four)
    ensures DecRound(s, k0, k1, EncRound(s, k0, k1, v)) == v
  {
    hide G1; hide G2; hide Ror1; hide Rol1; hide EncC; hide EncD; hide DecD; hide Xor;
    var x, y := G1(s, v.a), G2(s, v.b);
    Rotates(Xor(v.c, EncC(x, y, k0)));
    Rotates(v.d);
    XorTwice(v.c, EncC(x, y, k0));
    XorTwice(Rol1(v.d), EncD(x, y, k1));
    SameD(x, y, k1);
  }

  function Exchanged(v: Four): Four { Four(v.c, v.d, v.a, v.b) }

  /** ENCCYCLE(n): two rounds, the second with the halves exchanged. */
  function EncCycle(t: Keys, n: nat, v: Four): Four
    requires |t.k| == 32 && n < 8
  {
    var w := EncRound(t.s, t.k[4 * n], t.k[4 * n + 1], v);
    Exchanged(EncRound(t.s, t.k[4 * n + 2], t.k[4 * n + 3], Exchanged(w)))
  }

  function DecCycle(t: Keys, n: nat, v: Four): Four
    requires |t.k| == 32 && n < 8
  {
    var w := Exchanged(DecRound(t.s, t.k[4 * n + 2], t.k[4 * n + 3], Exchanged(v)));
    DecRound(t.s, t.k[4 * n], t.k[4 * n + 1], w)
  }

  lemma CycleInverts(t: Keys, n: nat, v: Four)
    requires Sized(t) && n < 8
    ensures DecCycle(t, n, EncCycle(t, n, v)) == v
  {
    hide EncRound; hide DecRound;
    var w := EncRound(t.s, t.k[4 * n], t.k[4 * n + 1], v);
    RoundInverts(t.s, t.k[4 * n], t.k[4 * n + 1], v);
    RoundInverts(t.s, t.k[4 * n + 2], t.k[4 * n + 3], Exchanged(w));
  }

  function EncCycles(t: Keys, v: Four, n: nat): Four
    requires |t.k| == 32 && n <= 8
  {
    if n == 0 then v else EncCycle(t, n - 1, EncCycles(t, v, n - 1))
  }

  function DecCycles(t: Keys, v: Four, n: nat): Four
    requires |t.k| == 32 && n <= 8
    decreases n
  {
    if n == 0 then v else DecCycles(t, DecCycle(t, n - 1, v), n - 1)
  }

  lemma {:induction false} CyclesInvert(t: Keys, v: Four, n: nat)
    requires Sized(t) && n <= 8
    ensures DecCycles(t, EncCycles(t, v, n), n) == v
  {
    hide EncCycle; hide DecCycle;
    if n > 0 {
      CycleInverts(t, n - 1, EncCycles(t, v, n - 1));
      CyclesInvert(t, v, n - 1);
    }
  }

  function Whiten(v: Four, w0: bv32, w1: bv32, w2: bv32, w3: bv32): Four {
    Four(Xor(v.a, w0), Xor(v.b, w1), Xor(v.c, w2), Xor(v.d, w3))
  }

  lemma WhitenTwice(v: Four, w0: bv32, w1: bv32, w2: bv32, w3: bv32)
    ensures Whiten(Whiten(v, w0, w1, w2, w3), w0, w1, w2, w3) == v
  {
    hide Xor;
    XorTwice(v.a, w0);
    XorTwice(v.b, w1);
    XorTwice(v.c, w2);
    XorTwice(v.d, w3);
  }

  /** The whole cipher: whitening, eight cycles, the halves exchanged, whitening. */
  function Cipher(t: Keys, v: Four): Four
    requires |t.w| == 8 && |t.k| == 32
  {
    Whiten(Exchanged(EncCycles(t, Whiten(v, t.w[0], t.w[1], t.w[2], t.w[3]), 8)), t.w[4], t.w[5], t.w[6], t.w[7])
  }

  function Decipher(t: Keys, v: Four): Four
    requires |t.w| == 8 && |t.k| == 32
  {
    Whiten(DecCycles(t, Exchanged(Whiten(v, t.w[4], t.w[5], t.w[6], t.w[7])), 8), t.w[0], t.w[1], t.w[2], t.w[3])
  }

  /** Decryption undoes encryption, for all tables and subkeys. */
  lemma CipherInverts(t: Keys, v: Four)
    requires Sized(t)
    ensures Decipher(t, Cipher(t, v)) == v
  {
    hide Whiten; hide EncCycles; hide DecCycles;
    var u := Whiten(v, t.w[0], t.w[1], t.w[2], t.w[3]);
    var e := EncCycles(t, u, 8);
    WhitenTwice(Exchanged(e), t.w[4], t.w[5], t.w[6], t.w[7]);
    CyclesInvert(t, u, 8);
    WhitenTwice(v, t.w[0], t.w[1], t.w[2], t.w[3]);
  }

  // ---- The code. ----

  /** ENCROUND(n, a, b, c, d): c and d change in place. */
  method RunEncRound(t: Keys, n: nat, a: bv32, b: bv32, c: bv32, d: bv32) returns (c': bv32, d': bv32)
    requires Sized(t) && n < 16
    ensures Four(a, b, c', d') == EncRound(t.s, t.k[2 * n], t.k[2 * n + 1], Four(a, b, c, d))
  {
    hide G1; hide G2; hide Ror1; hide Rol1; hide EncC; hide EncD; hide Xor;
    var x, y := G1(t.s, a), G2(t.s, b);
    c' := Xor(c, EncC(x, y, t.k[2 * n]));
    c' := Ror1(c');
    d' := Xor(Rol1(d), EncD(x, y, t.k[2 * n + 1]));
  }

  /** DECROUND(n, a, b, c, d) */
  method RunDecRound(t: Keys, n: nat, a: bv32, b: bv32, c: bv32, d: bv32) returns (c': bv32, d': bv32)
    requires Sized(t) && n < 16
    ensures Four(a, b, c', d') == DecRound(t.s, t.k[2 * n], t.k[2 * n + 1], Four(a, b, c, d))
  {
    hide G1; hide G2; hide Ror1; hide Rol1; hide EncC; hide DecD; hide Xor;
    var x, y := G1(t.s, a), G2(t.s, b);
    d' := Xor(d, DecD(x, y, t.k[2 * n + 1]));
    d' := Ror1(d');
    c' := Rol1(c);
    c' := Xor(c', EncC(x, y, t.k[2 * n]));
  }

  /** ENCCYCLE(n) */
  method RunEncCycle(t: Keys, n: nat, a: bv32, b: bv32, c: bv32, d: bv32)
    returns (a': bv32, b': bv32, c': bv32, d': bv32)
    requires Sized(t) && n < 8
    ensures Four(a', b', c', d') == EncCycle(t, n, Four(a, b, c, d))
  {
    hide EncRound;
    c', d' := RunEncRound(t, 2 * n, a, b, c, d);
    a', b' := RunEncRound(t, 2 * n + 1, c', d', a, b);
  }

  /** DECCYCLE(n) */
  method RunDecCycle(t: Keys, n: nat, a: bv32, b: bv32, c: bv32, d: bv32)
    returns (a': bv32, b': bv32, c': bv32, d': bv32)
    requires Sized(t) && n < 8
    ensures Four(a', b', c', d') == DecCycle(t, n, Four(a, b, c, d))
  {
    hide DecRound;
    a', b' := RunDecRound(t, 2 * n + 1, c, d, a, b);
    c', d' := RunDecRound(t, 2 * n, a', b', c, d);
  }

  /** twofish_encrypt; the eight cycles are written as a loop. */
  method Encrypt(t: Keys, v: Four) returns (r: Four)
    requires Sized(t)
    ensures r == Cipher(t, v)
  {
    hide EncCycle; hide Xor;
    ghost var u := Whiten(v, t.w[0], t.w[1], t.w[2], t.w[3]);
    var a, b, c, d := Xor(v.a, t.w[0]), Xor(v.b, t.w[1]), Xor(v.c, t.w[2]), Xor(v.d, t.w[3]);
    for n := 0 to 8
      invariant Four(a, b, c, d) == EncCycles(t, u, n)
    {
      a, b, c, d := RunEncCycle(t, n, a, b, c, d);
    }
    r := Four(Xor(c, t.w[4]), Xor(d, t.w[5]), Xor(a, t.w[6]), Xor(b, t.w[7]));
  }

  /** twofish_decrypt */
  method Decrypt(t: Keys, v: Four) returns (r: Four)
    requires Sized(t)
    ensures r == Decipher(t, v)
  {
    hide DecCycle; hide Xor;
    var c, d, a, b := Xor(v.a, t.w[4]), Xor(v.b, t.w[5]), Xor(v.c, t.w[6]), Xor(v.d, t.w[7]);
    ghost var goal := DecCycles(t, Four(a, b, c, d), 8);
    for n := 8 downto 0
      invariant DecCycles(t, Four(a, b, c, d), n) == goal
    {
      a, b, c, d := RunDecCycle(t, n, a, b, c, d);
    }
    r := Four(Xor(a, t.w[0]), Xor(b, t.w[1]), Xor(c, t.w[2]), Xor(d, t.w[3]));
  }

  method RoundTrip(t: Keys, v: Four) returns (r: Four)
    requires Sized(t)
    ensures r == v
  {
    hide Cipher; hide Decipher;
    r := Encrypt(t, v);
    r := Decrypt(t, r);
    CipherInverts(t, v);
  }
}
