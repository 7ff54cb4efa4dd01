/** sha1_transform: the 16-word circular schedule and the rotated register names of sha1.c compute the
    function of section 6.1.2 of FIPS 180-2. */
module Sha1Block {
  import opened BlockModes
  import opened BigEndian

  datatype Regs = Regs(a: bv32, b: bv32, c: bv32, d: bv32, e: bv32)

  function Rol1(x: bv32): bv32 { (x << 1) | (x >> 31) }

  function Rol5(x: bv32): bv32 { (x << 5) | (x >> 27) }

  function Rol30(x: bv32): bv32 { (x << 30) | (x >> 2) }

  function Xor4(a: bv32, b: bv32, c: bv32, d: bv32): bv32 { a ^ b ^ c ^ d }

  function Add(x: bv32, y: bv32): bv32 { x + y }

  // ---- Section 6.1.2. ----

  /** The 80-word message schedule. */
  function W(m: Bytes, t: nat): bv32 {
    if t < 16 then Word32(m, t) else Rol1(Xor4(W(m, t - 3), W(m, t - 8), W(m, t - 14), W(m, t - 16)))
  }

  function Ch(x: bv32, y: bv32, z: bv32): bv32 { (x & y) ^ (!x & z) }

  function Parity(x: bv32, y: bv32, z: bv32): bv32 { x ^ y ^ z }

  function Maj(x: bv32, y: bv32, z: bv32): bv32 { (x & y) ^ (x & z) ^ (y & z) }

  function F(t: nat, x: bv32, y: bv32, z: bv32): bv32 {
    if t < 20 then Ch(x, y, z) else if t < 40 then Parity(x, y, z) else if t < 60 then Maj(x, y, z) else Parity(x, y, z)
  }

  function K(t: nat): bv32 {
    if t < 20 then 0x5a827999 else if t < 40 then 0x6ed9eba1 else if t < 60 then 0x8f1bbcdc else 0xca62c1d6
  }

  function Sum5(v: bv32, f: bv32, e: bv32, k: bv32, w: bv32): bv32 { v + f + e + k + w }

  function Step(r: Regs, t: nat, w: bv32): Regs {
    Regs(Sum5(Rol5(r.a), F(t, r.b, r.c, r.d), r.e, K(t), w), r.a, Rol30(r.b), r.c, r.d)
  }

  function Rounds(r: Regs, m: Bytes, t: nat): Regs {
    if t == 0 then r else Step(Rounds(r, m, t - 1), t - 1, W(m, t - 1))
  }

  function Sum(x: Regs, y: Regs): Regs {
    Regs(Add(x.a, y.a), Add(x.b, y.b), Add(x.c, y.c), Add(x.d, y.d), Add(x.e, y.e))
  }

  function Compress(r: Regs, m: Bytes): Regs {
    Sum(r, Rounds(r, m, 80))
  }

  // ---- The code. ----

  /** The last 16 words of the schedule before word i, each in its slot. */
  ghost predicate Window(block: seq<bv32>, m: Bytes, i: nat) {
    |block| == 16 && i >= 16 && forall t: nat :: i - 16 <= t < i ==> block[t % 16] == W(m, t)
  }

  /** blk(i): word i overwrites word i - 16. */
  method Blk(block32: array<bv32>, i: nat, ghost m: Bytes) returns (r: bv32)
    requires block32.Length == 16 && Window(block32[..], m, i)
    modifies block32
    ensures r == W(m, i) && Window(block32[..], m, i + 1)
  {
    hide Rol1; hide Xor4;
    assert block32[..][(i - 3) % 16] == W(m, i - 3) && block32[..][(i - 8) % 16] == W(m, i - 8);
    assert block32[..][(i - 14) % 16] == W(m, i - 14) && block32[..][(i - 16) % 16] == W(m, i - 16);
    ghost var was := block32[..];
    r := Rol1(Xor4(block32[(i + 13) % 16], block32[(i + 8) % 16], block32[(i + 2) % 16], block32[i % 16]));
    block32[i % 16] := r;
    assert block32[..] == was[i % 16 := r];
    Slide(was, m, i);
  }

  lemma Slide(was: seq<bv32>, m: Bytes, i: nat)
    requires Window(was, m, i)
    ensures Window(was[i % 16 := W(m, i)], m, i + 1)
  {
    hide W;
    forall t: nat | i - 15 <= t <= i ensures was[i % 16 := W(m, i)][t % 16] == W(m, t) {
      if t < i { assert t % 16 != i % 16; }
    }
  }

  /** The forms in which the macros R0 to R4 write the three functions. */
  function MacroF(t: nat, w: bv32, x: bv32, y: bv32): bv32 {
    if t < 20 then (w & (x ^ y)) ^ y else if t < 40 then w ^ x ^ y else if t < 60 then ((w | x) & y) | (w & x) else w ^ x ^ y
  }

  lemma MacroForms(w: bv32, x: bv32, y: bv32)
    ensures (w & (x ^ y)) ^ y == Ch(w, x, y)
    ensures ((w | x) & y) | (w & x) == Maj(w, x, y)
  {
  }

  lemma MacroFIsF(t: nat, w: bv32, x: bv32, y: bv32)
    ensures MacroF(t, w, x, y) == F(t, w, x, y)
  {
    hide Ch; hide Maj;
    MacroForms(w, x, y);
  }

  /** The sum a macro adds to z. */
  function MacroSum(z: bv32, f: bv32, b: bv32, k: bv32, v: bv32): bv32 { z + (((f + b) + k) + v) }

  /** The order in which a macro adds its five terms does not matter. */
  lemma MacroSumIsSum(z: bv32, f: bv32, b: bv32, k: bv32, v: bv32)
    ensures MacroSum(z, f, b, k, v) == Sum5(v, f, z, k, b)
  {
  }

  /** One macro R0 to R4: z and w change in place. */
  method Line(i: nat, v: bv32, w: bv32, x: bv32, y: bv32, z: bv32, block32: array<bv32>, ghost m: Bytes)
    returns (w': bv32, z': bv32)
    requires i < 80 && block32.Length == 16 && Window(block32[..], m, if i < 16 then 16 else i)
    modifies block32
    ensures Window(block32[..], m, if i + 1 < 16 then 16 else i + 1)
    ensures Regs(z', v, w', x, y) == Step(Regs(v, w, x, y, z), i, W(m, i))
  {
    hide Sum5; hide MacroSum; hide Rol5; hide Rol30; hide MacroF; hide F; hide W;
    var b;
    if i < 16 {
      assert block32[..][i % 16] == W(m, i);
      b := block32[i];
    } else {
      b := Blk(block32, i, m);
    }
    MacroFIsF(i, w, x, y);
    MacroSumIsSum(z, MacroF(i, w, x, y), b, K(i), Rol5(v));
    z' := MacroSum(z, MacroF(i, w, x, y), b, K(i), Rol5(v));
    w' := Rol30(w);
  }

  /** Five consecutive lines, after which every register has its name back. */
  method FiveLines(i: nat, a: bv32, b: bv32, c: bv32, d: bv32, e: bv32, block32: array<bv32>, ghost m: Bytes, ghost r: Regs)
    returns (a': bv32, b': bv32, c': bv32, d': bv32, e': bv32)
    requires i + 5 <= 80 && block32.Length == 16 && Window(block32[..], m, if i < 16 then 16 else i)
    requires Regs(a, b, c, d, e) == Rounds(r, m, i)
    modifies block32
    ensures Window(block32[..], m, if i + 5 < 16 then 16 else i + 5)
    ensures Regs(a', b', c', d', e') == Rounds(r, m, i + 5)
  {
    hide Step; hide W; hide Window;
    a', b', c', d', e' := a, b, c, d, e;
    b', e' := Line(i, a', b', c', d', e', block32, m);
    assert Regs(e', a', b', c', d') == Rounds(r, m, i + 1);
    a', d' := Line(i + 1, e', a', b', c', d', block32, m);
    assert Regs(d', e', a', b', c') == Rounds(r, m, i + 2);
    e', c' := Line(i + 2, d', e', a', b', c', block32, m);
    assert Regs(c', d', e', a', b') == Rounds(r, m, i + 3);
    d', b' := Line(i + 3, c', d', e', a', b', block32, m);
    assert Regs(b', c', d', e', a') == Rounds(r, m, i + 4);
    c', a' := Line(i + 4, b', c', d', e', a', block32, m);
  }

  /** sha1_transform is the compression function of the standard, for every state and block. */
  method Transform(state: Regs, in_: Bytes) returns (r: Regs)
    requires |in_| == 64
    ensures r == Compress(state, in_)
  {
    hide W; hide Add; hide Rounds;
    var block32 := Load(in_);
    var a, b, c, d, e := state.a, state.b, state.c, state.d, state.e;
    RoundsStart(state, in_);
    var i := 0;
    while i < 80
      invariant i % 5 == 0 && i <= 80
      invariant fresh(block32) && block32.Length == 16 && Window(block32[..], in_, if i < 16 then 16 else i)
      invariant Regs(a, b, c, d, e) == Rounds(state, in_, i)
    {
      a, b, c, d, e := FiveLines(i, a, b, c, d, e, block32, in_, state);
      i := i + 5;
    }
    r := Regs(Add(state.a, a), Add(state.b, b), Add(state.c, c), Add(state.d, d), Add(state.e, e));
  }

  lemma RoundsStart(r: Regs, m: Bytes)
    ensures Rounds(r, m, 0) == r
  {
  }

  method Load(in_: Bytes) returns (block32: array<bv32>)
    requires |in_| == 64
    ensures fresh(block32) && block32.Length == 16 && Window(block32[..], in_, 16)
  {
    hide Pack32;
    block32 := new bv32[16];
    for a := 0 to 16
      invariant forall t :: 0 <= t < a ==> block32[t] == W(in_, t)
    {
      block32[a] := Pack32(in_[4 * a], in_[4 * a + 1], in_[4 * a + 2], in_[4 * a + 3]);
    }
  }
}
