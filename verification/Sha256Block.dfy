/** sha256_transform: eight lines with renamed registers, repeated, compute the shifting-register function of
    section 6.2.2 of FIPS 180-2. */
module Sha256Block {
  import opened BlockModes
  import opened BigEndian

  datatype Regs = Regs(a: bv32, b: bv32, c: bv32, d: bv32, e: bv32, f: bv32, g: bv32, h: bv32)

  // ---- Section 6.2.2. ----

  function Ch(x: bv32, y: bv32, z: bv32): bv32 { (x & y) ^ (!x & z) }

  function Maj(x: bv32, y: bv32, z: bv32): bv32 { (x & y) ^ (x & z) ^ (y & z) }

  function Big0(x: bv32): bv32 { ((x >> 2) | (x << 30)) ^ ((x >> 13) | (x << 19)) ^ ((x >> 22) | (x << 10)) }

  function Big1(x: bv32): bv32 { ((x >> 6) | (x << 26)) ^ ((x >> 11) | (x << 21)) ^ ((x >> 25) | (x << 7)) }

  function Small0(x: bv32): bv32 { ((x >> 7) | (x << 25)) ^ ((x >> 18) | (x << 14)) ^ (x >> 3) }

  function Small1(x: bv32): bv32 { ((x >> 17) | (x << 15)) ^ ((x >> 19) | (x << 13)) ^ (x >> 10) }

  function Add(x: bv32, y: bv32): bv32 { x + y }

  function Add4(x: bv32, y: bv32, z: bv32, w: bv32): bv32 { x + y + z + w }

  function Add5(x: bv32, y: bv32, z: bv32, w: bv32, v: bv32): bv32 { x + y + z + w + v }

  function K(t: nat): bv32 {
    match t
    case 0 => 0x428a_2f98 case 1 => 0x7137_4491 case 2 => 0xb5c0_fbcf case 3 => 0xe9b5_dba5
    case 4 => 0x3956_c25b case 5 => 0x59f1_11f1 case 6 => 0x923f_82a4 case 7 => 0xab1c_5ed5
    case 8 => 0xd807_aa98 case 9 => 0x1283_5b01 case 10 => 0x2431_85be case 11 => 0x550c_7dc3
    case 12 => 0x72be_5d74 case 13 => 0x80de_b1fe case 14 => 0x9bdc_06a7 case 15 => 0xc19b_f174
    case 16 => 0xe49b_69c1 case 17 => 0xefbe_4786 case 18 => 0x0fc1_9dc6 case 19 => 0x240c_a1cc
    case 20 => 0x2de9_2c6f case 21 => 0x4a74_84aa case 22 => 0x5cb0_a9dc case 23 => 0x76f9_88da
    case 24 => 0x983e_5152 case 25 => 0xa831_c66d case 26 => 0xb003_27c8 case 27 => 0xbf59_7fc7
    case 28 => 0xc6e0_0bf3 case 29 => 0xd5a7_9147 case 30 => 0x06ca_6351 case 31 => 0x1429_2967
    case 32 => 0x27b7_0a85 case 33 => 0x2e1b_2138 case 34 => 0x4d2c_6dfc case 35 => 0x5338_0d13
    case 36 => 0x650a_7354 case 37 => 0x766a_0abb case 38 => 0x81c2_c92e case 39 => 0x9272_2c85
    case 40 => 0xa2bf_e8a1 case 41 => 0xa81a_664b case 42 => 0xc24b_8b70 case 43 => 0xc76c_51a3
    case 44 => 0xd192_e819 case 45 => 0xd699_0624 case 46 => 0xf40e_3585 case 47 => 0x106a_a070
    case 48 => 0x19a4_c116 case 49 => 0x1e37_6c08 case 50 => 0x2748_774c case 51 => 0x34b0_bcb5
    case 52 => 0x391c_0cb3 case 53 => 0x4ed8_aa4a case 54 => 0x5b9c_ca4f case 55 => 0x682e_6ff3
    case 56 => 0x748f_82ee case 57 => 0x78a5_636f case 58 => 0x84c8_7814 case 59 => 0x8cc7_0208
    case 60 => 0x90be_fffa case 61 => 0xa450_6ceb case 62 => 0xbef9_a3f7 case 63 => 0xc671_78f2
    case _ => 0
  }

  /** The 64-word message schedule. */
  function W(m: Bytes, t: nat): bv32 {
    if t < 16 then Word32(m, t) else Add4(Small1(W(m, t - 2)), W(m, t - 7), Small0(W(m, t - 15)), W(m, t - 16))
  }

  function Step(r: Regs, t: nat, w: bv32): Regs {
    var t1 := Add5(r.h, Big1(r.e), Ch(r.e, r.f, r.g), K(t), w);
    var t2 := Add(Big0(r.a), Maj(r.a, r.b, r.c));
    Regs(Add(t1, t2), r.a, r.b, r.c, Add(r.d, t1), r.e, r.f, r.g)
  }

  function Rounds(r: Regs, m: Bytes, t: nat): Regs {
    if t == 0 then r else Step(Rounds(r, m, t - 1), t - 1, W(m, t - 1))
  }

  function Compress(r: Regs, m: Bytes): Regs {
    var s := Rounds(r, m, 64);
    Regs(Add(r.a, s.a), Add(r.b, s.b), Add(r.c, s.c), Add(r.d, s.d), Add(r.e, s.e), Add(r.f, s.f), Add(r.g, s.g), Add(r.h, s.h))
  }

  // ---- The code. ----

  /** Ch and Maj as the source writes them. */
  function CodeCh(x: bv32, y: bv32, z: bv32): bv32 { z ^ (x & (y ^ z)) }

  function CodeMaj(x: bv32, y: bv32, z: bv32): bv32 { (x & y) | (z & (x | y)) }

  lemma CodeChIsCh(x: bv32, y: bv32, z: bv32)
    ensures CodeCh(x, y, z) == Ch(x, y, z)
  {
    hide Ch;
    ChForm(x, y, z);
  }

  lemma ChForm(x: bv32, y: bv32, z: bv32)
    ensures z ^ (x & (y ^ z)) == Ch(x, y, z)
  {
  }

  lemma CodeMajIsMaj(x: bv32, y: bv32, z: bv32)
    ensures CodeMaj(x, y, z) == Maj(x, y, z)
  {
    hide Maj;
    MajForm(x, y, z);
  }

  lemma MajForm(x: bv32, y: bv32, z: bv32)
    ensures (x & y) | (z & (x | y)) == Maj(x, y, z)
  {
  }

  /** One pair of lines: d and h change in place. */
  method Line(i: nat, a: bv32, b: bv32, c: bv32, d: bv32, e: bv32, f: bv32, g: bv32, h: bv32, w: bv32)
    returns (d': bv32, h': bv32)
    ensures Regs(h', a, b, c, d', e, f, g) == Step(Regs(a, b, c, d, e, f, g, h), i, w)
  {
    hide Ch; hide Maj; hide CodeCh; hide CodeMaj; hide Big0; hide Big1; hide Add; hide Add5; hide K;
    var t1 := Add5(h, Big1(e), CodeCh(e, f, g), K(i), w);
    var t2 := Add(Big0(a), CodeMaj(a, b, c));
    d' := Add(d, t1);
    h' := Add(t1, t2);
    CodeChIsCh(e, f, g);
    CodeMajIsMaj(a, b, c);
  }

  /** Eight lines, after which every register has its name back. */
  method EightLines(i: nat, a: bv32, b: bv32, c: bv32, d: bv32, e: bv32, f: bv32, g: bv32, h: bv32,
                    ws: seq<bv32>, ghost m: Bytes, ghost r: Regs)
    returns (a': bv32, b': bv32, c': bv32, d': bv32, e': bv32, f': bv32, g': bv32, h': bv32)
    requires i + 8 <= 64 && |ws| == 64 && Scheduled(ws, m, 64)
    requires Regs(a, b, c, d, e, f, g, h) == Rounds(r, m, i)
    ensures Regs(a', b', c', d', e', f', g', h') == Rounds(r, m, i + 8)
  {
    hide Step; hide W; hide Rounds;
    a', b', c', d', e', f', g', h' := a, b, c, d, e, f, g, h;
    d', h' := Line(i, a', b', c', d', e', f', g', h', ws[i]);
    Next(r, m, i);
    c', g' := Line(i + 1, h', a', b', c', d', e', f', g', ws[i + 1]);
    Next(r, m, i + 1);
    b', f' := Line(i + 2, g', h', a', b', c', d', e', f', ws[i + 2]);
    Next(r, m, i + 2);
    a', e' := Line(i + 3, f', g', h', a', b', c', d', e', ws[i + 3]);
    Next(r, m, i + 3);
    h', d' := Line(i + 4, e', f', g', h', a', b', c', d', ws[i + 4]);
    Next(r, m, i + 4);
    g', c' := Line(i + 5, d', e', f', g', h', a', b', c', ws[i + 5]);
    Next(r, m, i + 5);
    f', b' := Line(i + 6, c', d', e', f', g', h', a', b', ws[i + 6]);
    Next(r, m, i + 6);
    e', a' := Line(i + 7, b', c', d', e', f', g', h', a', ws[i + 7]);
    Next(r, m, i + 7);
  }

  /** The first i words of the schedule are in place. */
  ghost predicate Scheduled(ws: seq<bv32>, m: Bytes, i: nat) {
    i <= |ws| && forall t :: 0 <= t < i ==> ws[t] == W(m, t)
  }

  lemma Loaded(m: Bytes, t: nat)
    requires t < 16
    ensures W(m, t) == Word32(m, t)
  {
  }

  lemma Blended(m: Bytes, t: nat)
    requires t >= 16
    ensures W(m, t) == Add4(Small1(W(m, t - 2)), W(m, t - 7), Small0(W(m, t - 15)), W(m, t - 16))
  {
    hide Small0; hide Small1; hide Add4;
  }

  /** LOAD_OP and BLEND_OP. */
  method Schedule(input: Bytes) returns (r: seq<bv32>)
    requires |input| == 64
    ensures |r| == 64 && Scheduled(r, input, 64)
  {
    hide Small0; hide Small1; hide Add4; hide Word32; hide W;
    var ws := new bv32[64];
    for i := 0 to 16
      invariant forall t :: 0 <= t < i ==> ws[t] == W(input, t)
    {
      Loaded(input, i);
      ws[i] := Word32(input, i);
    }
    for i := 16 to 64
      invariant forall t :: 0 <= t < i ==> ws[t] == W(input, t)
    {
      Blended(input, i);
      ws[i] := Add4(Small1(ws[i - 2]), ws[i - 7], Small0(ws[i - 15]), ws[i - 16]);
    }
    r := ws[..];
  }

  /** sha256_transform is the compression function of the standard, for every state and block. */
  method Transform(state: Regs, input: Bytes) returns (r: Regs)
    requires |input| == 64
    ensures r == Compress(state, input)
  {
    hide W; hide Add; hide Rounds;
    var ws := Schedule(input);
    var a, b, c, d, e, f, g, h := state.a, state.b, state.c, state.d, state.e, state.f, state.g, state.h;
    RoundsStart(state, input);
    var i := 0;
    while i < 64
      invariant i % 8 == 0 && i <= 64
      invariant Regs(a, b, c, d, e, f, g, h) == Rounds(state, input, i)
    {
      a, b, c, d, e, f, g, h := EightLines(i, a, b, c, d, e, f, g, h, ws, input, state);
      i := i + 8;
    }
    r := Regs(Add(state.a, a), Add(state.b, b), Add(state.c, c), Add(state.d, d), Add(state.e, e), Add(state.f, f), Add(state.g, g), Add(state.h, h));
  }

  lemma Next(r: Regs, m: Bytes, t: nat)
    ensures Rounds(r, m, t + 1) == Step(Rounds(r, m, t), t, W(m, t))
  {
  }

  lemma RoundsStart(r: Regs, m: Bytes)
    ensures Rounds(r, m, 0) == r
  {
  }
}
