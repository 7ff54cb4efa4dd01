/** sha512_transform: eight lines with renamed registers, repeated, compute the shifting-register function of
    section 6.3.2 of FIPS 180-2. */
module Sha512Block {
  import opened BlockModes
  import opened BigEndian

  datatype Regs = Regs(a: bv64, b: bv64, c: bv64, d: bv64, e: bv64, f: bv64, g: bv64, h: bv64)

  // ---- Section 6.3.2. ----

  function Ch(x: bv64, y: bv64, z: bv64): bv64 { (x & y) ^ (!x & z) }

  function Maj(x: bv64, y: bv64, z: bv64): bv64 { (x & y) ^ (x & z) ^ (y & z) }

  function Big0(x: bv64): bv64 { ((x >> 28) | (x << 36)) ^ ((x >> 34) | (x << 30)) ^ ((x >> 39) | (x << 25)) }

  function Big1(x: bv64): bv64 { ((x >> 14) | (x << 50)) ^ ((x >> 18) | (x << 46)) ^ ((x >> 41) | (x << 23)) }

  function Small0(x: bv64): bv64 { ((x >> 1) | (x << 63)) ^ ((x >> 8) | (x << 56)) ^ (x >> 7) }

  function Small1(x: bv64): bv64 { ((x >> 19) | (x << 45)) ^ ((x >> 61) | (x << 3)) ^ (x >> 6) }

  function Add(x: bv64, y: bv64): bv64 { x + y }

  function Add4(x: bv64, y: bv64, z: bv64, w: bv64): bv64 { x + y + z + w }

  function Add5(x: bv64, y: bv64, z: bv64, w: bv64, v: bv64): bv64 { x + y + z + w + v }

  function K(t: nat): bv64 {
    match t
    case 0 => 0x428a_2f98_d728_ae22 case 1 => 0x7137_4491_23ef_65cd case 2 => 0xb5c0_fbcf_ec4d_3b2f
    case 3 => 0xe9b5_dba5_8189_dbbc case 4 => 0x3956_c25b_f348_b538 case 5 => 0x59f1_11f1_b605_d019
    case 6 => 0x923f_82a4_af19_4f9b case 7 => 0xab1c_5ed5_da6d_8118 case 8 => 0xd807_aa98_a303_0242
    case 9 => 0x1283_5b01_4570_6fbe case 10 => 0x2431_85be_4ee4_b28c case 11 => 0x550c_7dc3_d5ff_b4e2
    case 12 => 0x72be_5d74_f27b_896f case 13 => 0x80de_b1fe_3b16_96b1 case 14 => 0x9bdc_06a7_25c7_1235
    case 15 => 0xc19b_f174_cf69_2694 case 16 => 0xe49b_69c1_9ef1_4ad2 case 17 => 0xefbe_4786_384f_25e3
    case 18 => 0x0fc1_9dc6_8b8c_d5b5 case 19 => 0x240c_a1cc_77ac_9c65 case 20 => 0x2de9_2c6f_592b_0275
    case 21 => 0x4a74_84aa_6ea6_e483 case 22 => 0x5cb0_a9dc_bd41_fbd4 case 23 => 0x76f9_88da_8311_53b5
    case 24 => 0x983e_5152_ee66_dfab case 25 => 0xa831_c66d_2db4_3210 case 26 => 0xb003_27c8_98fb_213f
    case 27 => 0xbf59_7fc7_beef_0ee4 case 28 => 0xc6e0_0bf3_3da8_8fc2 case 29 => 0xd5a7_9147_930a_a725
    case 30 => 0x06ca_6351_e003_826f case 31 => 0x1429_2967_0a0e_6e70 case 32 => 0x27b7_0a85_46d2_2ffc
    case 33 => 0x2e1b_2138_5c26_c926 case 34 => 0x4d2c_6dfc_5ac4_2aed case 35 => 0x5338_0d13_9d95_b3df
    case 36 => 0x650a_7354_8baf_63de case 37 => 0x766a_0abb_3c77_b2a8 case 38 => 0x81c2_c92e_47ed_aee6
    case 39 => 0x9272_2c85_1482_353b case 40 => 0xa2bf_e8a1_4cf1_0364 case 41 => 0xa81a_664b_bc42_3001
    case 42 => 0xc24b_8b70_d0f8_9791 case 43 => 0xc76c_51a3_0654_be30 case 44 => 0xd192_e819_d6ef_5218
    case 45 => 0xd699_0624_5565_a910 case 46 => 0xf40e_3585_5771_202a case 47 => 0x106a_a070_32bb_d1b8
    case 48 => 0x19a4_c116_b8d2_d0c8 case 49 => 0x1e37_6c08_5141_ab53 case 50 => 0x2748_774c_df8e_eb99
    case 51 => 0x34b0_bcb5_e19b_48a8 case 52 => 0x391c_0cb3_c5c9_5a63 case 53 => 0x4ed8_aa4a_e341_8acb
    case 54 => 0x5b9c_ca4f_7763_e373 case 55 => 0x682e_6ff3_d6b2_b8a3 case 56 => 0x748f_82ee_5def_b2fc
    case 57 => 0x78a5_636f_4317_2f60 case 58 => 0x84c8_7814_a1f0_ab72 case 59 => 0x8cc7_0208_1a64_39ec
    case 60 => 0x90be_fffa_2363_1e28 case 61 => 0xa450_6ceb_de82_bde9 case 62 => 0xbef9_a3f7_b2c6_7915
    case 63 => 0xc671_78f2_e372_532b case 64 => 0xca27_3ece_ea26_619c case 65 => 0xd186_b8c7_21c0_c207
    case 66 => 0xeada_7dd6_cde0_eb1e case 67 => 0xf57d_4f7f_ee6e_d178 case 68 => 0x06f0_67aa_7217_6fba
    case 69 => 0x0a63_7dc5_a2c8_98a6 case 70 => 0x113f_9804_bef9_0dae case 71 => 0x1b71_0b35_131c_471b
    case 72 => 0x28db_77f5_2304_7d84 case 73 => 0x32ca_ab7b_40c7_2493 case 74 => 0x3c9e_be0a_15c9_bebc
    case 75 => 0x431d_67c4_9c10_0d4c case 76 => 0x4cc5_d4be_cb3e_42b6 case 77 => 0x597f_299c_fc65_7e2a
    case 78 => 0x5fcb_6fab_3ad6_faec case 79 => 0x6c44_198c_4a47_5817
    case _ => 0
  }

  /** The 80-word message schedule. */
  function W(m: Bytes, t: nat): bv64 {
    if t < 16 then Word64(m, t) else Add4(Small1(W(m, t - 2)), W(m, t - 7), Small0(W(m, t - 15)), W(m, t - 16))
  }

  function Step(r: Regs, t: nat, w: bv64): Regs {
    var t1 := Add5(r.h, Big1(r.e), Ch(r.e, r.f, r.g), K(t), w);
    var t2 := Add(Big0(r.a), Maj(r.a, r.b, r.c));
    Regs(Add(t1, t2), r.a, r.b, r.c, Add(r.d, t1), r.e, r.f, r.g)
  }

  function Rounds(r: Regs, m: Bytes, t: nat): Regs {
    if t == 0 then r else Step(Rounds(r, m, t - 1), t - 1, W(m, t - 1))
  }

  function Compress(r: Regs, m: Bytes): Regs {
    var s := Rounds(r, m, 80);
    Regs(Add(r.a, s.a), Add(r.b, s.b), Add(r.c, s.c), Add(r.d, s.d), Add(r.e, s.e), Add(r.f, s.f), Add(r.g, s.g), Add(r.h, s.h))
  }

  // ---- The code. ----

  /** Ch and Maj as the source writes them. */
  function CodeCh(x: bv64, y: bv64, z: bv64): bv64 { z ^ (x & (y ^ z)) }

  function CodeMaj(x: bv64, y: bv64, z: bv64): bv64 { (x & y) | (z & (x | y)) }

  lemma CodeChIsCh(x: bv64, y: bv64, z: bv64)
    ensures CodeCh(x, y, z) == Ch(x, y, z)
  {
    hide Ch;
    ChForm(x, y, z);
  }

  lemma ChForm(x: bv64, y: bv64, z: bv64)
    ensures z ^ (x & (y ^ z)) == Ch(x, y, z)
  {
  }

  lemma CodeMajIsMaj(x: bv64, y: bv64, z: bv64)
    ensures CodeMaj(x, y, z) == Maj(x, y, z)
  {
    hide Maj;
    MajForm(x, y, z);
  }

  lemma MajForm(x: bv64, y: bv64, z: bv64)
    ensures (x & y) | (z & (x | y)) == Maj(x, y, z)
  {
  }

  /** One pair of lines: d and h change in place. */
  method Line(i: nat, a: bv64, b: bv64, c: bv64, d: bv64, e: bv64, f: bv64, g: bv64, h: bv64, w: bv64)
    returns (d': bv64, h': bv64)
    ensures Regs(h', a, b, c, d', e, f, g) == Step(Regs(a, b, c, d, e, f, g, h), i, w)
  {
    hide Ch; hide Maj; hide CodeCh; hide CodeMaj; hide Big0; hide Big1; hide Add; hide Add5; hide K;
    var t1 := Add5(h, Big1(e), CodeCh(e, f, g), K(i), w);
    var t2 := Add(Big0(a), CodeMaj(a, b, c));
    d' := Add(d, t1);
    h' := Add(t1, t2);
    CodeChIsCh(e, f, g);
    CodeMajIsMaj(a, b, c);
  }

  /** Eight lines, after which every register has its name back. */
  method EightLines(i: nat, a: bv64, b: bv64, c: bv64, d: bv64, e: bv64, f: bv64, g: bv64, h: bv64,
                    ws: seq<bv64>, ghost m: Bytes, ghost r: Regs)
    returns (a': bv64, b': bv64, c': bv64, d': bv64, e': bv64, f': bv64, g': bv64, h': bv64)
    requires i + 8 <= 80 && |ws| == 80 && Scheduled(ws, m, 80)
    requires Regs(a, b, c, d, e, f, g, h) == Rounds(r, m, i)
    ensures Regs(a', b', c', d', e', f', g', h') == Rounds(r, m, i + 8)
  {
    hide Step; hide W; hide Rounds;
    a', b', c', d', e', f', g', h' := a, b, c, d, e, f, g, h;
    d', h' := Line(i, a', b', c', d', e', f', g', h', ws[i]);
    Next(r, m, i);
    c', g' := Line(i + 1, h', a', b', c', d', e', f', g', ws[i + 1]);
    Next(r, m, i + 1);
    b', f' := Line(i + 2, g', h', a', b', c', d', e', f', ws[i + 2]);
    Next(r, m, i + 2);
    a', e' := Line(i + 3, f', g', h', a', b', c', d', e', ws[i + 3]);
    Next(r, m, i + 3);
    h', d' := Line(i + 4, e', f', g', h', a', b', c', d', ws[i + 4]);
    Next(r, m, i + 4);
    g', c' := Line(i + 5, d', e', f', g', h', a', b', c', ws[i + 5]);
    Next(r, m, i + 5);
    f', b' := Line(i + 6, c', d', e', f', g', h', a', b', ws[i + 6]);
    Next(r, m, i + 6);
    e', a' := Line(i + 7, b', c', d', e', f', g', h', a', ws[i + 7]);
    Next(r, m, i + 7);
  }

  /** The first i words of the schedule are in place. */
  ghost predicate Scheduled(ws: seq<bv64>, m: Bytes, i: nat) {
    i <= |ws| && forall t :: 0 <= t < i ==> ws[t] == W(m, t)
  }

  lemma Loaded(m: Bytes, t: nat)
    requires t < 16
    ensures W(m, t) == Word64(m, t)
  {
  }

  lemma Blended(m: Bytes, t: nat)
    requires t >= 16
    ensures W(m, t) == Add4(Small1(W(m, t - 2)), W(m, t - 7), Small0(W(m, t - 15)), W(m, t - 16))
  {
    hide Small0; hide Small1; hide Add4;
  }

  /** LOAD_OP and BLEND_OP. */
  method Schedule(input: Bytes) returns (r: seq<bv64>)
    requires |input| == 128
    ensures |r| == 80 && Scheduled(r, input, 80)
  {
    hide Small0; hide Small1; hide Add4; hide Word64; hide W;
    var ws := new bv64[80];
    for i := 0 to 16
      invariant forall t :: 0 <= t < i ==> ws[t] == W(input, t)
    {
      Loaded(input, i);
      ws[i] := Word64(input, i);
    }
    for i := 16 to 80
      invariant forall t :: 0 <= t < i ==> ws[t] == W(input, t)
    {
      Blended(input, i);
      ws[i] := Add4(Small1(ws[i - 2]), ws[i - 7], Small0(ws[i - 15]), ws[i - 16]);
    }
    r := ws[..];
  }

  /** sha512_transform is the compression function of the standard, for every state and block. */
  method Transform(state: Regs, input: Bytes) returns (r: Regs)
    requires |input| == 128
    ensures r == Compress(state, input)
  {
    hide W; hide Add; hide Rounds;
    var ws := Schedule(input);
    var a, b, c, d, e, f, g, h := state.a, state.b, state.c, state.d, state.e, state.f, state.g, state.h;
    RoundsStart(state, input);
    var i := 0;
    while i < 80
      invariant i % 8 == 0 && i <= 80
      invariant Regs(a, b, c, d, e, f, g, h) == Rounds(state, input, i)
    {
      a, b, c, d, e, f, g, h := EightLines(i, a, b, c, d, e, f, g, h, ws, input, state);
      i := i + 8;
    }
    r := Regs(Add(state.a, a), Add(state.b, b), Add(state.c, c), Add(state.d, d), Add(state.e, e), Add(state.f, f), Add(state.g, g), Add(state.h, h));
  }

  lemma Next(r: Regs, m: Bytes, t: nat)
    ensures Rounds(r, m, t + 1) == Step(Rounds(r, m, t), t, W(m, t))
  {
  }

  lemma RoundsStart(r: Regs, m: Bytes)
    ensures Rounds(r, m, 0) == r
  {
  }
}
