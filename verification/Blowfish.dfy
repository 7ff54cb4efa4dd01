/** blowfish.c over arbitrary tables and subkeys. */
module Blowfish {
  import opened WordOps

  /** bf_F */
  function F(s: Boxes, x: bv32): bv32 {
    ((At(s.s1, (x >> 24) & 0xff) + At(s.s2, (x >> 16) & 0xff)) ^ At(s.s3, (x >> 8) & 0xff)) + At(s.s4, x & 0xff)
  }

  /** One use of ROUND on the half that is keyed (l) and the other (r); they change places. */
  function HalfRound(s: Boxes, p: bv32, v: Pair): Pair {
    var l := Xor(v.l, p);
    Pair(Xor(v.r, F(s, l)), l)
  }

  /** n rounds, with the subkeys in order. */
  function Rounds(s: Boxes, ps: seq<bv32>, v: Pair, n: nat): Pair
    requires n <= |ps|
  {
    if n == 0 then v else HalfRound(s, ps[n - 1], Rounds(s, ps, v, n - 1))
  }

  /** Sixteen rounds, and the last two subkeys. */
  function Network(s: Boxes, ps: seq<bv32>, v: Pair): Pair
    requires |ps| == 18
  {
    var w := Rounds(s, ps, v, 16);
    Pair(Xor(w.r, ps[17]), Xor(w.l, ps[16]))
  }

  function Reversed(ps: seq<bv32>): (r: seq<bv32>)
    ensures |r| == |ps|
  {
    seq(|ps|, i requires 0 <= i < |ps| => ps[|ps| - 1 - i])
  }

  /** The state of decryption after k rounds, in terms of the halves that encryption produced. */
  lemma {:induction false} Mirror(s: Boxes, ps: seq<bv32>, v: Pair, k: nat)
    requires |ps| == 18 && 1 <= k <= 16
    ensures Rounds(s, Reversed(ps), Network(s, ps, v), k)
         == Pair(Xor(Rounds(s, ps, v, 16 - k).r, ps[17 - k]), Rounds(s, ps, v, 17 - k).r)
  {
    hide Xor; hide F; hide Rounds;
    var q := Reversed(ps);
    var c := Network(s, ps, v);
    var e := Rounds(s, ps, v, 16 - k);
    var f := Rounds(s, ps, v, 17 - k);
    Next(s, ps, v, 16 - k);
    Next(s, q, c, k - 1);
    if k == 1 {
      Nothing(s, q, c);
      XorTwice(f.r, ps[17]);
      XorSwap(e.r, F(s, f.r), ps[16]);
    } else {
      Mirror(s, ps, v, k - 1);
      Next(s, ps, v, 17 - k);
      XorTwice(f.r, ps[18 - k]);
      XorSwap(e.r, F(s, f.r), ps[17 - k]);
    }
  }

  /** With the subkeys in reverse order, the same network decrypts. */
  lemma NetworkInverts(s: Boxes, ps: seq<bv32>, v: Pair)
    requires |ps| == 18
    ensures Network(s, Reversed(ps), Network(s, ps, v)) == v
  {
    hide Xor; hide F;
    Mirror(s, ps, v, 16);
    var q := Reversed(ps);
    assert q[17] == ps[0] && q[16] == ps[1];
    assert Rounds(s, ps, v, 0) == v;
    assert Rounds(s, ps, v, 1) == HalfRound(s, ps[0], v);
    XorTwice(v.r, ps[1]);
    XorTwice(v.l, ps[0]);
  }

  lemma Nothing(s: Boxes, ps: seq<bv32>, v: Pair)
    ensures Rounds(s, ps, v, 0) == v
  {
  }

  lemma Next(s: Boxes, ps: seq<bv32>, v: Pair, n: nat)
    requires n < |ps|
    ensures Rounds(s, ps, v, n + 1) == HalfRound(s, ps[n], Rounds(s, ps, v, n))
  {
    hide HalfRound;
  }

  /** ROUND(a, b, n) */
  method Round(a: bv32, b: bv32, s: Boxes, p: bv32) returns (a': bv32, b': bv32)
    ensures Pair(a', b') == HalfRound(s, p, Pair(b, a))
  {
    hide Xor; hide F;
    b' := Xor(b, p);
    a' := Xor(a, F(s, b'));
  }

  /** Eight of the unrolled lines. */
  method EightLines(s: Boxes, ps: seq<bv32>, ghost v: Pair, i: nat, yl: bv32, yr: bv32) returns (yl': bv32, yr': bv32)
    requires i + 8 <= |ps| && Pair(yl, yr) == Rounds(s, ps, v, i)
    ensures Pair(yl', yr') == Rounds(s, ps, v, i + 8)
  {
    hide HalfRound; hide Rounds;
    yl', yr' := yl, yr;
    yr', yl' := Round(yr', yl', s, ps[i]);
    Next(s, ps, v, i);
    yl', yr' := Round(yl', yr', s, ps[i + 1]);
    Next(s, ps, v, i + 1);
    yr', yl' := Round(yr', yl', s, ps[i + 2]);
    Next(s, ps, v, i + 2);
    yl', yr' := Round(yl', yr', s, ps[i + 3]);
    Next(s, ps, v, i + 3);
    yr', yl' := Round(yr', yl', s, ps[i + 4]);
    Next(s, ps, v, i + 4);
    yl', yr' := Round(yl', yr', s, ps[i + 5]);
    Next(s, ps, v, i + 5);
    yr', yl' := Round(yr', yl', s, ps[i + 6]);
    Next(s, ps, v, i + 6);
    yl', yr' := Round(yl', yr', s, ps[i + 7]);
    Next(s, ps, v, i + 7);
  }

  /** The unrolled rounds of encrypt_block, and of bf_decrypt with the subkeys reversed. */
  method Blocks(s: Boxes, ps: seq<bv32>, v: Pair) returns (r: Pair)
    requires |ps| == 18
    ensures r == Network(s, ps, v)
  {
    hide Xor; hide Rounds;
    Nothing(s, ps, v);
    var yl, yr := EightLines(s, ps, v, 0, v.l, v.r);
    yl, yr := EightLines(s, ps, v, 8, yl, yr);
    yl := Xor(yl, ps[16]);
    yr := Xor(yr, ps[17]);
    r := Pair(yr, yl);
  }

  /** bf_encrypt and then bf_decrypt, on words. */
  method RoundTrip(s: Boxes, ps: seq<bv32>, v: Pair) returns (r: Pair)
    requires |ps| == 18
    ensures r == v
  {
    hide Network;
    r := Blocks(s, ps, v);
    r := Blocks(s, Reversed(ps), r);
    NetworkInverts(s, ps, v);
  }
}
