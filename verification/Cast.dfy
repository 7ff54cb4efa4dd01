/** cast5.c and cast6.c over arbitrary tables and subkeys.  A rotation by 0 changes nothing. */
module Cast {
  import opened WordOps

  /** The three round functions: how the halves are combined with the subkey, and how the four table words are. */
  function F(s: Boxes, kind: nat, d: bv32, m: bv32, r: nat): bv32 {
    if kind == 0 then F1(s, Rol(m + d, r)) else if kind == 1 then F2(s, Rol(m ^ d, r)) else F3(s, Rol(m - d, r))
  }

  function F1(s: Boxes, i: bv32): bv32 {
    ((At(s.s1, i >> 24) ^ At(s.s2, (i >> 16) & 0xff)) - At(s.s3, (i >> 8) & 0xff)) + At(s.s4, i & 0xff)
  }

  function F2(s: Boxes, i: bv32): bv32 {
    ((At(s.s1, i >> 24) - At(s.s2, (i >> 16) & 0xff)) + At(s.s3, (i >> 8) & 0xff)) ^ At(s.s4, i & 0xff)
  }

  function F3(s: Boxes, i: bv32): bv32 {
    ((At(s.s1, i >> 24) + At(s.s2, (i >> 16) & 0xff)) ^ At(s.s3, (i >> 8) & 0xff)) - At(s.s4, i & 0xff)
  }

  // ---- CAST5. ----

  datatype Keys = Keys(m: seq<bv32>, r: seq<nat>)

  ghost predicate Sixteen(k: Keys) { |k.m| == 16 && |k.r| == 16 }

  /** Round n of encryption, section 2.1 of RFC 2144: the kinds of round function alternate. */
  function HalfRound(s: Boxes, k: Keys, n: nat, v: Pair): Pair
    requires |k.m| == 16 && |k.r| == 16 && n < 16
  {
    Pair(v.r, Xor(v.l, F(s, n % 3, v.r, k.m[n], k.r[n])))
  }

  function Rounds(s: Boxes, k: Keys, v: Pair, n: nat): Pair
    requires |k.m| == 16 && |k.r| == 16 && n <= 16
  {
    if n == 0 then v else HalfRound(s, k, n - 1, Rounds(s, k, v, n - 1))
  }

  /** The rounds from n - 1 down to 0. */
  function Unrounds(s: Boxes, k: Keys, v: Pair, n: nat): Pair
    requires |k.m| == 16 && |k.r| == 16 && n <= 16
    decreases n
  {
    if n == 0 then v else Unrounds(s, k, HalfRound(s, k, n - 1, v), n - 1)
  }

  function Exchanged(v: Pair): Pair { Pair(v.r, v.l) }

  /** With the halves exchanged, the rounds in reverse order undo the rounds. */
  lemma {:induction false} RoundsInvert(s: Boxes, k: Keys, v: Pair, n: nat)
    requires Sixteen(k) && n <= 16
    ensures Unrounds(s, k, Exchanged(Rounds(s, k, v, n)), n) == Exchanged(v)
  {
    hide Xor; hide F;
    if n > 0 {
      var w := Rounds(s, k, v, n - 1);
      XorTwice(w.l, F(s, (n - 1) % 3, w.r, k.m[n - 1], k.r[n - 1]));
      assert HalfRound(s, k, n - 1, Exchanged(Rounds(s, k, v, n))) == Exchanged(w);
      RoundsInvert(s, k, v, n - 1);
    }
  }

  lemma Nothing(s: Boxes, k: Keys, v: Pair)
    requires Sixteen(k)
    ensures Rounds(s, k, v, 0) == v
  {
  }

  lemma Next(s: Boxes, k: Keys, v: Pair, n: nat)
    requires Sixteen(k) && n < 16
    ensures Rounds(s, k, v, n + 1) == HalfRound(s, k, n, Rounds(s, k, v, n))
  {
    hide HalfRound;
  }

  /** t = l; l = r; r = t ^ F(r, Km[n], Kr[n]) */
  method Line(s: Boxes, k: Keys, n: nat, kind: nat, l: bv32, r: bv32) returns (l': bv32, r': bv32)
    requires Sixteen(k) && n < 16 && kind == n % 3
    ensures Pair(l', r') == HalfRound(s, k, n, Pair(l, r))
  {
    hide Xor; hide F;
    var t := l;
    l' := r;
    r' := Xor(t, F(s, kind, r, k.m[n], k.r[n]));
  }

  /** cast5_encrypt: sixteen rounds, or twelve for a reduced key; the halves are exchanged at the end. */
  method Cast5Encrypt(s: Boxes, k: Keys, reduced: bool, v: Pair) returns (c: Pair)
    requires Sixteen(k)
    ensures c == Exchanged(Rounds(s, k, v, if reduced then 12 else 16))
  {
    hide HalfRound; hide Rounds;
    Nothing(s, k, v);
    var l, r := v.l, v.r;
    l, r := Line(s, k, 0, 0, l, r);
    Next(s, k, v, 0);
    l, r := Line(s, k, 1, 1, l, r);
    Next(s, k, v, 1);
    l, r := Line(s, k, 2, 2, l, r);
    Next(s, k, v, 2);
    l, r := Line(s, k, 3, 0, l, r);
    Next(s, k, v, 3);
    l, r := Line(s, k, 4, 1, l, r);
    Next(s, k, v, 4);
    l, r := Line(s, k, 5, 2, l, r);
    Next(s, k, v, 5);
    l, r := Line(s, k, 6, 0, l, r);
    Next(s, k, v, 6);
    l, r := Line(s, k, 7, 1, l, r);
    Next(s, k, v, 7);
    l, r := Line(s, k, 8, 2, l, r);
    Next(s, k, v, 8);
    l, r := Line(s, k, 9, 0, l, r);
    Next(s, k, v, 9);
    l, r := Line(s, k, 10, 1, l, r);
    Next(s, k, v, 10);
    l, r := Line(s, k, 11, 2, l, r);
    Next(s, k, v, 11);
    if !reduced {
      l, r := Line(s, k, 12, 0, l, r);
      Next(s, k, v, 12);
      l, r := Line(s, k, 13, 1, l, r);
      Next(s, k, v, 13);
      l, r := Line(s, k, 14, 2, l, r);
      Next(s, k, v, 14);
      l, r := Line(s, k, 15, 0, l, r);
      Next(s, k, v, 15);
    }
    c := Pair(r, l);
  }

  /** cast5_decrypt */
  method Cast5Decrypt(s: Boxes, k: Keys, reduced: bool, v: Pair) returns (p: Pair)
    requires Sixteen(k)
    ensures p == Exchanged(Unrounds(s, k, v, if reduced then 12 else 16))
  {
    hide HalfRound;
    var l, r := v.l, v.r;
    ghost var goal := Unrounds(s, k, v, if reduced then 12 else 16);
    if !reduced {
      l, r := Line(s, k, 15, 0, l, r);
      assert Unrounds(s, k, Pair(l, r), 15) == goal;
      l, r := Line(s, k, 14, 2, l, r);
      assert Unrounds(s, k, Pair(l, r), 14) == goal;
      l, r := Line(s, k, 13, 1, l, r);
      assert Unrounds(s, k, Pair(l, r), 13) == goal;
      l, r := Line(s, k, 12, 0, l, r);
      assert Unrounds(s, k, Pair(l, r), 12) == goal;
    }
    l, r := Line(s, k, 11, 2, l, r);
    assert Unrounds(s, k, Pair(l, r), 11) == goal;
    l, r := Line(s, k, 10, 1, l, r);
    assert Unrounds(s, k, Pair(l, r), 10) == goal;
    l, r := Line(s, k, 9, 0, l, r);
    assert Unrounds(s, k, Pair(l, r), 9) == goal;
    l, r := Line(s, k, 8, 2, l, r);
    assert Unrounds(s, k, Pair(l, r), 8) == goal;
    l, r := Line(s, k, 7, 1, l, r);
    assert Unrounds(s, k, Pair(l, r), 7) == goal;
    l, r := Line(s, k, 6, 0, l, r);
    assert Unrounds(s, k, Pair(l, r), 6) == goal;
    l, r := Line(s, k, 5, 2, l, r);
    assert Unrounds(s, k, Pair(l, r), 5) == goal;
    l, r := Line(s, k, 4, 1, l, r);
    assert Unrounds(s, k, Pair(l, r), 4) == goal;
    l, r := Line(s, k, 3, 0, l, r);
    assert Unrounds(s, k, Pair(l, r), 3) == goal;
    l, r := Line(s, k, 2, 2, l, r);
    assert Unrounds(s, k, Pair(l, r), 2) == goal;
    l, r := Line(s, k, 1, 1, l, r);
    assert Unrounds(s, k, Pair(l, r), 1) == goal;
    l, r := Line(s, k, 0, 0, l, r);
    assert Unrounds(s, k, Pair(l, r), 0) == goal;
    p := Pair(r, l);
  }

  method Cast5RoundTrip(s: Boxes, k: Keys, reduced: bool, v: Pair) returns (r: Pair)
    requires Sixteen(k)
    ensures r == v
  {
    hide Rounds; hide Unrounds;
    r := Cast5Encrypt(s, k, reduced, v);
    r := Cast5Decrypt(s, k, reduced, r);
    RoundsInvert(s, k, v, if reduced then 12 else 16);
  }

  // ---- CAST6. ----

  /** The four masking and the four rotation subkeys of a quad-round. */
  datatype QuadKey = QuadKey(m0: bv32, m1: bv32, m2: bv32, m3: bv32, r0: nat, r1: nat, r2: nat, r3: nat)

  /** Q: the forward quad-round of RFC 2612, one word after another. */
  function Q(s: Boxes, k: QuadKey, v: Four): Four {
    var c := Xor(v.c, F(s, 0, v.d, k.m0, k.r0));
    var b := Xor(v.b, F(s, 1, c, k.m1, k.r1));
    var a := Xor(v.a, F(s, 2, b, k.m2, k.r2));
    Four(a, b, c, Xor(v.d, F(s, 0, a, k.m3, k.r3)))
  }

  /** QBAR: the same steps in reverse order. */
  function QBar(s: Boxes, k: QuadKey, v: Four): Four {
    var d := Xor(v.d, F(s, 0, v.a, k.m3, k.r3));
    var a := Xor(v.a, F(s, 2, v.b, k.m2, k.r2));
    var b := Xor(v.b, F(s, 1, v.c, k.m1, k.r1));
    Four(a, b, Xor(v.c, F(s, 0, d, k.m0, k.r0)), d)
  }

  /** Each undoes the other. */
  lemma QuadRoundsInvert(s: Boxes, k: QuadKey, v: Four)
    ensures QBar(s, k, Q(s, k, v)) == v && Q(s, k, QBar(s, k, v)) == v
  {
    hide Xor; hide F;
    var q, b := Q(s, k, v), QBar(s, k, v);
    XorTwice(v.d, F(s, 0, q.a, k.m3, k.r3));
    XorTwice(v.a, F(s, 2, q.b, k.m2, k.r2));
    XorTwice(v.b, F(s, 1, q.c, k.m1, k.r1));
    XorTwice(v.c, F(s, 0, v.d, k.m0, k.r0));
    XorTwice(v.c, F(s, 0, b.d, k.m0, k.r0));
    XorTwice(v.b, F(s, 1, v.c, k.m1, k.r1));
    XorTwice(v.a, F(s, 2, v.b, k.m2, k.r2));
    XorTwice(v.d, F(s, 0, v.a, k.m3, k.r3));
  }

  /** Encryption after n of its twelve quad-rounds: six forward, six reverse. */
  function Quads(s: Boxes, k: seq<QuadKey>, v: Four, n: nat): Four
    requires |k| == 12 && n <= 12
  {
    if n == 0 then v
    else if n <= 6 then Q(s, k[n - 1], Quads(s, k, v, n - 1))
    else QBar(s, k[n - 1], Quads(s, k, v, n - 1))
  }

  /** What decryption does from quad-round n - 1 down: the kinds are exchanged too. */
  function Unquads(s: Boxes, k: seq<QuadKey>, v: Four, n: nat): Four
    requires |k| == 12 && n <= 12
    decreases n
  {
    if n == 0 then v
    else if n <= 6 then Unquads(s, k, QBar(s, k[n - 1], v), n - 1)
    else Unquads(s, k, Q(s, k[n - 1], v), n - 1)
  }

  lemma {:induction false} QuadsInvert(s: Boxes, k: seq<QuadKey>, v: Four, n: nat)
    requires |k| == 12 && n <= 12
    ensures Unquads(s, k, Quads(s, k, v, n), n) == v
  {
    hide Q; hide QBar;
    if n > 0 {
      QuadRoundsInvert(s, k[n - 1], Quads(s, k, v, n - 1));
      QuadsInvert(s, k, v, n - 1);
    }
  }

  /** Q as it runs, in place on the block. */
  method RunQ(block: array<bv32>, s: Boxes, k: QuadKey)
    requires block.Length == 4
    modifies block
    ensures block[..] == Cells(Q(s, k, old(Of(block[..]))))
  {
    hide Xor; hide F;
    block[2] := Xor(block[2], F(s, 0, block[3], k.m0, k.r0));
    block[1] := Xor(block[1], F(s, 1, block[2], k.m1, k.r1));
    block[0] := Xor(block[0], F(s, 2, block[1], k.m2, k.r2));
    block[3] := Xor(block[3], F(s, 0, block[0], k.m3, k.r3));
  }

  /** QBAR as it runs. */
  method RunQBar(block: array<bv32>, s: Boxes, k: QuadKey)
    requires block.Length == 4
    modifies block
    ensures block[..] == Cells(QBar(s, k, old(Of(block[..]))))
  {
    hide Xor; hide F;
    block[3] := Xor(block[3], F(s, 0, block[0], k.m3, k.r3));
    block[0] := Xor(block[0], F(s, 2, block[1], k.m2, k.r2));
    block[1] := Xor(block[1], F(s, 1, block[2], k.m1, k.r1));
    block[2] := Xor(block[2], F(s, 0, block[3], k.m0, k.r0));
  }

  function Of(b: seq<bv32>): Four
    requires |b| == 4
  {
    Four(b[0], b[1], b[2], b[3])
  }

  function Cells(v: Four): (r: seq<bv32>)
    ensures |r| == 4
  {
    [v.a, v.b, v.c, v.d]
  }

  lemma OfCells(v: Four, b: seq<bv32>)
    requires b == Cells(v)
    ensures Of(b) == v
  {
  }

  /** cast6_encrypt on the words of a block; the twelve calls are written as two loops. */
  method Cast6Encrypt(block: array<bv32>, s: Boxes, k: seq<QuadKey>)
    requires block.Length == 4 && |k| == 12
    modifies block
    ensures block[..] == Cells(Quads(s, k, old(Of(block[..])), 12))
  {
    hide Q; hide QBar;
    ghost var v := Of(block[..]);
    for n := 0 to 6
      invariant block[..] == Cells(Quads(s, k, v, n))
    {
      OfCells(Quads(s, k, v, n), block[..]);
      RunQ(block, s, k[n]);
    }
    for n := 6 to 12
      invariant block[..] == Cells(Quads(s, k, v, n))
    {
      OfCells(Quads(s, k, v, n), block[..]);
      RunQBar(block, s, k[n]);
    }
  }

  /** cast6_decrypt */
  method Cast6Decrypt(block: array<bv32>, s: Boxes, k: seq<QuadKey>)
    requires block.Length == 4 && |k| == 12
    modifies block
    ensures block[..] == Cells(Unquads(s, k, old(Of(block[..])), 12))
  {
    hide Q; hide QBar;
    ghost var goal := Unquads(s, k, Of(block[..]), 12);
    for n := 12 downto 6
      invariant Unquads(s, k, Of(block[..]), n) == goal
    {
      ghost var w := Q(s, k[n], Of(block[..]));
      RunQ(block, s, k[n]);
      OfCells(w, block[..]);
    }
    for n := 6 downto 0
      invariant Unquads(s, k, Of(block[..]), n) == goal
    {
      ghost var w := QBar(s, k[n], Of(block[..]));
      RunQBar(block, s, k[n]);
      OfCells(w, block[..]);
    }
    assert block[..] == Cells(Of(block[..]));
  }

  method Cast6RoundTrip(block: array<bv32>, s: Boxes, k: seq<QuadKey>)
    requires block.Length == 4 && |k| == 12
    modifies block
    ensures block[..] == old(block[..])
  {
    hide Quads; hide Unquads;
    ghost var v := Of(block[..]);
    assert block[..] == Cells(v);
    Cast6Encrypt(block, s, k);
    OfCells(Quads(s, k, v, 12), block[..]);
    Cast6Decrypt(block, s, k);
    QuadsInvert(s, k, v, 12);
  }
}
