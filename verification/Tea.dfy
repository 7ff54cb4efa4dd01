/** tea.c: TEA and this repository's XTEA, for every key and block. */
module Tea {
  /** u32: additions and subtractions wrap. */
  type Word = x: int | 0 <= x < 0x1_0000_0000

  function Add(x: Word, y: Word): Word { (x + y) % 0x1_0000_0000 }

  function Sub(x: Word, y: Word): Word { (x - y) % 0x1_0000_0000 }

  lemma AddSub(x: Word, y: Word)
    ensures Sub(Add(x, y), y) == x
  {
  }

  const DELTA: Word := 0x9e3779b9

  datatype Pair = Pair(l: Word, r: Word)

  datatype Key = Key(k0: Word, k1: Word, k2: Word, k3: Word)

  /** delta added n times. */
  function Sum(n: nat): Word { if n == 0 then 0 else Add(Sum(n - 1), DELTA) }

  // ---- TEA. ----

  function Mix(z: Word, sum: Word, a: Word, b: Word): Word {
    MixBits(z as bv32, sum as bv32, a as bv32, b as bv32) as Word
  }

  function MixBits(z: bv32, sum: bv32, a: bv32, b: bv32): bv32 { ((z << 4) + a) ^ (z + sum) ^ ((z >> 5) + b) }

  /** One round with the given sum. */
  function Round(k: Key, v: Pair, sum: Word): Pair {
    var y := Add(v.l, Mix(v.r, sum, k.k0, k.k1));
    Pair(y, Add(v.r, Mix(y, sum, k.k2, k.k3)))
  }

  function Unround(k: Key, v: Pair, sum: Word): Pair {
    var z := Sub(v.r, Mix(v.l, sum, k.k2, k.k3));
    Pair(Sub(v.l, Mix(z, sum, k.k0, k.k1)), z)
  }

  lemma RoundInverts(k: Key, v: Pair, sum: Word)
    ensures Unround(k, Round(k, v, sum), sum) == v
  {
    hide Add; hide Sub; hide Mix;
    var y := Add(v.l, Mix(v.r, sum, k.k0, k.k1));
    AddSub(v.r, Mix(y, sum, k.k2, k.k3));
    AddSub(v.l, Mix(v.r, sum, k.k0, k.k1));
  }

  function Rounds(k: Key, v: Pair, n: nat): Pair {
    if n == 0 then v else Round(k, Rounds(k, v, n - 1), Sum(n))
  }

  method TeaEncrypt(k: Key, v: Pair) returns (c: Pair)
    ensures c == Rounds(k, v, 32)
  {
    hide Add; hide Mix; hide Sum;
    FirstSum();
    var y: Word, z: Word, sum: Word := v.l, v.r, 0;
    var n := 32;
    while n > 0
      invariant 0 <= n <= 32 && sum == Sum(32 - n) && Pair(y, z) == Rounds(k, v, 32 - n)
    {
      n := n - 1;
      SumForth(31 - n);
      sum := Add(sum, DELTA);
      y := Add(y, Mix(z, sum, k.k0, k.k1));
      z := Add(z, Mix(y, sum, k.k2, k.k3));
    }
    c := Pair(y, z);
  }

  /** n rounds undone, the last first. */
  function Unrounds(k: Key, c: Pair, n: nat): Pair
    decreases n
  {
    if n == 0 then c else Unrounds(k, Unround(k, c, Sum(n)), n - 1)
  }

  lemma {:induction false} RoundsInvert(k: Key, v: Pair, n: nat)
    ensures Unrounds(k, Rounds(k, v, n), n) == v
  {
    hide Round; hide Unround;
    if n > 0 {
      RoundInverts(k, Rounds(k, v, n - 1), Sum(n));
      RoundsInvert(k, v, n - 1);
    }
  }

  /** tea_decrypt: its sum starts at delta << 5, which is delta added 32 times. */
  method TeaDecrypt(k: Key, c: Pair) returns (p: Pair)
    ensures p == Unrounds(k, c, 32)
  {
    hide Add; hide Sub; hide Mix; hide Sum;
    LastSum();
    var y: Word, z: Word, sum: Word := c.l, c.r, (DELTA * 32) % 0x1_0000_0000;
    var n := 32;
    while n > 0
      invariant 0 <= n <= 32 && sum == Sum(n) && Unrounds(k, Pair(y, z), n) == Unrounds(k, c, 32)
    {
      SumBack(n);
      n := n - 1;
      z := Sub(z, Mix(y, sum, k.k2, k.k3));
      y := Sub(y, Mix(z, sum, k.k0, k.k1));
      sum := Sub(sum, DELTA);
    }
    p := Pair(y, z);
  }

  lemma SumBack(n: nat)
    requires n > 0
    ensures Sub(Sum(n), DELTA) == Sum(n - 1)
  {
    AddSub(Sum(n - 1), DELTA);
  }

  lemma {:induction false} SumIsProduct(n: nat)
    ensures Sum(n) == (n * DELTA) % 0x1_0000_0000
  {
    if n != 0 {
      SumIsProduct(n - 1);
      var a := (n - 1) * DELTA;
      assert n * DELTA == a + DELTA;
      AddMod(a);
    }
  }

  lemma AddMod(a: nat)
    ensures (a % 0x1_0000_0000 + DELTA) % 0x1_0000_0000 == (a + DELTA) % 0x1_0000_0000
  {
    var q, r := a / 0x1_0000_0000, a % 0x1_0000_0000;
    assert a + DELTA == q * 0x1_0000_0000 + (r + DELTA);
    if r + DELTA < 0x1_0000_0000 {
      assert (a + DELTA) / 0x1_0000_0000 == q;
    } else {
      assert (a + DELTA) / 0x1_0000_0000 == q + 1;
    }
  }

  function Pow2(e: nat): (p: nat)
    ensures p > 0
  {
    if e == 0 then 1 else 2 * Pow2(e - 1)
  }

  /** An odd factor takes nothing away from divisibility by a power of two: if d * k == 2^e * q then 2^e divides k. */
  lemma {:induction false} OddFactor(d: nat, k: nat, e: nat, q: nat) returns (r: nat)
    requires d % 2 == 1 && d * k == Pow2(e) * q
    ensures k == Pow2(e) * r
    decreases e
  {
    if e == 0 {
      r := k;
    } else {
      var h := Pow2(e - 1);
      assert d * k == 2 * (h * q) by { Twice(h, q); }
      var m := EvenHalf(d, k, h * q);
      r := OddFactor(d, m, e - 1, q);
      assert k == Pow2(e) * r by { Twice(h, r); }
    }
  }

  lemma Twice(h: nat, q: nat)
    ensures (2 * h) * q == 2 * (h * q)
  {
  }

  /** An even multiple of an odd number is the multiple by an even number. */
  lemma EvenHalf(d: nat, k: nat, x: nat) returns (m: nat)
    requires d % 2 == 1 && d * k == 2 * x
    ensures k == 2 * m && d * m == x
  {
    var c := d / 2;
    assert d == 2 * c + 1;
    assert d * k == 2 * (c * k) + k by { Distribute(c, k); }
    m := x - c * k;
    assert k == 2 * m;
    assert d * k == 2 * (d * m) by { Double(d, m); }
  }

  lemma Distribute(c: nat, k: nat)
    ensures (2 * c + 1) * k == 2 * (c * k) + k
  {
  }

  lemma Double(d: nat, m: int)
    ensures d * (2 * m) == 2 * (d * m)
  {
  }

  /** Because delta is odd, no two of the first 2^32 sums are equal. */
  lemma SumsDiffer(i: nat, j: nat)
    requires i < j < i + 0x1_0000_0000
    ensures Sum(i) != Sum(j)
  {
    hide Sum;
    if Sum(i) == Sum(j) {
      SumIsProduct(i);
      SumIsProduct(j);
      var k, q := j - i, (j * DELTA) / 0x1_0000_0000 - (i * DELTA) / 0x1_0000_0000;
      assert j * DELTA == i * DELTA + k * DELTA;
      assert DELTA * k == 0x1_0000_0000 * q;
      TopPower();
      var r := OddFactor(DELTA, k, 32, q);
      assert false;
    }
  }

  lemma TopPower()
    ensures Pow2(32) == 0x1_0000_0000
  {
    assert Pow2(4) == 16;
    assert Pow2(8) == 256;
    assert Pow2(12) == 0x1000;
    assert Pow2(16) == 0x1_0000;
    assert Pow2(20) == 0x10_0000;
    assert Pow2(24) == 0x100_0000;
    assert Pow2(28) == 0x1000_0000;
  }

  lemma LastSum()
    ensures Sum(32) == 0xc6ef3720 && (DELTA * 32) % 0x1_0000_0000 == 0xc6ef3720
  {
    hide Sum;
    SumIsProduct(32);
  }

  // ---- XTEA. ----

  function Pick(k: Key, i: Word): Word {
    if i % 4 == 0 then k.k0 else if i % 4 == 1 then k.k1 else if i % 4 == 2 then k.k2 else k.k3
  }

  function High(sum: Word): Word { sum / 2048 }

  /** (z << 4 ^ z >> 5) + (z ^ sum) + KEY[i & 3]; the shifts bind tighter than the exclusive or. */
  function XMix(z: Word, sum: Word, key: Word): Word {
    XMixBits(z as bv32, sum as bv32, key as bv32) as Word
  }

  function XMixBits(z: bv32, sum: bv32, key: bv32): bv32 { ((z << 4) ^ (z >> 5)) + (z ^ sum) + key }

  function XRound(k: Key, v: Pair, sum: Word, next: Word): Pair {
    var y := Add(v.l, XMix(v.r, sum, Pick(k, sum)));
    Pair(y, Add(v.r, XMix(y, next, Pick(k, High(next)))))
  }

  function XUnround(k: Key, v: Pair, sum: Word, next: Word): Pair {
    var z := Sub(v.r, XMix(v.l, next, Pick(k, High(next))));
    Pair(Sub(v.l, XMix(z, sum, Pick(k, sum))), z)
  }

  lemma XRoundInverts(k: Key, v: Pair, sum: Word, next: Word)
    ensures XUnround(k, XRound(k, v, sum, next), sum, next) == v
  {
    hide Add; hide Sub; hide XMix; hide Pick; hide High;
    var y := Add(v.l, XMix(v.r, sum, Pick(k, sum)));
    AddSub(v.r, XMix(y, next, Pick(k, High(next))));
    AddSub(v.l, XMix(v.r, sum, Pick(k, sum)));
  }

  function XRounds(k: Key, v: Pair, n: nat): Pair {
    if n == 0 then v else XRound(k, XRounds(k, v, n - 1), Sum(n - 1), Sum(n))
  }

  /** xtea_encrypt: the loop stops when the sum reaches delta * 32, which takes exactly 32 turns. */
  method XteaEncrypt(k: Key, v: Pair) returns (c: Pair)
    ensures c == XRounds(k, v, 32)
  {
    hide Add; hide XMix; hide Pick; hide High; hide Sum;
    var y: Word, z: Word, sum: Word := v.l, v.r, 0;
    var limit: Word := 0xc6ef3720;
    ghost var n := 0;
    FirstSum();
    LastSum();
    while sum != limit
      invariant n <= 32 && sum == Sum(n) && Pair(y, z) == XRounds(k, v, n)
      decreases 32 - n
    {
      SumForth(n);
      y := Add(y, XMix(z, sum, Pick(k, sum)));
      sum := Add(sum, DELTA);
      z := Add(z, XMix(y, sum, Pick(k, High(sum))));
      n := n + 1;
    }
    if n < 32 { SumsDiffer(n, 32); }
    c := Pair(y, z);
  }

  function XUnrounds(k: Key, c: Pair, n: nat): Pair
    decreases n
  {
    if n == 0 then c else XUnrounds(k, XUnround(k, c, Sum(n - 1), Sum(n)), n - 1)
  }

  lemma {:induction false} XRoundsInvert(k: Key, v: Pair, n: nat)
    ensures XUnrounds(k, XRounds(k, v, n), n) == v
  {
    hide XRound; hide XUnround;
    if n > 0 {
      XRoundInverts(k, XRounds(k, v, n - 1), Sum(n - 1), Sum(n));
      XRoundsInvert(k, v, n - 1);
    }
  }

  /** xtea_decrypt: the sum runs back to zero, which takes exactly 32 turns. */
  method XteaDecrypt(k: Key, c: Pair) returns (p: Pair)
    ensures p == XUnrounds(k, c, 32)
  {
    hide Add; hide Sub; hide XMix; hide Pick; hide High; hide Sum;
    var y: Word, z: Word, sum: Word := c.l, c.r, 0xc6ef3720;
    ghost var n: nat := 32;
    FirstSum();
    LastSum();
    while sum != 0
      invariant n <= 32 && sum == Sum(n) && XUnrounds(k, Pair(y, z), n) == XUnrounds(k, c, 32)
      decreases n
    {
      SumBack(n);
      z := Sub(z, XMix(y, sum, Pick(k, High(sum))));
      sum := Sub(sum, DELTA);
      y := Sub(y, XMix(z, sum, Pick(k, sum)));
      n := n - 1;
    }
    if n > 0 { SumsDiffer(0, n); }
    p := Pair(y, z);
  }

  lemma FirstSum()
    ensures Sum(0) == 0
  {
  }

  lemma SumForth(n: nat)
    ensures Sum(n + 1) == Add(Sum(n), DELTA)
  {
  }

  /** Both ciphers, there and back. */
  method RoundTrip(k: Key, v: Pair) returns (tea: Pair, xtea: Pair)
    ensures tea == v && xtea == v
  {
    hide Rounds; hide Unrounds; hide XRounds; hide XUnrounds;
    tea := TeaEncrypt(k, v);
    tea := TeaDecrypt(k, tea);
    RoundsInvert(k, v, 32);
    xtea := XteaEncrypt(k, v);
    xtea := XteaDecrypt(k, xtea);
    XRoundsInvert(k, v, 32);
  }
}
