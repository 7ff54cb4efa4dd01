/** The bit counters of sha256.c and sha512.c: carry chains over 32-bit words. */
module Counters {

  const B: nat := 0x1_0000_0000

  lemma LowBits(x: nat)
    ensures x % 512 == (x % 0x1_0000_0000) % 512
    ensures x % 1024 == (x % 0x1_0000_0000) % 1024
  {
    var q, r := x / 0x1_0000_0000, x % 0x1_0000_0000;
    Multiple512(q * 0x80_0000, r);
    Multiple1024(q * 0x40_0000, r);
  }

  lemma Multiple512(a: nat, r: nat)
    ensures (512 * a + r) % 512 == r % 512
  {
  }

  lemma Multiple1024(a: nat, r: nat)
    ensures (1024 * a + r) % 1024 == r % 1024
  {
  }

  lemma Octets(x: nat)
    ensures (x / 8) % 64 == (x % 512) / 8
    ensures (x / 8) % 128 == (x % 1024) / 8
  {
    var q, r := x / 512, x % 512;
    assert x / 8 == 64 * q + r / 8;
    var p, t := x / 1024, x % 1024;
    assert x / 8 == 128 * p + t / 8;
  }

  /** The low-order bits of the count give the position in the block, whatever the lengths. */
  lemma Index(count: nat, n: nat)
    requires count % 0x1_0000_0000 == (8 * n) % 0x1_0000_0000
    ensures (count / 8) % 64 == n % 64 && (count / 8) % 128 == n % 128
  {
    LowBits(count);
    LowBits(8 * n);
    Octets(count);
    Octets(8 * n);
  }

  /** The test for a carry: the sum came out below what was added. */
  lemma CarryTest(lo: nat, k: nat)
    requires lo < B && k < B
    ensures ((lo + k) % B < k) <==> lo + k >= B
  {
  }

  /** 8 * (n + len) by words. */
  lemma AddWords(n: nat, len: nat)
    ensures (8 * (n + len)) % B == ((8 * n) % B + (8 * len) % B) % B
    ensures (n + len) / 0x2000_0000
         == n / 0x2000_0000 + len / 0x2000_0000 + (if (8 * n) % B + (8 * len) % B >= B then 1 else 0)
  {
    Octuple(n);
    Octuple(len);
    Octuple(n + len);
    AddParts(n / 0x2000_0000, n % 0x2000_0000, len / 0x2000_0000, len % 0x2000_0000);
  }

  lemma AddParts(a: nat, x: nat, b: nat, y: nat)
    requires x < 0x2000_0000 && y < 0x2000_0000
    ensures (a * 0x2000_0000 + x + (b * 0x2000_0000 + y)) / 0x2000_0000 == a + b + (if x + y >= 0x2000_0000 then 1 else 0)
    ensures (a * 0x2000_0000 + x + (b * 0x2000_0000 + y)) % 0x2000_0000
         == if x + y >= 0x2000_0000 then x + y - 0x2000_0000 else x + y
  {
  }

  lemma Octuple(n: nat)
    ensures (8 * n) % B == 8 * (n % 0x2000_0000)
  {
    assert 8 * n == (n / 0x2000_0000) * B + 8 * (n % 0x2000_0000);
  }

  // ---- sha256.c: two words. ----

  datatype Pair = Pair(lo: nat, hi: nat)

  /** The words of 8 * n modulo 2^64. */
  function PairOf(n: nat): Pair {
    Pair((8 * n) % B, (n / 0x2000_0000) % B)
  }

  /** The counter code of sha256_update. */
  function StepPair(c: Pair, len: nat): Pair {
    var k := (8 * len) % B;
    var lo := (c.lo + k) % B;
    if lo < k then Pair(lo, (c.hi + 1 + len / 0x2000_0000) % B) else Pair(lo, c.hi)
  }

  /** The count stays exact if and only if the update is shorter than 2^29 bytes or the low word carries. */
  lemma StepPairExactly(n: nat, len: nat)
    requires len < B
    ensures StepPair(PairOf(n), len) == PairOf(n + len)
       <==> (len < 0x2000_0000 || (8 * n) % B + (8 * len) % B >= B)
    ensures StepPair(PairOf(n), len).lo == PairOf(n + len).lo
  {
    AddWords(n, len);
    CarryTest((8 * n) % B, (8 * len) % B);
    var q, l := n / 0x2000_0000, len / 0x2000_0000;
    AddDigit(q, 1 + l);
    AddDigit(q, l);
  }

  lemma AddDigit(q: nat, l: nat)
    requires l < B
    ensures (q % B + l) % B == (q + l) % B
    ensures (q + l) % B == q % B <==> l == 0
    ensures (q + l) / B == q / B + (if q % B + l >= B then 1 else 0)
  {
    assert q == (q / B) * B + q % B;
  }

  /** A run that goes wrong: after no bytes at all, one update of 2^29 bytes. */
  lemma StepPairCounterexample()
    ensures StepPair(PairOf(0), 0x2000_0000) == Pair(0, 0)
    ensures PairOf(0x2000_0000) == Pair(0, 1)
  {
  }

  // ---- sha512.c: four words. ----

  datatype Triple = Triple(c1: nat, c2: nat, c3: nat)

  datatype Quad = Quad(c0: nat, up: Triple)

  function TripleOf(q: nat): Triple {
    Triple(q % B, (q / B) % B, (q / B / B) % B)
  }

  /** The words of 8 * n modulo 2^128. */
  function QuadOf(n: nat): Quad {
    Quad((8 * n) % B, TripleOf(n / 0x2000_0000))
  }

  /** The nested increments of count[1], count[2] and count[3]. */
  function Carry(t: Triple): Triple {
    var c1 := (t.c1 + 1) % B;
    if c1 < 1 then
      var c2 := (t.c2 + 1) % B;
      Triple(c1, c2, if c2 < 1 then (t.c3 + 1) % B else t.c3)
    else
      Triple(c1, t.c2, t.c3)
  }

  function AddLow(t: Triple, l: nat): Triple {
    t.(c1 := (t.c1 + l) % B)
  }

  /** The counter code of sha512_update. */
  function StepQuad(c: Quad, len: nat): Quad {
    var k := (8 * len) % B;
    var c0 := (c.c0 + k) % B;
    if c0 < k then Quad(c0, AddLow(Carry(c.up), len / 0x2000_0000)) else Quad(c0, c.up)
  }

  /** The count stays exact if and only if there is no carry and the update is shorter than 2^29 bytes, or
      there is one and the last addition to the second word does not itself carry. */
  lemma StepQuadExactly(n: nat, len: nat)
    requires len < B
    ensures StepQuad(QuadOf(n), len) == QuadOf(n + len)
       <==> (if (8 * n) % B + (8 * len) % B >= B then (QuadOf(n).up.c1 + 1) % B + len / 0x2000_0000 < B
             else len < 0x2000_0000)
    ensures StepQuad(QuadOf(n), len).c0 == QuadOf(n + len).c0
  {
    hide TripleOf; hide Carry; hide AddLow;
    AddWords(n, len);
    SuccDigit(n / 0x2000_0000);
    StepWords((8 * n) % B, (8 * len) % B, n / 0x2000_0000, len / 0x2000_0000);
    assert TripleOf(n / 0x2000_0000 + 1).c1 == (TripleOf(n / 0x2000_0000).c1 + 1) % B by { LowDigit(n / 0x2000_0000); }
  }

  lemma LowDigit(q: nat)
    ensures TripleOf(q + 1).c1 == (TripleOf(q).c1 + 1) % B
  {
    SuccDigit(q);
  }

  /** The same in terms of the words. */
  lemma StepWords(lo: nat, k: nat, q: nat, l: nat)
    requires lo < B && k < B && l < B
    ensures (if (lo + k) % B < k then AddLow(Carry(TripleOf(q)), l) else TripleOf(q))
            == TripleOf(q + l + (if lo + k >= B then 1 else 0))
       <==> (if lo + k >= B then TripleOf(q + 1).c1 + l < B else l == 0)
  {
    hide TripleOf; hide Carry; hide AddLow;
    CarryTest(lo, k);
    if lo + k >= B {
      CarryIsSucc(q);
      AddLowExactly(q + 1, l);
    } else {
      AddLowExactly(q, l);
    }
  }

  lemma SuccDigit(x: nat)
    ensures (x + 1) % B == (x % B + 1) % B
    ensures (x + 1) / B == x / B + (if (x % B + 1) % B < 1 then 1 else 0)
  {
    AddDigit(x, 1);
  }

  lemma CarryIsSucc(q: nat)
    ensures Carry(TripleOf(q)) == TripleOf(q + 1)
  {
    SuccDigit(q);
    SuccDigit(q / B);
    SuccDigit(q / B / B);
  }

  /** Adding to the lowest digit alone is right exactly when it does not carry. */
  lemma AddLowExactly(p: nat, l: nat)
    requires l < B
    ensures AddLow(TripleOf(p), l) == TripleOf(p + l) <==> TripleOf(p).c1 + l < B
    ensures TripleOf(p) == TripleOf(p + l) <==> l == 0
  {
    AddDigit(p, l);
    AddDigit(p / B, 1);
  }

  lemma StepQuadCounterexample()
    ensures StepQuad(QuadOf(0), 0x2000_0000) == Quad(0, Triple(0, 0, 0))
    ensures QuadOf(0x2000_0000) == Quad(0, Triple(1, 0, 0))
  {
  }

  /** Short updates keep the count exact. */
  lemma ShortSteps(n: nat, len: nat)
    requires len < 0x2000_0000
    ensures StepPair(PairOf(n), len) == PairOf(n + len)
    ensures StepQuad(QuadOf(n), len) == QuadOf(n + len)
  {
    StepPairExactly(n, len);
    StepQuadExactly(n, len);
  }

  // ---- Runs. ----

  function Total(lens: seq<nat>): nat {
    if lens == [] then 0 else Total(lens[..|lens| - 1]) + lens[|lens| - 1]
  }

  function RunPair(lens: seq<nat>): Pair {
    if lens == [] then Pair(0, 0) else StepPair(RunPair(lens[..|lens| - 1]), lens[|lens| - 1])
  }

  function RunQuad(lens: seq<nat>): Quad {
    if lens == [] then Quad(0, Triple(0, 0, 0)) else StepQuad(RunQuad(lens[..|lens| - 1]), lens[|lens| - 1])
  }

  /** In every run of updates shorter than 2^29 bytes both counters are 8 times the total, modulo 2^64 and 2^128. */
  lemma {:induction false} RunsExact(lens: seq<nat>)
    requires forall i :: 0 <= i < |lens| ==> lens[i] < 0x2000_0000
    ensures RunPair(lens) == PairOf(Total(lens)) && RunQuad(lens) == QuadOf(Total(lens))
  {
    hide StepPair; hide StepQuad; hide PairOf; hide QuadOf;
    if lens == [] {
      ZeroCounts();
    } else {
      var front := lens[..|lens| - 1];
      RunsExact(front);
      ShortSteps(Total(front), lens[|lens| - 1]);
    }
  }

  lemma ZeroCounts()
    ensures PairOf(0) == Pair(0, 0) && QuadOf(0) == Quad(0, Triple(0, 0, 0))
  {
  }
}
