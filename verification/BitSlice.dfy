/** Bit slicing: word operations that work on every bit position at once, and the single-bit operations they stand for. */
module BitSlice {
  import opened WordOps

  /** The operations a bit-sliced computation may use, over words or over single bits. */
  datatype Ops<!T> = Ops(xor: (T, T) -> T, and: (T, T) -> T, or: (T, T) -> T, not: T -> T)

  /** h carries one set of operations to another. */
  ghost predicate Hom<T(!new), U(!new)>(h: T -> U, o: Ops<T>, p: Ops<U>) {
    && (forall x, y :: h(o.xor(x, y)) == p.xor(h(x), h(y)))
    && (forall x, y :: h(o.and(x, y)) == p.and(h(x), h(y)))
    && (forall x, y :: h(o.or(x, y)) == p.or(h(x), h(y)))
    && (forall x :: h(o.not(x)) == p.not(h(x)))
  }

  const BITS: Ops<bool> := Ops((x, y) => x != y, (x, y) => x && y, (x, y) => x || y, x => !x)

  const WORDS: Ops<bv32> := Ops(Xor, And, Or, Not)

  function And(x: bv32, y: bv32): bv32 { x & y }

  function Or(x: bv32, y: bv32): bv32 { x | y }

  function Not(x: bv32): bv32 { !x }

  function Low(x: bv32): bool { x & 1 != 0 }

  function Half(x: bv32): bv32 { x >> 1 }

  /** Bit k of a word. */
  function Bit(x: bv32, k: nat): bool
    decreases k
  {
    if k == 0 then Low(x) else Bit(Half(x), k - 1)
  }

  lemma LowXor(x: bv32, y: bv32)
    ensures Low(Xor(x, y)) == (Low(x) != Low(y))
  {
  }

  lemma LowAnd(x: bv32, y: bv32)
    ensures Low(And(x, y)) == (Low(x) && Low(y))
  {
  }

  lemma LowOr(x: bv32, y: bv32)
    ensures Low(Or(x, y)) == (Low(x) || Low(y))
  {
  }

  lemma ShiftOps(x: bv32, y: bv32)
    ensures (x ^ y) >> 1 == (x >> 1) ^ (y >> 1)
    ensures (x & y) >> 1 == (x >> 1) & (y >> 1)
    ensures (x | y) >> 1 == (x >> 1) | (y >> 1)
  {
  }

  lemma HalfXor(x: bv32, y: bv32)
    ensures Half(Xor(x, y)) == Xor(Half(x), Half(y))
  {
    ShiftOps(x, y);
  }

  lemma HalfAnd(x: bv32, y: bv32)
    ensures Half(And(x, y)) == And(Half(x), Half(y))
  {
    ShiftOps(x, y);
  }

  lemma HalfOr(x: bv32, y: bv32)
    ensures Half(Or(x, y)) == Or(Half(x), Half(y))
  {
    ShiftOps(x, y);
  }

  lemma {:induction false} BitOps(x: bv32, y: bv32, k: nat)
    ensures Bit(Xor(x, y), k) == (Bit(x, k) != Bit(y, k))
    ensures Bit(And(x, y), k) == (Bit(x, k) && Bit(y, k))
    ensures Bit(Or(x, y), k) == (Bit(x, k) || Bit(y, k))
    decreases k
  {
    hide Xor; hide And; hide Or; hide Low; hide Half;
    if k == 0 {
      LowXor(x, y);
      LowAnd(x, y);
      LowOr(x, y);
    } else {
      HalfXor(x, y);
      HalfAnd(x, y);
      HalfOr(x, y);
      BitOps(Half(x), Half(y), k - 1);
    }
  }

  /** Exactly the low n bits of x are set. */
  predicate Ones(x: bv32, n: nat)
    decreases n
  {
    if n == 0 then x == 0 else Low(x) && Ones(Half(x), n - 1)
  }

  lemma {:induction false} BitOfOnes(x: bv32, n: nat, k: nat)
    requires Ones(x, n) && k < n
    ensures Bit(x, k)
    decreases k
  {
    hide Low; hide Half;
    if k != 0 { BitOfOnes(Half(x), n - 1, k - 1); }
  }

  lemma OnesStep(x: bv32, n: nat)
    requires Low(x) && Low(Half(x)) && Low(Half(Half(x))) && Low(Half(Half(Half(x))))
    requires Ones(Half(Half(Half(Half(x)))), n)
    ensures Ones(x, n + 4)
  {
    hide Low; hide Half;
    assert Ones(Half(Half(Half(x))), n + 1);
    assert Ones(Half(Half(x)), n + 2);
    assert Ones(Half(x), n + 3);
  }

  lemma AllOnes()
    ensures Ones(0xffff_ffff, 32)
  {
    OnesStep(0xf, 0);
    OnesStep(0xff, 4);
    OnesStep(0xfff, 8);
    OnesStep(0xffff, 12);
    OnesStep(0xf_ffff, 16);
    OnesStep(0xff_ffff, 20);
    OnesStep(0xfff_ffff, 24);
    OnesStep(0xffff_ffff, 28);
  }

  lemma NotIsXor(x: bv32)
    ensures Not(x) == Xor(x, 0xffff_ffff)
  {
  }

  lemma BitNot(x: bv32, k: nat)
    requires k < 32
    ensures Bit(Not(x), k) == !Bit(x, k)
  {
    hide Xor; hide Not; hide Bit;
    NotIsXor(x);
    AllOnes();
    BitOfOnes(0xffff_ffff, 32, k);
    BitOps(x, 0xffff_ffff, k);
  }

  function BitAt(k: nat): bv32 -> bool {
    (x: bv32) => Bit(x, k)
  }

  lemma BitAtXor(k: nat, x: bv32, y: bv32)
    ensures BitAt(k)(WORDS.xor(x, y)) == BITS.xor(BitAt(k)(x), BitAt(k)(y))
  {
    hide Bit; hide Xor;
    BitOps(x, y, k);
  }

  lemma BitAtAnd(k: nat, x: bv32, y: bv32)
    ensures BitAt(k)(WORDS.and(x, y)) == BITS.and(BitAt(k)(x), BitAt(k)(y))
  {
    hide Bit; hide And;
    BitOps(x, y, k);
  }

  lemma BitAtOr(k: nat, x: bv32, y: bv32)
    ensures BitAt(k)(WORDS.or(x, y)) == BITS.or(BitAt(k)(x), BitAt(k)(y))
  {
    hide Bit; hide Or;
    BitOps(x, y, k);
  }

  lemma BitAtNot(k: nat, x: bv32)
    requires k < 32
    ensures BitAt(k)(WORDS.not(x)) == BITS.not(BitAt(k)(x))
  {
    hide Bit; hide Not;
    BitNot(x, k);
  }

  /** Taking bit k is a homomorphism from words to bits. */
  lemma BitIsHom(k: nat)
    requires k < 32
    ensures Hom(BitAt(k), WORDS, BITS)
  {
    hide Xor; hide And; hide Or; hide Not; hide BitAt; hide WORDS; hide BITS;
    forall x: bv32, y: bv32
      ensures BitAt(k)(WORDS.xor(x, y)) == BITS.xor(BitAt(k)(x), BitAt(k)(y))
      ensures BitAt(k)(WORDS.and(x, y)) == BITS.and(BitAt(k)(x), BitAt(k)(y))
      ensures BitAt(k)(WORDS.or(x, y)) == BITS.or(BitAt(k)(x), BitAt(k)(y))
    {
      BitAtXor(k, x, y);
      BitAtAnd(k, x, y);
      BitAtOr(k, x, y);
    }
    forall x: bv32 ensures BitAt(k)(WORDS.not(x)) == BITS.not(BitAt(k)(x)) {
      BitAtNot(k, x);
    }
  }

  // ---- A word is determined by its bits. ----

  predicate Fits(x: bv32, n: nat)
    decreases n
  {
    if n == 0 then x == 0 else Fits(Half(x), n - 1)
  }

  function ByteDown(x: bv32): bv32 { x >> 8 }

  lemma FitsStep(x: bv32, n: nat)
    requires Fits(ByteDown(x), n)
    ensures Fits(x, n + 8)
  {
    hide Half; hide ByteDown;
    var x4 := Half(Half(Half(Half(x))));
    EightHalves(x);
    assert Fits(Half(Half(Half(x4))), n + 1);
    assert Fits(Half(Half(x4)), n + 2);
    assert Fits(Half(x4), n + 3);
    assert Fits(x4, n + 4);
    assert Fits(Half(Half(Half(x))), n + 5);
    assert Fits(Half(Half(x)), n + 6);
    assert Fits(Half(x), n + 7);
  }

  lemma EightHalves(x: bv32)
    ensures Half(Half(Half(Half(Half(Half(Half(Half(x)))))))) == ByteDown(x)
  {
  }

  lemma WordFits(x: bv32)
    ensures Fits(x, 32)
  {
    hide Half; hide ByteDown;
    FourBytes(x);
    FitsStep(ByteDown(ByteDown(ByteDown(x))), 0);
    FitsStep(ByteDown(ByteDown(x)), 8);
    FitsStep(ByteDown(x), 16);
    FitsStep(x, 24);
  }

  lemma FourBytes(x: bv32)
    ensures ByteDown(ByteDown(ByteDown(ByteDown(x)))) == 0
  {
  }

  lemma HalvesDetermine(x: bv32, y: bv32)
    requires Low(x) == Low(y) && Half(x) == Half(y)
    ensures x == y
  {
  }

  lemma {:induction false} SameBits(x: bv32, y: bv32, n: nat)
    requires Fits(x, n) && Fits(y, n) && forall k: nat :: k < n ==> Bit(x, k) == Bit(y, k)
    ensures x == y
    decreases n
  {
    hide Low; hide Half;
    if n != 0 {
      assert Bit(x, 0) == Bit(y, 0);
      forall k: nat | k < n - 1 ensures Bit(Half(x), k) == Bit(Half(y), k) {
        assert Bit(x, k + 1) == Bit(y, k + 1);
      }
      SameBits(Half(x), Half(y), n - 1);
      HalvesDetermine(x, y);
    }
  }

  /** Two words with the same 32 bits are equal. */
  lemma BitsDetermine(x: bv32, y: bv32)
    requires forall k: nat :: k < 32 ==> Bit(x, k) == Bit(y, k)
    ensures x == y
  {
    hide Bit; hide Fits;
    WordFits(x);
    WordFits(y);
    SameBits(x, y, 32);
  }
}
