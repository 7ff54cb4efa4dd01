/** The field GF(2^8) of section 4.2 of FIPS 197: bytes as polynomials over GF(2) modulo x^8 + x^4 + x^3 + x + 1,
    with the generator 3, its discrete logarithm, and multiplicative inverses. */
module Gf256 {
  import opened ByteIndex

  /** Addition (section 4.1). */
  function Add(a: bv8, b: bv8): bv8 {
    a ^ b
  }

  /** Multiplication by x (section 4.2.1): the bit shifted out comes back as x^4 + x^3 + x + 1. */
  function Xtime(a: bv8): bv8 {
    var carry := a >> 7;
    (a << 1) ^ carry ^ (carry << 1) ^ (carry << 3) ^ (carry << 4)
  }

  lemma XtimeByCases(a: bv8)
    ensures Xtime(a) == (a << 1) ^ (if a & 0x80 != 0 then 0x1b else 0)
  {
  }

  /** The sum of the multiples x^i * a over the set bits i < n of b. */
  function MulBits(a: bv8, b: bv8, n: nat): bv8
    decreases n
  {
    if n == 0 then 0
    else if b & 1 == 0 then MulBits(Xtime(a), b >> 1, n - 1)
    else Add(a, MulBits(Xtime(a), b >> 1, n - 1))
  }

  /** The product in the field. */
  function Mul(a: bv8, b: bv8): bv8 {
    MulBits(a, b, 8)
  }

  lemma XtimeAdd(a: bv8, b: bv8)
    ensures Xtime(Add(a, b)) == Add(Xtime(a), Xtime(b))
  {
  }

  lemma XtimeZero()
    ensures Xtime(0) == 0 && Add(0, 0) == 0
  {
  }

  lemma AddComm(p: bv8, q: bv8)
    ensures Add(p, q) == Add(q, p)
  {
  }

  lemma AddAssoc(p: bv8, q: bv8, r: bv8)
    ensures Add(Add(p, q), r) == Add(p, Add(q, r))
  {
  }

  lemma Regroup(p: bv8, q: bv8, r: bv8, s: bv8)
    ensures Add(Add(p, q), Add(r, s)) == Add(Add(p, r), Add(q, s))
  {
    hide Add;
    AddAssoc(p, q, Add(r, s));
    AddAssoc(q, r, s);
    AddComm(q, r);
    AddAssoc(r, q, s);
    AddAssoc(p, r, Add(q, s));
  }

  lemma {:induction false} MulBitsXtime(a: bv8, b: bv8, n: nat)
    ensures MulBits(Xtime(a), b, n) == Xtime(MulBits(a, b, n))
    decreases n
  {
    hide Xtime;
    hide Add;
    XtimeZero();
    if n != 0 {
      MulBitsXtime(Xtime(a), b >> 1, n - 1);
      XtimeAdd(a, MulBits(Xtime(a), b >> 1, n - 1));
    }
  }

  lemma {:induction false} MulBitsAdd(a: bv8, c: bv8, b: bv8, n: nat)
    ensures MulBits(Add(a, c), b, n) == Add(MulBits(a, b, n), MulBits(c, b, n))
    decreases n
  {
    hide Xtime;
    hide Add;
    XtimeZero();
    if n != 0 {
      XtimeAdd(a, c);
      MulBitsAdd(Xtime(a), Xtime(c), b >> 1, n - 1);
      Regroup(a, c, MulBits(Xtime(a), b >> 1, n - 1), MulBits(Xtime(c), b >> 1, n - 1));
    }
  }

  /** Multiplication distributes over addition. */
  lemma MulDistributes(a: bv8, c: bv8, b: bv8)
    ensures Mul(Add(a, c), b) == Add(Mul(a, b), Mul(c, b))
  {
    hide MulBits;
    MulBitsAdd(a, c, b, 8);
  }

  lemma MulOne(x: bv8)
    ensures Mul(1, x) == x
  {
  }

  lemma {:induction false} MulBitsOfZero(b: bv8, n: nat)
    ensures MulBits(0, b, n) == 0
    decreases n
  {
    XtimeZero();
    if n != 0 { MulBitsOfZero(b >> 1, n - 1); }
  }

  /** One step of the loop that fills the power table: multiplication by x + 1. */
  function Times3(p: bv8): bv8 {
    Add(p, Xtime(p))
  }

  lemma Times3Zero(p: bv8)
    ensures Times3(p) == 0 <==> p == 0
  {
  }

  lemma MulTimes3(a: bv8, b: bv8)
    ensures Mul(Times3(a), b) == Times3(Mul(a, b))
  {
    hide MulBits;
    hide Xtime;
    hide Add;
    MulBitsAdd(a, Xtime(a), b, 8);
    MulBitsXtime(a, b, 8);
  }

  /** The powers of 3. */
  function Pow(i: nat): bv8 {
    if i == 0 then 1 else Times3(Pow(i - 1))
  }

  lemma {:induction false} PowAdd(i: nat, j: nat)
    ensures Mul(Pow(i), Pow(j)) == Pow(i + j)
    decreases i
  {
    hide Mul;
    hide Times3;
    if i == 0 {
      MulOne(Pow(j));
    } else {
      PowAdd(i - 1, j);
      MulTimes3(Pow(i - 1), Pow(j));
    }
  }

  lemma {:induction false} PowNonZero(i: nat)
    ensures Pow(i) != 0
  {
    hide Times3;
    if i != 0 {
      PowNonZero(i - 1);
      Times3Zero(Pow(i - 1));
    }
  }

  lemma PowNext(e: nat, x: bv8, y: bv8)
    requires Pow(e) == x && Times3(x) == y
    ensures Pow(e + 1) == y
  {
  }

  lemma Pow15And17()
    ensures Pow(15) == 0x35 && Pow(17) == 0xe1
  {
    hide Pow;
    PowStart();
    PowNext(1, 0x03, 0x05);
    PowNext(2, 0x05, 0x0f);
    PowNext(3, 0x0f, 0x11);
    PowNext(4, 0x11, 0x33);
    PowNext(5, 0x33, 0x55);
    PowNext(6, 0x55, 0xff);
    PowNext(7, 0xff, 0x1a);
    PowNext(8, 0x1a, 0x2e);
    PowNext(9, 0x2e, 0x72);
    PowNext(10, 0x72, 0x96);
    PowNext(11, 0x96, 0xa1);
    PowNext(12, 0xa1, 0xf8);
    PowNext(13, 0xf8, 0x13);
    PowNext(14, 0x13, 0x35);
    PowNext(15, 0x35, 0x5f);
    PowNext(16, 0x5f, 0xe1);
  }

  /** Multiplication by 3^17, bit by bit of its value 0xe1. */
  function Times17(x: bv8): bv8 {
    var x5 := Xtime(Xtime(Xtime(Xtime(Xtime(x)))));
    Add(x, Add(x5, Add(Xtime(x5), Xtime(Xtime(x5)))))
  }

  /** Multiplication by 3^15, bit by bit of its value 0x35. */
  function Times15(x: bv8): bv8 {
    var x2 := Xtime(Xtime(x));
    var x4 := Xtime(Xtime(x2));
    Add(x, Add(x2, Add(x4, Xtime(x4))))
  }

  lemma AddZero(x: bv8)
    ensures Add(x, 0) == x
  {
  }

  lemma MulIsTimes17(x: bv8)
    ensures Mul(x, 0xe1) == Times17(x)
  {
    hide Xtime;
    hide Add;
    var x1 := Xtime(x);
    var x2 := Xtime(x1);
    var x3 := Xtime(x2);
    var x4 := Xtime(x3);
    var x5 := Xtime(x4);
    var x6 := Xtime(x5);
    var x7 := Xtime(x6);
    var x8 := Xtime(x7);
    assert MulBits(x, 0xe1, 8) == Add(x, MulBits(x1, 0x70, 7));
    assert MulBits(x1, 0x70, 7) == MulBits(x2, 0x38, 6);
    assert MulBits(x2, 0x38, 6) == MulBits(x3, 0x1c, 5);
    assert MulBits(x3, 0x1c, 5) == MulBits(x4, 0x0e, 4);
    assert MulBits(x4, 0x0e, 4) == MulBits(x5, 0x07, 3);
    assert MulBits(x5, 0x07, 3) == Add(x5, MulBits(x6, 0x03, 2));
    assert MulBits(x6, 0x03, 2) == Add(x6, MulBits(x7, 0x01, 1));
    assert MulBits(x7, 0x01, 1) == Add(x7, MulBits(x8, 0x00, 0));
    AddZero(x7);
  }

  lemma MulIsTimes15(x: bv8)
    ensures Mul(x, 0x35) == Times15(x)
  {
    hide Xtime;
    hide Add;
    var x1 := Xtime(x);
    var x2 := Xtime(x1);
    var x3 := Xtime(x2);
    var x4 := Xtime(x3);
    var x5 := Xtime(x4);
    var x6 := Xtime(x5);
    var x7 := Xtime(x6);
    var x8 := Xtime(x7);
    assert MulBits(x, 0x35, 8) == Add(x, MulBits(x1, 0x1a, 7));
    assert MulBits(x1, 0x1a, 7) == MulBits(x2, 0x0d, 6);
    assert MulBits(x2, 0x0d, 6) == Add(x2, MulBits(x3, 0x06, 5));
    assert MulBits(x3, 0x06, 5) == MulBits(x4, 0x03, 4);
    assert MulBits(x4, 0x03, 4) == Add(x4, MulBits(x5, 0x01, 3));
    assert MulBits(x5, 0x01, 3) == Add(x5, MulBits(x6, 0x00, 2));
    assert MulBits(x6, 0x00, 2) == MulBits(x7, 0x00, 1);
    assert MulBits(x7, 0x00, 1) == MulBits(x8, 0x00, 0);
    AddZero(x5);
  }

  lemma PowStep17(e: nat, x: bv8, y: bv8)
    requires Pow(e) == x && Times17(x) == y
    ensures Pow(e + 17) == y
  {
    hide Pow;
    hide Mul;
    hide Times17;
    Pow15And17();
    PowAdd(e, 17);
    MulIsTimes17(x);
  }

  lemma PowStep15(e: nat, x: bv8, y: bv8)
    requires Pow(e) == x && Times15(x) == y
    ensures Pow(e + 15) == y
  {
    hide Pow;
    hide Mul;
    hide Times15;
    Pow15And17();
    PowAdd(e, 15);
    MulIsTimes15(x);
  }

  lemma PowStart()
    ensures Pow(0) == 1 && Pow(1) == 3
  {
    assert Times3(1) == 3;
  }

  /** The powers of 3^17 run through 15 different values before they come back to 1. */
  lemma Powers17()
    ensures Pow(17) == 0xe1 && Pow(34) == 0x5c && Pow(51) == 0x0c && Pow(68) == 0xe0 && Pow(85) == 0xbd
    ensures Pow(102) == 0x50 && Pow(119) == 0xec && Pow(136) == 0x5d && Pow(153) == 0xed && Pow(170) == 0xbc
    ensures Pow(187) == 0xb1 && Pow(204) == 0xb0 && Pow(221) == 0x51 && Pow(238) == 0x0d && Pow(255) == 1
  {
    hide Pow;
    Pow15And17();
    PowStep17(17, 0xe1, 0x5c);
    PowStep17(34, 0x5c, 0x0c);
    PowStep17(51, 0x0c, 0xe0);
    PowStep17(68, 0xe0, 0xbd);
    PowStep17(85, 0xbd, 0x50);
    PowStep17(102, 0x50, 0xec);
    PowStep17(119, 0xec, 0x5d);
    PowStep17(136, 0x5d, 0xed);
    PowStep17(153, 0xed, 0xbc);
    PowStep17(170, 0xbc, 0xb1);
    PowStep17(187, 0xb1, 0xb0);
    PowStep17(204, 0xb0, 0x51);
    PowStep17(221, 0x51, 0x0d);
    PowStep17(238, 0x0d, 0x01);
  }

  /** The powers of 3^15 run through 17 different values before they come back to 1. */
  lemma Powers15()
    ensures Pow(15) == 0x35 && Pow(30) == 0x66 && Pow(45) == 0xab && Pow(60) == 0xd3 && Pow(75) == 0x08
    ensures Pow(90) == 0xb3 && Pow(105) == 0x1d && Pow(120) == 0x2f && Pow(135) == 0xc2 && Pow(150) == 0x40
    ensures Pow(165) == 0xef && Pow(180) == 0xe8 && Pow(195) == 0x63 && Pow(210) == 0x4a && Pow(225) == 0x36
    ensures Pow(240) == 0x39
  {
    hide Pow;
    Pow15And17();
    PowStep15(15, 0x35, 0x66);
    PowStep15(30, 0x66, 0xab);
    PowStep15(45, 0xab, 0xd3);
    PowStep15(60, 0xd3, 0x08);
    PowStep15(75, 0x08, 0xb3);
    PowStep15(90, 0xb3, 0x1d);
    PowStep15(105, 0x1d, 0x2f);
    PowStep15(120, 0x2f, 0xc2);
    PowStep15(135, 0xc2, 0x40);
    PowStep15(150, 0x40, 0xef);
    PowStep15(165, 0xef, 0xe8);
    PowStep15(180, 0xe8, 0x63);
    PowStep15(195, 0x63, 0x4a);
    PowStep15(210, 0x4a, 0x36);
    PowStep15(225, 0x36, 0x39);
  }

  lemma {:induction false} PowPeriod(a: nat, k: nat)
    ensures Pow(255 * a + k) == Pow(k)
    decreases a
  {
    hide Pow;
    if a != 0 {
      PowPeriod(a - 1, k);
      Powers17();
      PowAdd(255, 255 * (a - 1) + k);
      MulOne(Pow(255 * (a - 1) + k));
    }
  }

  lemma {:induction false} PowOfOne(d: nat, k: nat)
    requires Pow(d) == 1
    ensures Pow(k * d) == 1
    decreases k
  {
    hide Pow;
    PowStart();
    if k != 0 {
      PowOfOne(d, k - 1);
      assert (k - 1) * d + d == k * d;
      PowAdd((k - 1) * d, d);
      MulOne(1);
    }
  }

  /** 3 has order 255: a power of 3 below the 255th is not 1. */
  lemma Order255(d: nat)
    requires 0 < d < 255
    ensures Pow(d) != 1
  {
    hide Pow;
    if Pow(d) == 1 {
      PowOfOne(d, 17);
      PowPeriod(d / 15, 17 * (d % 15));
      assert 17 * d == 255 * (d / 15) + 17 * (d % 15);
      Powers17();
      PowOfOne(d, 15);
      PowPeriod(d / 17, 15 * (d % 17));
      assert 15 * d == 255 * (d / 17) + 15 * (d % 17);
      Powers15();
      assert false;
    }
  }

  lemma PowInjective(i: nat, j: nat)
    requires i < j < 255
    ensures Pow(i) != Pow(j)
  {
    hide Pow;
    if Pow(i) == Pow(j) {
      PowAdd(i, 255 - i);
      PowAdd(j, 255 - i);
      Powers17();
      PowPeriod(1, j - i);
      Order255(j - i);
      assert false;
    }
  }

  /** The first n powers of 3. */
  ghost function Powers(n: nat): set<bv8> {
    if n == 0 then {} else Powers(n - 1) + {Pow(n - 1)}
  }

  lemma {:induction false} PowersMembers(n: nat, x: bv8)
    ensures x in Powers(n) <==> exists i: nat :: i < n && Pow(i) == x
  {
    hide Times3;
    if n != 0 {
      PowersMembers(n - 1, x);
      if x in Powers(n) {
        if x !in Powers(n - 1) {
          var k: nat := n - 1;
          assert k < n && Pow(k) == x;
        }
      } else {
        forall i: nat | i < n ensures Pow(i) != x {
          if i == n - 1 { assert Powers(n) == Powers(n - 1) + {Pow(i)}; }
        }
      }
    }
  }

  lemma {:induction false} PowersCount(n: nat)
    requires n <= 255
    ensures |Powers(n)| == n
  {
    hide Pow;
    if n != 0 {
      PowersCount(n - 1);
      PowersMembers(n - 1, Pow(n - 1));
      forall i | 0 <= i < n - 1 ensures Pow(i) != Pow(n - 1) { PowInjective(i, n - 1); }
    }
  }

  /** The first n bytes. */
  ghost function FirstBytes(n: nat): set<bv8> {
    if n == 0 then {} else FirstBytes(n - 1) + {ByteAt(n - 1)}
  }

  lemma {:induction false} FirstBytesMembers(n: nat, i: nat)
    requires i < n
    ensures ByteAt(i) in FirstBytes(n)
  {
    hide ByteAt;
    if i < n - 1 { FirstBytesMembers(n - 1, i); }
  }

  lemma {:induction false} FirstBytesCount(n: nat)
    ensures |FirstBytes(n)| <= n
  {
    hide ByteAt;
    if n != 0 { FirstBytesCount(n - 1); }
  }

  lemma {:induction false} SubsetAtMost<T>(a: set<T>, b: set<T>)
    requires a <= b
    ensures |a| <= |b|
  {
    if a != {} {
      var x :| x in a;
      SubsetAtMost(a - {x}, b - {x});
    }
  }

  /** 3 generates the field: every non-zero byte is one of its first 255 powers. */
  lemma EveryNonZeroIsAPower(x: bv8)
    requires x != 0
    ensures exists i: nat :: i < 255 && Pow(i) == x
  {
    hide Pow;
    PowersMembers(255, x);
    if x !in Powers(255) {
      PowersMembers(255, 0);
      forall i: nat | i < 255 ensures Pow(i) != 0 { PowNonZero(i); }
      PowersCount(255);
      var some := Powers(255) + {0} + {x};
      assert |some| == 257;
      forall y | y in some ensures y in FirstBytes(256) {
        ByteAtIndex(y);
        FirstBytesMembers(256, Index(y));
      }
      SubsetAtMost(some, FirstBytes(256));
      FirstBytesCount(256);
      assert false;
    }
  }

  /** The discrete logarithm to base 3. */
  ghost function Log(x: bv8): (i: nat)
    requires x != 0
    ensures i < 255 && Pow(i) == x
  {
    EveryNonZeroIsAPower(x);
    var i: nat :| i < 255 && Pow(i) == x;
    i
  }

  lemma MulByZero(a: bv8)
    ensures Mul(0, a) == 0 && Mul(a, 0) == 0
  {
    MulBitsOfZero(a, 8);
  }

  lemma MulCommutes(a: bv8, b: bv8)
    ensures Mul(a, b) == Mul(b, a)
  {
    hide Mul;
    hide Pow;
    MulByZero(a);
    MulByZero(b);
    if a != 0 && b != 0 {
      PowAdd(Log(a), Log(b));
      PowAdd(Log(b), Log(a));
    }
  }

  lemma MulAssociates(a: bv8, b: bv8, c: bv8)
    ensures Mul(Mul(a, b), c) == Mul(a, Mul(b, c))
  {
    hide Mul;
    hide Times3;
    MulByZero(a);
    MulByZero(b);
    MulByZero(c);
    MulByZero(Mul(a, b));
    MulByZero(Mul(b, c));
    if a != 0 && b != 0 && c != 0 {
      PowAdd(Log(a), Log(b));
      PowAdd(Log(b), Log(c));
      PowAdd(Log(a) + Log(b), Log(c));
      PowAdd(Log(a), Log(b) + Log(c));
    }
  }

  /** The multiplicative inverse, with 0 mapped to itself (section 5.1.1). */
  ghost function Inverse(a: bv8): bv8 {
    if a == 0 then 0 else Pow(255 - Log(a))
  }

  /** Inverse is characterised by the product, not by the logarithm. */
  lemma InverseExactly(a: bv8, b: bv8)
    requires a != 0
    ensures Mul(a, b) == 1 <==> b == Inverse(a)
  {
    hide Mul;
    hide Pow;
    Powers17();
    PowAdd(Log(a), 255 - Log(a));
    if Mul(a, b) == 1 {
      MulCommutes(a, b);
      MulAssociates(Inverse(a), a, b);
      MulCommutes(Inverse(a), a);
      MulOne(b);
      MulCommutes(Inverse(a), 1);
      MulOne(Inverse(a));
    }
  }

  /** Inverse undoes itself. */
  lemma InverseInvolutive(a: bv8)
    ensures Inverse(Inverse(a)) == a
  {
    hide Mul;
    hide Pow;
    if a != 0 {
      InverseExactly(a, Inverse(a));
      MulByZero(a);
      MulCommutes(a, Inverse(a));
      assert Inverse(a) != 0;
      InverseExactly(Inverse(a), a);
    }
  }
}
