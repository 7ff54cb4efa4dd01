/** The S-boxes of serpent.c: the macros S0 to S7 and their inverses SI0 to SI7, each a short straight-line program on
    five registers that works on every bit position of its words at once. */
module SerpentBoxes {
  import opened BitSlice
  import opened WordOps

  /** The registers a macro works on; x4 is scratch on entry. */
  datatype Regs<T> = Regs(x0: T, x1: T, x2: T, x3: T, x4: T)

  /** Four words in their logical order. */
  datatype Quad<T> = Quad(a: T, b: T, c: T, d: T)

  function MapRegs<T, U>(h: T -> U, r: Regs<T>): Regs<U> {
    Regs(h(r.x0), h(r.x1), h(r.x2), h(r.x3), h(r.x4))
  }

  function MapQuad<T, U>(h: T -> U, q: Quad<T>): Quad<U> {
    Quad(h(q.a), h(q.b), h(q.c), h(q.d))
  }

  function S0<T>(o: Ops<T>, x0: T, x1: T, x2: T, x3: T): Regs<T> {
    var x4 := x3; var x3 := o.or(x3, x0); var x0 := o.xor(x0, x4); var x4 := o.xor(x4, x2);
    var x4 := o.not(x4); var x3 := o.xor(x3, x1); var x1 := o.and(x1, x0); var x1 := o.xor(x1, x4);
    var x2 := o.xor(x2, x0); var x0 := o.xor(x0, x3); var x4 := o.or(x4, x0); var x0 := o.xor(x0, x2);
    var x2 := o.and(x2, x1); var x3 := o.xor(x3, x2); var x1 := o.not(x1); var x2 := o.xor(x2, x4);
    var x1 := o.xor(x1, x2);
    Regs(x0, x1, x2, x3, x4)
  }

  function S1<T>(o: Ops<T>, x0: T, x1: T, x2: T, x3: T): Regs<T> {
    var x4 := x1; var x1 := o.xor(x1, x0); var x0 := o.xor(x0, x3); var x3 := o.not(x3);
    var x4 := o.and(x4, x1); var x0 := o.or(x0, x1); var x3 := o.xor(x3, x2); var x0 := o.xor(x0, x3);
    var x1 := o.xor(x1, x3); var x3 := o.xor(x3, x4); var x1 := o.or(x1, x4); var x4 := o.xor(x4, x2);
    var x2 := o.and(x2, x0); var x2 := o.xor(x2, x1); var x1 := o.or(x1, x0); var x0 := o.not(x0);
    var x0 := o.xor(x0, x2); var x4 := o.xor(x4, x1);
    Regs(x0, x1, x2, x3, x4)
  }

  function S2<T>(o: Ops<T>, x0: T, x1: T, x2: T, x3: T): Regs<T> {
    var x3 := o.not(x3); var x1 := o.xor(x1, x0); var x4 := x0; var x0 := o.and(x0, x2);
    var x0 := o.xor(x0, x3); var x3 := o.or(x3, x4); var x2 := o.xor(x2, x1); var x3 := o.xor(x3, x1);
    var x1 := o.and(x1, x0); var x0 := o.xor(x0, x2); var x2 := o.and(x2, x3); var x3 := o.or(x3, x1);
    var x0 := o.not(x0); var x3 := o.xor(x3, x0); var x4 := o.xor(x4, x0); var x0 := o.xor(x0, x2);
    var x1 := o.or(x1, x2);
    Regs(x0, x1, x2, x3, x4)
  }

  function S3<T>(o: Ops<T>, x0: T, x1: T, x2: T, x3: T): Regs<T> {
    var x4 := x1; var x1 := o.xor(x1, x3); var x3 := o.or(x3, x0); var x4 := o.and(x4, x0);
    var x0 := o.xor(x0, x2); var x2 := o.xor(x2, x1); var x1 := o.and(x1, x3); var x2 := o.xor(x2, x3);
    var x0 := o.or(x0, x4); var x4 := o.xor(x4, x3); var x1 := o.xor(x1, x0); var x0 := o.and(x0, x3);
    var x3 := o.and(x3, x4); var x3 := o.xor(x3, x2); var x4 := o.or(x4, x1); var x2 := o.and(x2, x1);
    var x4 := o.xor(x4, x3); var x0 := o.xor(x0, x3); var x3 := o.xor(x3, x2);
    Regs(x0, x1, x2, x3, x4)
  }

  function S4<T>(o: Ops<T>, x0: T, x1: T, x2: T, x3: T): Regs<T> {
    var x4 := x3; var x3 := o.and(x3, x0); var x0 := o.xor(x0, x4); var x3 := o.xor(x3, x2);
    var x2 := o.or(x2, x4); var x0 := o.xor(x0, x1); var x4 := o.xor(x4, x3); var x2 := o.or(x2, x0);
    var x2 := o.xor(x2, x1); var x1 := o.and(x1, x0); var x1 := o.xor(x1, x4); var x4 := o.and(x4, x2);
    var x2 := o.xor(x2, x3); var x4 := o.xor(x4, x0); var x3 := o.or(x3, x1); var x1 := o.not(x1);
    var x3 := o.xor(x3, x0);
    Regs(x0, x1, x2, x3, x4)
  }

  function S5<T>(o: Ops<T>, x0: T, x1: T, x2: T, x3: T): Regs<T> {
    var x4 := x1; var x1 := o.or(x1, x0); var x2 := o.xor(x2, x1); var x3 := o.not(x3);
    var x4 := o.xor(x4, x0); var x0 := o.xor(x0, x2); var x1 := o.and(x1, x4); var x4 := o.or(x4, x3);
    var x4 := o.xor(x4, x0); var x0 := o.and(x0, x3); var x1 := o.xor(x1, x3); var x3 := o.xor(x3, x2);
    var x0 := o.xor(x0, x1); var x2 := o.and(x2, x4); var x1 := o.xor(x1, x2); var x2 := o.and(x2, x0);
    var x3 := o.xor(x3, x2);
    Regs(x0, x1, x2, x3, x4)
  }

  function S6<T>(o: Ops<T>, x0: T, x1: T, x2: T, x3: T): Regs<T> {
    var x4 := x1; var x3 := o.xor(x3, x0); var x1 := o.xor(x1, x2); var x2 := o.xor(x2, x0);
    var x0 := o.and(x0, x3); var x1 := o.or(x1, x3); var x4 := o.not(x4); var x0 := o.xor(x0, x1);
    var x1 := o.xor(x1, x2); var x3 := o.xor(x3, x4); var x4 := o.xor(x4, x0); var x2 := o.and(x2, x0);
    var x4 := o.xor(x4, x1); var x2 := o.xor(x2, x3); var x3 := o.and(x3, x1); var x3 := o.xor(x3, x0);
    var x1 := o.xor(x1, x2);
    Regs(x0, x1, x2, x3, x4)
  }

  function S7<T>(o: Ops<T>, x0: T, x1: T, x2: T, x3: T): Regs<T> {
    var x1 := o.not(x1); var x4 := x1; var x0 := o.not(x0); var x1 := o.and(x1, x2);
    var x1 := o.xor(x1, x3); var x3 := o.or(x3, x4); var x4 := o.xor(x4, x2); var x2 := o.xor(x2, x3);
    var x3 := o.xor(x3, x0); var x0 := o.or(x0, x1); var x2 := o.and(x2, x0); var x0 := o.xor(x0, x4);
    var x4 := o.xor(x4, x3); var x3 := o.and(x3, x0); var x4 := o.xor(x4, x1); var x2 := o.xor(x2, x4);
    var x3 := o.xor(x3, x1); var x4 := o.or(x4, x0); var x4 := o.xor(x4, x1);
    Regs(x0, x1, x2, x3, x4)
  }

  function SI0<T>(o: Ops<T>, x0: T, x1: T, x2: T, x3: T): Regs<T> {
    var x4 := x3; var x1 := o.xor(x1, x0); var x3 := o.or(x3, x1); var x4 := o.xor(x4, x1);
    var x0 := o.not(x0); var x2 := o.xor(x2, x3); var x3 := o.xor(x3, x0); var x0 := o.and(x0, x1);
    var x0 := o.xor(x0, x2); var x2 := o.and(x2, x3); var x3 := o.xor(x3, x4); var x2 := o.xor(x2, x3);
    var x1 := o.xor(x1, x3); var x3 := o.and(x3, x0); var x1 := o.xor(x1, x0); var x0 := o.xor(x0, x2);
    var x4 := o.xor(x4, x3);
    Regs(x0, x1, x2, x3, x4)
  }

  function SI1<T>(o: Ops<T>, x0: T, x1: T, x2: T, x3: T): Regs<T> {
    var x1 := o.xor(x1, x3); var x4 := x0; var x0 := o.xor(x0, x2); var x2 := o.not(x2);
    var x4 := o.or(x4, x1); var x4 := o.xor(x4, x3); var x3 := o.and(x3, x1); var x1 := o.xor(x1, x2);
    var x2 := o.and(x2, x4); var x4 := o.xor(x4, x1); var x1 := o.or(x1, x3); var x3 := o.xor(x3, x0);
    var x2 := o.xor(x2, x0); var x0 := o.or(x0, x4); var x2 := o.xor(x2, x4); var x1 := o.xor(x1, x0);
    var x4 := o.xor(x4, x1);
    Regs(x0, x1, x2, x3, x4)
  }

  function SI2<T>(o: Ops<T>, x0: T, x1: T, x2: T, x3: T): Regs<T> {
    var x2 := o.xor(x2, x1); var x4 := x3; var x3 := o.not(x3); var x3 := o.or(x3, x2);
    var x2 := o.xor(x2, x4); var x4 := o.xor(x4, x0); var x3 := o.xor(x3, x1); var x1 := o.or(x1, x2);
    var x2 := o.xor(x2, x0); var x1 := o.xor(x1, x4); var x4 := o.or(x4, x3); var x2 := o.xor(x2, x3);
    var x4 := o.xor(x4, x2); var x2 := o.and(x2, x1); var x2 := o.xor(x2, x3); var x3 := o.xor(x3, x4);
    var x4 := o.xor(x4, x0);
    Regs(x0, x1, x2, x3, x4)
  }

  function SI3<T>(o: Ops<T>, x0: T, x1: T, x2: T, x3: T): Regs<T> {
    var x2 := o.xor(x2, x1); var x4 := x1; var x1 := o.and(x1, x2); var x1 := o.xor(x1, x0);
    var x0 := o.or(x0, x4); var x4 := o.xor(x4, x3); var x0 := o.xor(x0, x3); var x3 := o.or(x3, x1);
    var x1 := o.xor(x1, x2); var x1 := o.xor(x1, x3); var x0 := o.xor(x0, x2); var x2 := o.xor(x2, x3);
    var x3 := o.and(x3, x1); var x1 := o.xor(x1, x0); var x0 := o.and(x0, x2); var x4 := o.xor(x4, x3);
    var x3 := o.xor(x3, x0); var x0 := o.xor(x0, x1);
    Regs(x0, x1, x2, x3, x4)
  }

  function SI4<T>(o: Ops<T>, x0: T, x1: T, x2: T, x3: T): Regs<T> {
    var x2 := o.xor(x2, x3); var x4 := x0; var x0 := o.and(x0, x1); var x0 := o.xor(x0, x2);
    var x2 := o.or(x2, x3); var x4 := o.not(x4); var x1 := o.xor(x1, x0); var x0 := o.xor(x0, x2);
    var x2 := o.and(x2, x4); var x2 := o.xor(x2, x0); var x0 := o.or(x0, x4); var x0 := o.xor(x0, x3);
    var x3 := o.and(x3, x2); var x4 := o.xor(x4, x3); var x3 := o.xor(x3, x1); var x1 := o.and(x1, x0);
    var x4 := o.xor(x4, x1); var x0 := o.xor(x0, x3);
    Regs(x0, x1, x2, x3, x4)
  }

  function SI5<T>(o: Ops<T>, x0: T, x1: T, x2: T, x3: T): Regs<T> {
    var x4 := x1; var x1 := o.or(x1, x2); var x2 := o.xor(x2, x4); var x1 := o.xor(x1, x3);
    var x3 := o.and(x3, x4); var x2 := o.xor(x2, x3); var x3 := o.or(x3, x0); var x0 := o.not(x0);
    var x3 := o.xor(x3, x2); var x2 := o.or(x2, x0); var x4 := o.xor(x4, x1); var x2 := o.xor(x2, x4);
    var x4 := o.and(x4, x0); var x0 := o.xor(x0, x1); var x1 := o.xor(x1, x3); var x0 := o.and(x0, x2);
    var x2 := o.xor(x2, x3); var x0 := o.xor(x0, x2); var x2 := o.xor(x2, x4); var x4 := o.xor(x4, x3);
    Regs(x0, x1, x2, x3, x4)
  }

  function SI6<T>(o: Ops<T>, x0: T, x1: T, x2: T, x3: T): Regs<T> {
    var x0 := o.xor(x0, x2); var x4 := x0; var x0 := o.and(x0, x3); var x2 := o.xor(x2, x3);
    var x0 := o.xor(x0, x2); var x3 := o.xor(x3, x1); var x2 := o.or(x2, x4); var x2 := o.xor(x2, x3);
    var x3 := o.and(x3, x0); var x0 := o.not(x0); var x3 := o.xor(x3, x1); var x1 := o.and(x1, x2);
    var x4 := o.xor(x4, x0); var x3 := o.xor(x3, x4); var x4 := o.xor(x4, x2); var x0 := o.xor(x0, x1);
    var x2 := o.xor(x2, x0);
    Regs(x0, x1, x2, x3, x4)
  }

  function SI7<T>(o: Ops<T>, x0: T, x1: T, x2: T, x3: T): Regs<T> {
    var x4 := x3; var x3 := o.and(x3, x0); var x0 := o.xor(x0, x2); var x2 := o.or(x2, x4);
    var x4 := o.xor(x4, x1); var x0 := o.not(x0); var x1 := o.or(x1, x3); var x4 := o.xor(x4, x0);
    var x0 := o.and(x0, x2); var x0 := o.xor(x0, x1); var x1 := o.and(x1, x2); var x3 := o.xor(x3, x2);
    var x4 := o.xor(x4, x3); var x2 := o.and(x2, x3); var x3 := o.or(x3, x0); var x1 := o.xor(x1, x4);
    var x3 := o.xor(x3, x4); var x4 := o.and(x4, x0); var x4 := o.xor(x4, x2);
    Regs(x0, x1, x2, x3, x4)
  }

  // ---- Each macro leaves its result in registers of its own choosing. ----

  /** S-box i on four words, in logical order. */
  function Box<T>(i: nat, o: Ops<T>, q: Quad<T>): Quad<T> {
    if i == 0 then var r := S0(o, q.a, q.b, q.c, q.d); Quad(r.x2, r.x1, r.x3, r.x0)
    else if i == 1 then var r := S1(o, q.a, q.b, q.c, q.d); Quad(r.x4, r.x2, r.x3, r.x0)
    else if i == 2 then var r := S2(o, q.a, q.b, q.c, q.d); Quad(r.x4, r.x1, r.x0, r.x3)
    else if i == 3 then var r := S3(o, q.a, q.b, q.c, q.d); Quad(r.x3, r.x4, r.x1, r.x0)
    else if i == 4 then var r := S4(o, q.a, q.b, q.c, q.d); Quad(r.x1, r.x2, r.x3, r.x4)
    else if i == 5 then var r := S5(o, q.a, q.b, q.c, q.d); Quad(r.x4, r.x0, r.x1, r.x3)
    else if i == 6 then var r := S6(o, q.a, q.b, q.c, q.d); Quad(r.x2, r.x4, r.x1, r.x3)
    else var r := S7(o, q.a, q.b, q.c, q.d); Quad(r.x4, r.x2, r.x3, r.x0)
  }

  /** Inverse S-box i. */
  function InvBox<T>(i: nat, o: Ops<T>, q: Quad<T>): Quad<T> {
    if i == 0 then var r := SI0(o, q.a, q.b, q.c, q.d); Quad(r.x2, r.x4, r.x1, r.x0)
    else if i == 1 then var r := SI1(o, q.a, q.b, q.c, q.d); Quad(r.x4, r.x1, r.x2, r.x3)
    else if i == 2 then var r := SI2(o, q.a, q.b, q.c, q.d); Quad(r.x1, r.x4, r.x3, r.x2)
    else if i == 3 then var r := SI3(o, q.a, q.b, q.c, q.d); Quad(r.x2, r.x0, r.x4, r.x3)
    else if i == 4 then var r := SI4(o, q.a, q.b, q.c, q.d); Quad(r.x0, r.x2, r.x4, r.x3)
    else if i == 5 then var r := SI5(o, q.a, q.b, q.c, q.d); Quad(r.x1, r.x4, r.x0, r.x2)
    else if i == 6 then var r := SI6(o, q.a, q.b, q.c, q.d); Quad(r.x2, r.x4, r.x3, r.x0)
    else var r := SI7(o, q.a, q.b, q.c, q.d); Quad(r.x1, r.x3, r.x0, r.x4)
  }

  // ---- Working on words is working on bits, position by position. ----

  lemma HomS0<T(!new), U(!new)>(h: T -> U, o: Ops<T>, p: Ops<U>, x0: T, x1: T, x2: T, x3: T)
    requires Hom(h, o, p)
    ensures MapRegs(h, S0(o, x0, x1, x2, x3)) == S0(p, h(x0), h(x1), h(x2), h(x3))
  {
  }

  lemma HomS1<T(!new), U(!new)>(h: T -> U, o: Ops<T>, p: Ops<U>, x0: T, x1: T, x2: T, x3: T)
    requires Hom(h, o, p)
    ensures MapRegs(h, S1(o, x0, x1, x2, x3)) == S1(p, h(x0), h(x1), h(x2), h(x3))
  {
  }

  lemma HomS2<T(!new), U(!new)>(h: T -> U, o: Ops<T>, p: Ops<U>, x0: T, x1: T, x2: T, x3: T)
    requires Hom(h, o, p)
    ensures MapRegs(h, S2(o, x0, x1, x2, x3)) == S2(p, h(x0), h(x1), h(x2), h(x3))
  {
  }

  lemma HomS3<T(!new), U(!new)>(h: T -> U, o: Ops<T>, p: Ops<U>, x0: T, x1: T, x2: T, x3: T)
    requires Hom(h, o, p)
    ensures MapRegs(h, S3(o, x0, x1, x2, x3)) == S3(p, h(x0), h(x1), h(x2), h(x3))
  {
  }

  lemma HomS4<T(!new), U(!new)>(h: T -> U, o: Ops<T>, p: Ops<U>, x0: T, x1: T, x2: T, x3: T)
    requires Hom(h, o, p)
    ensures MapRegs(h, S4(o, x0, x1, x2, x3)) == S4(p, h(x0), h(x1), h(x2), h(x3))
  {
  }

  lemma HomS5<T(!new), U(!new)>(h: T -> U, o: Ops<T>, p: Ops<U>, x0: T, x1: T, x2: T, x3: T)
    requires Hom(h, o, p)
    ensures MapRegs(h, S5(o, x0, x1, x2, x3)) == S5(p, h(x0), h(x1), h(x2), h(x3))
  {
  }

  lemma HomS6<T(!new), U(!new)>(h: T -> U, o: Ops<T>, p: Ops<U>, x0: T, x1: T, x2: T, x3: T)
    requires Hom(h, o, p)
    ensures MapRegs(h, S6(o, x0, x1, x2, x3)) == S6(p, h(x0), h(x1), h(x2), h(x3))
  {
  }

  lemma HomS7<T(!new), U(!new)>(h: T -> U, o: Ops<T>, p: Ops<U>, x0: T, x1: T, x2: T, x3: T)
    requires Hom(h, o, p)
    ensures MapRegs(h, S7(o, x0, x1, x2, x3)) == S7(p, h(x0), h(x1), h(x2), h(x3))
  {
  }

  lemma HomSI0<T(!new), U(!new)>(h: T -> U, o: Ops<T>, p: Ops<U>, x0: T, x1: T, x2: T, x3: T)
    requires Hom(h, o, p)
    ensures MapRegs(h, SI0(o, x0, x1, x2, x3)) == SI0(p, h(x0), h(x1), h(x2), h(x3))
  {
  }

  lemma HomSI1<T(!new), U(!new)>(h: T -> U, o: Ops<T>, p: Ops<U>, x0: T, x1: T, x2: T, x3: T)
    requires Hom(h, o, p)
    ensures MapRegs(h, SI1(o, x0, x1, x2, x3)) == SI1(p, h(x0), h(x1), h(x2), h(x3))
  {
  }

  lemma HomSI2<T(!new), U(!new)>(h: T -> U, o: Ops<T>, p: Ops<U>, x0: T, x1: T, x2: T, x3: T)
    requires Hom(h, o, p)
    ensures MapRegs(h, SI2(o, x0, x1, x2, x3)) == SI2(p, h(x0), h(x1), h(x2), h(x3))
  {
  }

  lemma HomSI3<T(!new), U(!new)>(h: T -> U, o: Ops<T>, p: Ops<U>, x0: T, x1: T, x2: T, x3: T)
    requires Hom(h, o, p)
    ensures MapRegs(h, SI3(o, x0, x1, x2, x3)) == SI3(p, h(x0), h(x1), h(x2), h(x3))
  {
  }

  lemma HomSI4<T(!new), U(!new)>(h: T -> U, o: Ops<T>, p: Ops<U>, x0: T, x1: T, x2: T, x3: T)
    requires Hom(h, o, p)
    ensures MapRegs(h, SI4(o, x0, x1, x2, x3)) == SI4(p, h(x0), h(x1), h(x2), h(x3))
  {
  }

  lemma HomSI5<T(!new), U(!new)>(h: T -> U, o: Ops<T>, p: Ops<U>, x0: T, x1: T, x2: T, x3: T)
    requires Hom(h, o, p)
    ensures MapRegs(h, SI5(o, x0, x1, x2, x3)) == SI5(p, h(x0), h(x1), h(x2), h(x3))
  {
  }

  lemma HomSI6<T(!new), U(!new)>(h: T -> U, o: Ops<T>, p: Ops<U>, x0: T, x1: T, x2: T, x3: T)
    requires Hom(h, o, p)
    ensures MapRegs(h, SI6(o, x0, x1, x2, x3)) == SI6(p, h(x0), h(x1), h(x2), h(x3))
  {
  }

  lemma HomSI7<T(!new), U(!new)>(h: T -> U, o: Ops<T>, p: Ops<U>, x0: T, x1: T, x2: T, x3: T)
    requires Hom(h, o, p)
    ensures MapRegs(h, SI7(o, x0, x1, x2, x3)) == SI7(p, h(x0), h(x1), h(x2), h(x3))
  {
  }

  lemma HomBox<T(!new), U(!new)>(i: nat, h: T -> U, o: Ops<T>, p: Ops<U>, q: Quad<T>)
    requires Hom(h, o, p)
    ensures MapQuad(h, Box(i, o, q)) == Box(i, p, MapQuad(h, q))
  {
    hide Hom; hide S0; hide S1; hide S2; hide S3; hide S4; hide S5; hide S6; hide S7;
    HomS0(h, o, p, q.a, q.b, q.c, q.d);
    HomS1(h, o, p, q.a, q.b, q.c, q.d);
    HomS2(h, o, p, q.a, q.b, q.c, q.d);
    HomS3(h, o, p, q.a, q.b, q.c, q.d);
    HomS4(h, o, p, q.a, q.b, q.c, q.d);
    HomS5(h, o, p, q.a, q.b, q.c, q.d);
    HomS6(h, o, p, q.a, q.b, q.c, q.d);
    HomS7(h, o, p, q.a, q.b, q.c, q.d);
  }

  lemma HomInvBox<T(!new), U(!new)>(i: nat, h: T -> U, o: Ops<T>, p: Ops<U>, q: Quad<T>)
    requires Hom(h, o, p)
    ensures MapQuad(h, InvBox(i, o, q)) == InvBox(i, p, MapQuad(h, q))
  {
    hide Hom; hide SI0; hide SI1; hide SI2; hide SI3; hide SI4; hide SI5; hide SI6; hide SI7;
    HomSI0(h, o, p, q.a, q.b, q.c, q.d);
    HomSI1(h, o, p, q.a, q.b, q.c, q.d);
    HomSI2(h, o, p, q.a, q.b, q.c, q.d);
    HomSI3(h, o, p, q.a, q.b, q.c, q.d);
    HomSI4(h, o, p, q.a, q.b, q.c, q.d);
    HomSI5(h, o, p, q.a, q.b, q.c, q.d);
    HomSI6(h, o, p, q.a, q.b, q.c, q.d);
    HomSI7(h, o, p, q.a, q.b, q.c, q.d);
  }

  // ---- On bits, the boxes are the published tables. ----

  function Nibble(q: Quad<bool>): nat {
    (if q.a then 1 else 0) + (if q.b then 2 else 0) + (if q.c then 4 else 0) + (if q.d then 8 else 0)
  }

  /** The eight S-boxes of the Serpent specification. */
  function Table(i: nat): (t: seq<nat>)
    ensures |t| == 16
  {
    if i == 0 then [3, 8, 15, 1, 10, 6, 5, 11, 14, 13, 4, 2, 7, 0, 9, 12]
    else if i == 1 then [15, 12, 2, 7, 9, 0, 5, 10, 1, 11, 14, 8, 6, 13, 3, 4]
    else if i == 2 then [8, 6, 7, 9, 3, 12, 10, 15, 13, 1, 14, 4, 0, 11, 5, 2]
    else if i == 3 then [0, 15, 11, 8, 12, 9, 6, 3, 13, 1, 2, 4, 10, 7, 5, 14]
    else if i == 4 then [1, 15, 8, 3, 12, 0, 11, 6, 2, 5, 4, 10, 9, 14, 7, 13]
    else if i == 5 then [15, 5, 2, 11, 4, 10, 9, 12, 0, 3, 14, 8, 13, 6, 7, 1]
    else if i == 6 then [7, 2, 12, 5, 8, 4, 6, 11, 14, 9, 1, 15, 13, 3, 10, 0]
    else [1, 13, 15, 0, 14, 8, 2, 11, 7, 4, 12, 10, 9, 3, 5, 6]
  }

  lemma BoxTable0(q: Quad<bool>)
    ensures Nibble(Box(0, BITS, q)) == Table(0)[Nibble(q)]
  {
  }

  lemma BoxBits0(q: Quad<bool>)
    ensures InvBox(0, BITS, Box(0, BITS, q)) == q
  {
  }

  lemma BoxTable1(q: Quad<bool>)
    ensures Nibble(Box(1, BITS, q)) == Table(1)[Nibble(q)]
  {
  }

  lemma BoxBits1(q: Quad<bool>)
    ensures InvBox(1, BITS, Box(1, BITS, q)) == q
  {
  }

  lemma BoxTable2(q: Quad<bool>)
    ensures Nibble(Box(2, BITS, q)) == Table(2)[Nibble(q)]
  {
  }

  lemma BoxBits2(q: Quad<bool>)
    ensures InvBox(2, BITS, Box(2, BITS, q)) == q
  {
  }

  lemma BoxTable3(q: Quad<bool>)
    ensures Nibble(Box(3, BITS, q)) == Table(3)[Nibble(q)]
  {
  }

  lemma BoxBits3(q: Quad<bool>)
    ensures InvBox(3, BITS, Box(3, BITS, q)) == q
  {
  }

  lemma BoxTable4(q: Quad<bool>)
    ensures Nibble(Box(4, BITS, q)) == Table(4)[Nibble(q)]
  {
  }

  lemma BoxBits4(q: Quad<bool>)
    ensures InvBox(4, BITS, Box(4, BITS, q)) == q
  {
  }

  lemma BoxTable5(q: Quad<bool>)
    ensures Nibble(Box(5, BITS, q)) == Table(5)[Nibble(q)]
  {
  }

  lemma BoxBits5(q: Quad<bool>)
    ensures InvBox(5, BITS, Box(5, BITS, q)) == q
  {
  }

  lemma BoxTable6(q: Quad<bool>)
    ensures Nibble(Box(6, BITS, q)) == Table(6)[Nibble(q)]
  {
  }

  lemma BoxBits6(q: Quad<bool>)
    ensures InvBox(6, BITS, Box(6, BITS, q)) == q
  {
  }

  lemma BoxTable7(q: Quad<bool>)
    ensures Nibble(Box(7, BITS, q)) == Table(7)[Nibble(q)]
  {
  }

  lemma BoxBits7(q: Quad<bool>)
    ensures InvBox(7, BITS, Box(7, BITS, q)) == q
  {
  }

  lemma BoxBack0(q: Quad<bool>)
    ensures Box(0, BITS, InvBox(0, BITS, q)) == q
  {
  }

  lemma BoxBack1(q: Quad<bool>)
    ensures Box(1, BITS, InvBox(1, BITS, q)) == q
  {
  }

  lemma BoxBack2(q: Quad<bool>)
    ensures Box(2, BITS, InvBox(2, BITS, q)) == q
  {
  }

  lemma BoxBack3(q: Quad<bool>)
    ensures Box(3, BITS, InvBox(3, BITS, q)) == q
  {
  }

  lemma BoxBack4(q: Quad<bool>)
    ensures Box(4, BITS, InvBox(4, BITS, q)) == q
  {
  }

  lemma BoxBack5(q: Quad<bool>)
    ensures Box(5, BITS, InvBox(5, BITS, q)) == q
  {
  }

  lemma BoxBack6(q: Quad<bool>)
    ensures Box(6, BITS, InvBox(6, BITS, q)) == q
  {
  }

  lemma BoxBack7(q: Quad<bool>)
    ensures Box(7, BITS, InvBox(7, BITS, q)) == q
  {
  }

  /** Every bit position of the words goes through the published table. */
  lemma BoxIsTable(i: nat, q: Quad<bv32>, k: nat)
    requires i < 8 && k < 32
    ensures Nibble(MapQuad(BitAt(k), q)) < 16
    ensures Nibble(MapQuad(BitAt(k), Box(i, WORDS, q))) == Table(i)[Nibble(MapQuad(BitAt(k), q))]
  {
    hide Box; hide Hom; hide BitAt; hide WORDS; hide BITS; hide MapQuad; hide Table;
    BitIsHom(k);
    HomBox(i, BitAt(k), WORDS, BITS, q);
    var b := MapQuad(BitAt(k), q);
    BoxTables(i, b);
  }

  lemma BoxTables(i: nat, b: Quad<bool>)
    requires i < 8
    ensures Nibble(b) < 16 && Nibble(Box(i, BITS, b)) == Table(i)[Nibble(b)]
  {
    hide Box; hide BITS; hide Table;
    if i == 0 { BoxTable0(b); } else if i == 1 { BoxTable1(b); } else if i == 2 { BoxTable2(b); }
    else if i == 3 { BoxTable3(b); } else if i == 4 { BoxTable4(b); } else if i == 5 { BoxTable5(b); }
    else if i == 6 { BoxTable6(b); } else { BoxTable7(b); }
  }

  lemma BoxBits(i: nat, b: Quad<bool>)
    requires i < 8
    ensures InvBox(i, BITS, Box(i, BITS, b)) == b
  {
    hide Box; hide InvBox; hide BITS;
    BoxBits0(b); BoxBits1(b); BoxBits2(b); BoxBits3(b); BoxBits4(b); BoxBits5(b); BoxBits6(b); BoxBits7(b);
  }

  /** Each inverse box undoes its box, register permutations included. */
  lemma BoxInverts(i: nat, q: Quad<bv32>)
    requires i < 8
    ensures InvBox(i, WORDS, Box(i, WORDS, q)) == q
  {
    hide Box; hide InvBox; hide Hom; hide WORDS; hide BITS; hide Bit;
    var r := InvBox(i, WORDS, Box(i, WORDS, q));
    forall k: nat | k < 32
      ensures Bit(r.a, k) == Bit(q.a, k) && Bit(r.b, k) == Bit(q.b, k) && Bit(r.c, k) == Bit(q.c, k) && Bit(r.d, k) == Bit(q.d, k)
    {
      BitIsHom(k);
      HomBox(i, BitAt(k), WORDS, BITS, q);
      HomInvBox(i, BitAt(k), WORDS, BITS, Box(i, WORDS, q));
      BoxBits(i, MapQuad(BitAt(k), q));
    }
    BitsDetermine(r.a, q.a);
    BitsDetermine(r.b, q.b);
    BitsDetermine(r.c, q.c);
    BitsDetermine(r.d, q.d);
  }

  lemma BoxBack(i: nat, b: Quad<bool>)
    requires i < 8
    ensures Box(i, BITS, InvBox(i, BITS, b)) == b
  {
    hide Box; hide InvBox; hide BITS;
    BoxBack0(b); BoxBack1(b); BoxBack2(b); BoxBack3(b); BoxBack4(b); BoxBack5(b); BoxBack6(b); BoxBack7(b);
  }

  /** And each box undoes its inverse box. */
  lemma BoxUndone(i: nat, q: Quad<bv32>)
    requires i < 8
    ensures Box(i, WORDS, InvBox(i, WORDS, q)) == q
  {
    hide Box; hide InvBox; hide Hom; hide WORDS; hide BITS; hide Bit;
    var r := Box(i, WORDS, InvBox(i, WORDS, q));
    forall k: nat | k < 32
      ensures Bit(r.a, k) == Bit(q.a, k) && Bit(r.b, k) == Bit(q.b, k) && Bit(r.c, k) == Bit(q.c, k) && Bit(r.d, k) == Bit(q.d, k)
    {
      BitIsHom(k);
      HomInvBox(i, BitAt(k), WORDS, BITS, q);
      HomBox(i, BitAt(k), WORDS, BITS, InvBox(i, WORDS, q));
      BoxBack(i, MapQuad(BitAt(k), q));
    }
    BitsDetermine(r.a, q.a);
    BitsDetermine(r.b, q.b);
    BitsDetermine(r.c, q.c);
    BitsDetermine(r.d, q.d);
  }
}
