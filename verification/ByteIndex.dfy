/** Bytes as array indices, and small integers as bytes. */
module ByteIndex {

  /** (u8) i, for i below 256. */
  function ByteAt(i: nat): bv8 {
    if i == 0 || i >= 256 then 0 else ByteAt(i - 1) + 1
  }

  function Index(b: bv8): (i: nat)
    ensures i < 256
  {
    b as int
  }

  lemma IndexSucc(b: bv8)
    requires b != 0xff
    ensures Index(b + 1) == Index(b) + 1
  {
  }

  lemma Index255(b: bv8)
    ensures Index(b) == 255 <==> b == 0xff
    ensures Index(b) == 0 <==> b == 0
  {
  }

  lemma {:induction false} IndexOfByte(i: nat)
    requires i < 256
    ensures Index(ByteAt(i)) == i
  {
    hide Index;
    if i == 0 {
      Index255(0);
    } else {
      IndexOfByte(i - 1);
      Index255(ByteAt(i - 1));
      IndexSucc(ByteAt(i - 1));
    }
  }

  lemma IndexInjective(b: bv8, c: bv8)
    requires Index(b) == Index(c)
    ensures b == c
  {
    assert (b as int) as bv8 == b && (c as int) as bv8 == c;
  }

  lemma ByteAtIndex(b: bv8)
    ensures ByteAt(Index(b)) == b
  {
    hide Index;
    hide ByteAt;
    IndexOfByte(Index(b));
    IndexInjective(ByteAt(Index(b)), b);
  }
}
