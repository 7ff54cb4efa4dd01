/** Arithmetic on 32-bit words that the ciphers undo. */
module WordOps {

  function Xor(x: bv32, y: bv32): bv32 { x ^ y }

  lemma XorTwice(x: bv32, y: bv32)
    ensures Xor(Xor(x, y), y) == x
  {
  }

  lemma XorRight(x: bv32, y: bv32, z: bv32)
    ensures Xor(Xor(x, y), z) == Xor(Xor(x, z), y)
  {
    hide Xor;
    XorAssociates(x, y, z);
    XorCommutes(y, z);
    XorAssociates(x, z, y);
  }

  lemma XorCommutes(x: bv32, y: bv32)
    ensures Xor(x, y) == Xor(y, x)
  {
  }

  lemma XorAssociates(x: bv32, y: bv32, z: bv32)
    ensures Xor(Xor(x, y), z) == Xor(x, Xor(y, z))
  {
  }

  lemma XorSwap(x: bv32, y: bv32, z: bv32)
    ensures Xor(Xor(Xor(x, y), z), y) == Xor(x, z)
  {
    hide Xor;
    XorRight(x, y, z);
    XorTwice(Xor(x, z), y);
  }

  /** Four tables of 256 words, as one or four arrays in the sources. */
  datatype Boxes = Boxes(s1: seq<bv32>, s2: seq<bv32>, s3: seq<bv32>, s4: seq<bv32>)

  function At(s: seq<bv32>, i: bv32): bv32 {
    if (i as nat) < |s| then s[i as nat] else 0
  }

  /** A rotation to the left by any amount; by 0 it changes nothing. */
  function Rol(x: bv32, n: nat): bv32
    decreases n
  {
    if n == 0 then x else Rol((x << 1) | (x >> 31), n - 1)
  }

  datatype Pair = Pair(l: bv32, r: bv32)

  datatype Four = Four(a: bv32, b: bv32, c: bv32, d: bv32)
}
