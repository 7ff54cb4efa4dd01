/** Machine words stored most significant byte first. */
module BigEndian {
  import opened BlockModes

  function Pack32(a: bv8, b: bv8, c: bv8, d: bv8): bv32 {
    ((a as bv32) << 24) | ((b as bv32) << 16) | ((c as bv32) << 8) | (d as bv32)
  }

  /** The t-th word of a block. */
  function Word32(m: Bytes, t: nat): bv32 {
    if 4 * t + 3 < |m| then Pack32(m[4 * t], m[4 * t + 1], m[4 * t + 2], m[4 * t + 3]) else 0
  }

  function Put32(w: bv32): (r: Bytes)
    ensures |r| == 4
  {
    [((w >> 24) & 0xff) as bv8, ((w >> 16) & 0xff) as bv8, ((w >> 8) & 0xff) as bv8, (w & 0xff) as bv8]
  }

  function Pack64(hi: bv32, lo: bv32): bv64 {
    ((hi as bv64) << 32) | (lo as bv64)
  }

  function Word64(m: Bytes, t: nat): bv64 {
    Pack64(Word32(m, 2 * t), Word32(m, 2 * t + 1))
  }

  function High(w: bv64): bv32 { ((w >> 32) & 0xffff_ffff) as bv32 }

  function Low(w: bv64): bv32 { (w & 0xffff_ffff) as bv32 }

  function Put64(w: bv64): (r: Bytes)
    ensures |r| == 8
  {
    Put32(High(w)) + Put32(Low(w))
  }

  /** Storing a word and loading it again. */
  lemma PutWord32(w: bv32)
    ensures Word32(Put32(w), 0) == w
  {
    Repack(w);
  }

  lemma Repack(w: bv32)
    ensures Pack32(((w >> 24) & 0xff) as bv8, ((w >> 16) & 0xff) as bv8, ((w >> 8) & 0xff) as bv8, (w & 0xff) as bv8) == w
  {
  }

  /** The store loops: the low byte is taken off and the word shifted, last byte first. */
  method Store32(w: bv32) returns (r: Bytes)
    ensures r == Put32(w)
  {
    var t := w;
    var d := (t & 0xff) as bv8; t := t >> 8;
    var c := (t & 0xff) as bv8; t := t >> 8;
    var b := (t & 0xff) as bv8; t := t >> 8;
    var a := (t & 0xff) as bv8;
    Shifts(w);
    r := [a, b, c, d];
  }

  lemma Shifts(w: bv32)
    ensures ((w >> 8) >> 8) == w >> 16 && (((w >> 8) >> 8) >> 8) == w >> 24
  {
  }
}
