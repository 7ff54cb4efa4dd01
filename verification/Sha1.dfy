/** sha1_init, sha1_update and sha1_final: any sequence of updates hashes the concatenated message. */
module Sha1 {
  import opened BlockModes
  import opened BlockStream
  import opened BigEndian
  import opened Counters
  import opened Sha1Block

  const INITIAL: Regs := Regs(0x67452301, 0xefcdab89, 0x98badcfe, 0x10325476, 0xc3d2e1f0)

  function Encode(r: Regs): (b: Bytes)
    ensures |b| == 20
  {
    Put32(r.a) + Put32(r.b) + Put32(r.c) + Put32(r.d) + Put32(r.e)
  }

  /** The padded message of section 5.1.1 of FIPS 180-2, with bits as the length. */
  function Padded(msg: Bytes, bits: nat): Bytes {
    msg + Pad(|msg|, 64, 56) + Be(bits, 8)
  }

  function Sealed(msg: Bytes, bits: nat): Bytes {
    Encode(Fold(Compress, INITIAL, 64, Padded(msg, bits)))
  }

  /** SHA-1 of a message. */
  function Hash(msg: Bytes): Bytes {
    Sealed(msg, 8 * |msg|)
  }

  /** count after an update: len << 3 is computed in 32 bits and added in 64. */
  function Counted(count: nat, len: nat): nat {
    (count + (8 * len) % 0x1_0000_0000) % 0x1_0000_0000_0000_0000
  }

  /** 8 * n in 64 bits. */
  function CountOf(n: nat): nat { (8 * n) % 0x1_0000_0000_0000_0000 }

  /** The count stays 8 times the number of bytes exactly when an update is shorter than 2^29 bytes. */
  lemma CountedExactly(n: nat, len: nat)
    requires len < 0x1_0000_0000
    ensures CountOf(n + len) == Counted(CountOf(n), len) <==> len < 0x2000_0000
  {
    var c, k := (8 * n) % 0x1_0000_0000_0000_0000, (8 * len) % 0x1_0000_0000;
    var q, p := (8 * n) / 0x1_0000_0000_0000_0000, (8 * len) / 0x1_0000_0000;
    assert 8 * (n + len) == q * 0x1_0000_0000_0000_0000 + (c + k + p * 0x1_0000_0000);
    assert p < 8 && (p == 0 <==> len < 0x2000_0000);
    Wrap(c + k, p, q);
  }

  lemma Wrap(x: nat, p: nat, q: nat)
    requires p < 8
    ensures Mod64(q * 0x1_0000_0000_0000_0000 + (x + p * 0x1_0000_0000)) == Mod64(x) <==> p == 0
  {
    var y := x + p * 0x1_0000_0000;
    assert Mod64(q * 0x1_0000_0000_0000_0000 + y) == Mod64(y);
    var a, b := x / 0x1_0000_0000_0000_0000, y / 0x1_0000_0000_0000_0000;
    assert Mod64(y) - Mod64(x) == p * 0x1_0000_0000 - (b - a) * 0x1_0000_0000_0000_0000;
  }

  function Mod64(x: nat): nat { x % 0x1_0000_0000_0000_0000 }

  lemma CountStart()
    ensures CountOf(0) == 0
  {
  }

  lemma CountedCounterexample()
    ensures Counted(CountOf(0), 0x2000_0000) == 0 && CountOf(0x2000_0000) == 0x1_0000_0000
  {
  }

  lemma CountedLow(count: nat, n: nat, len: nat)
    requires count % 0x1_0000_0000 == (8 * n) % 0x1_0000_0000
    ensures Counted(count, len) % 0x1_0000_0000 == (8 * (n + len)) % 0x1_0000_0000
  {
    var k := (8 * len) % 0x1_0000_0000;
    Low64(count + k);
    AddMod(count, k);
    AddMod(8 * n, 8 * len);
    assert k % 0x1_0000_0000 == k;
  }

  lemma Low64(x: nat)
    ensures (x % 0x1_0000_0000_0000_0000) % 0x1_0000_0000 == x % 0x1_0000_0000
  {
    assert x == (x / 0x1_0000_0000_0000_0000) * 0x1_0000_0000 * 0x1_0000_0000 + x % 0x1_0000_0000_0000_0000;
  }

  lemma AddMod(x: nat, y: nat)
    ensures (x + y) % 0x1_0000_0000 == (x % 0x1_0000_0000 + y % 0x1_0000_0000) % 0x1_0000_0000
  {
  }

  /** The store loop at the end of sha1_final. */
  method StoreState(r: Regs) returns (out: Bytes)
    ensures out == Encode(r)
  {
    hide Put32;
    var a := Store32(r.a);
    var b := Store32(r.b);
    var c := Store32(r.c);
    var d := Store32(r.d);
    var e := Store32(r.e);
    out := a + b + c + d + e;
  }

  class Context {
    var count: nat
    var state: Regs
    const buffer: array<bv8>

    ghost predicate Holds(msg: Bytes)
      reads this, buffer
    {
      && buffer.Length == 64
      && count % 0x1_0000_0000 == (8 * |msg|) % 0x1_0000_0000
      && state == Fold(Compress, INITIAL, 64, msg)
      && buffer[..|msg| % 64] == Rest(64, msg)
    }

    /** sha1_init */
    constructor ()
      ensures Holds([]) && fresh(buffer) && count == 0
    {
      count, state, buffer := 0, INITIAL, new bv8[64];
      new;
      assert buffer[..0] == [];
    }

    /** sha1_update, for every length up to where its 32-bit index arithmetic wraps. */
    method Update(data: Bytes, ghost msg: Bytes)
      requires Holds(msg) && |msg| % 64 + |data| < 0x1_0000_0000
      modifies this, buffer
      ensures Holds(msg + data) && count == Counted(old(count), |data|)
    {
      hide Fold; hide Rest; hide Counted;
      Index(count, |msg|);
      CountedLow(count, |msg|, |data|);
      RestLength(64, msg);
      RestLength(64, msg + data);
      FoldAppend(Compress, INITIAL, 64, msg, data);
      var j := (count / 8) % 64;
      count := Counted(count, |data|);
      state := Absorb(Compress, 64, buffer, j, state, data);
    }

    /** sha1_final: what is hashed is the message, its padding and the count as it was before padding. */
    method Final(ghost msg: Bytes) returns (out: Bytes)
      requires Holds(msg)
      modifies this, buffer
      ensures out == Sealed(msg, old(count))
    {
      hide Fold; hide Rest; hide Encode;
      var bits := StoreBe(count, 8);
      Index(count, |msg|);
      PadLength64(|msg|);
      var index := (count / 8) % 64;
      var padlen := if index < 56 then 56 - index else 120 - index;
      Update(Padding(padlen), msg);
      Update(bits, msg + Pad(|msg|, 64, 56));
      out := StoreState(state);
    }
  }

  /** Any way of cutting a message into updates shorter than 2^29 bytes gives its SHA-1. */
  method Digest(chunks: seq<Bytes>) returns (out: Bytes)
    requires forall i :: 0 <= i < |chunks| ==> |chunks[i]| < 0x2000_0000
    ensures out == Hash(Joined(chunks))
  {
    hide Sealed; hide Counted; hide CountOf;
    CountStart();
    var ctx := new Context();
    for i := 0 to |chunks|
      invariant fresh(ctx) && fresh(ctx.buffer) && ctx.Holds(Joined(chunks[..i]))
      invariant ctx.count == CountOf(|Joined(chunks[..i])|)
    {
      JoinedSnoc(chunks, i);
      CountedExactly(|Joined(chunks[..i])|, |chunks[i]|);
      ctx.Update(chunks[i], Joined(chunks[..i]));
    }
    assert chunks[..|chunks|] == chunks;
    out := ctx.Final(Joined(chunks));
    SealedLow(Joined(chunks));
  }

  /** Only the 64 low-order bits of the length are appended. */
  lemma SealedLow(msg: Bytes)
    ensures Sealed(msg, CountOf(|msg|)) == Hash(msg)
  {
    hide Fold; hide Be; hide Encode;
    Be8Low((8 * |msg|) % 0x1_0000_0000_0000_0000, (8 * |msg|) / 0x1_0000_0000_0000_0000);
  }
}
