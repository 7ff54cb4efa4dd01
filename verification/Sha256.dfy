/** sha256_init, sha256_update and sha256_final: any sequence of updates hashes the concatenated message. */
module Sha256 {
  import opened BlockModes
  import opened BlockStream
  import opened BigEndian
  import opened Counters
  import opened Sha256Block

  const INITIAL: Regs :=
    Regs(0x6a09e667, 0xbb67ae85, 0x3c6ef372, 0xa54ff53a, 0x510e527f, 0x9b05688c, 0x1f83d9ab, 0x5be0cd19)

  function Encode(r: Regs): (b: Bytes)
    ensures |b| == 32
  {
    Put32(r.a) + Put32(r.b) + Put32(r.c) + Put32(r.d) + Put32(r.e) + Put32(r.f) + Put32(r.g) + Put32(r.h)
  }

  /** The length as the final step stores it: the high word, then the low one. */
  function LengthField(c: Pair): Bytes { Be(c.hi, 4) + Be(c.lo, 4) }

  lemma LengthFieldIsLength(n: nat)
    ensures LengthField(PairOf(n)) == Be(8 * n, 8)
  {
    hide Be;
    var c, d := PairOf(n), n / 0x2000_0000 / 0x1_0000_0000;
    Octuple(n);
    assert 8 * n == (c.hi * 0x1_0000_0000 + c.lo) + d * 0x1_0000_0000_0000_0000;
    Be8(c.hi, c.lo);
    Be8Low(c.hi * 0x1_0000_0000 + c.lo, d);
  }

  /** The message with the padding of section 5.1.1 of FIPS 180-2 and a length field. */
  function Padded(msg: Bytes, length: Bytes): Bytes {
    msg + Pad(|msg|, 64, 56) + length
  }

  function Sealed(msg: Bytes, length: Bytes): (r: Bytes)
    ensures |r| == 32
  {
    Encode(Fold(Compress, INITIAL, 64, Padded(msg, length)))
  }

  /** SHA-256 of a message. */
  function Hash(msg: Bytes): Bytes {
    Sealed(msg, Be(8 * |msg|, 8))
  }

  /** The store loop at the end of sha256_final. */
  method StoreState(r: Regs) returns (out: Bytes)
    ensures out == Encode(r)
  {
    hide Put32;
    var a := Store32(r.a);
    var b := Store32(r.b);
    var c := Store32(r.c);
    var d := Store32(r.d);
    var e := Store32(r.e);
    var f := Store32(r.f);
    var g := Store32(r.g);
    var h := Store32(r.h);
    out := a + b + c + d + e + f + g + h;
  }

  class Context {
    var count: Pair
    var state: Regs
    const buf: array<bv8>

    /** All of the state but the upper part of the count. */
    ghost predicate Holds(msg: Bytes)
      reads this, buf
    {
      && buf.Length == 128
      && count.lo == PairOf(|msg|).lo
      && state == Fold(Compress, INITIAL, 64, msg)
      && buf[..|msg| % 64] == Rest(64, msg)
    }

    constructor ()
      ensures Holds([]) && fresh(buf) && count == PairOf(0)
    {
      count, state, buf := Pair(0, 0), INITIAL, new bv8[128];
      new;
      assert buf[..0] == [];
    }

    /** sha256_update, for every length up to where its 32-bit index arithmetic wraps. */
    method Update(data: Bytes, ghost msg: Bytes)
      requires Holds(msg) && |msg| % 64 + |data| < 0x1_0000_0000
      modifies this, buf
      ensures Holds(msg + data) && count == StepPair(old(count), |data|)
    {
      hide Fold; hide Rest;
      Position(count, |msg|, |data|);
      RestLength(64, msg);
      RestLength(64, msg + data);
      FoldAppend(Compress, INITIAL, 64, msg, data);
      hide StepPair; hide PairOf;
      var index := (count.lo / 8) % 64;
      count := StepPair(count, |data|);
      state := Absorb(Compress, 64, buf, index, state, data);
    }

    /** sha256_final: what is hashed is the message, its padding and the count as it was before padding. */
    method Final(ghost msg: Bytes) returns (out: Bytes)
      requires Holds(msg)
      modifies this, buf
      ensures out == Sealed(msg, LengthField(old(count)))
    {
      hide Fold; hide Rest; hide Encode; hide Be; hide Compress;
      var low := StoreBe(count.lo, 4);
      var high := StoreBe(count.hi, 4);
      var bits := high + low;
      Position(count, |msg|, 0);
      PadLength64(|msg|);
      hide StepPair; hide PairOf;
      var index := (count.lo / 8) % 64;
      var padLen := if index < 56 then 56 - index else 120 - index;
      Update(Padding(padLen), msg);
      Update(bits, msg + Pad(|msg|, 64, 56));
      out := StoreState(state);
    }
  }

  /** The low word of the count gives the index and is right after every update. */
  lemma Position(c: Pair, n: nat, len: nat)
    requires c.lo == PairOf(n).lo
    ensures (c.lo / 8) % 64 == n % 64
    ensures StepPair(c, len).lo == PairOf(n + len).lo
  {
    Index(c.lo, n);
    AddWords(n, len);
  }

  /** Any way of cutting a message into updates shorter than 2^29 bytes gives its SHA-256. */
  method Digest(chunks: seq<Bytes>) returns (out: Bytes)
    requires forall i :: 0 <= i < |chunks| ==> |chunks[i]| < 0x2000_0000
    ensures out == Hash(Joined(chunks))
  {
    hide Sealed; hide StepPair; hide PairOf; hide Fold; hide Rest; hide Compress;
    var ctx := new Context();
    for i := 0 to |chunks|
      invariant fresh(ctx) && fresh(ctx.buf) && ctx.Holds(Joined(chunks[..i]))
      invariant ctx.count == PairOf(|Joined(chunks[..i])|)
    {
      JoinedSnoc(chunks, i);
      ShortSteps(|Joined(chunks[..i])|, |chunks[i]|);
      ctx.Update(chunks[i], Joined(chunks[..i]));
    }
    assert chunks[..|chunks|] == chunks;
    LengthFieldIsLength(|Joined(chunks)|);
    out := ctx.Final(Joined(chunks));
  }
}
