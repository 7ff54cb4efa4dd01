/** sha512.c: SHA-512, and SHA-384 which differs in its initial state and keeps 48 bytes of the digest. */
module Sha512 {
  import opened BlockModes
  import opened BlockStream
  import opened BigEndian
  import opened Counters
  import opened Sha512Block

  const INITIAL_512: Regs :=
    Regs(0x6a09e667f3bcc908, 0xbb67ae8584caa73b, 0x3c6ef372fe94f82b, 0xa54ff53a5f1d36f1,
         0x510e527fade682d1, 0x9b05688c2b3e6c1f, 0x1f83d9abfb41bd6b, 0x5be0cd19137e2179)

  const INITIAL_384: Regs :=
    Regs(0xcbbb9d5dc1059ed8, 0x629a292a367cd507, 0x9159015a3070dd17, 0x152fecd8f70e5939,
         0x67332667ffc00b31, 0x8eb44a8768581511, 0xdb0c2e0d64f98fa7, 0x47b5481dbefa4fa4)

  function Encode(r: Regs): (b: Bytes)
    ensures |b| == 64
  {
    Put64(r.a) + Put64(r.b) + Put64(r.c) + Put64(r.d) + Put64(r.e) + Put64(r.f) + Put64(r.g) + Put64(r.h)
  }

  /** The length as the final step stores it: the highest word first. */
  function LengthField(c: Quad): Bytes { Be(c.up.c3, 4) + Be(c.up.c2, 4) + (Be(c.up.c1, 4) + Be(c.c0, 4)) }

  lemma LengthFieldIsLength(n: nat)
    ensures LengthField(QuadOf(n)) == Be(8 * n, 16)
  {
    hide Be; hide Pow256;
    var c, q := QuadOf(n), n / 0x2000_0000;
    Octuple(n);
    Powers();
    assert 8 * n == q * 0x1_0000_0000 + c.c0;
    BeSplit(q, c.c0, 12, 4);
    BeSplit(q / 0x1_0000_0000, c.up.c1, 8, 4);
    BeSplit(q / 0x1_0000_0000 / 0x1_0000_0000, c.up.c2, 4, 4);
    BeLow(q / 0x1_0000_0000 / 0x1_0000_0000, c.up.c3, 4, q / 0x1_0000_0000 / 0x1_0000_0000 / 0x1_0000_0000);
    Assoc(Be(c.up.c3, 4) + Be(c.up.c2, 4), Be(c.up.c1, 4), Be(c.c0, 4));
  }

  /** The message with the padding of section 5.1.2 of FIPS 180-2 and a length field. */
  function Padded(msg: Bytes, length: Bytes): Bytes {
    msg + Pad(|msg|, 128, 112) + length
  }

  function Sealed(initial: Regs, msg: Bytes, length: Bytes): (r: Bytes)
    ensures |r| == 64
  {
    Encode(Fold(Compress, initial, 128, Padded(msg, length)))
  }

  /** SHA-512 of a message. */
  function Hash512(msg: Bytes): Bytes {
    Sealed(INITIAL_512, msg, Be(8 * |msg|, 16))
  }

  /** SHA-384 of a message. */
  function Hash384(msg: Bytes): Bytes {
    Sealed(INITIAL_384, msg, Be(8 * |msg|, 16))[..48]
  }

  /** The pad length chosen from the index is the standard one. */
  lemma PadLength128(n: nat)
    ensures Pad(n, 128, 112) == Padding(if n % 128 < 112 then 112 - n % 128 else 240 - n % 128)
  {
  }

  class Context {
    const initial: Regs
    var count: Quad
    var state: Regs
    const buf: array<bv8>

    /** All of the state but the upper part of the count. */
    ghost predicate Holds(msg: Bytes)
      reads this, buf
    {
      && buf.Length == 128
      && count.c0 == QuadOf(|msg|).c0
      && state == Fold(Compress, initial, 128, msg)
      && buf[..|msg| % 128] == Rest(128, msg)
    }

    constructor (initial: Regs)
      ensures Holds([]) && fresh(buf) && count == QuadOf(0) && this.initial == initial
    {
      this.initial := initial;
      count, state, buf := Quad(0, Triple(0, 0, 0)), initial, new bv8[128];
      new;
      assert buf[..0] == [];
    }

    /** sha512_update, for every length up to where its 32-bit index arithmetic wraps. */
    method Update(data: Bytes, ghost msg: Bytes)
      requires Holds(msg) && |msg| % 128 + |data| < 0x1_0000_0000
      modifies this, buf
      ensures Holds(msg + data) && count == StepQuad(old(count), |data|)
    {
      hide Fold; hide Rest;
      Position(count, |msg|, |data|);
      RestLength(128, msg);
      RestLength(128, msg + data);
      FoldAppend(Compress, initial, 128, msg, data);
      hide StepQuad; hide QuadOf;
      var index := (count.c0 / 8) % 128;
      count := StepQuad(count, |data|);
      state := Absorb(Compress, 128, buf, index, state, data);
    }

    /** sha512_final: what is hashed is the message, its padding and the count as it was before padding. */
    method Final(ghost msg: Bytes) returns (out: Bytes)
      requires Holds(msg)
      modifies this, buf
      ensures out == Sealed(initial, msg, LengthField(old(count)))
    {
      hide Fold; hide Rest; hide Encode; hide Be; hide Compress;
      var w0 := StoreBe(count.c0, 4);
      var w1 := StoreBe(count.up.c1, 4);
      var w2 := StoreBe(count.up.c2, 4);
      var w3 := StoreBe(count.up.c3, 4);
      var bits := w3 + w2 + (w1 + w0);
      Position(count, |msg|, 0);
      PadLength128(|msg|);
      hide StepQuad; hide QuadOf;
      var index := (count.c0 / 8) % 128;
      var padLen := if index < 112 then 112 - index else 240 - index;
      Update(Padding(padLen), msg);
      Update(bits, msg + Pad(|msg|, 128, 112));
      out := Encode(state);
    }
  }

  /** The low word of the count gives the index and is right after every update. */
  lemma Position(c: Quad, n: nat, len: nat)
    requires c.c0 == QuadOf(n).c0
    ensures (c.c0 / 8) % 128 == n % 128
    ensures StepQuad(c, len).c0 == QuadOf(n + len).c0
  {
    Index(c.c0, n);
    AddWords(n, len);
  }

  /** Init and a run of updates shorter than 2^29 bytes: the context holds the message and its exact length. */
  method Run(initial: Regs, chunks: seq<Bytes>) returns (ctx: Context)
    requires forall i :: 0 <= i < |chunks| ==> |chunks[i]| < 0x2000_0000
    ensures fresh(ctx) && fresh(ctx.buf) && ctx.initial == initial
    ensures ctx.Holds(Joined(chunks)) && ctx.count == QuadOf(|Joined(chunks)|)
  {
    hide StepQuad; hide QuadOf; hide Fold; hide Rest; hide Compress;
    ctx := new Context(initial);
    for i := 0 to |chunks|
      invariant fresh(ctx) && fresh(ctx.buf) && ctx.initial == initial && ctx.Holds(Joined(chunks[..i]))
      invariant ctx.count == QuadOf(|Joined(chunks[..i])|)
    {
      JoinedSnoc(chunks, i);
      ShortSteps(|Joined(chunks[..i])|, |chunks[i]|);
      ctx.Update(chunks[i], Joined(chunks[..i]));
    }
    assert chunks[..|chunks|] == chunks;
  }

  /** Any way of cutting a message into updates shorter than 2^29 bytes gives its SHA-512. */
  method Digest512(chunks: seq<Bytes>) returns (out: Bytes)
    requires forall i :: 0 <= i < |chunks| ==> |chunks[i]| < 0x2000_0000
    ensures out == Hash512(Joined(chunks))
  {
    hide Sealed;
    var ctx := Run(INITIAL_512, chunks);
    LengthFieldIsLength(|Joined(chunks)|);
    out := ctx.Final(Joined(chunks));
  }

  /** sha384_final: the first 48 bytes of what sha512_final gives. */
  method Digest384(chunks: seq<Bytes>) returns (out: Bytes)
    requires forall i :: 0 <= i < |chunks| ==> |chunks[i]| < 0x2000_0000
    ensures out == Hash384(Joined(chunks))
  {
    hide Sealed;
    var ctx := Run(INITIAL_384, chunks);
    LengthFieldIsLength(|Joined(chunks)|);
    var d := ctx.Final(Joined(chunks));
    out := d[..48];
  }
}
