/** SHA-256, SHA-384 and SHA-512 as digest algorithms of digest.c and hmac.c. */
module HmacSha2 {
  import opened BlockModes
  import opened BlockStream
  import opened Digest
  import opened Scatterwalk
  import Counters
  import Hmac
  import Sha256
  import Sha256Block
  import Sha512
  import Sha512Block

  function Alg256(): Alg<Stream<Sha256Block.Regs>> {
    PaddedAlg(Sha256Block.Compress, Sha256.INITIAL, 64, Tail64, Sha256.Encode, 64, 32)
  }

  function Alg512(): Alg<Stream<Sha512Block.Regs>> {
    PaddedAlg(Sha512Block.Compress, Sha512.INITIAL_512, 128, Tail128, Sha512.Encode, 128, 64)
  }

  /** The streams of a message. */
  function Of256(m: Bytes): Stream<Sha256Block.Regs> { StreamOf(Sha256Block.Compress, Sha256.INITIAL, 64, m) }

  function Of384(m: Bytes): Stream<Sha512Block.Regs> { StreamOf(Sha512Block.Compress, Sha512.INITIAL_384, 128, m) }

  function Of512(m: Bytes): Stream<Sha512Block.Regs> { StreamOf(Sha512Block.Compress, Sha512.INITIAL_512, 128, m) }

  /** sha384_final keeps the first 48 bytes. */
  function Encode384(r: Sha512Block.Regs): (b: Bytes)
    ensures |b| == 48
  {
    Sha512.Encode(r)[..48]
  }

  /** sha384 hashes blocks of 128 bytes and declares a block size of 96. */
  function Alg384(): Alg<Stream<Sha512Block.Regs>> {
    PaddedAlg(Sha512Block.Compress, Sha512.INITIAL_384, 128, Tail128, Encode384, 96, 48)
  }

  lemma Sha256Is(m: Bytes)
    ensures Sha256.Hash(m) == Sha256.Encode(Fold(Sha256Block.Compress, Sha256.INITIAL, 64, m + Tail64(|m|)))
  {
    hide Sha256.Encode; hide Fold; hide Pad; hide Be;
    Assoc(m, Pad(|m|, 64, 56), Be(8 * |m|, 8));
  }

  lemma ComputesSha256(limit: nat)
    ensures Computes(Alg256(), Sha256.Hash, limit)
  {
    hide Sha256.Hash; hide Sha256.Encode; hide Fold; hide Computes; hide Tail64;
    forall m: Bytes
      ensures Sha256.Hash(m) == Sha256.Encode(Fold(Sha256Block.Compress, Sha256.INITIAL, 64, m + Tail64(|m|)))
    {
      Sha256Is(m);
    }
    PaddedComputes(Sha256Block.Compress, Sha256.INITIAL, 64, Tail64, Sha256.Encode, 64, 32, Sha256.Hash, limit);
  }

  lemma SealsSha256(m: Bytes)
    ensures Alg256().final(Of256(m)) == Sha256.Hash(m)
  {
    hide Sha256.Hash; hide Sha256.Encode; hide Fold; hide Tail64; hide StreamOf; hide Seal;
    SealedHash(Sha256Block.Compress, Sha256.INITIAL, 64, Tail64, Sha256.Encode, m);
    Sha256Is(m);
  }

  lemma Sha512Is(m: Bytes)
    ensures Sha512.Hash512(m) == Sha512.Encode(Fold(Sha512Block.Compress, Sha512.INITIAL_512, 128, m + Tail128(|m|)))
  {
    hide Sha512.Encode; hide Fold; hide Pad; hide Be;
    Assoc(m, Pad(|m|, 128, 112), Be(8 * |m|, 16));
  }

  lemma ComputesSha512(limit: nat)
    ensures Computes(Alg512(), Sha512.Hash512, limit)
  {
    hide Sha512.Hash512; hide Sha512.Encode; hide Fold; hide Computes; hide Tail128;
    forall m: Bytes
      ensures Sha512.Hash512(m) == Sha512.Encode(Fold(Sha512Block.Compress, Sha512.INITIAL_512, 128, m + Tail128(|m|)))
    {
      Sha512Is(m);
    }
    PaddedComputes(Sha512Block.Compress, Sha512.INITIAL_512, 128, Tail128, Sha512.Encode, 128, 64, Sha512.Hash512, limit);
  }

  lemma SealsSha512(m: Bytes)
    ensures Alg512().final(Of512(m)) == Sha512.Hash512(m)
  {
    hide Sha512.Hash512; hide Sha512.Encode; hide Fold; hide Tail128; hide StreamOf; hide Seal;
    SealedHash(Sha512Block.Compress, Sha512.INITIAL_512, 128, Tail128, Sha512.Encode, m);
    Sha512Is(m);
  }

  lemma Sha384Is(m: Bytes)
    ensures Sha512.Hash384(m) == Encode384(Fold(Sha512Block.Compress, Sha512.INITIAL_384, 128, m + Tail128(|m|)))
  {
    hide Sha512.Encode; hide Fold; hide Pad; hide Be;
    Assoc(m, Pad(|m|, 128, 112), Be(8 * |m|, 16));
  }

  lemma ComputesSha384(limit: nat)
    ensures Computes(Alg384(), Sha512.Hash384, limit)
  {
    hide Sha512.Hash384; hide Encode384; hide Fold; hide Computes; hide Tail128;
    forall m: Bytes
      ensures Sha512.Hash384(m) == Encode384(Fold(Sha512Block.Compress, Sha512.INITIAL_384, 128, m + Tail128(|m|)))
    {
      Sha384Is(m);
    }
    PaddedComputes(Sha512Block.Compress, Sha512.INITIAL_384, 128, Tail128, Encode384, 96, 48, Sha512.Hash384, limit);
  }

  lemma SealsSha384(m: Bytes)
    ensures Alg384().final(Of384(m)) == Sha512.Hash384(m)
  {
    hide Sha512.Hash384; hide Encode384; hide Fold; hide Tail128; hide StreamOf; hide Seal;
    SealedHash(Sha512Block.Compress, Sha512.INITIAL_384, 128, Tail128, Encode384, m);
    Sha384Is(m);
  }

  /** The contexts follow the algorithms: an update of the context is an update of the stream it stands for, and its final
      step gives what sealing the stream gives. */
  method Update256(ctx: Sha256.Context, data: Bytes, ghost msg: Bytes)
    requires ctx.Holds(msg) && ctx.count == Counters.PairOf(|msg|) && |data| < 0x2000_0000
    modifies ctx, ctx.buf
    ensures ctx.Holds(msg + data) && ctx.count == Counters.PairOf(|msg + data|)
    ensures Of256(msg + data) == Alg256().update(Of256(msg), data)
  {
    hide StreamOf; hide StreamAlg; hide Fold; hide Rest; hide Seal; hide Counters.PairOf; hide Counters.StepPair;
    StreamUpdate(Sha256Block.Compress, Sha256.INITIAL, 64,
                 Seal(Sha256Block.Compress, 64, Tail64, Sha256.Encode), 64, 32, msg, data);
    Counters.ShortSteps(|msg|, |data|);
    ctx.Update(data, msg);
  }

  method Final256(ctx: Sha256.Context, ghost msg: Bytes) returns (out: Bytes)
    requires ctx.Holds(msg) && ctx.count == Counters.PairOf(|msg|)
    modifies ctx, ctx.buf
    ensures out == Alg256().final(Of256(msg))
  {
    hide Sha256.Sealed; hide Seal; hide StreamOf; hide Counters.PairOf;
    out := ctx.Final(msg);
    Sha256.LengthFieldIsLength(|msg|);
    SealsSha256(msg);
  }

  /** The same for SHA-512. */
  method Update512(ctx: Sha512.Context, data: Bytes, ghost msg: Bytes)
    requires ctx.Holds(msg) && ctx.count == Counters.QuadOf(|msg|) && |data| < 0x2000_0000 && ctx.initial == Sha512.INITIAL_512
    modifies ctx, ctx.buf
    ensures ctx.Holds(msg + data) && ctx.count == Counters.QuadOf(|msg + data|)
    ensures Of512(msg + data) == Alg512().update(Of512(msg), data)
  {
    hide StreamOf; hide StreamAlg; hide Fold; hide Rest; hide Seal; hide Counters.QuadOf; hide Counters.StepQuad;
    StreamUpdate(Sha512Block.Compress, Sha512.INITIAL_512, 128,
                 Seal(Sha512Block.Compress, 128, Tail128, Sha512.Encode), 128, 64, msg, data);
    Counters.ShortSteps(|msg|, |data|);
    ctx.Update(data, msg);
  }

  method Final512(ctx: Sha512.Context, ghost msg: Bytes) returns (out: Bytes)
    requires ctx.Holds(msg) && ctx.count == Counters.QuadOf(|msg|) && ctx.initial == Sha512.INITIAL_512
    modifies ctx, ctx.buf
    ensures out == Alg512().final(Of512(msg))
  {
    hide Sha512.Sealed; hide Seal; hide StreamOf; hide Counters.QuadOf;
    out := ctx.Final(msg);
    Sha512.LengthFieldIsLength(|msg|);
    SealsSha512(msg);
  }

  /** The same for SHA-384. */
  method Update384(ctx: Sha512.Context, data: Bytes, ghost msg: Bytes)
    requires ctx.Holds(msg) && ctx.count == Counters.QuadOf(|msg|) && |data| < 0x2000_0000 && ctx.initial == Sha512.INITIAL_384
    modifies ctx, ctx.buf
    ensures ctx.Holds(msg + data) && ctx.count == Counters.QuadOf(|msg + data|)
    ensures Of384(msg + data) == Alg384().update(Of384(msg), data)
  {
    hide StreamOf; hide StreamAlg; hide Fold; hide Rest; hide Seal; hide Counters.QuadOf; hide Counters.StepQuad;
    StreamUpdate(Sha512Block.Compress, Sha512.INITIAL_384, 128,
                 Seal(Sha512Block.Compress, 128, Tail128, Encode384), 96, 48, msg, data);
    Counters.ShortSteps(|msg|, |data|);
    ctx.Update(data, msg);
  }

  method Final384(ctx: Sha512.Context, ghost msg: Bytes) returns (out: Bytes)
    requires ctx.Holds(msg) && ctx.count == Counters.QuadOf(|msg|) && ctx.initial == Sha512.INITIAL_384
    modifies ctx, ctx.buf
    ensures out == Alg384().final(Of384(msg))
  {
    hide Sha512.Sealed; hide Seal; hide StreamOf; hide Counters.QuadOf;
    out := ctx.Final(msg);
    out := out[..48];
    Sha512.LengthFieldIsLength(|msg|);
    SealsSha384(msg);
  }

  /** crypto_hmac with sha256 is HMAC-SHA-256 of section 2 of RFC 2104, whatever the length of the key and the cut of
      the list. */
  method Mac256(tfm: Tfm<Stream<Sha256Block.Regs>>, block: nat, key: nat, keylen0: nat, list: seq<Segment>, out: nat)
    returns (keylen: nat)
    requires tfm.alg == Alg256() && Hmac.Ready(tfm, block, key, keylen0, list, out, 0x2000_0000)
    modifies tfm, tfm.mem
    ensures |Hmac.ShortKey(Sha256.Hash, 64, Hmac.At(old(tfm.mem[..]), key, keylen0))| <= 64
    ensures Hmac.At(tfm.mem[..], out, 32)
         == Hmac.Mac(Sha256.Hash, 64, Hmac.At(old(tfm.mem[..]), key, keylen0), Gather(old(tfm.mem[..]), Flat(list, tfm.pageSize)))
  {
    hide Sha256.Hash; hide Computes; hide Hmac.Mac; hide Hmac.At; hide Gather; hide Flat; hide Hmac.Ready;
    ComputesSha256(0x2000_0000);
    keylen := Hmac.Hmac(tfm, block, key, keylen0, list, out, 0x2000_0000, Sha256.Hash);
  }

  /** With sha512 it is HMAC-SHA-512. */
  method Mac512(tfm: Tfm<Stream<Sha512Block.Regs>>, block: nat, key: nat, keylen0: nat, list: seq<Segment>, out: nat)
    returns (keylen: nat)
    requires tfm.alg == Alg512() && Hmac.Ready(tfm, block, key, keylen0, list, out, 0x2000_0000)
    modifies tfm, tfm.mem
    ensures |Hmac.ShortKey(Sha512.Hash512, 128, Hmac.At(old(tfm.mem[..]), key, keylen0))| <= 128
    ensures Hmac.At(tfm.mem[..], out, 64)
         == Hmac.Mac(Sha512.Hash512, 128, Hmac.At(old(tfm.mem[..]), key, keylen0), Gather(old(tfm.mem[..]), Flat(list, tfm.pageSize)))
  {
    hide Sha512.Hash512; hide Computes; hide Hmac.Mac; hide Hmac.At; hide Gather; hide Flat; hide Hmac.Ready;
    ComputesSha512(0x2000_0000);
    keylen := Hmac.Hmac(tfm, block, key, keylen0, list, out, 0x2000_0000, Sha512.Hash512);
  }

  /** With sha384 it is the construction of RFC 2104 with a block of 96 bytes, which is not the block SHA-384 hashes. */
  method Mac384(tfm: Tfm<Stream<Sha512Block.Regs>>, block: nat, key: nat, keylen0: nat, list: seq<Segment>, out: nat)
    returns (keylen: nat)
    requires tfm.alg == Alg384() && Hmac.Ready(tfm, block, key, keylen0, list, out, 0x2000_0000)
    modifies tfm, tfm.mem
    ensures |Hmac.ShortKey(Sha512.Hash384, 96, Hmac.At(old(tfm.mem[..]), key, keylen0))| <= 96
    ensures Hmac.At(tfm.mem[..], out, 48)
         == Hmac.Mac(Sha512.Hash384, 96, Hmac.At(old(tfm.mem[..]), key, keylen0), Gather(old(tfm.mem[..]), Flat(list, tfm.pageSize)))
  {
    hide Sha512.Hash384; hide Computes; hide Hmac.Mac; hide Hmac.At; hide Gather; hide Flat; hide Hmac.Ready;
    ComputesSha384(0x2000_0000);
    keylen := Hmac.Hmac(tfm, block, key, keylen0, list, out, 0x2000_0000, Sha512.Hash384);
  }

  /** So it is not HMAC-SHA-384: what the inner hash is fed is 32 bytes short of that, for every key that is not hashed
      first, and so is what the outer hash is fed. */
  lemma Mac384IsShort(key: Bytes, text: Bytes, b: bv8)
    requires |key| <= 96
    ensures |Hmac.XorByte(Hmac.Extended(key, 96), b) + text| + 32 == |Hmac.XorByte(Hmac.Extended(key, 128), b) + text|
    ensures Alg384().blockSize == 96
  {
  }
}
