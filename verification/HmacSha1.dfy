/** SHA-1 of sha1.c as a digest algorithm of digest.c and hmac.c. */
module HmacSha1 {
  import opened BlockModes
  import opened BlockStream
  import opened Digest
  import opened Scatterwalk
  import Hmac
  import Sha1
  import Sha1Block

  function Alg(): Alg<Stream<Sha1Block.Regs>> {
    PaddedAlg(Sha1Block.Compress, Sha1.INITIAL, 64, Tail64, Sha1.Encode, 64, 20)
  }

  lemma Sha1Is(m: Bytes)
    ensures Sha1.Hash(m) == Sha1.Encode(Fold(Sha1Block.Compress, Sha1.INITIAL, 64, m + Tail64(|m|)))
  {
    hide Sha1.Encode; hide Fold; hide Pad; hide Be;
    Assoc(m, Pad(|m|, 64, 56), Be(8 * |m|, 8));
  }

  lemma ComputesSha1(limit: nat)
    ensures Computes(Alg(), Sha1.Hash, limit)
  {
    hide Sha1.Hash; hide Sha1.Encode; hide Fold; hide Computes; hide Tail64;
    forall m: Bytes ensures Sha1.Hash(m) == Sha1.Encode(Fold(Sha1Block.Compress, Sha1.INITIAL, 64, m + Tail64(|m|))) {
      Sha1Is(m);
    }
    PaddedComputes(Sha1Block.Compress, Sha1.INITIAL, 64, Tail64, Sha1.Encode, 64, 20, Sha1.Hash, limit);
  }

  lemma SealsSha1(m: Bytes)
    ensures Alg().final(StreamOf(Sha1Block.Compress, Sha1.INITIAL, 64, m)) == Sha1.Hash(m)
  {
    hide Sha1.Hash; hide Sha1.Encode; hide Fold; hide Tail64; hide StreamOf; hide Seal;
    SealedHash(Sha1Block.Compress, Sha1.INITIAL, 64, Tail64, Sha1.Encode, m);
    Sha1Is(m);
  }

  /** The context of sha1.c follows the algorithm: an update of it is an update of the stream it stands for. */
  method Update(ctx: Sha1.Context, data: Bytes, ghost msg: Bytes)
    requires ctx.Holds(msg) && ctx.count == Sha1.CountOf(|msg|) && |data| < 0x2000_0000
    modifies ctx, ctx.buffer
    ensures ctx.Holds(msg + data) && ctx.count == Sha1.CountOf(|msg + data|)
    ensures StreamOf(Sha1Block.Compress, Sha1.INITIAL, 64, msg + data)
         == Alg().update(StreamOf(Sha1Block.Compress, Sha1.INITIAL, 64, msg), data)
  {
    hide StreamOf; hide StreamAlg; hide Sha1.CountOf; hide Sha1.Counted; hide Fold; hide Rest; hide Seal;
    StreamUpdate(Sha1Block.Compress, Sha1.INITIAL, 64,
                 Seal(Sha1Block.Compress, 64, Tail64, Sha1.Encode), 64, 20, msg, data);
    Sha1.CountedExactly(|msg|, |data|);
    ctx.Update(data, msg);
  }

  /** And its final step gives what sealing the stream gives. */
  method Final(ctx: Sha1.Context, ghost msg: Bytes) returns (out: Bytes)
    requires ctx.Holds(msg) && ctx.count == Sha1.CountOf(|msg|)
    modifies ctx, ctx.buffer
    ensures out == Alg().final(StreamOf(Sha1Block.Compress, Sha1.INITIAL, 64, msg))
  {
    hide Sha1.Sealed; hide Seal; hide StreamOf;
    out := ctx.Final(msg);
    Sha1.SealedLow(msg);
    SealsSha1(msg);
  }

  /** crypto_hmac with sha1 is HMAC-SHA-1 of section 2 of RFC 2104, whatever the length of the key and the cut of the
      list. */
  method Mac(tfm: Tfm<Stream<Sha1Block.Regs>>, block: nat, key: nat, keylen0: nat, list: seq<Segment>, out: nat)
    returns (keylen: nat)
    requires tfm.alg == Alg() && Hmac.Ready(tfm, block, key, keylen0, list, out, 0x2000_0000)
    modifies tfm, tfm.mem
    ensures |Hmac.ShortKey(Sha1.Hash, 64, Hmac.At(old(tfm.mem[..]), key, keylen0))| <= 64
    ensures Hmac.At(tfm.mem[..], out, 20)
         == Hmac.Mac(Sha1.Hash, 64, Hmac.At(old(tfm.mem[..]), key, keylen0), Gather(old(tfm.mem[..]), Flat(list, tfm.pageSize)))
  {
    hide Sha1.Hash; hide Computes; hide Hmac.Mac; hide Hmac.At; hide Gather; hide Flat; hide Hmac.Ready;
    ComputesSha1(0x2000_0000);
    keylen := Hmac.Hmac(tfm, block, key, keylen0, list, out, 0x2000_0000, Sha1.Hash);
  }
}
