/** MD4 and MD5, for any compression function, as digest algorithms of digest.c and hmac.c. */
module HmacMd {
  import opened BlockModes
  import opened BlockStream
  import opened Digest
  import Md

  function Alg<S(!new)>(f: (S, Bytes) -> S, initial: S, encode: S -> Bytes, digestSize: nat): Alg<Stream<S>> {
    PaddedAlg(f, initial, 64, Md.Tail, encode, 64, digestSize)
  }

  function HashOf<S>(f: (S, Bytes) -> S, initial: S, encode: S -> Bytes, m: Bytes): Bytes {
    encode(Md.Hash(f, initial, m))
  }

  function Hash<S>(f: (S, Bytes) -> S, initial: S, encode: S -> Bytes): Bytes -> Bytes {
    m => HashOf(f, initial, encode, m)
  }

  lemma HashIs<S(!new)>(f: (S, Bytes) -> S, initial: S, encode: S -> Bytes, m: Bytes)
    ensures Hash(f, initial, encode)(m) == encode(Fold(f, initial, 64, m + Md.Tail(|m|)))
  {
    hide Fold; hide Md.Tail;
    assert HashOf(f, initial, encode, m) == encode(Fold(f, initial, 64, m + Md.Tail(|m|)));
  }

  lemma ComputesMd<S(!new)>(f: (S, Bytes) -> S, initial: S, encode: S -> Bytes, digestSize: nat, limit: nat)
    requires forall x: S :: |encode(x)| == digestSize
    ensures Computes(Alg(f, initial, encode, digestSize), Hash(f, initial, encode), limit)
  {
    hide Fold; hide Computes; hide Md.Tail; hide Hash;
    forall m: Bytes ensures Hash(f, initial, encode)(m) == encode(Fold(f, initial, 64, m + Md.Tail(|m|))) {
      HashIs(f, initial, encode, m);
    }
    PaddedComputes(f, initial, 64, Md.Tail, encode, 64, digestSize, Hash(f, initial, encode), limit);
  }

  /** The context follows the algorithm. */
  method Update<S(!new)>(ctx: Md.Context<S>, data: Bytes, ghost msg: Bytes, ghost digestSize: nat)
    requires ctx.Holds(msg) && |data| < 0x1_0000_0000
    modifies ctx, ctx.block
    ensures ctx.Holds(msg + data)
    ensures StreamOf(ctx.transform, ctx.initial, 64, msg + data)
         == Alg(ctx.transform, ctx.initial, ctx.encode, digestSize).update(StreamOf(ctx.transform, ctx.initial, 64, msg), data)
  {
    hide StreamOf; hide StreamAlg; hide Fold; hide Rest; hide Seal;
    StreamUpdate(ctx.transform, ctx.initial, 64, Seal(ctx.transform, 64, Md.Tail, ctx.encode), 64, digestSize, msg, data);
    ctx.Update(data, msg);
  }

  method Final<S(!new)>(ctx: Md.Context<S>, ghost msg: Bytes, ghost digestSize: nat) returns (out: Bytes)
    requires ctx.Holds(msg)
    modifies ctx, ctx.block
    ensures out == Alg(ctx.transform, ctx.initial, ctx.encode, digestSize).final(StreamOf(ctx.transform, ctx.initial, 64, msg))
  {
    hide StreamOf; hide Seal; hide Fold; hide Md.Tail;
    out := ctx.Final(msg);
    SealedHash(ctx.transform, ctx.initial, 64, Md.Tail, ctx.encode, msg);
  }
}
