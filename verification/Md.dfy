/** The streaming code of md5.c and md4.c, which is the same in both files: a context that buffers partial
    blocks and counts bytes.  The compression function, the initial hash and the encoding of the digest are
    parameters.  Words are stored least significant byte first. */
module Md {
  import opened BlockModes
  import opened BlockStream

  /** Sections 3.1 to 3.4 of RFC 1321 and of RFC 1320: pad, append the 64-bit length in bits, then compress
      the blocks in order. */
  function Hash<S>(f: (S, Bytes) -> S, initial: S, msg: Bytes): S {
    Fold(f, initial, 64, msg + Tail(|msg|))
  }

  function Tail(n: nat): Bytes {
    Pad(n, 64, 56) + Le(8 * n, 8)
  }

  /** 8 * n in 32-bit words, from its value modulo 2^64. */
  lemma Words(n: nat, c: nat) returns (lo: nat, hi: nat, d: nat)
    requires c == n % 0x1_0000_0000_0000_0000
    ensures lo == (8 * c) % 0x1_0000_0000 && hi == (c / 0x2000_0000) % 0x1_0000_0000
    ensures 8 * n == (hi * 0x1_0000_0000 + lo) + d * 0x1_0000_0000_0000_0000
  {
    var q, r := c / 0x2000_0000, c % 0x2000_0000;
    lo, hi := 8 * r, q % 0x1_0000_0000;
    assert 8 * c == q * 0x1_0000_0000 + lo;
    d := 8 * (n / 0x1_0000_0000_0000_0000) + q / 0x1_0000_0000;
  }

  /** The two words stored by the final step are the 64-bit length. */
  lemma LengthWords(n: nat, c: nat)
    requires c == n % 0x1_0000_0000_0000_0000
    ensures Le(8 * n, 8) == Le((8 * c) % 0x1_0000_0000, 4) + Le((c / 0x2000_0000) % 0x1_0000_0000, 4)
  {
    hide Le;
    var lo, hi, d := Words(n, c);
    Le8(hi, lo);
    Le8Low(hi * 0x1_0000_0000 + lo, d);
  }

  class Context<S> {
    const transform: (S, Bytes) -> S
    const initial: S
    const encode: S -> Bytes
    var hash: S
    const block: array<bv8>
    var byteCount: nat

    /** The context after the bytes of msg: their whole blocks are compressed, the rest is buffered. */
    ghost predicate Holds(msg: Bytes)
      reads this, block
    {
      && block.Length == 64
      && byteCount == |msg| % 0x1_0000_0000_0000_0000
      && hash == Fold(transform, initial, 64, msg)
      && block[..|msg| % 64] == Rest(64, msg)
    }

    /** md5_init */
    constructor (transform: (S, Bytes) -> S, initial: S, encode: S -> Bytes)
      ensures Holds([]) && fresh(block)
      ensures this.transform == transform && this.initial == initial && this.encode == encode
    {
      this.transform, this.initial, this.encode := transform, initial, encode;
      hash, byteCount, block := initial, 0, new bv8[64];
      new;
      assert block[..0] == [];
    }

    /** md5_update: for every 32-bit length, the context then holds the message with data appended. */
    method Update(data: Bytes, ghost msg: Bytes)
      requires |data| < 0x1_0000_0000 && Holds(msg)
      modifies this, block
      ensures Holds(msg + data)
    {
      var offset := byteCount % 64;
      var avail := 64 - offset;
      RestLength(64, msg);
      FoldAppend(transform, initial, 64, msg, data);
      RestLength(64, msg + data);
      ghost var all := Rest(64, msg) + data;
      byteCount := (byteCount + |data|) % 0x1_0000_0000_0000_0000;
      Counted(|msg|, |data|, old(byteCount));
      if avail > |data| {
        Memcpy(block, offset, data);
      } else {
        Memcpy(block, offset, data[..avail]);
        FirstBlock(transform, hash, 64, all, data, avail, block[..]);
        hash := transform(hash, block[..]);
        Blocks(data[avail..], Fold(transform, old(hash), 64, all));
      }
    }

    /** The loop of md5_update over the blocks of data, and the copy of what is left. */
    method Blocks(data: Bytes, ghost goal: S)
      requires block.Length == 64
      requires Fold(transform, hash, 64, data) == goal
      modifies this`hash, block
      ensures hash == goal && block[..|Rest(64, data)|] == Rest(64, data)
    {
      var i := 0;
      assert data[0..] == data;
      while |data| - i >= 64
        invariant i <= |data|
        invariant Fold(transform, hash, 64, data[i..]) == goal && Rest(64, data) == Rest(64, data[i..])
      {
        NextBlock(data, i, 64);
        Memcpy(block, 0, data[i..i + 64]);
        assert block[..] == data[i..i + 64];
        hash := transform(hash, block[..]);
        i := i + 64;
      }
      Memcpy(block, 0, data[i..]);
    }

    /** md5_final: pad in the buffer, append the length, compress, encode. */
    method Final(ghost msg: Bytes) returns (out: Bytes)
      requires Holds(msg)
      modifies this, block
      ensures out == encode(Hash(transform, initial, msg))
    {
      hide Le; hide Fold; hide Rest; hide Tail;
      FoldAppend(transform, initial, 64, msg, Tail(|msg|));
      RestLength(64, msg);
      Counted(|msg|, 0, byteCount);
      LengthWords(|msg|, byteCount);
      var at := Start(byteCount % 64, msg);
      ghost var head := block[..at];
      Last(at, (8 * byteCount) % 0x1_0000_0000, (byteCount / 0x2000_0000) % 0x1_0000_0000);
      Assoc(head + Zeros(56 - at), Le((8 * byteCount) % 0x1_0000_0000, 4),
            Le((byteCount / 0x2000_0000) % 0x1_0000_0000, 4));
      out := encode(hash);
    }

    /** The first half of md5_final: append 0x80, and finish the block if the length does not fit in it. */
    method Start(offset: nat, ghost msg: Bytes) returns (at: nat)
      requires block.Length == 64 && offset == |msg| % 64 && block[..offset] == Rest(64, msg)
      modifies this`hash, block
      ensures at <= 56
      ensures Fold(transform, old(hash), 64, Rest(64, msg) + Tail(|msg|))
           == transform(hash, block[..at] + Zeros(56 - at) + Le(8 * |msg|, 8))
    {
      hide Le; hide Fold; hide Rest; hide Pad;
      ghost var rest := block[..offset];
      Memcpy(block, offset, [0x80]);
      if offset < 56 {
        at := offset + 1;
        assert block[..at] == rest + [0x80];
        OneTailBlock(transform, hash, rest, |msg|, 56, Le(8 * |msg|, 8), block[..at]);
      } else {
        Memcpy(block, offset + 1, Zeros(63 - offset));
        assert block[..] == rest + [0x80] + Zeros(63 - offset);
        TwoTailBlocks(transform, hash, rest, |msg|, 56, Le(8 * |msg|, 8), block[..]);
        hash := transform(hash, block[..]);
        at := 0;
        assert block[..0] + Zeros(56) == Zeros(56);
      }
    }

    /** The last block: at bytes of it are in place. */
    method Last(at: nat, lo: nat, hi: nat)
      requires block.Length == 64 && at <= 56
      modifies this`hash, block
      ensures hash == transform(old(hash), old(block[..at]) + Zeros(56 - at) + Le(lo, 4) + Le(hi, 4))
    {
      Memcpy(block, at, Zeros(56 - at));
      Memcpy(block, 56, Le(lo, 4));
      Memcpy(block, 60, Le(hi, 4));
      assert block[..] == old(block[..at]) + Zeros(56 - at) + Le(lo, 4) + Le(hi, 4);
      hash := transform(hash, block[..]);
    }
  }

  lemma Counted(n: nat, k: nat, c: nat)
    requires c == n % 0x1_0000_0000_0000_0000
    ensures (c + k) % 0x1_0000_0000_0000_0000 == (n + k) % 0x1_0000_0000_0000_0000
    ensures c % 64 == n % 64
  {
    CountedTotal(n, k);
    CountedLow(n);
  }

  lemma CountedTotal(n: nat, k: nat)
    ensures (n % 0x1_0000_0000_0000_0000 + k) % 0x1_0000_0000_0000_0000 == (n + k) % 0x1_0000_0000_0000_0000
  {
    var c, q := n % 0x1_0000_0000_0000_0000, n / 0x1_0000_0000_0000_0000;
    var p, r := (c + k) / 0x1_0000_0000_0000_0000, (c + k) % 0x1_0000_0000_0000_0000;
    assert n + k == (q + p) * 0x1_0000_0000_0000_0000 + r;
    ModUnique(n + k, 0x1_0000_0000_0000_0000, q + p, r);
  }

  lemma CountedLow(n: nat)
    ensures (n % 0x1_0000_0000_0000_0000) % 64 == n % 64
  {
    var c, q := n % 0x1_0000_0000_0000_0000, n / 0x1_0000_0000_0000_0000;
    assert n == (q * 0x400_0000_0000_0000 + c / 64) * 64 + c % 64;
    ModUnique(n, 64, q * 0x400_0000_0000_0000 + c / 64, c % 64);
  }

  /** Any way of cutting a message into updates gives the same digest, the standard one. */
  method Digest<S>(transform: (S, Bytes) -> S, initial: S, encode: S -> Bytes, chunks: seq<Bytes>) returns (out: Bytes)
    requires forall i :: 0 <= i < |chunks| ==> |chunks[i]| < 0x1_0000_0000
    ensures out == encode(Hash(transform, initial, Joined(chunks)))
  {
    var ctx := new Context(transform, initial, encode);
    for i := 0 to |chunks|
      invariant fresh(ctx) && fresh(ctx.block) && ctx.Holds(Joined(chunks[..i]))
    {
      JoinedSnoc(chunks, i);
      ctx.Update(chunks[i], Joined(chunks[..i]));
    }
    assert chunks[..|chunks|] == chunks;
    out := ctx.Final(Joined(chunks));
  }
}
