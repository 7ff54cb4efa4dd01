/** hmac.c: the keyed digest of section 2 of RFC 2104, computed through buffers in memory. */
module Hmac {
  import opened BlockModes
  import opened BlockStream
  import opened Scatterwalk
  import opened Digest

  // ---- RFC 2104. ----

  function XorOne(x: bv8, y: bv8): bv8 { x ^ y }

  /** Every byte of k XORed with b. */
  function XorByte(k: Bytes, b: bv8): (r: Bytes)
    ensures |r| == |k|
  {
    seq(|k|, i requires 0 <= i < |k| => XorOne(k[i], b))
  }

  /** A key longer than a block is hashed first. */
  function ShortKey(h: Bytes -> Bytes, blockSize: nat, key: Bytes): Bytes {
    if |key| > blockSize then h(key) else key
  }

  /** Zeros are appended to a key to make a block. */
  function Extended(key: Bytes, blockSize: nat): (r: Bytes)
    requires |key| <= blockSize
    ensures |r| == blockSize
  {
    key + Zeros(blockSize - |key|)
  }

  /** H(K XOR opad, H(K XOR ipad, text)) for a key that fits in a block. */
  function Keyed(h: Bytes -> Bytes, blockSize: nat, key: Bytes, text: Bytes): Bytes
    requires |key| <= blockSize
  {
    h(XorByte(Extended(key, blockSize), 0x5c) + h(XorByte(Extended(key, blockSize), 0x36) + text))
  }

  function Mac(h: Bytes -> Bytes, blockSize: nat, key: Bytes, text: Bytes): Bytes
    requires |ShortKey(h, blockSize, key)| <= blockSize
  {
    Keyed(h, blockSize, ShortKey(h, blockSize, key), text)
  }

  // ---- Buffers in memory. ----

  /** The bytes of a buffer. */
  function At(m: Bytes, a: nat, n: nat): Bytes {
    if a + n <= |m| then m[a..a + n] else []
  }

  /** Memory after b is stored at a. */
  function Stored(m: Bytes, a: nat, b: Bytes): (r: Bytes)
    ensures |r| == |m|
  {
    if a + |b| <= |m| then m[..a] + b + m[a + |b|..] else m
  }

  predicate Disjoint(a: nat, n: nat, b: nat, k: nat) {
    a + n <= b || b + k <= a
  }

  lemma StoredIndex(m: Bytes, a: nat, b: Bytes, i: nat)
    requires a + |b| <= |m| && i < |m|
    ensures Stored(m, a, b)[i] == if a <= i < a + |b| then b[i - a] else m[i]
  {
  }

  lemma StoredAt(m: Bytes, a: nat, b: Bytes)
    requires a + |b| <= |m|
    ensures At(Stored(m, a, b), a, |b|) == b
  {
  }

  lemma StoredElsewhere(m: Bytes, a: nat, b: Bytes, c: nat, n: nat)
    requires a + |b| <= |m| && Disjoint(a, |b|, c, n)
    ensures At(Stored(m, a, b), c, n) == At(m, c, n)
  {
  }

  lemma StoredTwice(m: Bytes, a: nat, b: Bytes, c: Bytes)
    requires a + |b| <= |m| && |b| == |c|
    ensures Stored(Stored(m, a, b), a, c) == Stored(m, a, c)
  {
  }

  /** The one-segment list that names a buffer: virt_to_page and offset_in_page. */
  function Named(a: nat, n: nat, pageSize: nat): Segment
    requires 0 < pageSize
  {
    Segment(a / pageSize, a % pageSize, n)
  }

  lemma NamedStart(a: nat, n: nat, pageSize: nat)
    requires 0 < pageSize
    ensures Start(Named(a, n, pageSize), pageSize) == a && Named(a, n, pageSize).length == n
  {
    PageBaseIsProduct(a / pageSize, pageSize);
  }

  lemma NamedIsBuffer(m: Bytes, a: nat, n: nat, pageSize: nat)
    requires 0 < pageSize && a + n <= |m|
    ensures Start(Named(a, n, pageSize), pageSize) == a
    ensures Gather(m, Flat([Named(a, n, pageSize)], pageSize)) == At(m, a, n)
  {
    hide PageBase; hide Named; hide Start;
    NamedStart(a, n, pageSize);
    var list := [Named(a, n, pageSize)];
    GatherFlat(m, list, pageSize, 0);
    assert list[..1] == list && list[..0] == [];
  }

  method Store(mem: array<bv8>, a: nat, b: Bytes)
    requires a + |b| <= mem.Length
    modifies mem
    ensures mem[..] == Stored(old(mem[..]), a, b)
  {
    Memcpy(mem, a, b);
  }

  /** The loop that XORs the block with a constant. */
  method XorBlock(mem: array<bv8>, a: nat, n: nat, b: bv8)
    requires a + n <= mem.Length
    modifies mem
    ensures mem[..] == Stored(old(mem[..]), a, XorByte(At(old(mem[..]), a, n), b))
  {
    hide XorOne;
    ghost var was := mem[..];
    for i := 0 to n
      invariant forall k :: 0 <= k < mem.Length ==> mem[k] == if a <= k < a + i then XorOne(was[k], b) else was[k]
    {
      mem[a + i] := XorOne(mem[a + i], b);
    }
    XorStored(was, mem[..], a, n, b);
  }

  lemma XorStored(was: Bytes, now: Bytes, a: nat, n: nat, b: bv8)
    requires a + n <= |was| == |now|
    requires forall k :: 0 <= k < |was| ==> now[k] == if a <= k < a + n then XorOne(was[k], b) else was[k]
    ensures now == Stored(was, a, XorByte(At(was, a, n), b))
  {
    hide XorOne; hide Stored;
    forall i: nat | i < |was| ensures now[i] == Stored(was, a, XorByte(At(was, a, n), b))[i] {
      StoredIndex(was, a, XorByte(At(was, a, n), b), i);
    }
  }

  /** The block is cleared, the key copied to its start, and every byte XORed. */
  method PadBlock(mem: array<bv8>, block: nat, blockSize: nat, key: nat, keylen: nat, b: bv8)
    requires block + blockSize <= mem.Length && key + keylen <= mem.Length && keylen <= blockSize
    requires Disjoint(block, blockSize, key, keylen)
    modifies mem
    ensures mem[..] == Stored(old(mem[..]), block, XorByte(Extended(At(old(mem[..]), key, keylen), blockSize), b))
  {
    ghost var was := mem[..];
    ghost var k := At(was, key, keylen);
    Store(mem, block, Zeros(blockSize));
    StoredElsewhere(was, block, Zeros(blockSize), key, keylen);
    Store(mem, block, mem[key..key + keylen]);
    Overlay(was, block, k, blockSize);
    StoredAt(was, block, Extended(k, blockSize));
    XorBlock(mem, block, blockSize, b);
    StoredTwice(was, block, Extended(k, blockSize), XorByte(Extended(k, blockSize), b));
  }

  lemma Overlay(m: Bytes, a: nat, k: Bytes, n: nat)
    requires |k| <= n && a + n <= |m|
    ensures Stored(Stored(m, a, Zeros(n)), a, k) == Stored(m, a, Extended(k, n))
  {
    hide Stored;
    var cleared := Stored(m, a, Zeros(n));
    forall i: nat | i < |m| ensures Stored(cleared, a, k)[i] == Stored(m, a, Extended(k, n))[i] {
      StoredIndex(m, a, Zeros(n), i);
      StoredIndex(cleared, a, k, i);
      StoredIndex(m, a, Extended(k, n), i);
    }
  }

  /** hash_key: the digest of the key overwrites its first bytes. */
  method HashKey<C(!new)>(tfm: Tfm<C>, key: nat, keylen: nat, ghost limit: nat, ghost h: Bytes -> Bytes)
    requires tfm.Sized() && key + keylen <= tfm.mem.Length && keylen < limit
    requires Computes(tfm.alg, h, limit) && tfm.alg.digestSize <= keylen
    modifies tfm, tfm.mem
    ensures tfm.mem[..] == Stored(old(tfm.mem[..]), key, h(At(old(tfm.mem[..]), key, keylen)))
  {
    NamedIsBuffer(tfm.mem[..], key, keylen, tfm.pageSize);
    var out := tfm.Digest([Named(key, keylen, tfm.pageSize)], limit, h);
    Store(tfm.mem, key, out);
  }

  /** Feeding a buffer that is named by a one-segment list. */
  method FeedBuffer<C(!new)>(tfm: Tfm<C>, a: nat, n: nat, ghost limit: nat) returns (ghost chunks: seq<Bytes>)
    requires tfm.Sized() && a + n <= tfm.mem.Length && n < limit
    modifies tfm`ctx
    ensures tfm.ctx == Fed(tfm.alg, old(tfm.ctx), chunks) && Short(chunks, limit)
    ensures Joined(chunks) == At(tfm.mem[..], a, n)
  {
    NamedIsBuffer(tfm.mem[..], a, n, tfm.pageSize);
    chunks := tfm.Update([Named(a, n, tfm.pageSize)], limit);
  }

  // ---- The entry points. ----

  /** What the callers owe: the buffers are in memory and apart, and lengths suit the algorithm. */
  ghost predicate Laid<C(!new)>(tfm: Tfm<C>, block: nat, key: nat, keylen: nat, limit: nat, h: Bytes -> Bytes)
    reads tfm
  {
    && tfm.Sized() && Computes(tfm.alg, h, limit)
    && tfm.alg.digestSize <= tfm.alg.blockSize < limit && keylen < limit
    && block + tfm.alg.blockSize <= tfm.mem.Length && key + keylen <= tfm.mem.Length
    && Disjoint(block, tfm.alg.blockSize, key, keylen)
  }

  /** The same for a whole call: the out buffer lies apart too, and the text avoids what is written before it is read. */
  ghost predicate Ready<C(!new)>(tfm: Tfm<C>, block: nat, key: nat, keylen: nat, list: seq<Segment>, out: nat, limit: nat) {
    && tfm.Sized()
    && tfm.alg.digestSize <= tfm.alg.blockSize < limit && keylen < limit
    && block + tfm.alg.blockSize <= tfm.mem.Length && key + keylen <= tfm.mem.Length
    && out + tfm.alg.digestSize <= tfm.mem.Length
    && Disjoint(block, tfm.alg.blockSize, key, keylen)
    && Disjoint(out, tfm.alg.digestSize, block, tfm.alg.blockSize) && Disjoint(out, tfm.alg.digestSize, key, keylen)
    && InMemory(list, tfm.pageSize, tfm.mem.Length) && ShortSegments(list, limit)
    && Avoids(Flat(list, tfm.pageSize), block, tfm.alg.blockSize)
    && (keylen > tfm.alg.blockSize ==> Avoids(Flat(list, tfm.pageSize), key, tfm.alg.digestSize))
  }

  /** Memory after crypto_hmac_init. */
  function Prepared(m: Bytes, h: Bytes -> Bytes, block: nat, blockSize: nat, key: nat, keylen: nat, b: bv8): Bytes {
    var k := ShortKey(h, blockSize, At(m, key, keylen));
    if |k| > blockSize then m
    else Stored(if keylen > blockSize then Stored(m, key, k) else m, block, XorByte(Extended(k, blockSize), b))
  }

  /** crypto_hmac_init: the digest has been fed the inner pad, and the key left in memory fits in a block. */
  method Init<C(!new)>(tfm: Tfm<C>, block: nat, key: nat, keylen0: nat, ghost limit: nat, ghost h: Bytes -> Bytes)
    returns (keylen: nat, ghost chunks: seq<Bytes>)
    requires Laid(tfm, block, key, keylen0, limit, h)
    modifies tfm, tfm.mem
    ensures Laid(tfm, block, key, keylen, limit, h) && keylen <= tfm.alg.blockSize
    ensures At(tfm.mem[..], key, keylen) == ShortKey(h, tfm.alg.blockSize, At(old(tfm.mem[..]), key, keylen0))
    ensures tfm.mem[..] == Prepared(old(tfm.mem[..]), h, block, tfm.alg.blockSize, key, keylen0, 0x36)
    ensures tfm.ctx == Fed(tfm.alg, tfm.alg.init, chunks) && Short(chunks, limit)
    ensures Joined(chunks) == XorByte(Extended(At(tfm.mem[..], key, keylen), tfm.alg.blockSize), 0x36)
  {
    hide Fed; hide Joined; hide Computes; hide XorByte; hide Extended; hide Stored; hide At;
    ghost var m0 := tfm.mem[..];
    assert h.requires(At(m0, key, keylen0));
    keylen := keylen0;
    Sizes(tfm.alg, h, limit, m0, key, keylen0);
    if keylen > tfm.alg.blockSize {
      HashKey(tfm, key, keylen, limit, h);
      keylen := tfm.alg.digestSize;
      StoredAt(m0, key, h(At(m0, key, keylen0)));
    }
    ghost var m1 := tfm.mem[..];
    PadBlock(tfm.mem, block, tfm.alg.blockSize, key, keylen, 0x36);
    ghost var pad := XorByte(Extended(At(m1, key, keylen), tfm.alg.blockSize), 0x36);
    StoredElsewhere(m1, block, pad, key, keylen);
    StoredAt(m1, block, pad);
    tfm.Init();
    chunks := FeedBuffer(tfm, block, tfm.alg.blockSize, limit);
    assert tfm.ctx == Fed(tfm.alg, Fed(tfm.alg, tfm.alg.init, []), chunks);
    Nothing(tfm.alg, tfm.alg.init);
  }

  lemma Sizes<C(!new)>(alg: Alg<C>, h: Bytes -> Bytes, limit: nat, m: Bytes, a: nat, n: nat)
    requires Computes(alg, h, limit)
    ensures |h(At(m, a, n))| == alg.digestSize
    ensures a + n <= |m| ==> |At(m, a, n)| == n
  {
  }

  /** crypto_hmac_update */
  method Update<C(!new)>(tfm: Tfm<C>, list: seq<Segment>, ghost limit: nat) returns (ghost chunks: seq<Bytes>)
    requires tfm.Sized() && InMemory(list, tfm.pageSize, tfm.mem.Length) && ShortSegments(list, limit)
    modifies tfm`ctx
    ensures tfm.ctx == Fed(tfm.alg, old(tfm.ctx), chunks) && Short(chunks, limit)
    ensures Joined(chunks) == Gather(tfm.mem[..], Flat(list, tfm.pageSize))
  {
    chunks := tfm.Update(list, limit);
  }

  /** crypto_hmac_final.  A key that fits in a block is not hashed again, which would destroy the inner
      digest; then the result is the outer digest of RFC 2104. */
  method Final<C(!new)>(tfm: Tfm<C>, block: nat, key: nat, keylen0: nat, out: nat, ghost limit: nat, ghost h: Bytes -> Bytes,
                  ghost inner: seq<Bytes>)
    returns (keylen: nat)
    requires Laid(tfm, block, key, keylen0, limit, h)
    requires out + tfm.alg.digestSize <= tfm.mem.Length
    requires Disjoint(out, tfm.alg.digestSize, block, tfm.alg.blockSize)
    requires Disjoint(out, tfm.alg.digestSize, key, keylen0)
    requires tfm.ctx == Fed(tfm.alg, tfm.alg.init, inner) && Short(inner, limit)
    modifies tfm, tfm.mem
    ensures keylen <= tfm.alg.blockSize
    ensures keylen0 <= tfm.alg.blockSize ==>
      var pad := XorByte(Extended(At(old(tfm.mem[..]), key, keylen0), tfm.alg.blockSize), 0x5c);
      tfm.mem[..] == Stored(Stored(old(tfm.mem[..]), block, pad), out, h(pad + h(Joined(inner))))
  {
    hide Fed; hide Joined; hide Computes; hide XorByte; hide Extended; hide Stored; hide At;
    keylen := keylen0;
    Sizes(tfm.alg, h, limit, tfm.mem[..], key, keylen0);
    if keylen > tfm.alg.blockSize {
      HashKey(tfm, key, keylen, limit, h);
      keylen := tfm.alg.digestSize;
    }
    ghost var m0, c := tfm.mem[..], tfm.ctx;
    var d := tfm.Final();
    FinalSize(tfm.alg, h, limit, c);
    if keylen0 <= tfm.alg.blockSize { Result(tfm.alg, h, limit, inner); }
    Store(tfm.mem, out, d);
    Outer(tfm, block, key, keylen, out, limit, h, m0, d);
  }

  /** The second half of crypto_hmac_final: the outer pad and the inner digest, which is in the out buffer. */
  method Outer<C(!new)>(tfm: Tfm<C>, block: nat, key: nat, keylen: nat, out: nat, ghost limit: nat,
                        ghost h: Bytes -> Bytes, ghost m0: Bytes, ghost d: Bytes)
    requires Laid(tfm, block, key, keylen, limit, h) && keylen <= tfm.alg.blockSize
    requires out + tfm.alg.digestSize <= tfm.mem.Length
    requires Disjoint(out, tfm.alg.digestSize, block, tfm.alg.blockSize)
    requires Disjoint(out, tfm.alg.digestSize, key, keylen)
    requires |m0| == tfm.mem.Length && |d| == tfm.alg.digestSize && tfm.mem[..] == Stored(m0, out, d)
    modifies tfm, tfm.mem
    ensures |At(m0, key, keylen)| == keylen
    ensures
      var pad := XorByte(Extended(At(m0, key, keylen), tfm.alg.blockSize), 0x5c);
      tfm.mem[..] == Stored(Stored(m0, block, pad), out, h(pad + d))
  {
    hide Fed; hide Joined; hide Computes; hide XorByte; hide Extended; hide Stored; hide At;
    var ds, bs := tfm.alg.digestSize, tfm.alg.blockSize;
    Sizes(tfm.alg, h, limit, m0, key, keylen);
    StoredElsewhere(m0, out, d, key, keylen);
    PadBlock(tfm.mem, block, bs, key, keylen, 0x5c);
    ghost var pad := XorByte(Extended(At(m0, key, keylen), bs), 0x5c);
    ghost var m1 := Stored(m0, out, d);
    StoredAt(m1, block, pad);
    StoredElsewhere(m1, block, pad, out, ds);
    StoredAt(m0, out, d);
    ghost var chunks := FeedPair(tfm, block, bs, out, ds, limit);
    ghost var c := tfm.ctx;
    var e := tfm.Final();
    FinalSize(tfm.alg, h, limit, c);
    Result(tfm.alg, h, limit, chunks);
    StoredSwap(m0, out, d, block, pad);
    StoredTwice(Stored(m0, block, pad), out, d, e);
    Store(tfm.mem, out, e);
  }

  /** A fresh digest fed two buffers. */
  method FeedPair<C(!new)>(tfm: Tfm<C>, a: nat, n: nat, b: nat, k: nat, ghost limit: nat)
    returns (ghost chunks: seq<Bytes>)
    requires tfm.Sized() && a + n <= tfm.mem.Length && n < limit && b + k <= tfm.mem.Length && k < limit
    modifies tfm`ctx
    ensures tfm.ctx == Fed(tfm.alg, tfm.alg.init, chunks) && Short(chunks, limit)
    ensures Joined(chunks) == At(tfm.mem[..], a, n) + At(tfm.mem[..], b, k)
  {
    hide Fed; hide Joined; hide At;
    tfm.Init();
    Nothing(tfm.alg, tfm.alg.init);
    ghost var first := FeedBuffer(tfm, a, n, limit);
    ghost var second := FeedBuffer(tfm, b, k, limit);
    FedAppend(tfm.alg, tfm.alg.init, first, second);
    chunks := first + second;
  }

  lemma FinalSize<C(!new)>(alg: Alg<C>, h: Bytes -> Bytes, limit: nat, c: C)
    requires Computes(alg, h, limit)
    ensures |alg.final(c)| == alg.digestSize
  {
  }

  lemma Result<C(!new)>(alg: Alg<C>, h: Bytes -> Bytes, limit: nat, chunks: seq<Bytes>)
    requires Computes(alg, h, limit) && Short(chunks, limit)
    ensures alg.final(Fed(alg, alg.init, chunks)) == h(Joined(chunks))
  {
  }

  lemma StoredSwap(m: Bytes, a: nat, b: Bytes, c: nat, d: Bytes)
    requires a + |b| <= |m| && c + |d| <= |m| && Disjoint(a, |b|, c, |d|)
    ensures Stored(Stored(m, a, b), c, d) == Stored(Stored(m, c, d), a, b)
  {
    hide Stored;
    forall i: nat | i < |m| ensures Stored(Stored(m, a, b), c, d)[i] == Stored(Stored(m, c, d), a, b)[i] {
      StoredIndex(m, a, b, i);
      StoredIndex(m, c, d, i);
      StoredIndex(Stored(m, a, b), c, d, i);
      StoredIndex(Stored(m, c, d), a, b, i);
    }
  }

  /** No address of the list lies in a buffer. */
  ghost predicate Avoids(addrs: Addrs, a: nat, n: nat) {
    forall i :: 0 <= i < |addrs| ==> addrs[i] < a || a + n <= addrs[i]
  }

  lemma GatherStored(m: Bytes, a: nat, b: Bytes, addrs: Addrs)
    requires a + |b| <= |m| && Avoids(addrs, a, |b|)
    ensures Gather(Stored(m, a, b), addrs) == Gather(m, addrs)
  {
  }

  /** crypto_hmac: for every key length and every scatterlist, the HMAC of RFC 2104. */
  method Hmac<C(!new)>(tfm: Tfm<C>, block: nat, key: nat, keylen0: nat, list: seq<Segment>, out: nat,
                       ghost limit: nat, ghost h: Bytes -> Bytes)
    returns (keylen: nat)
    requires Computes(tfm.alg, h, limit) && Ready(tfm, block, key, keylen0, list, out, limit)
    modifies tfm, tfm.mem
    ensures keylen <= tfm.alg.blockSize
    ensures |ShortKey(h, tfm.alg.blockSize, At(old(tfm.mem[..]), key, keylen0))| <= tfm.alg.blockSize
    ensures At(tfm.mem[..], out, tfm.alg.digestSize)
         == Mac(h, tfm.alg.blockSize, At(old(tfm.mem[..]), key, keylen0), Gather(old(tfm.mem[..]), Flat(list, tfm.pageSize)))
  {
    hide Fed; hide Joined; hide Computes; hide XorByte; hide Extended; hide Stored; hide At; hide Gather; hide Flat;
    hide Avoids;
    ghost var m0 := tfm.mem[..];
    ghost var first;
    keylen, first := Init(tfm, block, key, keylen0, limit, h);
    ghost var m1, k := tfm.mem[..], ShortKey(h, tfm.alg.blockSize, At(m0, key, keylen0));
    Sizes(tfm.alg, h, limit, m0, key, keylen0);
    Sizes(tfm.alg, h, limit, m1, key, keylen);
    TextKept(m0, h, block, tfm.alg.blockSize, key, keylen0, tfm.alg.digestSize, Flat(list, tfm.pageSize));
    ghost var text := Update(tfm, list, limit);
    FedAppend(tfm.alg, tfm.alg.init, first, text);
    keylen := Final(tfm, block, key, keylen, out, limit, h, first + text);
    ghost var pad := XorByte(Extended(k, tfm.alg.blockSize), 0x5c);
    Sizes2(tfm.alg, h, limit, pad + h(Joined(first + text)));
    StoredAt(Stored(m1, block, pad), out, h(pad + h(Joined(first + text))));
  }

  lemma Sizes2<C(!new)>(alg: Alg<C>, h: Bytes -> Bytes, limit: nat, m: Bytes)
    requires Computes(alg, h, limit)
    ensures |h(m)| == alg.digestSize
  {
  }

  /** Init changes no byte of the text. */
  lemma TextKept(m: Bytes, h: Bytes -> Bytes, block: nat, blockSize: nat, key: nat, keylen: nat, digestSize: nat, addrs: Addrs)
    requires block + blockSize <= |m| && key + keylen <= |m| && digestSize <= blockSize
    requires |h(At(m, key, keylen))| == digestSize
    requires Avoids(addrs, block, blockSize) && (keylen > blockSize ==> Avoids(addrs, key, digestSize))
    ensures Gather(Prepared(m, h, block, blockSize, key, keylen, 0x36), addrs) == Gather(m, addrs)
  {
    hide XorByte; hide Extended; hide Stored; hide Gather; hide Avoids;
    var k := ShortKey(h, blockSize, At(m, key, keylen));
    var m1 := if keylen > blockSize then Stored(m, key, k) else m;
    if keylen > blockSize { GatherStored(m, key, k, addrs); }
    GatherStored(m1, block, XorByte(Extended(k, blockSize), 0x36), addrs);
  }
}
