/** Hashing a message block by block: the reference that the streaming digests are compared with, the
    standard paddings, and the loop that sha1.c, sha256.c and sha512.c share. */
module BlockStream {
  import opened BlockModes
  import opened ByteIndex

  /** The compression function f folded over the whole blocks of m; a last partial block is ignored. */
  function Fold<S>(f: (S, Bytes) -> S, s: S, bs: nat, m: Bytes): S
    decreases |m|
  {
    if bs == 0 || |m| < bs then s else Fold(f, f(s, m[..bs]), bs, m[bs..])
  }

  /** The partial block that Fold ignores. */
  function Rest(bs: nat, m: Bytes): (r: Bytes)
    ensures bs > 0 ==> |r| < bs
    decreases |m|
  {
    if bs == 0 || |m| < bs then m else Rest(bs, m[bs..])
  }

  /** A message can be folded in two pieces, the second one starting with what the first left over. */
  lemma {:induction false} FoldAppend<S>(f: (S, Bytes) -> S, s: S, bs: nat, m: Bytes, n: Bytes)
    requires bs > 0
    ensures Fold(f, s, bs, m + n) == Fold(f, Fold(f, s, bs, m), bs, Rest(bs, m) + n)
    ensures Rest(bs, m + n) == Rest(bs, Rest(bs, m) + n)
    decreases |m|
  {
    if |m| >= bs {
      assert (m + n)[..bs] == m[..bs];
      assert (m + n)[bs..] == m[bs..] + n;
      FoldAppend(f, f(s, m[..bs]), bs, m[bs..], n);
    }
  }

  lemma {:induction false} RestLength(bs: nat, m: Bytes)
    requires bs > 0
    ensures |Rest(bs, m)| == |m| % bs
    decreases |m|
  {
    if |m| >= bs {
      RestLength(bs, m[bs..]);
      ModStep(|m|, bs);
    } else {
      ModUnique(|m|, bs, 0, |m|);
    }
  }

  // ---- Numbers as bytes. ----

  /** The k low-order bytes of n, most significant first. */
  function Be(n: nat, k: nat): (r: Bytes)
    ensures |r| == k
  {
    if k == 0 then [] else Be(n / 256, k - 1) + [ByteAt(n % 256)]
  }

  /** The k low-order bytes of n, least significant first. */
  function Le(n: nat, k: nat): (r: Bytes)
    ensures |r| == k
  {
    if k == 0 then [] else [ByteAt(n % 256)] + Le(n / 256, k - 1)
  }

  function Pow256(k: nat): (r: nat)
    ensures r > 0
  {
    if k == 0 then 1 else 256 * Pow256(k - 1)
  }

  lemma {:induction false} BeSplit(hi: nat, lo: nat, j: nat, k: nat)
    requires lo < Pow256(k)
    ensures Be(hi * Pow256(k) + lo, j + k) == Be(hi, j) + Be(lo, k)
    decreases k
  {
    if k == 0 {
      assert Be(hi, j) + [] == Be(hi, j);
    } else {
      var n, p := hi * Pow256(k) + lo, Pow256(k - 1);
      MulSwap(hi, p);
      DivByte(n, hi * p, lo);
      BeSplit(hi, lo / 256, j, k - 1);
      BeUnfold(n, j + k);
      BeUnfold(lo, k);
      hide Be;
      Assoc(Be(hi, j), Be(lo / 256, k - 1), [ByteAt(lo % 256)]);
    }
  }

  lemma BeUnfold(n: nat, k: nat)
    requires k > 0
    ensures Be(n, k) == Be(n / 256, k - 1) + [ByteAt(n % 256)]
  {
  }

  lemma LeUnfold(n: nat, k: nat)
    requires k > 0
    ensures Le(n, k) == [ByteAt(n % 256)] + Le(n / 256, k - 1)
  {
  }

  lemma DivByte(n: nat, a: nat, b: nat)
    requires n == 256 * a + b
    ensures n / 256 == a + b / 256 && n % 256 == b % 256
  {
  }

  lemma MulSwap(h: nat, p: nat)
    ensures h * (256 * p) == 256 * (h * p)
  {
  }

  lemma {:induction false} LeSplit(hi: nat, lo: nat, j: nat, k: nat)
    requires lo < Pow256(k)
    ensures Le(hi * Pow256(k) + lo, k + j) == Le(lo, k) + Le(hi, j)
    decreases k
  {
    if k == 0 {
      assert [] + Le(hi, j) == Le(hi, j);
    } else {
      var n, p := hi * Pow256(k) + lo, Pow256(k - 1);
      MulSwap(hi, p);
      DivByte(n, hi * p, lo);
      LeSplit(hi, lo / 256, j, k - 1);
      LeUnfold(n, k + j);
      LeUnfold(lo, k);
      hide Le;
      Assoc([ByteAt(lo % 256)], Le(lo / 256, k - 1), Le(hi, j));
    }
  }

  /** The number a little-endian field holds. */
  function FromLe(b: Bytes): nat {
    if b == [] then 0 else Index(b[0]) + 256 * FromLe(b[1..])
  }

  lemma {:induction false} FromLeLe(n: nat, k: nat)
    requires n < Pow256(k)
    ensures FromLe(Le(n, k)) == n
  {
    if k != 0 {
      hide Index;
      IndexOfByte(n % 256);
      LeUnfold(n, k);
      assert Le(n, k)[1..] == Le(n / 256, k - 1);
      FromLeLe(n / 256, k - 1);
    }
  }

  /** Only the low-order bytes are kept. */
  lemma {:induction false} BeLow(n: nat, m: nat, k: nat, d: nat)
    requires n == m + d * Pow256(k)
    ensures Be(n, k) == Be(m, k)
  {
    if k != 0 {
      var p := Pow256(k - 1);
      MulSwap(d, p);
      DivByte(n, d * p, m);
      BeLow(n / 256, m / 256, k - 1, d);
    }
  }

  lemma {:induction false} LeLow(n: nat, m: nat, k: nat, d: nat)
    requires n == m + d * Pow256(k)
    ensures Le(n, k) == Le(m, k)
  {
    if k != 0 {
      var p := Pow256(k - 1);
      MulSwap(d, p);
      DivByte(n, d * p, m);
      LeLow(n / 256, m / 256, k - 1, d);
    }
  }

  lemma Powers()
    ensures Pow256(4) == 0x1_0000_0000
    ensures Pow256(8) == 0x1_0000_0000_0000_0000
    ensures Pow256(12) == 0x1_0000_0000_0000_0000_0000_0000
    ensures Pow256(16) == 0x1_0000_0000_0000_0000_0000_0000_0000_0000
  {
    assert Pow256(2) == 0x1_0000;
    assert Pow256(4) == 0x1_0000_0000;
    assert Pow256(6) == 0x1_0000_0000_0000;
    assert Pow256(8) == 0x1_0000_0000_0000_0000;
    assert Pow256(10) == 0x1_0000_0000_0000_0000_0000;
    assert Pow256(12) == 0x1_0000_0000_0000_0000_0000_0000;
    assert Pow256(14) == 0x1_0000_0000_0000_0000_0000_0000_0000;
  }

  lemma Le8(hi: nat, lo: nat)
    requires lo < 0x1_0000_0000
    ensures Le(hi * 0x1_0000_0000 + lo, 8) == Le(lo, 4) + Le(hi, 4)
  {
    hide Le; hide Pow256;
    Powers();
    LeSplit(hi, lo, 4, 4);
  }

  lemma Le8Low(m: nat, d: nat)
    ensures Le(m + d * 0x1_0000_0000_0000_0000, 8) == Le(m, 8)
  {
    hide Le; hide Pow256;
    Powers();
    LeLow(m + d * 0x1_0000_0000_0000_0000, m, 8, d);
  }

  lemma Be8(hi: nat, lo: nat)
    requires lo < 0x1_0000_0000
    ensures Be(hi * 0x1_0000_0000 + lo, 8) == Be(hi, 4) + Be(lo, 4)
  {
    hide Be; hide Pow256;
    Powers();
    BeSplit(hi, lo, 4, 4);
  }

  lemma Be8Low(m: nat, d: nat)
    ensures Be(m + d * 0x1_0000_0000_0000_0000, 8) == Be(m, 8)
  {
    hide Be; hide Pow256;
    Powers();
    BeLow(m + d * 0x1_0000_0000_0000_0000, m, 8, d);
  }

  // ---- Padding. ----

  function Zeros(n: nat): (r: Bytes)
    ensures |r| == n
  {
    seq(n, _ => 0)
  }

  /** The fewest bytes after which a message of n bytes fills room bytes of a block. */
  function Gap(n: nat, bs: nat, room: nat): nat
    requires room < bs
  {
    if n % bs <= room then room - n % bs else bs + room - n % bs
  }

  lemma GapIsLeast(n: nat, bs: nat, room: nat, k: nat)
    requires room < bs
    ensures (n + Gap(n, bs, room)) % bs == room
    ensures k < Gap(n, bs, room) ==> (n + k) % bs != room
  {
    var q, r, g := n / bs, n % bs, Gap(n, bs, room);
    Place(n, bs, q, r, g);
    if k < g { Place(n, bs, q, r, k); }
  }

  /** Where the k-th byte after the n-th stands in its block. */
  lemma Place(n: nat, bs: nat, q: nat, r: nat, k: nat)
    requires r < bs && n == q * bs + r && r + k < 2 * bs
    ensures (n + k) % bs == if r + k < bs then r + k else r + k - bs
  {
    if r + k < bs {
      ModUnique(n + k, bs, q, r + k);
    } else {
      assert (q + 1) * bs == q * bs + bs;
      ModUnique(n + k, bs, q + 1, r + k - bs);
    }
  }

  /** One byte 0x80, then the fewest zero bytes that leave room bytes of the last block filled. */
  function Pad(n: nat, bs: nat, room: nat): (r: Bytes)
    requires room < bs
    ensures |r| == 1 + Gap(n + 1, bs, room)
  {
    [0x80] + Zeros(Gap(n + 1, bs, room))
  }

  // ---- The last blocks of a padded message with 64-byte blocks. ----

  /** The length still fits in the block that the message ends in. */
  lemma OneTailBlock<S>(f: (S, Bytes) -> S, s: S, rest: Bytes, n: nat, room: nat, len: Bytes, block: Bytes)
    requires |rest| == n % 64 < room < 64 && |len| == 64 - room && block == rest + [0x80]
    ensures Fold(f, s, 64, rest + (Pad(n, 64, room) + len)) == f(s, block + Zeros(room - |block|) + len)
  {
    GapBefore(n, |rest|, room);
    Regroup(rest, [0x80], Zeros(room - |block|), len);
    OneBlockFold(f, s, block + Zeros(room - |block|) + len);
  }

  /** It does not, and takes a block of its own. */
  lemma TwoTailBlocks<S>(f: (S, Bytes) -> S, s: S, rest: Bytes, n: nat, room: nat, len: Bytes, block: Bytes)
    requires room < 64 && |len| == 64 - room
    requires |rest| == n % 64 && room <= |rest| && block == rest + [0x80] + Zeros(63 - |rest|)
    ensures Fold(f, s, 64, rest + (Pad(n, 64, room) + len)) == f(f(s, block), Zeros(room) + len)
  {
    hide Zeros; hide Gap;
    var gap := 63 + room - |rest|;
    GapAfter(n, |rest|, room);
    Regroup(rest, [0x80], Zeros(gap), len);
    ZerosSplit(63 - |rest|, room);
    Assoc(rest + [0x80], Zeros(63 - |rest|), Zeros(room));
    Assoc(block, Zeros(room), len);
    TwoBlockFold(f, s, block, Zeros(room) + len);
  }

  lemma ZerosSplit(a: nat, b: nat)
    ensures Zeros(a + b) == Zeros(a) + Zeros(b)
  {
  }

  lemma GapBefore(n: nat, r: nat, room: nat)
    requires r == n % 64 && r < room < 64
    ensures Gap(n + 1, 64, room) == room - (r + 1)
  {
  }

  lemma GapAfter(n: nat, r: nat, room: nat)
    requires r == n % 64 && room <= r && room < 64
    ensures Gap(n + 1, 64, room) == 63 + room - r
  {
  }

  lemma Regroup(a: Bytes, b: Bytes, c: Bytes, d: Bytes)
    ensures a + ((b + c) + d) == a + b + c + d
  {
  }

  lemma OneBlockFold<S>(f: (S, Bytes) -> S, s: S, b: Bytes)
    requires |b| == 64
    ensures Fold(f, s, 64, b) == f(s, b)
  {
    assert b[..64] == b && b[64..] == [];
  }

  lemma TwoBlockFold<S>(f: (S, Bytes) -> S, s: S, b: Bytes, c: Bytes)
    requires |b| == 64 && |c| == 64
    ensures Fold(f, s, 64, b + c) == f(f(s, b), c)
  {
    assert (b + c)[..64] == b && (b + c)[64..] == c;
    OneBlockFold(f, f(s, b), c);
  }

  // ---- The buffering loop. ----

  method Memcpy(dst: array<bv8>, at: nat, src: Bytes)
    requires at + |src| <= dst.Length
    modifies dst
    ensures dst[..] == old(dst[..at]) + src + old(dst[at + |src|..])
    ensures dst[..at + |src|] == old(dst[..at]) + src
  {
    ghost var was := dst[..];
    for i := 0 to |src|
      invariant forall k :: 0 <= k < dst.Length ==> dst[k] == if at <= k < at + i then src[k - at] else was[k]
    {
      dst[at + i] := src[i];
    }
  }

  /** Unsigned int arithmetic. */
  function Uint(x: nat): nat { x % 0x1_0000_0000 }

  /** While whole blocks are taken from data that begin bs - index bytes into it, i + bs - 1 never wraps, if and only
      if index and the length of the data together stay below 2^32. */
  lemma BoundExactly(bs: nat, index: nat, len: nat)
    requires bs == 64 || bs == 128
    requires index < bs && len < 0x1_0000_0000
    ensures (forall i: nat :: i <= len && Boundary(i, index, bs) ==> Uint(i + (bs - 1)) == i + (bs - 1))
            <==> index + len < 0x1_0000_0000
  {
    if index + len >= 0x1_0000_0000 {
      assert Boundary(0x1_0000_0000 - index, index, bs);
    }
  }

  predicate Boundary(i: nat, index: nat, bs: nat) {
    if bs == 64 then (i + index) % 64 == 0 else (i + index) % 128 == 0
  }

  /** The pad length that sha1_final and sha256_final choose from the index is the standard one. */
  lemma PadLength64(n: nat)
    ensures Pad(n, 64, 56) == Padding(if n % 64 < 56 then 56 - n % 64 else 120 - n % 64)
  {
  }

  /** The shared body of sha1_update, sha256_update and sha512_update after the counters are stepped:
      transform as many blocks as possible, starting with the index bytes already in buf, then buffer
      what remains. */
  method Absorb<S>(f: (S, Bytes) -> S, bs: nat, buf: array<bv8>, index: nat, s0: S, data: Bytes) returns (s: S)
    requires (bs == 64 || bs == 128) && index < bs <= buf.Length
    requires index + |data| < 0x1_0000_0000
    modifies buf
    ensures s == Fold(f, s0, bs, old(buf[..index]) + data)
    ensures buf[..|Rest(bs, old(buf[..index]) + data)|] == Rest(bs, old(buf[..index]) + data)
  {
    ghost var all := buf[..index] + data;
    var part := bs - index;
    if Uint(index + |data|) > bs - 1 {
      hide Fold; hide Rest;
      Memcpy(buf, index, data[..part]);
      assert all[..index] == old(buf[..index]);
      FirstBlock(f, s0, bs, all, data, part, buf[..bs]);
      var i;
      s, i := WholeBlocks(f, bs, f(s0, buf[..bs]), data, part, index);
      Memcpy(buf, 0, data[i..]);
      assert old(buf[..0]) == [];
    } else {
      s := s0;
      Memcpy(buf, index, data);
    }
  }

  /** The loop over the blocks of data from i on. */
  method WholeBlocks<S>(f: (S, Bytes) -> S, bs: nat, s0: S, data: Bytes, part: nat, ghost index: nat)
    returns (s: S, i: nat)
    requires (bs == 64 || bs == 128) && 0 < part <= |data| && part + index == bs && index + |data| < 0x1_0000_0000
    ensures i <= |data|
    ensures s == Fold(f, s0, bs, data[part..]) && data[i..] == Rest(bs, data[part..])
  {
    hide Boundary; hide Uint; hide Fold; hide Rest;
    BoundExactly(bs, index, |data|);
    s, i := s0, part;
    NextBoundary(0, index, bs);
    while Uint(i + (bs - 1)) < |data|
      invariant part <= i <= |data| && Boundary(i, index, bs)
      invariant Fold(f, s0, bs, data[part..]) == Fold(f, s, bs, data[i..])
      invariant Rest(bs, data[part..]) == Rest(bs, data[i..])
    {
      assert Boundary(i, index, bs) && Uint(i + (bs - 1)) == i + (bs - 1);
      NextBoundary(i, index, bs);
      FoldNext(f, s, data, i, bs);
      s := f(s, data[i..i + bs]);
      i := i + bs;
    }
    assert Boundary(i, index, bs) && Uint(i + (bs - 1)) == i + (bs - 1);
    LastBlock(f, s, data, i, bs);
  }

  lemma NextBoundary(i: nat, index: nat, bs: nat)
    requires bs == 64 || bs == 128
    ensures Boundary(i, index, bs) ==> Boundary(i + bs, index, bs)
    ensures index <= bs ==> Boundary(bs - index, index, bs)
  {
  }

  lemma FirstBlock<S>(f: (S, Bytes) -> S, s: S, bs: nat, all: Bytes, data: Bytes, part: nat, block: Bytes)
    requires 0 < part <= |data| && part <= bs && |all| == bs - part + |data|
    requires all[bs - part..] == data
    requires block == all[..bs - part] + data[..part]
    ensures Fold(f, s, bs, all) == Fold(f, f(s, block), bs, data[part..])
    ensures Rest(bs, all) == Rest(bs, data[part..])
  {
    assert all == all[..bs - part] + data;
    assert all[..bs] == block;
    assert all[bs..] == data[part..];
  }

  lemma NextBlock(data: Bytes, i: nat, bs: nat)
    requires i + bs <= |data|
    ensures data[i..][..bs] == data[i..i + bs] && data[i..][bs..] == data[i + bs..]
  {
  }

  lemma FoldNext<S>(f: (S, Bytes) -> S, s: S, data: Bytes, i: nat, bs: nat)
    requires 0 < bs && i + bs <= |data|
    ensures Fold(f, s, bs, data[i..]) == Fold(f, f(s, data[i..i + bs]), bs, data[i + bs..])
    ensures Rest(bs, data[i..]) == Rest(bs, data[i + bs..])
  {
    NextBlock(data, i, bs);
  }

  lemma LastBlock<S>(f: (S, Bytes) -> S, s: S, data: Bytes, i: nat, bs: nat)
    requires 0 < bs && i <= |data| < i + bs
    ensures Fold(f, s, bs, data[i..]) == s && Rest(bs, data[i..]) == data[i..]
  {
  }

  /** The length bytes, taken off one by one with the last first. */
  method StoreBe(n: nat, k: nat) returns (bits: Bytes)
    ensures bits == Be(n, k)
  {
    bits := [];
    var t := n;
    for i := 0 to k
      invariant Be(n, k) == Be(t, k - i) + bits
    {
      BeUnfold(t, k - i);
      Assoc(Be(t / 256, k - i - 1), [ByteAt(t % 256)], bits);
      bits := [ByteAt(t % 256)] + bits;
      t := t / 256;
    }
  }

  /** The first n bytes of the constant padding block. */
  function Padding(n: nat): Bytes
    requires n > 0
  {
    [0x80] + Zeros(n - 1)
  }

  /** A message given in pieces. */
  function Joined(chunks: seq<Bytes>): Bytes {
    if chunks == [] then [] else chunks[0] + Joined(chunks[1..])
  }

  lemma {:induction false} JoinedSnoc(chunks: seq<Bytes>, i: nat)
    requires i < |chunks|
    ensures Joined(chunks[..i + 1]) == Joined(chunks[..i]) + chunks[i]
    decreases i
  {
    if i == 0 {
      assert chunks[..1][1..] == [];
    } else {
      assert chunks[..i + 1][1..] == chunks[1..][..i];
      assert chunks[..i][1..] == chunks[1..][..i - 1];
      JoinedSnoc(chunks[1..], i - 1);
    }
  }
}
