/** The block-mode driver of cipher.c: crypt, cbc_process, ecb_process and their entry points.

    A block function reads its whole input block before it writes its output block, so it may be given the
    same buffer twice. */
module Cipher {
  import opened BlockModes
  import opened Scatterwalk
  import opened Overlap
  import opened Wrappers

  /** The bytes a block pointer refers to. */
  function Peek(b: Buf, m: array<bv8>, scratch: array<bv8>): Bytes
    requires b.OnPage? ==> b.addr + scratch.Length <= m.Length
    reads m, scratch
  {
    if b.Scratch? then scratch[..] else m[b.addr..b.addr + scratch.Length]
  }

  function Overwrite(m: Bytes, at: nat, b: Bytes): (r: Bytes)
    requires at + |b| <= |m|
    ensures |r| == |m|
  {
    m[..at] + b + m[at + |b|..]
  }

  method CopyInto(a: array<bv8>, at: nat, b: Bytes)
    requires at + |b| <= a.Length
    modifies a
    ensures a[..] == Overwrite(old(a[..]), at, b)
  {
    for i := 0 to |b|
      invariant forall j :: 0 <= j < a.Length ==> a[j] == if at <= j < at + i then b[j - at] else old(a[j])
    {
      a[at + i] := b[i];
    }
  }

  /** Storing a block through a block pointer. */
  method Poke(b: Buf, m: array<bv8>, scratch: array<bv8>, block: Bytes)
    requires m != scratch && |block| == scratch.Length
    requires b.OnPage? ==> b.addr + |block| <= m.Length
    modifies m, scratch
    ensures b.Scratch? ==> scratch[..] == block && m[..] == old(m[..])
    ensures b.OnPage? ==> scratch[..] == old(scratch[..]) && m[..] == Overwrite(old(m[..]), b.addr, block)
  {
    if b.Scratch? {
      CopyInto(scratch, 0, block);
    } else {
      CopyInto(m, b.addr, block);
    }
  }

  /** xor_64 and xor_128: the second operand is folded into the first. */
  method XorBlock(a: array<bv8>, b: Bytes)
    requires a.Length == |b|
    modifies a
    ensures a[..] == Xor(old(a[..]), b)
  {
    for i := 0 to |b|
      invariant forall j :: 0 <= j < i ==> a[j] == old(a[j]) ^ b[j]
      invariant forall j :: i <= j < |b| ==> a[j] == old(a[j])
    {
      a[i] := a[i] ^ b[i];
    }
  }

  /** A block went through in the given mode: output block, chaining value, and nothing else.  Decrypting with
      both buffers in memory and the sharing not noticed, the chaining value is what the source buffer holds
      after the plaintext was stored. */
  twostate predicate Processed(mode: Mode, fn: BlockFn, m: array<bv8>, tmpDst: array<bv8>, dst: Buf, src: Buf,
                               iv: array<bv8>, block: Bytes, inPlace: bool)
    reads m, tmpDst, iv
  {
    var step := OneBlock(mode, fn, old(iv[..]), block);
    && (dst.Scratch? ==> tmpDst[..] == step.0 && m[..] == old(m[..]))
    && (dst.OnPage? ==> dst.addr + |step.0| <= m.Length && tmpDst[..] == old(tmpDst[..])
                        && m[..] == Overwrite(old(m[..]), dst.addr, step.0))
    && (src.OnPage? ==> src.addr + iv.Length <= m.Length)
    && iv[..] == if mode.CbcDecrypt? && src.OnPage? && dst.OnPage? && !inPlace
                 then m[src.addr..src.addr + iv.Length] else step.1
  }

  /** cbc_process, encrypting */
  method CbcEncryptProcess(fn: BlockFn, m: array<bv8>, tmpDst: array<bv8>, tmpSrc: array<bv8>,
                           dst: Buf, src: Buf, iv: array<bv8>, inPlace: bool)
    requires m != tmpDst && m != tmpSrc && m != iv && tmpDst != tmpSrc && tmpDst != iv && tmpSrc != iv
    requires tmpDst.Length == tmpSrc.Length == iv.Length && KeepsLength(fn, iv.Length)
    requires dst.OnPage? ==> dst.addr + iv.Length <= m.Length
    requires src.OnPage? ==> src.addr + iv.Length <= m.Length
    modifies m, tmpDst, iv
    ensures Processed(CbcEncrypt, fn, m, tmpDst, dst, src, iv, old(Peek(src, m, tmpSrc)), inPlace)
  {
    hide Overwrite; hide Xor;
    XorBlock(iv, Peek(src, m, tmpSrc));
    ghost var c := fn(iv[..]);
    Poke(dst, m, tmpDst, fn(iv[..]));
    if dst.OnPage? {
      OverwriteTwice(old(m[..]), dst.addr, c, c);
      assert m[..][dst.addr..dst.addr + iv.Length] == m[dst.addr..dst.addr + iv.Length];
    }
    ghost var was := iv[..];
    CopyInto(iv, 0, Peek(dst, m, tmpDst));
    OverwriteAll(was, c);
  }

  lemma OverwriteAll(m: Bytes, b: Bytes)
    requires |b| == |m|
    ensures Overwrite(m, 0, b) == b
  {
  }

  lemma OverwriteTwice(m: Bytes, at: nat, b: Bytes, c: Bytes)
    requires at + |b| <= |m| && |b| == |c|
    ensures Overwrite(m, at, b)[at..at + |b|] == b
    ensures Overwrite(Overwrite(m, at, b), at, c) == Overwrite(m, at, c)
  {
  }

  /** The block function's output goes to the destination buffer, where the chaining value is folded in. */
  method PokeDecrypted(b: Buf, m: array<bv8>, scratch: array<bv8>, block: Bytes, iv: Bytes)
    requires m != scratch && |block| == |iv| == scratch.Length
    requires b.OnPage? ==> b.addr + |iv| <= m.Length
    modifies m, scratch
    ensures b.Scratch? ==> scratch[..] == Xor(block, iv) && m[..] == old(m[..])
    ensures b.OnPage? ==> scratch[..] == old(scratch[..]) && m[..] == Overwrite(old(m[..]), b.addr, Xor(block, iv))
  {
    Poke(b, m, scratch, block);
    if b.OnPage? {
      OverwriteTwice(old(m[..]), b.addr, block, Xor(block, iv));
    }
    Poke(b, m, scratch, Xor(Peek(b, m, scratch), iv));
  }

  /** cbc_process, decrypting through a block on the stack. */
  method CbcDecryptInPlace(fn: BlockFn, m: array<bv8>, tmpDst: array<bv8>, tmpSrc: array<bv8>,
                           dst: Buf, src: Buf, iv: array<bv8>)
    requires m != tmpDst && m != tmpSrc && m != iv && tmpDst != tmpSrc && tmpDst != iv && tmpSrc != iv
    requires tmpDst.Length == tmpSrc.Length == iv.Length && KeepsLength(fn, iv.Length)
    requires dst.OnPage? ==> dst.addr + iv.Length <= m.Length
    requires src.OnPage? ==> src.addr + iv.Length <= m.Length
    modifies m, tmpDst, iv
    ensures Processed(CbcDecrypt, fn, m, tmpDst, dst, src, iv, old(Peek(src, m, tmpSrc)), true)
  {
    hide Overwrite; hide Xor;
    var stack := Xor(fn(Peek(src, m, tmpSrc)), iv[..]);
    CopyInto(iv, 0, Peek(src, m, tmpSrc));
    OverwriteAll(old(iv[..]), Peek(src, m, tmpSrc));
    Poke(dst, m, tmpDst, stack);
  }

  /** cbc_process, decrypting in the destination buffer itself. */
  method CbcDecryptDirect(fn: BlockFn, m: array<bv8>, tmpDst: array<bv8>, tmpSrc: array<bv8>,
                          dst: Buf, src: Buf, iv: array<bv8>)
    requires m != tmpDst && m != tmpSrc && m != iv && tmpDst != tmpSrc && tmpDst != iv && tmpSrc != iv
    requires tmpDst.Length == tmpSrc.Length == iv.Length && KeepsLength(fn, iv.Length)
    requires dst.OnPage? ==> dst.addr + iv.Length <= m.Length
    requires src.OnPage? ==> src.addr + iv.Length <= m.Length
    modifies m, tmpDst, iv
    ensures Processed(CbcDecrypt, fn, m, tmpDst, dst, src, iv, old(Peek(src, m, tmpSrc)), false)
  {
    hide Overwrite; hide Xor;
    PokeDecrypted(dst, m, tmpDst, fn(Peek(src, m, tmpSrc)), iv[..]);
    if dst.Scratch? && src.OnPage? {
      assert m[..][src.addr..src.addr + iv.Length] == old(m[..])[src.addr..src.addr + iv.Length];
      assert Peek(src, m, tmpSrc) == m[..][src.addr..src.addr + iv.Length];
    }
    ghost var c := Peek(src, m, tmpSrc);
    CopyInto(iv, 0, Peek(src, m, tmpSrc));
    OverwriteAll(old(iv[..]), c);
  }

  /** cbc_process, decrypting.  The ciphertext block is read again for the next chaining value after the
      plaintext has been written, which is why the in-place case goes through a block on the stack. */
  method CbcDecryptProcess(fn: BlockFn, m: array<bv8>, tmpDst: array<bv8>, tmpSrc: array<bv8>,
                           dst: Buf, src: Buf, iv: array<bv8>, inPlace: bool)
    requires m != tmpDst && m != tmpSrc && m != iv && tmpDst != tmpSrc && tmpDst != iv && tmpSrc != iv
    requires tmpDst.Length == tmpSrc.Length == iv.Length && KeepsLength(fn, iv.Length)
    requires dst.OnPage? ==> dst.addr + iv.Length <= m.Length
    requires src.OnPage? ==> src.addr + iv.Length <= m.Length
    modifies m, tmpDst, iv
    ensures Processed(CbcDecrypt, fn, m, tmpDst, dst, src, iv, old(Peek(src, m, tmpSrc)), inPlace)
  {
    hide Overwrite; hide OneBlock;
    if inPlace {
      CbcDecryptInPlace(fn, m, tmpDst, tmpSrc, dst, src, iv);
    } else {
      CbcDecryptDirect(fn, m, tmpDst, tmpSrc, dst, src, iv);
    }
  }

  /** ecb_process */
  method EcbProcess(fn: BlockFn, m: array<bv8>, tmpDst: array<bv8>, tmpSrc: array<bv8>,
                    dst: Buf, src: Buf, iv: array<bv8>, inPlace: bool)
    requires m != tmpDst && m != tmpSrc && m != iv && tmpDst != iv && tmpDst != tmpSrc
    requires tmpDst.Length == tmpSrc.Length == iv.Length && KeepsLength(fn, iv.Length)
    requires dst.OnPage? ==> dst.addr + iv.Length <= m.Length
    requires src.OnPage? ==> src.addr + iv.Length <= m.Length
    modifies m, tmpDst
    ensures Processed(Ecb, fn, m, tmpDst, dst, src, iv, old(Peek(src, m, tmpSrc)), inPlace)
  {
    Poke(dst, m, tmpDst, fn(Peek(src, m, tmpSrc)));
  }

  /** scatterwalk_samebuf */
  predicate SameBuf(walkIn: Walk, walkOut: Walk, src: Buf, dst: Buf)
    reads walkIn, walkOut
  {
    walkIn.page == walkOut.page && walkIn.offset == walkOut.offset
    && src == OnPage(walkIn.data) && dst == OnPage(walkOut.data)
  }

  /** A page and an offset inside it are determined by the address. */
  lemma {:induction false} PageUnique(p: nat, o: nat, q: nat, r: nat, pageSize: nat)
    requires o < pageSize && r < pageSize && PageBase(p, pageSize) + o == PageBase(q, pageSize) + r
    ensures p == q && o == r
  {
    if p > 0 && q > 0 { PageUnique(p - 1, o, q - 1, r, pageSize); }
  }

  /** Where one turn of the loop of crypt leaves a cursor. */
  function Moved(list: seq<Segment>, pageSize: nat, c: Cursor, bs: nat, more: bool): Cursor
    requires 0 < pageSize
  {
    Settled(list, pageSize, Forward(list, pageSize, c, bs), more)
  }

  /** Both buffers are in memory and scatterwalk_samebuf does not take them for the same. */
  predicate Reread(cin: Cursor, cout: Cursor, pageSize: nat, bs: nat)
    requires 0 < pageSize
  {
    FitsPage(cin, pageSize, bs) && FitsPage(cout, pageSize, bs) && !(cin.page == cout.page && cin.offset == cout.offset)
  }

  /** The same, block by block, for n bytes from given cursors. */
  function RereadsFrom(src: seq<Segment>, dst: seq<Segment>, pageSize: nat, cin: Cursor, cout: Cursor, bs: nat, n: nat)
    : seq<bool>
    requires 0 < pageSize
    decreases n
  {
    if bs == 0 || n < bs then []
    else [Reread(cin, cout, pageSize, bs)]
         + RereadsFrom(src, dst, pageSize, Moved(src, pageSize, cin, bs, n != bs), Moved(dst, pageSize, cout, bs, n != bs),
                       bs, n - bs)
  }

  /** The blocks of a call in which sharing, if there is any, would not be noticed. */
  function Rereads(src: seq<Segment>, dst: seq<Segment>, pageSize: nat, bs: nat, n: nat): seq<bool>
    requires 0 < pageSize && src != [] && dst != []
  {
    RereadsFrom(src, dst, pageSize, Begin(src, pageSize, 0), Begin(dst, pageSize, 0), bs, n)
  }

  lemma MovedAhead(list: seq<Segment>, pageSize: nat, c: Cursor, bs: nat, more: bool)
    requires Stands(list, pageSize, c) && bs <= |AheadOf(list, pageSize, c)|
    requires more ==> bs < |AheadOf(list, pageSize, c)|
    ensures var d := Moved(list, pageSize, c, bs, more);
            Stands(list, pageSize, d) && AheadOf(list, pageSize, d) == AheadOf(list, pageSize, c)[bs..]
  {
    hide AheadOf; hide Forward; hide Settled; hide Stands;
    ForwardAhead(list, pageSize, c, bs);
    SettledAhead(list, pageSize, Forward(list, pageSize, c, bs), more);
  }

  lemma {:induction false} DisjointIsCompatible(mode: Mode, src: Addrs, dst: Addrs, n: nat, bs: nat, rereads: seq<bool>)
    requires 0 < bs && n <= |src| && n <= |dst| && Disjoint(dst[..n], src[..n])
    ensures Compatible(mode, src, dst, n, bs, rereads)
    decreases n
  {
    if n >= bs {
      forall k, j | 0 <= k < n && 0 <= j < n ensures dst[k] != src[j] {
        assert dst[..n][k] != src[..n][j];
      }
      DisjointIsCompatible(mode, src[bs..], dst[bs..], n - bs, bs, Rest(rereads));
    }
  }

  /** Bytes are shared at most position by position. */
  ghost predicate Aligned(src: Addrs, dst: Addrs, n: nat, bs: nat)
    requires 0 < bs && n <= |src| && n <= |dst|
    decreases n
  {
    n < bs
    || ((forall k, j :: 0 <= k < bs && 0 <= j < n && dst[k] == src[j] ==> k == j)
        && Aligned(src[bs..], dst[bs..], n - bs, bs))
  }

  lemma {:induction false} SameIsAligned(src: Addrs, dst: Addrs, n: nat, bs: nat)
    requires 0 < bs && n <= |src| && n <= |dst|
    requires Distinct(src, n) && forall k :: 0 <= k < n ==> dst[k] == src[k]
    ensures Aligned(src, dst, n, bs)
    decreases n
  {
    if n >= bs {
      SameIsAligned(src[bs..], dst[bs..], n - bs, bs);
    }
  }

  /** One and the same list: the cursors move together, so the sharing is noticed however the list is cut. */
  lemma {:induction false} SameListFrom(mode: Mode, list: seq<Segment>, pageSize: nat, c: Cursor, src: Addrs, n: nat, bs: nat)
    requires 0 < pageSize && 0 < bs && Distinct(src, n)
    ensures Compatible(mode, src, src, n, bs, RereadsFrom(list, list, pageSize, c, c, bs, n))
    decreases n
  {
    if n >= bs {
      SameListFrom(mode, list, pageSize, Moved(list, pageSize, c, bs, n != bs), src[bs..], n - bs, bs);
    }
  }

  lemma SameListIsCompatible(mode: Mode, list: seq<Segment>, pageSize: nat, n: nat, bs: nat)
    requires 0 < pageSize && 0 < bs && list != [] && Distinct(Flat(list, pageSize), n)
    ensures Compatible(mode, Flat(list, pageSize), Flat(list, pageSize), n, bs, Rereads(list, list, pageSize, bs, n))
  {
    SameListFrom(mode, list, pageSize, Begin(list, pageSize, 0), Flat(list, pageSize), n, bs);
  }

  /** In canonical lists, blocks that start at the same address are noticed. */
  lemma CanonicalNoticed(src: seq<Segment>, dst: seq<Segment>, pageSize: nat, cin: Cursor, cout: Cursor, bs: nat)
    requires Stands(src, pageSize, cin) && Canonical(src, pageSize) && Stands(dst, pageSize, cout) && Canonical(dst, pageSize)
    requires 0 < bs && Reread(cin, cout, pageSize, bs)
    ensures var a, b := AheadOf(src, pageSize, cin), AheadOf(dst, pageSize, cout);
            bs <= |a| && bs <= |b| && forall k :: 0 <= k < bs ==> b[k] != a[k]
  {
    var a, b := AheadOf(src, pageSize, cin), AheadOf(dst, pageSize, cout);
    forall k | 0 <= k < bs ensures b[k] != a[k] {
      if b[k] == a[k] {
        PageUnique(cin.page, cin.offset, cout.page, cout.offset, pageSize);
      }
    }
  }

  /** Canonical lists may share bytes position by position, however each cuts them up. */
  lemma {:induction false} CanonicalFrom(mode: Mode, src: seq<Segment>, dst: seq<Segment>, pageSize: nat, cin: Cursor,
                                         cout: Cursor, n: nat, bs: nat)
    requires Stands(src, pageSize, cin) && Canonical(src, pageSize) && Stands(dst, pageSize, cout) && Canonical(dst, pageSize)
    requires 0 < bs && n <= |AheadOf(src, pageSize, cin)| && n <= |AheadOf(dst, pageSize, cout)|
    requires Aligned(AheadOf(src, pageSize, cin), AheadOf(dst, pageSize, cout), n, bs)
    ensures Compatible(mode, AheadOf(src, pageSize, cin), AheadOf(dst, pageSize, cout), n, bs,
                       RereadsFrom(src, dst, pageSize, cin, cout, bs, n))
    decreases n
  {
    hide AheadOf; hide Reread; hide Moved;
    if n >= bs {
      MovedAhead(src, pageSize, cin, bs, n != bs);
      MovedAhead(dst, pageSize, cout, bs, n != bs);
      if Reread(cin, cout, pageSize, bs) {
        CanonicalNoticed(src, dst, pageSize, cin, cout, bs);
      }
      CanonicalFrom(mode, src, dst, pageSize, Moved(src, pageSize, cin, bs, n != bs),
                    Moved(dst, pageSize, cout, bs, n != bs), n - bs, bs);
    }
  }

  lemma CanonicalIsCompatible(mode: Mode, src: seq<Segment>, dst: seq<Segment>, pageSize: nat, n: nat, bs: nat)
    requires 0 < pageSize && 0 < bs && src != [] && dst != []
    requires Canonical(src, pageSize) && Canonical(dst, pageSize)
    requires n <= |Flat(src, pageSize)| && n <= |Flat(dst, pageSize)|
    requires Aligned(Flat(src, pageSize), Flat(dst, pageSize), n, bs)
    ensures Compatible(mode, Flat(src, pageSize), Flat(dst, pageSize), n, bs, Rereads(src, dst, pageSize, bs, n))
  {
    BeginAhead(src, pageSize, 0);
    BeginAhead(dst, pageSize, 0);
    assert src[0..] == src && dst[0..] == dst;
    CanonicalFrom(mode, src, dst, pageSize, Begin(src, pageSize, 0), Begin(dst, pageSize, 0), n, bs);
  }

  /** So the same bytes in the same order are compatible. */
  lemma SameIsCompatible(mode: Mode, src: seq<Segment>, dst: seq<Segment>, pageSize: nat, n: nat, bs: nat)
    requires 0 < pageSize && 0 < bs && src != [] && dst != []
    requires Canonical(src, pageSize) && Canonical(dst, pageSize)
    requires Flat(src, pageSize) == Flat(dst, pageSize) && Distinct(Flat(src, pageSize), n)
    ensures Compatible(mode, Flat(src, pageSize), Flat(dst, pageSize), n, bs, Rereads(src, dst, pageSize, bs, n))
  {
    hide Flat; hide Rereads; hide Compatible; hide Aligned; hide Canonical;
    SameIsAligned(Flat(src, pageSize), Flat(dst, pageSize), n, bs);
    CanonicalIsCompatible(mode, src, dst, pageSize, n, bs);
  }

  lemma {:induction false} OverwriteIsScatter(m: Bytes, a: Addrs, b: Bytes, at: nat, n: nat)
    requires n <= |b| && at + n <= |m| && n <= |a| && forall i :: 0 <= i < n ==> a[i] == at + i
    ensures Overwrite(m, at, b[..n]) == Scatter(m, a, b, n)
  {
    if n != 0 {
      OverwriteIsScatter(m, a, b, at, n - 1);
      assert Overwrite(m, at, b[..n]) == Overwrite(m, at, b[..n - 1])[at + n - 1 := b[n - 1]];
    }
  }

  /** Through either kind of pointer, the block behind the cursor is the next bs bytes of the walk. */
  lemma PeekIsGather(m: Bytes, a: Addrs, at: nat, bs: nat)
    requires InBounds(a, bs, |m|) && at + bs <= |m| && forall i :: 0 <= i < bs ==> a[i] == at + i
    ensures m[at..at + bs] == Gather(m, a[..bs])
  {
  }

  /** A pointer to the next n bytes of a walk: in place only if they are contiguous in memory. */
  ghost predicate PointsAhead(b: Buf, walk: Walk, n: nat, size: nat)
    requires walk.Valid()
    reads walk
  {
    && walk.data == PageBase(walk.page, walk.pageSize) + walk.offset
    && b == (if FitsPage(walk.At(), walk.pageSize, n) then OnPage(walk.data) else Scratch)
    && InBounds(walk.Ahead(), n, size)
    && (b.OnPage? ==> n <= walk.lenThisPage && b.addr + n <= size
                      && forall i :: 0 <= i < n ==> walk.Ahead()[i] == b.addr + i)
  }

  method Locate(walk: Walk, n: nat, size: nat) returns (b: Buf)
    requires walk.Valid() && 0 < n && InBounds(walk.Ahead(), n, size)
    modifies walk`data
    ensures walk.Valid() && walk.Ahead() == old(walk.Ahead()) && PointsAhead(b, walk, n, size)
  {
    walk.Map();
    b := walk.WhichBuf(n);
    assert b.OnPage? ==> walk.Ahead()[n - 1] == walk.data + n - 1;
  }

  /** scatterwalk_whichbuf on both walks, and scatterwalk_samebuf. */
  method Choose(walkIn: Walk, walkOut: Walk, bs: nat, size: nat) returns (src: Buf, dst: Buf, inPlace: bool)
    requires walkIn != walkOut && walkIn.Valid() && walkOut.Valid() && walkIn.pageSize == walkOut.pageSize
    requires 0 < bs && InBounds(walkIn.Ahead(), bs, size) && InBounds(walkOut.Ahead(), bs, size)
    modifies walkIn`data, walkOut`data
    ensures walkIn.Valid() && walkIn.Ahead() == old(walkIn.Ahead()) && PointsAhead(src, walkIn, bs, size)
    ensures walkOut.Valid() && walkOut.Ahead() == old(walkOut.Ahead()) && PointsAhead(dst, walkOut, bs, size)
    ensures src.OnPage? && dst.OnPage? && !inPlace <==> Reread(walkIn.At(), walkOut.At(), walkIn.pageSize, bs)
  {
    src := Locate(walkIn, bs, size);
    dst := Locate(walkOut, bs, size);
    inPlace := SameBuf(walkIn, walkOut, src, dst);
  }

  /** scatterwalk_copychunks inwards and the mode's block function. */
  method FetchAndProcess(mode: Mode, fn: BlockFn, m: array<bv8>, walkIn: Walk, tmpSrc: array<bv8>,
                         tmpDst: array<bv8>, dst: Buf, src: Buf, iv: array<bv8>, inPlace: bool)
    requires walkIn.Valid() && PointsAhead(src, walkIn, iv.Length, m.Length)
    requires m != tmpDst && m != tmpSrc && m != iv && tmpDst != tmpSrc && tmpDst != iv && tmpSrc != iv
    requires iv.Length == tmpDst.Length == tmpSrc.Length && KeepsLength(fn, iv.Length)
    requires dst.OnPage? ==> dst.addr + iv.Length <= m.Length
    modifies m, walkIn, tmpSrc, tmpDst, iv
    ensures walkIn.Valid() && walkIn.At() == Forward(walkIn.list, walkIn.pageSize, old(walkIn.At()), iv.Length)
    ensures walkIn.Ahead() == old(walkIn.Ahead())[iv.Length..]
    ensures Processed(mode, fn, m, tmpDst, dst, src, iv, Gather(old(m[..]), old(walkIn.Ahead())[..iv.Length]), inPlace)
  {
    hide Forward; hide FitsPage; hide AheadOf; hide Overwrite; hide OneBlock; hide Stretch; hide PageBase;
    ghost var inA := walkIn.Ahead();
    walkIn.CopyIn(m, src, tmpSrc, iv.Length);
    if src.OnPage? {
      PeekIsGather(m[..], inA, src.addr, iv.Length);
      assert m[..][src.addr..src.addr + iv.Length] == Peek(src, m, tmpSrc);
    }
    assert Peek(src, m, tmpSrc) == Gather(m[..], inA[..iv.Length]);
    match mode {
      case Ecb => EcbProcess(fn, m, tmpDst, tmpSrc, dst, src, iv, inPlace);
      case CbcEncrypt => CbcEncryptProcess(fn, m, tmpDst, tmpSrc, dst, src, iv, inPlace);
      case CbcDecrypt => CbcDecryptProcess(fn, m, tmpDst, tmpSrc, dst, src, iv, inPlace);
    }
  }

  /** The first half of a turn: the output block is in memory, or in the scratch block. */
  twostate predicate Fetched(mode: Mode, fn: BlockFn, m: array<bv8>, tmpDst: array<bv8>, iv: array<bv8>, dst: Buf,
                             inA: Addrs, outA: Addrs, reread: bool)
    requires iv.Length <= |inA| && iv.Length <= |outA|
    reads m, tmpDst, iv
  {
    var step := OneBlock(mode, fn, old(iv[..]), Gather(old(m[..]), inA[..iv.Length]));
    && |step.0| == iv.Length
    && (dst.Scratch? ==> !reread && tmpDst[..] == step.0 && m[..] == old(m[..]))
    && (dst.OnPage? ==> m[..] == Scatter(old(m[..]), outA, step.0, iv.Length))
    && iv[..] == if mode.CbcDecrypt? && reread then Gather(m[..], inA[..iv.Length]) else step.1
  }

  /** Map, choose buffers, copy in, process. */
  method FetchTurn(mode: Mode, fn: BlockFn, m: array<bv8>, walkIn: Walk, walkOut: Walk,
                   tmpSrc: array<bv8>, tmpDst: array<bv8>, iv: array<bv8>) returns (dst: Buf)
    requires walkIn != walkOut && walkIn.Valid() && walkOut.Valid() && walkIn.pageSize == walkOut.pageSize
    requires m != tmpDst && m != tmpSrc && m != iv && tmpDst != tmpSrc && tmpDst != iv && tmpSrc != iv
    requires 0 < iv.Length == tmpDst.Length == tmpSrc.Length && KeepsLength(fn, iv.Length)
    requires InBounds(walkIn.Ahead(), iv.Length, m.Length) && InBounds(walkOut.Ahead(), iv.Length, m.Length)
    modifies m, walkIn, walkOut`data, tmpSrc, tmpDst, iv
    ensures walkIn.Valid() && walkIn.At() == Forward(walkIn.list, walkIn.pageSize, old(walkIn.At()), iv.Length)
    ensures walkIn.Ahead() == old(walkIn.Ahead())[iv.Length..]
    ensures walkOut.Valid() && walkOut.Ahead() == old(walkOut.Ahead()) && PointsAhead(dst, walkOut, iv.Length, m.Length)
    ensures Fetched(mode, fn, m, tmpDst, iv, dst, old(walkIn.Ahead()), old(walkOut.Ahead()),
                    Reread(old(walkIn.At()), old(walkOut.At()), walkIn.pageSize, iv.Length))
  {
    hide Scatter; hide PageBase; hide Overwrite; hide Forward; hide AheadOf; hide FitsPage; hide OneBlock; hide Reread;
    var bs := iv.Length;
    ghost var inA, outA, m0 := walkIn.Ahead(), walkOut.Ahead(), m[..];
    var src, inPlace;
    src, dst, inPlace := Choose(walkIn, walkOut, bs, m.Length);
    FetchAndProcess(mode, fn, m, walkIn, tmpSrc, tmpDst, dst, src, iv, inPlace);
    ghost var out := OneBlock(mode, fn, old(iv[..]), Gather(m0, inA[..bs])).0;
    StepLength(mode, fn, old(iv[..]), Gather(m0, inA[..bs]), bs);
    if dst.OnPage? {
      OverwriteIsScatter(m0, outA, out, dst.addr, bs);
      assert out[..bs] == out;
      if src.OnPage? {
        PeekIsGather(m[..], inA, src.addr, bs);
        assert m[..][src.addr..src.addr + bs] == m[src.addr..src.addr + bs];
      }
    }
  }

  /** One turn of the loop in crypt: map, choose buffers, copy in, process, copy out, move on. */
  method CryptBlock(mode: Mode, fn: BlockFn, m: array<bv8>, walkIn: Walk, walkOut: Walk,
                    tmpSrc: array<bv8>, tmpDst: array<bv8>, iv: array<bv8>, more: bool)
    requires walkIn != walkOut && walkIn.Valid() && walkOut.Valid() && walkIn.pageSize == walkOut.pageSize
    requires m != tmpDst && m != tmpSrc && m != iv && tmpDst != tmpSrc && tmpDst != iv && tmpSrc != iv
    requires 0 < iv.Length == tmpDst.Length == tmpSrc.Length && KeepsLength(fn, iv.Length)
    requires InBounds(walkIn.Ahead(), iv.Length, m.Length) && InBounds(walkOut.Ahead(), iv.Length, m.Length)
    requires more ==> iv.Length < |walkIn.Ahead()| && iv.Length < |walkOut.Ahead()|
    modifies m, walkIn, walkOut, tmpSrc, tmpDst, iv
    ensures walkIn.Valid() && walkIn.At() == Moved(walkIn.list, walkIn.pageSize, old(walkIn.At()), iv.Length, more)
    ensures walkOut.Valid() && walkOut.At() == Moved(walkOut.list, walkOut.pageSize, old(walkOut.At()), iv.Length, more)
    ensures walkIn.Ahead() == old(walkIn.Ahead())[iv.Length..] && walkOut.Ahead() == old(walkOut.Ahead())[iv.Length..]
    ensures (m[..], iv[..])
         == Turned(mode, fn, iv.Length, old(m[..]), old(iv[..]), old(walkIn.Ahead()), old(walkOut.Ahead()),
                   Reread(old(walkIn.At()), old(walkOut.At()), walkIn.pageSize, iv.Length))
  {
    hide Scatter; hide PageBase; hide Forward; hide AheadOf; hide FitsPage; hide Settled; hide OneBlock; hide Gather;
    hide Reread; hide KeepsLength;
    var dst := FetchTurn(mode, fn, m, walkIn, walkOut, tmpSrc, tmpDst, iv);
    walkIn.Done(more);
    walkOut.CopyOut(m, dst, tmpDst, iv.Length);
    walkOut.Done(more);
  }

  lemma StepLength(mode: Mode, fn: BlockFn, iv: Bytes, block: Bytes, bs: nat)
    requires KeepsLength(fn, bs) && |iv| == |block| == bs
    ensures var step := OneBlock(mode, fn, iv, block); |step.0| == |step.1| == bs
  {
  }

  /** What each entry point asks of its lists. */
  ghost predicate Accepts(dst: seq<Segment>, src: seq<Segment>, nbytes: nat, size: nat, pageSize: nat) {
    && 0 < pageSize
    && AllWalkable(src, pageSize) && AllWalkable(dst, pageSize)
    && InBounds(Flat(src, pageSize), nbytes, size) && InBounds(Flat(dst, pageSize), nbytes, size)
  }

  /** What a call computes, whatever the two lists share. */
  ghost function Computed(mode: Mode, fn: BlockFn, bs: nat, m: Bytes, iv: Bytes, dst: seq<Segment>, src: seq<Segment>,
                          n: nat, pageSize: nat): (Bytes, Bytes)
    requires Accepts(dst, src, n, |m|, pageSize)
  {
    if n == 0 then (m, iv)
    else
      FlatNone(src, pageSize); FlatNone(dst, pageSize);
      Interleaved(mode, fn, bs, m, iv, Flat(src, pageSize), Flat(dst, pageSize), n, Rereads(src, dst, pageSize, bs, n))
  }

  /** The lists may be used together: either nothing is to be done, or they share bytes compatibly. */
  ghost predicate Shares(mode: Mode, dst: seq<Segment>, src: seq<Segment>, n: nat, bs: nat, size: nat, pageSize: nat)
    requires Accepts(dst, src, n, size, pageSize)
  {
    n == 0 || (
      FlatNone(src, pageSize); FlatNone(dst, pageSize);
      0 < bs && Compatible(mode, Flat(src, pageSize), Flat(dst, pageSize), n, bs, Rereads(src, dst, pageSize, bs, n)))
  }

  /** The mode over the flattened source went to the flattened destination, and the chaining value was carried. */
  twostate predicate Did(mode: Mode, fn: BlockFn, m: array<bv8>, iv: array<bv8>, src: Addrs, dst: Addrs, n: nat)
    requires n <= |src| && n <= |dst|
    reads m, iv
  {
    (m[..], iv[..]) == Flattened(mode, fn, iv.Length, old(m[..]), old(iv[..]), src, dst, n)
  }

  /** crypt.  Given lists it can walk, it does the mode over the flattened source laid over the flattened
      destination whenever they share bytes compatibly, and a known thing in every other case. */
  method Crypt(mode: Mode, fn: BlockFn, m: array<bv8>, dst: seq<Segment>, src: seq<Segment>, nbytes: nat,
               iv: array<bv8>, pageSize: nat) returns (err: int)
    requires 0 < iv.Length && m != iv && KeepsLength(fn, iv.Length) && Accepts(dst, src, nbytes, m.Length, pageSize)
    modifies m, iv
    ensures err == if nbytes % iv.Length == 0 then 0 else -EINVAL
    ensures err != 0 ==> m[..] == old(m[..]) && iv[..] == old(iv[..])
    ensures err == 0 ==> (m[..], iv[..]) == Computed(mode, fn, iv.Length, old(m[..]), old(iv[..]), dst, src, nbytes, pageSize)
    ensures err == 0 && Shares(mode, dst, src, nbytes, iv.Length, m.Length, pageSize)
            ==> Did(mode, fn, m, iv, Flat(src, pageSize), Flat(dst, pageSize), nbytes)
  {
    hide Interleaved; hide Flattened; hide Flat;
    var bs := iv.Length;
    WholeIsMultiple(nbytes, bs);
    if nbytes == 0 {
      NothingToDo(mode, fn, bs, m[..], iv[..], Flat(src, pageSize), Flat(dst, pageSize));
      return 0;
    }
    if nbytes % bs != 0 {
      return -EINVAL;
    }
    FlatNone(src, pageSize);
    FlatNone(dst, pageSize);
    CryptLoop(mode, fn, m, dst, src, nbytes, iv, pageSize);
    if Shares(mode, dst, src, nbytes, bs, m.Length, pageSize) {
      InterleavedIsFlat(mode, fn, bs, old(m[..]), old(iv[..]), Flat(src, pageSize), Flat(dst, pageSize), nbytes,
                        Rereads(src, dst, pageSize, bs, nbytes));
    }
    return 0;
  }

  lemma NothingToDo(mode: Mode, fn: BlockFn, bs: nat, m: Bytes, iv: Bytes, src: Addrs, dst: Addrs)
    requires 0 < bs
    ensures Flattened(mode, fn, bs, m, iv, src, dst, 0) == (m, iv)
  {
  }

  /** The loop of crypt. */
  method CryptLoop(mode: Mode, fn: BlockFn, m: array<bv8>, dst: seq<Segment>, src: seq<Segment>, nbytes: nat,
                   iv: array<bv8>, pageSize: nat)
    requires 0 < iv.Length && m != iv && KeepsLength(fn, iv.Length) && Accepts(dst, src, nbytes, m.Length, pageSize)
    requires 0 < nbytes && Whole(nbytes, iv.Length) && src != [] && dst != []
    modifies m, iv
    ensures (m[..], iv[..])
         == Interleaved(mode, fn, iv.Length, old(m[..]), old(iv[..]), Flat(src, pageSize), Flat(dst, pageSize), nbytes,
                        Rereads(src, dst, pageSize, iv.Length, nbytes))
  {
    hide Interleaved; hide RereadsFrom;
    var bs := iv.Length;
    var tmpSrc, tmpDst := new bv8[bs], new bv8[bs];
    var walkIn := new Walk(src, pageSize);
    var walkOut := new Walk(dst, pageSize);
    CryptFrom(mode, fn, m, walkIn, walkOut, tmpSrc, tmpDst, nbytes, iv);
  }

  /** The cursors stand where left more bytes can be worked on. */
  ghost predicate Ready(walkIn: Walk, walkOut: Walk, left: nat, bs: nat, size: nat)
    reads walkIn, walkOut
  {
    && walkIn.Valid() && walkOut.Valid() && walkIn.pageSize == walkOut.pageSize
    && 0 < bs && Whole(left, bs)
    && InBounds(walkIn.Ahead(), left, size) && InBounds(walkOut.Ahead(), left, size)
  }

  /** Where the run will end up from here. */
  ghost function Outcome(mode: Mode, fn: BlockFn, m: array<bv8>, iv: array<bv8>, walkIn: Walk, walkOut: Walk, left: nat)
    : (Bytes, Bytes)
    requires Ready(walkIn, walkOut, left, iv.Length, m.Length)
    reads m, iv, walkIn, walkOut
  {
    Interleaved(mode, fn, iv.Length, m[..], iv[..], walkIn.Ahead(), walkOut.Ahead(), left,
                RereadsFrom(walkIn.list, walkOut.list, walkIn.pageSize, walkIn.At(), walkOut.At(), iv.Length, left))
  }

  /** What one turn leaves to do. */
  lemma OutcomeStep(mode: Mode, fn: BlockFn, bs: nat, m: Bytes, iv: Bytes, a: Addrs, b: Addrs, n: nat,
                    src: seq<Segment>, dst: seq<Segment>, pageSize: nat, cin: Cursor, cout: Cursor)
    requires 0 < bs <= n && n <= |a| && n <= |b| && 0 < pageSize
    ensures var t := Turned(mode, fn, bs, m, iv, a, b, Reread(cin, cout, pageSize, bs));
            Interleaved(mode, fn, bs, m, iv, a, b, n, RereadsFrom(src, dst, pageSize, cin, cout, bs, n))
            == Interleaved(mode, fn, bs, t.0, t.1, a[bs..], b[bs..], n - bs,
                           RereadsFrom(src, dst, pageSize, Moved(src, pageSize, cin, bs, n != bs),
                                       Moved(dst, pageSize, cout, bs, n != bs), bs, n - bs))
  {
    hide Turned; hide Moved; hide Reread;
    var rest := RereadsFrom(src, dst, pageSize, Moved(src, pageSize, cin, bs, n != bs),
                            Moved(dst, pageSize, cout, bs, n != bs), bs, n - bs);
    var all := RereadsFrom(src, dst, pageSize, cin, cout, bs, n);
    assert all == [Reread(cin, cout, pageSize, bs)] + rest;
    assert Rest(all) == rest && First(all) == Reread(cin, cout, pageSize, bs);
  }

  method CryptTurn(mode: Mode, fn: BlockFn, m: array<bv8>, walkIn: Walk, walkOut: Walk, tmpSrc: array<bv8>,
                   tmpDst: array<bv8>, left: nat, iv: array<bv8>)
    requires walkIn != walkOut && Ready(walkIn, walkOut, left, iv.Length, m.Length) && left != 0
    requires m != tmpDst && m != tmpSrc && m != iv && tmpDst != tmpSrc && tmpDst != iv && tmpSrc != iv
    requires iv.Length == tmpDst.Length == tmpSrc.Length && KeepsLength(fn, iv.Length)
    modifies m, walkIn, walkOut, tmpSrc, tmpDst, iv
    ensures iv.Length <= left && Ready(walkIn, walkOut, left - iv.Length, iv.Length, m.Length)
    ensures Outcome(mode, fn, m, iv, walkIn, walkOut, left - iv.Length)
         == old(Outcome(mode, fn, m, iv, walkIn, walkOut, left))
  {
    hide Interleaved; hide Turned; hide RereadsFrom; hide Moved; hide Reread; hide AheadOf;
    OutcomeStep(mode, fn, iv.Length, m[..], iv[..], walkIn.Ahead(), walkOut.Ahead(), left, walkIn.list, walkOut.list,
                walkIn.pageSize, walkIn.At(), walkOut.At());
    CryptBlock(mode, fn, m, walkIn, walkOut, tmpSrc, tmpDst, iv, left != iv.Length);
  }

  lemma NothingLeft(mode: Mode, fn: BlockFn, bs: nat, m: Bytes, iv: Bytes, src: Addrs, dst: Addrs, rereads: seq<bool>)
    ensures Interleaved(mode, fn, bs, m, iv, src, dst, 0, rereads) == (m, iv)
  {
  }

  /** From given cursors, what crypt does is the interleaved run. */
  method CryptFrom(mode: Mode, fn: BlockFn, m: array<bv8>, walkIn: Walk, walkOut: Walk, tmpSrc: array<bv8>,
                   tmpDst: array<bv8>, nbytes: nat, iv: array<bv8>)
    requires walkIn != walkOut && Ready(walkIn, walkOut, nbytes, iv.Length, m.Length)
    requires m != tmpDst && m != tmpSrc && m != iv && tmpDst != tmpSrc && tmpDst != iv && tmpSrc != iv
    requires iv.Length == tmpDst.Length == tmpSrc.Length && KeepsLength(fn, iv.Length)
    modifies m, walkIn, walkOut, tmpSrc, tmpDst, iv
    ensures (m[..], iv[..]) == old(Outcome(mode, fn, m, iv, walkIn, walkOut, nbytes))
  {
    hide Interleaved; hide Whole; hide RereadsFrom;
    var left: nat := nbytes;
    ghost var goal := Outcome(mode, fn, m, iv, walkIn, walkOut, nbytes);
    while left != 0
      invariant Ready(walkIn, walkOut, left, iv.Length, m.Length)
      invariant Outcome(mode, fn, m, iv, walkIn, walkOut, left) == goal
      decreases left
    {
      CryptTurn(mode, fn, m, walkIn, walkOut, tmpSrc, tmpDst, left, iv);
      left := left - iv.Length;
    }
    NothingLeft(mode, fn, iv.Length, m[..], iv[..], walkIn.Ahead(), walkOut.Ahead(),
                RereadsFrom(walkIn.list, walkOut.list, walkIn.pageSize, walkIn.At(), walkOut.At(), iv.Length, 0));
  }

  ghost predicate Does(mode: Mode, fn: BlockFn, bs: nat, m: Bytes, iv: Bytes, dst: seq<Segment>, src: seq<Segment>,
                       n: nat, pageSize: nat)
    requires Accepts(dst, src, n, |m|, pageSize)
  {
    Computed(mode, fn, bs, m, iv, dst, src, n, pageSize)
    == Flattened(mode, fn, bs, m, iv, Flat(src, pageSize), Flat(dst, pageSize), n)
  }

  /** crypt does the mode, for every block function, chaining value and memory, if and only if the two lists share
      bytes compatibly.  The destination names no byte twice. */
  lemma CryptExactly(mode: Mode, bs: nat, dst: seq<Segment>, src: seq<Segment>, n: nat, size: nat, pageSize: nat)
    requires 0 < bs && Whole(n, bs) && Accepts(dst, src, n, size, pageSize) && Distinct(Flat(dst, pageSize), n)
    ensures Shares(mode, dst, src, n, bs, size, pageSize)
            <==> forall fn: BlockFn, iv: Bytes, m: Bytes :: KeepsLength(fn, bs) && |iv| == bs && |m| == size
                   ==> Does(mode, fn, bs, m, iv, dst, src, n, pageSize)
  {
    hide Interleaved; hide Flattened; hide Compatible; hide RereadsFrom;
    var a, b := Flat(src, pageSize), Flat(dst, pageSize);
    if n == 0 {
      forall fn: BlockFn, iv: Bytes, m: Bytes | KeepsLength(fn, bs) && |iv| == bs && |m| == size
        ensures Does(mode, fn, bs, m, iv, dst, src, n, pageSize)
      {
        NothingToDo(mode, fn, bs, m, iv, a, b);
      }
    } else {
      FlatNone(src, pageSize);
      FlatNone(dst, pageSize);
      var rereads := Rereads(src, dst, pageSize, bs, n);
      RightExactly(mode, bs, a, b, n, rereads, size);
      assert forall fn: BlockFn, iv: Bytes, m: Bytes :: |m| == size ==>
          (Does(mode, fn, bs, m, iv, dst, src, n, pageSize) <==> Right(mode, fn, bs, m, iv, a, b, n, rereads));
    }
  }

  /** Sharing does go unnoticed when a list is not canonical.  With 4096-byte pages, offset 4104 of page 0 and
      offset 8 of page 1 are the same byte, scatterwalk_samebuf sees two pages, and the chaining value left by a
      CBC decryption of one 16-byte block is the plaintext where it should be the ciphertext. */
  lemma UnnoticedAliasExample(fn: BlockFn, m: Bytes, iv: Bytes)
    requires KeepsLength(fn, 16) && |iv| == 16 && |m| == 8192
    ensures var src, dst := [Segment(0, 4104, 16)], [Segment(1, 8, 16)];
            && Accepts(dst, src, 16, |m|, 4096) && Flat(src, 4096) == Flat(dst, 4096) == Stretch(4104, 16)
            && Reread(Begin(src, 4096, 0), Begin(dst, 4096, 0), 4096, 16)
            && Computed(CbcDecrypt, fn, 16, m, iv, dst, src, 16, 4096).1 == Xor(fn(m[4104..4120]), iv)
            && Run(CbcDecrypt, fn, 16, iv, m[4104..4120]).1 == m[4104..4120]
  {
    hide Scatter; hide Interleaved; hide RereadsFrom; hide Flat; hide Reread; hide Xor; hide Begin;
    var src, dst, c := [Segment(0, 4104, 16)], [Segment(1, 8, 16)], m[4104..4120];
    ExampleLists();
    ExampleRun(fn, m, iv, Rereads(src, dst, 4096, 16, 16));
    assert c[..16] == c;
  }

  lemma ExampleLists()
    ensures var src, dst := [Segment(0, 4104, 16)], [Segment(1, 8, 16)];
            && Accepts(dst, src, 16, 8192, 4096) && Flat(src, 4096) == Flat(dst, 4096) == Stretch(4104, 16)
            && Reread(Begin(src, 4096, 0), Begin(dst, 4096, 0), 4096, 16)
            && First(RereadsFrom(src, dst, 4096, Begin(src, 4096, 0), Begin(dst, 4096, 0), 16, 16))
  {
    var src, dst := [Segment(0, 4104, 16)], [Segment(1, 8, 16)];
    assert PageBase(1, 4096) == 4096 + PageBase(0, 4096);
    assert InPage(4104, 4096) == InPage(8, 4096) == 8;
    FlatNone(src[1..], 4096);
    FlatNone(dst[1..], 4096);
    assert Flat(src, 4096) == Stretch(4104, 16);
    assert Flat(dst, 4096) == Stretch(4104, 16);
  }

  lemma ExampleRun(fn: BlockFn, m: Bytes, iv: Bytes, rereads: seq<bool>)
    requires KeepsLength(fn, 16) && |iv| == 16 && |m| == 8192 && First(rereads)
    ensures var a := Stretch(4104, 16);
            Interleaved(CbcDecrypt, fn, 16, m, iv, a, a, 16, rereads).1 == Xor(fn(m[4104..4120]), iv)
  {
    hide Scatter;
    var a, c := Stretch(4104, 16), m[4104..4120];
    assert Gather(m, a[..16]) == c;
    var p := Xor(fn(c), iv);
    GatherScattered(m, a, p, 16);
    assert p[..16] == p;
    var t := Turned(CbcDecrypt, fn, 16, m, iv, a, a, true);
    NothingLeft(CbcDecrypt, fn, 16, t.0, t.1, a[16..], a[16..], Rest(rereads));
  }

  /** What a call that does the mode leaves to be read at its destination. */
  lemma ReadBack(mode: Mode, fn: BlockFn, bs: nat, m: Bytes, iv: Bytes, src: Addrs, dst: Addrs, n: nat)
    requires 0 < bs == |iv| && Whole(n, bs) && KeepsLength(fn, bs) && n <= |src|
    requires Distinct(dst, n) && InBounds(dst, n, |m|)
    ensures var r, out := Flattened(mode, fn, bs, m, iv, src, dst, n), Run(mode, fn, bs, iv, Gather(m, src[..n]));
            |out.0| == n && |out.1| == bs && r.1 == out.1 && Gather(r.0, dst[..n]) == out.0
            && r.0 == Scatter(m, dst, out.0, n)
  {
    hide Scatter; hide Run;
    RunLength(mode, fn, bs, iv, Gather(m, src[..n]));
    var out := Run(mode, fn, bs, iv, Gather(m, src[..n])).0;
    GatherScattered(m, dst, out, n);
    assert out[..n] == out;
  }

  /** The first n bytes a list names. */
  function Text(m: Bytes, list: seq<Segment>, n: nat, pageSize: nat): Bytes {
    var a := Flat(list, pageSize);
    if n <= |a| then Gather(m, a[..n]) else []
  }

  /** Lists an encryption from the first to the second and a decryption from there to the third may use. */
  ghost predicate BackAndForth(src: seq<Segment>, mid: seq<Segment>, dst: seq<Segment>, n: nat, bs: nat, size: nat,
                               pageSize: nat)
  {
    && Accepts(mid, src, n, size, pageSize) && Accepts(dst, mid, n, size, pageSize)
    && Shares(CbcEncrypt, mid, src, n, bs, size, pageSize) && Shares(CbcDecrypt, dst, mid, n, bs, size, pageSize)
    && Distinct(Flat(mid, pageSize), n) && Distinct(Flat(dst, pageSize), n)
  }

  /** cbc_encrypt_iv into one scatterlist and cbc_decrypt_iv out of it into a third: whatever the three
      segmentations and whichever of them share memory compatibly, the text comes back. */
  method CbcThereAndBack(enc: BlockFn, dec: BlockFn, m: array<bv8>, src: seq<Segment>, mid: seq<Segment>,
                         dst: seq<Segment>, nbytes: nat, iv: array<bv8>, iv': array<bv8>, pageSize: nat)
    requires m != iv && m != iv' && iv != iv' && 0 < iv.Length == iv'.Length && iv[..] == iv'[..]
    requires KeepsLength(enc, iv.Length) && KeepsLength(dec, iv.Length) && Inverts(dec, enc, iv.Length)
    requires nbytes % iv.Length == 0 && BackAndForth(src, mid, dst, nbytes, iv.Length, m.Length, pageSize)
    modifies m, iv, iv'
    ensures Text(m[..], dst, nbytes, pageSize) == Text(old(m[..]), src, nbytes, pageSize)
    ensures iv'[..] == iv[..]
  {
    hide Run; hide Compatible; hide Flat; hide Scatter; hide Flattened; hide Computed; hide Whole; hide Gather; hide Shares;
    ghost var bs, iv0, m0 := iv.Length, iv[..], m[..];
    ghost var srcA, midA, dstA := Flat(src, pageSize), Flat(mid, pageSize), Flat(dst, pageSize);
    WholeIsMultiple(nbytes, bs);
    var err := Crypt(CbcEncrypt, enc, m, mid, src, nbytes, iv, pageSize);
    ReadBack(CbcEncrypt, enc, bs, m0, iv0, srcA, midA, nbytes);
    ghost var m1 := m[..];
    err := Crypt(CbcDecrypt, dec, m, dst, mid, nbytes, iv', pageSize);
    ReadBack(CbcDecrypt, dec, bs, m1, iv0, midA, dstA, nbytes);
    CbcRoundTrip(enc, dec, bs, iv0, Gather(m0, srcA[..nbytes]));
  }

  /** Two consecutive calls carry the chaining value: together they are one call on the concatenation. */
  method CbcTwoCalls(enc: BlockFn, m: array<bv8>, srcA: seq<Segment>, dstA: seq<Segment>, n: nat,
                     srcB: seq<Segment>, dstB: seq<Segment>, k: nat, iv: array<bv8>, pageSize: nat)
    requires m != iv && 0 < iv.Length && KeepsLength(enc, iv.Length) && n % iv.Length == 0 && k % iv.Length == 0
    requires Accepts(dstA, srcA, n, m.Length, pageSize) && Accepts(dstB, srcB, k, m.Length, pageSize)
    requires Shares(CbcEncrypt, dstA, srcA, n, iv.Length, m.Length, pageSize)
    requires Shares(CbcEncrypt, dstB, srcB, k, iv.Length, m.Length, pageSize)
    requires Distinct(Flat(dstA, pageSize), n) && Distinct(Flat(dstB, pageSize), k)
    requires forall i, j :: 0 <= i < n && 0 <= j < k
               ==> Flat(dstA, pageSize)[i] != Flat(srcB, pageSize)[j] && Flat(dstB, pageSize)[j] != Flat(dstA, pageSize)[i]
    modifies m, iv
    ensures var text := old(Gather(m[..], Flat(srcA, pageSize)[..n])) + old(Gather(m[..], Flat(srcB, pageSize)[..k]));
            (Gather(m[..], Flat(dstA, pageSize)[..n]) + Gather(m[..], Flat(dstB, pageSize)[..k]), iv[..])
            == Run(CbcEncrypt, enc, iv.Length, old(iv[..]), text)
  {
    hide Run; hide Compatible; hide Flat; hide Scatter; hide Flattened; hide Computed; hide Whole; hide Gather; hide Shares;
    ghost var bs, iv0, m0 := iv.Length, iv[..], m[..];
    ghost var a, a', b, b' := Flat(srcA, pageSize), Flat(dstA, pageSize), Flat(srcB, pageSize), Flat(dstB, pageSize);
    WholeIsMultiple(n, bs);
    WholeIsMultiple(k, bs);
    var err := Crypt(CbcEncrypt, enc, m, dstA, srcA, n, iv, pageSize);
    ReadBack(CbcEncrypt, enc, bs, m0, iv0, a, a', n);
    ghost var textA, m1, iv1 := Gather(m0, a[..n]), m[..], iv[..];
    GatherElsewhere(m0, a', Run(CbcEncrypt, enc, bs, iv0, textA).0, n, b[..k]);
    err := Crypt(CbcEncrypt, enc, m, dstB, srcB, k, iv, pageSize);
    ReadBack(CbcEncrypt, enc, bs, m1, iv1, b, b', k);
    ghost var textB := Gather(m0, b[..k]);
    GatherElsewhere(m1, b', Run(CbcEncrypt, enc, bs, iv1, textB).0, k, a'[..n]);
    RunConcat(CbcEncrypt, enc, bs, iv0, textA, textB);
  }
}
