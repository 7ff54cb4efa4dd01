/** digest.c: feeding a digest algorithm from scatterlists, page by page.

    A digest algorithm is given by its three entry points over a context of any type.  Memory is one array of
    bytes and pages are mapped linearly, as in module Scatterwalk. */
module Digest {
  import opened BlockModes
  import opened BlockStream
  import opened Scatterwalk

  /** struct digest_alg: dia_init, dia_update, the digest dia_final writes, and what it leaves behind. */
  datatype Alg<!C> = Alg(init: C, update: (C, Bytes) -> C, final: C -> Bytes, done: C -> C,
                         blockSize: nat, digestSize: nat)

  function Fed<C>(alg: Alg<C>, c: C, chunks: seq<Bytes>): C {
    if chunks == [] then c else alg.update(Fed(alg, c, chunks[..|chunks| - 1]), chunks[|chunks| - 1])
  }

  ghost predicate Short(chunks: seq<Bytes>, limit: nat) {
    forall i :: 0 <= i < |chunks| ==> |chunks[i]| < limit
  }

  /** The algorithm computes h, however a message is cut into updates shorter than limit. */
  ghost predicate Computes<C(!new)>(alg: Alg<C>, h: Bytes -> Bytes, limit: nat) {
    && (forall chunks :: Short(chunks, limit) ==> alg.final(Fed(alg, alg.init, chunks)) == h(Joined(chunks)))
    && (forall m: Bytes :: |h(m)| == alg.digestSize)
    && (forall c: C :: |alg.final(c)| == alg.digestSize)
  }

  lemma FedSnoc<C>(alg: Alg<C>, c: C, chunks: seq<Bytes>, x: Bytes)
    ensures Fed(alg, c, chunks + [x]) == alg.update(Fed(alg, c, chunks), x)
    ensures Joined(chunks + [x]) == Joined(chunks) + x
  {
    assert (chunks + [x])[..|chunks|] == chunks;
    JoinedSnoc(chunks + [x], |chunks|);
    assert (chunks + [x])[..|chunks| + 1] == chunks + [x];
  }

  lemma {:induction false} FedAppend<C>(alg: Alg<C>, c: C, xs: seq<Bytes>, ys: seq<Bytes>)
    ensures Fed(alg, c, xs + ys) == Fed(alg, Fed(alg, c, xs), ys)
    ensures Joined(xs + ys) == Joined(xs) + Joined(ys)
    decreases |ys|
  {
    if ys == [] {
      assert xs + ys == xs && Joined(xs) + [] == Joined(xs);
    } else {
      var k := |ys| - 1;
      var front, y := ys[..k], ys[k];
      assert ys == front + [y];
      assert xs + ys == (xs + front) + [y];
      FedAppend(alg, c, xs, front);
      FedSnoc(alg, c, xs + front, y);
      FedSnoc(alg, Fed(alg, c, xs), front, y);
      Assoc(Joined(xs), Joined(front), y);
    }
  }

  ghost predicate InMemory(list: seq<Segment>, pageSize: nat, size: nat) {
    forall i :: 0 <= i < |list| ==> Start(list[i], pageSize) + list[i].length <= size
  }

  ghost predicate ShortSegments(list: seq<Segment>, limit: nat) {
    forall i :: 0 <= i < |list| ==> list[i].length < limit
  }

  lemma GatherStretch(m: Bytes, a: nat, n: nat)
    requires a + n <= |m|
    ensures Gather(m, Stretch(a, n)) == m[a..a + n]
  {
  }

  /** The bytes of a list, segment by segment. */
  lemma {:induction false} GatherFlat(m: Bytes, list: seq<Segment>, pageSize: nat, i: nat)
    requires i < |list| && Start(list[i], pageSize) + list[i].length <= |m|
    ensures Gather(m, Flat(list[..i + 1], pageSize))
         == Gather(m, Flat(list[..i], pageSize)) + m[Start(list[i], pageSize)..Start(list[i], pageSize) + list[i].length]
    decreases i
  {
    var s := list[0];
    assert list[..i + 1][0] == s;
    assert list[..i + 1][1..] == list[1..][..i];
    var first := Stretch(Start(s, pageSize), s.length);
    GatherConcat(m, first, Flat(list[1..][..i], pageSize));
    if i == 0 {
      GatherStretch(m, Start(s, pageSize), s.length);
    } else {
      assert list[..i][0] == s && list[..i][1..] == list[1..][..i - 1];
      GatherConcat(m, first, Flat(list[1..][..i - 1], pageSize));
      GatherFlat(m, list[1..], pageSize, i - 1);
      assert list[1..][i - 1] == list[i];
    }
  }

  lemma GatherConcat(m: Bytes, a: Addrs, b: Addrs)
    ensures Gather(m, a + b) == Gather(m, a) + Gather(m, b)
  {
  }

  class Tfm<C(!new)> {
    const alg: Alg<C>
    const mem: array<bv8>
    const pageSize: nat
    var ctx: C

    /** Addresses and lengths fit in 32 bits. */
    ghost predicate Sized() {
      0 < pageSize < 0x1_0000_0000 && mem.Length <= 0x1_0000_0000
    }

    constructor (alg: Alg<C>, mem: array<bv8>, pageSize: nat)
      ensures this.alg == alg && this.mem == mem && this.pageSize == pageSize
    {
      this.alg, this.mem, this.pageSize, ctx := alg, mem, pageSize, alg.init;
    }

    /** init */
    method Init()
      modifies this`ctx
      ensures ctx == Fed(alg, alg.init, [])
    {
      ctx := alg.init;
    }

    /** dia_update on n bytes at an address. */
    method Feed(at: nat, n: nat, ghost was: C, ghost chunks: seq<Bytes>)
      requires at + n <= mem.Length && ctx == Fed(alg, was, chunks)
      modifies this`ctx
      ensures ctx == Fed(alg, was, chunks + [mem[at..at + n]])
      ensures Joined(chunks + [mem[at..at + n]]) == Joined(chunks) + mem[at..at + n]
    {
      FedSnoc(alg, ctx, [], mem[at..at + n]);
      FedSnoc(alg, was, chunks, mem[at..at + n]);
      ctx := alg.update(ctx, mem[at..at + n]);
    }

    /** The inner loop of update: one segment, cut at page boundaries. */
    method UpdateSegment(s: Segment, ghost limit: nat) returns (ghost chunks: seq<Bytes>)
      requires Sized() && Start(s, pageSize) + s.length <= mem.Length && s.length < limit
      modifies this`ctx
      ensures ctx == Fed(alg, old(ctx), chunks) && Short(chunks, limit)
      ensures Joined(chunks) == mem[Start(s, pageSize)..Start(s, pageSize) + s.length]
    {
      hide Fed; hide Joined; hide PageBase;
      ghost var start, was := Start(s, pageSize), ctx;
      Nothing(alg, was);
      var pg: nat, offset: nat, l: nat := s.page, s.offset, s.length;
      chunks := [];
      var going := true;
      while going
        invariant if going then PageBase(pg, pageSize) + offset + l == start + s.length else l == 0
        invariant l <= s.length && ctx == Fed(alg, was, chunks) && Short(chunks, limit)
        invariant Joined(chunks) == mem[start..start + (s.length - l)]
        decreases if going then 1 else 0, l, if offset == 0 then 0 else 1
      {
        var n;
        n, chunks := Page(pg, offset, l, start, limit, was, chunks);
        offset := 0;
        pg := pg + 1;
        l := l - n;
        going := l > 0;
      }
    }

    /** One turn of it: as many bytes as the page holds.  PAGE_SIZE - offset is unsigned. */
    method Page(pg: nat, offset: nat, l: nat, ghost start: nat, ghost limit: nat, ghost was: C, ghost fed: seq<Bytes>)
      returns (n: nat, ghost chunks: seq<Bytes>)
      requires Sized() && start <= PageBase(pg, pageSize) + offset && PageBase(pg, pageSize) + offset + l <= mem.Length
      requires l < limit && ctx == Fed(alg, was, fed) && Short(fed, limit)
      requires Joined(fed) == mem[start..PageBase(pg, pageSize) + offset]
      modifies this`ctx
      ensures n <= l && (n < l ==> PageBase(pg + 1, pageSize) == PageBase(pg, pageSize) + offset + n)
      ensures n == 0 && l > 0 ==> offset == pageSize
      ensures ctx == Fed(alg, was, chunks) && Short(chunks, limit)
      ensures Joined(chunks) == mem[start..PageBase(pg, pageSize) + offset + n]
    {
      hide Fed; hide Joined; hide PageBase;
      var room := (pageSize - offset) % 0x1_0000_0000;
      n := if l <= room then l else room;
      Room(pg, offset, l, n, pageSize, mem.Length);
      var at := PageBase(pg, pageSize) + offset;
      Feed(at, n, was, fed);
      chunks := fed + [mem[at..at + n]];
      Extend(mem[..], start, at, n);
    }

    /** update: the bytes fed are exactly the bytes of the list, whatever the pages. */
    method Update(list: seq<Segment>, ghost limit: nat) returns (ghost chunks: seq<Bytes>)
      requires Sized() && InMemory(list, pageSize, mem.Length) && ShortSegments(list, limit)
      modifies this`ctx
      ensures ctx == Fed(alg, old(ctx), chunks) && Short(chunks, limit)
      ensures Joined(chunks) == Gather(mem[..], Flat(list, pageSize))
    {
      hide Fed; hide Joined; hide Flat; hide Gather;
      ghost var was := ctx;
      chunks := [];
      EmptyList(alg, was, mem[..], list, pageSize);
      for i := 0 to |list|
        invariant ctx == Fed(alg, was, chunks) && Short(chunks, limit)
        invariant Joined(chunks) == Gather(mem[..], Flat(list[..i], pageSize))
      {
        ghost var more := UpdateSegment(list[i], limit);
        FedAppend(alg, was, chunks, more);
        GatherFlat(mem[..], list, pageSize, i);
        SliceOfArray(mem, Start(list[i], pageSize), list[i].length);
        chunks := chunks + more;
      }
      assert list[..|list|] == list;
    }

    /** digest: each segment is fed in one piece, and the digest returned. */
    method Digest(list: seq<Segment>, ghost limit: nat, ghost h: Bytes -> Bytes) returns (out: Bytes)
      requires Sized() && InMemory(list, pageSize, mem.Length) && ShortSegments(list, limit)
      modifies this`ctx
      ensures Computes(alg, h, limit) ==> out == h(Gather(mem[..], Flat(list, pageSize)))
    {
      hide Flat; hide Gather;
      Init();
      ghost var chunks := [];
      EmptyList(alg, alg.init, mem[..], list, pageSize);
      hide Fed; hide Joined;
      for i := 0 to |list|
        invariant ctx == Fed(alg, alg.init, chunks) && Short(chunks, limit)
        invariant Joined(chunks) == Gather(mem[..], Flat(list[..i], pageSize))
      {
        var at := Start(list[i], pageSize);
        Feed(at, list[i].length, alg.init, chunks);
        GatherFlat(mem[..], list, pageSize, i);
        SliceOfArray(mem, at, list[i].length);
        chunks := chunks + [mem[at..at + list[i].length]];
      }
      assert list[..|list|] == list;
      out := Final();
    }

    /** final */
    method Final() returns (out: Bytes)
      modifies this`ctx
      ensures out == alg.final(old(ctx)) && ctx == alg.done(old(ctx))
    {
      out := alg.final(ctx);
      ctx := alg.done(ctx);
    }
  }

  lemma Nothing<C>(alg: Alg<C>, c: C)
    ensures Fed(alg, c, []) == c && Joined([]) == []
  {
  }

  lemma EmptyList<C>(alg: Alg<C>, c: C, m: Bytes, list: seq<Segment>, pageSize: nat)
    ensures Fed(alg, c, []) == c && Joined([]) == Gather(m, Flat(list[..0], pageSize))
  {
  }

  lemma SliceOfArray(m: array<bv8>, a: nat, n: nat)
    requires a + n <= m.Length
    ensures m[a..a + n] == m[..][a..a + n]
  {
  }

  lemma Extend(m: Bytes, start: nat, at: nat, n: nat)
    requires start <= at && at + n <= |m|
    ensures m[start..at] + m[at..at + n] == m[start..at + n]
  {
  }

  /** Where one turn of the page loop leaves off, for every offset: inside the page, at its end or past it. */
  lemma Room(pg: nat, offset: nat, l: nat, n: nat, pageSize: nat, size: nat)
    requires 0 < pageSize < 0x1_0000_0000 && size <= 0x1_0000_0000
    requires PageBase(pg, pageSize) + offset + l <= size
    requires n == if l <= (pageSize - offset) % 0x1_0000_0000 then l else (pageSize - offset) % 0x1_0000_0000
    ensures n <= l
    ensures n < l ==> PageBase(pg + 1, pageSize) == PageBase(pg, pageSize) + offset + n
    ensures n == 0 && l > 0 ==> offset == pageSize
  {
  }

  // ---- The block-buffering digests are such algorithms. ----

  datatype Stream<S> = Stream(state: S, rest: Bytes, total: nat)

  function StreamOf<S>(f: (S, Bytes) -> S, s: S, bs: nat, m: Bytes): Stream<S> {
    Stream(Fold(f, s, bs, m), Rest(bs, m), |m|)
  }

  /** What the update methods of the hash contexts do, as a function of blocks of bs bytes; seal stands for the final
      step, and blockSize is what the algorithm declares. */
  function StreamAlg<S(!new)>(f: (S, Bytes) -> S, s: S, bs: nat, seal: Stream<S> -> Bytes, blockSize: nat, digestSize: nat)
    : Alg<Stream<S>>
  {
    Alg(Stream(s, [], 0),
        (c: Stream<S>, d: Bytes) => Stream(Fold(f, c.state, bs, c.rest + d), Rest(bs, c.rest + d), c.total + |d|),
        seal, (c: Stream<S>) => c, blockSize, digestSize)
  }

  /** An update takes the stream of a message to the stream of the longer message. */
  lemma StreamUpdate<S(!new)>(f: (S, Bytes) -> S, s: S, bs: nat, seal: Stream<S> -> Bytes, blockSize: nat, digestSize: nat,
                              m: Bytes, d: Bytes)
    requires bs > 0
    ensures StreamAlg(f, s, bs, seal, blockSize, digestSize).update(StreamOf(f, s, bs, m), d) == StreamOf(f, s, bs, m + d)
  {
    hide Fold; hide Rest;
    FoldAppend(f, s, bs, m, d);
  }

  lemma {:induction false} StreamFed<S(!new)>(f: (S, Bytes) -> S, s: S, bs: nat, seal: Stream<S> -> Bytes, blockSize: nat,
                                              digestSize: nat, chunks: seq<Bytes>)
    requires bs > 0
    ensures var alg := StreamAlg(f, s, bs, seal, blockSize, digestSize);
      Fed(alg, alg.init, chunks) == StreamOf(f, s, bs, Joined(chunks))
  {
    var alg := StreamAlg(f, s, bs, seal, blockSize, digestSize);
    if chunks != [] {
      var k := |chunks| - 1;
      StreamFed(f, s, bs, seal, blockSize, digestSize, chunks[..k]);
      JoinedSnoc(chunks, k);
      assert chunks[..k + 1] == chunks;
      StreamUpdate(f, s, bs, seal, blockSize, digestSize, Joined(chunks[..k]), chunks[k]);
    }
  }

  function Streamed<S>(f: (S, Bytes) -> S, s: S, bs: nat, seal: Stream<S> -> Bytes): Bytes -> Bytes {
    m => seal(StreamOf(f, s, bs, m))
  }

  /** So every block-buffering digest computes a function of the message, whatever the limit on updates. */
  lemma StreamComputes<S(!new)>(f: (S, Bytes) -> S, s: S, bs: nat, seal: Stream<S> -> Bytes, blockSize: nat, digestSize: nat,
                                limit: nat)
    requires bs > 0 && forall c :: |seal(c)| == digestSize
    ensures Computes(StreamAlg(f, s, bs, seal, blockSize, digestSize), Streamed(f, s, bs, seal), limit)
  {
    var alg := StreamAlg(f, s, bs, seal, blockSize, digestSize);
    var h := Streamed(f, s, bs, seal);
    forall chunks | Short(chunks, limit) ensures alg.final(Fed(alg, alg.init, chunks)) == h(Joined(chunks)) {
      StreamFed(f, s, bs, seal, blockSize, digestSize, chunks);
    }
    forall m: Bytes ensures |h(m)| == alg.digestSize {
      assert |seal(StreamOf(f, s, bs, m))| == digestSize;
    }
    forall c: Stream<S> ensures |alg.final(c)| == alg.digestSize {
      assert |seal(c)| == digestSize;
    }
  }

  /** A final step that appends what depends on the length, hashes the rest and encodes the state. */
  function Finish<S>(f: (S, Bytes) -> S, bs: nat, tail: nat -> Bytes, encode: S -> Bytes, c: Stream<S>): Bytes {
    encode(Fold(f, c.state, bs, c.rest + tail(c.total)))
  }

  function Seal<S>(f: (S, Bytes) -> S, bs: nat, tail: nat -> Bytes, encode: S -> Bytes): Stream<S> -> Bytes {
    (c: Stream<S>) => Finish(f, bs, tail, encode, c)
  }

  /** A digest that pads the message by its length, hashes the whole and encodes the state. */
  function PaddedAlg<S(!new)>(f: (S, Bytes) -> S, s: S, bs: nat, tail: nat -> Bytes, encode: S -> Bytes, blockSize: nat,
                              digestSize: nat): Alg<Stream<S>>
  {
    StreamAlg(f, s, bs, Seal(f, bs, tail, encode), blockSize, digestSize)
  }

  lemma SealSize<S(!new)>(f: (S, Bytes) -> S, bs: nat, tail: nat -> Bytes, encode: S -> Bytes, digestSize: nat)
    requires forall x: S :: |encode(x)| == digestSize
    ensures forall c: Stream<S> :: |Seal(f, bs, tail, encode)(c)| == digestSize
  {
    forall c: Stream<S> ensures |Seal(f, bs, tail, encode)(c)| == digestSize {
      assert |Finish(f, bs, tail, encode, c)| == digestSize;
    }
  }

  lemma SealedHash<S(!new)>(f: (S, Bytes) -> S, s: S, bs: nat, tail: nat -> Bytes, encode: S -> Bytes, m: Bytes)
    requires bs > 0
    ensures Seal(f, bs, tail, encode)(StreamOf(f, s, bs, m)) == encode(Fold(f, s, bs, m + tail(|m|)))
  {
    hide Fold; hide Rest;
    FoldAppend(f, s, bs, m, tail(|m|));
    assert Finish(f, bs, tail, encode, StreamOf(f, s, bs, m)) == encode(Fold(f, s, bs, m + tail(|m|)));
    hide Finish; hide StreamOf;
  }

  lemma SameHash<C(!new)>(alg: Alg<C>, g: Bytes -> Bytes, h: Bytes -> Bytes, limit: nat)
    requires Computes(alg, g, limit) && forall m: Bytes :: g(m) == h(m)
    ensures Computes(alg, h, limit)
  {
    hide Fed; hide Joined;
  }

  /** It computes the hash of the padded message, whatever block size it declares. */
  lemma PaddedComputes<S(!new)>(f: (S, Bytes) -> S, s: S, bs: nat, tail: nat -> Bytes, encode: S -> Bytes, blockSize: nat,
                                digestSize: nat, h: Bytes -> Bytes, limit: nat)
    requires bs > 0 && forall x: S :: |encode(x)| == digestSize
    requires forall m: Bytes :: h(m) == encode(Fold(f, s, bs, m + tail(|m|)))
    ensures Computes(PaddedAlg(f, s, bs, tail, encode, blockSize, digestSize), h, limit)
  {
    hide Computes; hide StreamAlg; hide Seal; hide Fold; hide StreamOf;
    SealSize(f, bs, tail, encode, digestSize);
    StreamComputes(f, s, bs, Seal(f, bs, tail, encode), blockSize, digestSize, limit);
    forall m: Bytes ensures Streamed(f, s, bs, Seal(f, bs, tail, encode))(m) == h(m) {
      SealedHash(f, s, bs, tail, encode, m);
    }
    SameHash(PaddedAlg(f, s, bs, tail, encode, blockSize, digestSize), Streamed(f, s, bs, Seal(f, bs, tail, encode)), h, limit);
  }

  /** What SHA-1 and SHA-256 append to n bytes. */
  function Tail64(n: nat): Bytes { Pad(n, 64, 56) + Be(8 * n, 8) }

  /** What SHA-384 and SHA-512 append. */
  function Tail128(n: nat): Bytes { Pad(n, 128, 112) + Be(8 * n, 16) }
}
