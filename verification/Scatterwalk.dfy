/** The scatterlist cursor of scatterwalk.c and scatterwalk.h.

    Memory is one array of bytes.  Mapping page p and adding offset o gives address p * pageSize + o
    (the linear mapping of low memory). */
module Scatterwalk {
  import opened BlockModes

  /** struct scatterlist */
  datatype Segment = Segment(page: nat, offset: nat, length: nat)

  type Addrs = seq<nat>

  /** n consecutive addresses. */
  function Stretch(start: nat, n: nat): (r: Addrs)
    ensures |r| == n
  {
    seq(n, i requires 0 <= i => start + i)
  }

  lemma StretchDrop(start: nat, n: nat, rest: Addrs, k: nat)
    requires k <= n
    ensures (Stretch(start, n) + rest)[k..] == Stretch(start + k, n - k) + rest
  {
    assert Stretch(start, n)[k..] == Stretch(start + k, n - k);
  }

  /** page * pageSize, by counting pages. */
  function PageBase(page: nat, pageSize: nat): nat {
    if page == 0 then 0 else PageBase(page - 1, pageSize) + pageSize
  }

  lemma PageBaseIsProduct(page: nat, pageSize: nat)
    ensures PageBase(page, pageSize) == page * pageSize
  {
  }

  /** offset & (PAGE_SIZE - 1) */
  function InPage(offset: nat, pageSize: nat): (r: nat)
    requires 0 < pageSize
    ensures r < pageSize
  {
    if offset < pageSize then offset else InPage(offset - pageSize, pageSize)
  }

  lemma {:induction false} InPageIsRemainder(offset: nat, pageSize: nat)
    requires 0 < pageSize
    ensures InPage(offset, pageSize) == offset % pageSize
  {
    if offset < pageSize {
      ModUnique(offset, pageSize, 0, offset);
    } else {
      InPageIsRemainder(offset - pageSize, pageSize);
      ModStep(offset, pageSize);
    }
  }

  function Start(s: Segment, pageSize: nat): nat {
    PageBase(s.page, pageSize) + s.offset
  }

  /** The addresses a scatterlist stands for, in order. */
  function Flat(list: seq<Segment>, pageSize: nat): Addrs {
    if list == [] then []
    else Stretch(Start(list[0], pageSize), list[0].length) + Flat(list[1..], pageSize)
  }

  function Min(a: nat, b: nat): nat { if a <= b then a else b }

  /** The guard under which the cursor can step through a segment: it starts in the page it names,
      or never leaves the page it starts in. */
  predicate Walkable(s: Segment, pageSize: nat)
    requires 0 < pageSize
  {
    s.length == 0 || s.offset < pageSize || InPage(s.offset, pageSize) + s.length <= pageSize
  }

  ghost predicate AllWalkable(list: seq<Segment>, pageSize: nat)
    requires 0 < pageSize
  {
    forall i :: 0 <= i < |list| ==> Walkable(list[i], pageSize)
  }

  /** Every segment starts in the page it names. */
  ghost predicate Canonical(list: seq<Segment>, pageSize: nat) {
    forall i :: 0 <= i < |list| ==> list[i].offset < pageSize
  }

  function Gather(m: Bytes, a: Addrs): (r: Bytes)
    ensures |r| == |a|
  {
    seq(|a|, i requires 0 <= i < |a| => if a[i] < |m| then m[a[i]] else 0)
  }

  /** m after storing the first n bytes of b at the first n addresses of a, in order. */
  function Scatter(m: Bytes, a: Addrs, b: Bytes, n: nat): (r: Bytes)
    requires n <= |a| && n <= |b|
    ensures |r| == |m|
  {
    if n == 0 then m
    else
      var before := Scatter(m, a, b, n - 1);
      if a[n - 1] < |m| then before[a[n - 1] := b[n - 1]] else before
  }

  lemma ScatterNone(m: Bytes, a: Addrs, b: Bytes)
    ensures Scatter(m, a, b, 0) == m
  {
  }

  /** Storing i bytes and then j more. */
  lemma {:induction false} ScatterSplit(m: Bytes, a: Addrs, b: Bytes, i: nat, j: nat)
    requires i + j <= |a| && i + j <= |b|
    ensures Scatter(m, a, b, i + j) == Scatter(Scatter(m, a, b, i), a[i..], b[i..], j)
    decreases j
  {
    if j != 0 { ScatterSplit(m, a, b, i, j - 1); }
  }

  /** Only the first n addresses and bytes matter. */
  lemma {:induction false} ScatterPrefix(m: Bytes, a: Addrs, b: Bytes, a': Addrs, b': Bytes, n: nat)
    requires n <= |a| && n <= |b| && n <= |a'| && n <= |b'|
    requires a[..n] == a'[..n] && b[..n] == b'[..n]
    ensures Scatter(m, a, b, n) == Scatter(m, a', b', n)
  {
    if n != 0 {
      assert a[..n][n - 1] == a'[..n][n - 1] && b[..n][n - 1] == b'[..n][n - 1];
      assert a[..n][..n - 1] == a[..n - 1] && a'[..n][..n - 1] == a'[..n - 1];
      assert b[..n][..n - 1] == b[..n - 1] && b'[..n][..n - 1] == b'[..n - 1];
      ScatterPrefix(m, a, b, a', b', n - 1);
    }
  }

  /** Nothing is stored outside the addresses named. */
  lemma {:induction false} ScatterFrame(m: Bytes, a: Addrs, b: Bytes, n: nat, x: nat)
    requires n <= |a| && n <= |b|
    requires x < |m| && forall i :: 0 <= i < n ==> a[i] != x
    ensures Scatter(m, a, b, n)[x] == m[x]
  {
    if n != 0 { ScatterFrame(m, a, b, n - 1, x); }
  }

  /** At distinct addresses, what was stored is what is read back. */
  lemma {:induction false} GatherScattered(m: Bytes, a: Addrs, b: Bytes, n: nat)
    requires n <= |b| && Distinct(a, n) && InBounds(a, n, |m|)
    ensures Gather(Scatter(m, a, b, n), a[..n]) == b[..n]
  {
    hide Scatter;
    forall i | 0 <= i < n ensures Scatter(m, a, b, n)[a[i]] == b[i] {
      ScatteredAt(m, a, b, n, i);
    }
  }

  lemma {:induction false} ScatteredAt(m: Bytes, a: Addrs, b: Bytes, n: nat, i: nat)
    requires n <= |b| && Distinct(a, n) && InBounds(a, n, |m|) && i < n
    ensures Scatter(m, a, b, n)[a[i]] == b[i]
  {
    if i < n - 1 { ScatteredAt(m, a, b, n - 1, i); }
  }

  /** Storing elsewhere does not change what is read. */
  lemma GatherElsewhere(m: Bytes, a: Addrs, b: Bytes, n: nat, c: Addrs)
    requires n <= |a| && n <= |b|
    requires forall i, j :: 0 <= i < n && 0 <= j < |c| ==> a[i] != c[j]
    ensures Gather(Scatter(m, a, b, n), c) == Gather(m, c)
  {
    forall j | 0 <= j < |c| && c[j] < |m| ensures Scatter(m, a, b, n)[c[j]] == m[c[j]] {
      ScatterFrame(m, a, b, n, c[j]);
    }
  }

  /** The first n addresses lie in a memory of the given size. */
  ghost predicate InBounds(a: Addrs, n: nat, size: nat) {
    n <= |a| && forall i :: 0 <= i < n ==> a[i] < size
  }

  /** The first n addresses are pairwise different. */
  ghost predicate Distinct(a: Addrs, n: nat) {
    n <= |a| && forall i, j :: 0 <= i < j < n ==> a[i] != a[j]
  }

  /** The addresses the cursor passes from a given position to the end of the segment. */
  function Visited(page: nat, offset: nat, lenThisPage: nat, lenThisSegment: nat, pageSize: nat): Addrs
    requires 0 < pageSize
    decreases lenThisSegment, lenThisPage == 0
  {
    Stretch(PageBase(page, pageSize) + offset, lenThisPage)
    + if lenThisSegment <= lenThisPage then []
      else var left := lenThisSegment - lenThisPage; Visited(page + 1, 0, Min(left, pageSize), left, pageSize)
  }

  lemma {:induction false} VisitedFromPageStart(page: nat, left: nat, pageSize: nat)
    requires 0 < pageSize
    ensures Visited(page, 0, Min(left, pageSize), left, pageSize) == Stretch(PageBase(page, pageSize), left)
    decreases left
  {
    if left > pageSize {
      VisitedFromPageStart(page + 1, left - pageSize, pageSize);
    }
  }

  /** Where scatterwalk_start puts the cursor. */
  function VisitedOf(s: Segment, pageSize: nat): Addrs
    requires 0 < pageSize
  {
    Visited(s.page, s.offset, Min(s.length, pageSize - InPage(s.offset, pageSize)), s.length, pageSize)
  }

  /** The cursor passes exactly the bytes a segment stands for if and only if the segment is walkable:
      stepping to the next page forgets whole pages in the offset. */
  lemma WalkableExactly(s: Segment, pageSize: nat)
    requires 0 < pageSize
    ensures VisitedOf(s, pageSize) == Stretch(Start(s, pageSize), s.length) <==> Walkable(s, pageSize)
  {
    var first := Min(s.length, pageSize - InPage(s.offset, pageSize));
    if first < s.length {
      var left := s.length - first;
      VisitedFromPageStart(s.page + 1, left, pageSize);
      var there, meant := VisitedOf(s, pageSize), Stretch(Start(s, pageSize), s.length);
      assert there[first] == PageBase(s.page, pageSize) + pageSize;
      assert meant[first] == PageBase(s.page, pageSize) + s.offset + first;
      if s.offset >= pageSize {
        assert there[first] != meant[first];
      } else {
        assert there == meant;
      }
    }
  }

  /** With 4096-byte pages, two bytes at offset 8191 of page 0: the second is taken from the start of page 1
      where the start of page 2 was meant. */
  lemma UnwalkableExample()
    ensures VisitedOf(Segment(0, 8191, 2), 4096) == [8191, 4096]
    ensures Stretch(Start(Segment(0, 8191, 2), 4096), 2) == [8191, 8192]
  {
    assert PageBase(1, 4096) == 4096;
    assert InPage(8191, 4096) == 4095 by { assert InPage(8191 - 4096, 4096) == 4095; }
    VisitedFromPageStart(1, 1, 4096);
  }

  /** A position in a walk over a list: the fields of struct scatter_walk other than the mapped address. */
  datatype Cursor = Cursor(sg: nat, page: nat, offset: nat, lenThisPage: nat, lenThisSegment: nat)

  /** scatterwalk_start */
  function Begin(list: seq<Segment>, pageSize: nat, i: nat): Cursor
    requires 0 < pageSize && i < |list|
  {
    var s := list[i];
    Cursor(i, s.page, s.offset, Min(s.length, pageSize - InPage(s.offset, pageSize)), s.length)
  }

  /** scatterwalk_pagedone with more set; past the last segment there is nothing. */
  function NextPage(list: seq<Segment>, pageSize: nat, c: Cursor): Cursor
    requires 0 < pageSize
  {
    if c.lenThisPage < c.lenThisSegment then
      var left: nat := c.lenThisSegment - c.lenThisPage;
      Cursor(c.sg, c.page + 1, 0, Min(left, pageSize), left)
    else if c.sg + 1 < |list| then Begin(list, pageSize, c.sg + 1)
    else Cursor(c.sg + 1, 0, 0, 0, 0)
  }

  /** n bytes on inside the current page. */
  function Within(c: Cursor, n: nat): Cursor {
    c.(offset := c.offset + n, lenThisPage := Less(c.lenThisPage, n), lenThisSegment := Less(c.lenThisSegment, n))
  }

  function Less(a: nat, b: nat): nat { if b <= a then a - b else 0 }

  /** Where scatterwalk_copychunks of n bytes leaves the cursor, whichever buffer it was given. */
  function Forward(list: seq<Segment>, pageSize: nat, c: Cursor, n: nat): Cursor
    requires 0 < pageSize
    decreases n, |list| - c.sg, c.lenThisPage == 0
  {
    if n <= c.lenThisPage || |list| <= c.sg then Within(c, n)
    else Forward(list, pageSize, NextPage(list, pageSize, c), n - c.lenThisPage)
  }

  /** scatterwalk_done */
  function Settled(list: seq<Segment>, pageSize: nat, c: Cursor, more: bool): Cursor
    requires 0 < pageSize
  {
    if c.lenThisPage == 0 && more then NextPage(list, pageSize, c) else c
  }

  /** scatterwalk_whichbuf works on the page itself. */
  predicate FitsPage(c: Cursor, pageSize: nat, n: nat)
    requires 0 < pageSize
  {
    n <= c.lenThisPage && InPage(PageBase(c.page, pageSize) + c.offset, pageSize) + n <= pageSize
  }

  /** The cursor stands in segment sg, and the current page either holds the rest of the segment or
      runs out exactly at the end of the page. */
  ghost predicate Stands(list: seq<Segment>, pageSize: nat, c: Cursor) {
    && 0 < pageSize && AllWalkable(list, pageSize)
    && c.sg < |list|
    && c.lenThisPage <= c.lenThisSegment
    && (c.lenThisPage < c.lenThisSegment ==> c.offset + c.lenThisPage == pageSize)
    && (Canonical(list, pageSize) ==> c.offset + c.lenThisPage <= pageSize)
  }

  /** The addresses still ahead of a cursor. */
  ghost function AheadOf(list: seq<Segment>, pageSize: nat, c: Cursor): Addrs
    requires c.sg < |list|
  {
    Stretch(PageBase(c.page, pageSize) + c.offset, c.lenThisSegment) + Flat(list[c.sg + 1..], pageSize)
  }

  lemma BeginAhead(list: seq<Segment>, pageSize: nat, i: nat)
    requires 0 < pageSize && AllWalkable(list, pageSize) && i < |list|
    ensures Stands(list, pageSize, Begin(list, pageSize, i))
    ensures AheadOf(list, pageSize, Begin(list, pageSize, i)) == Flat(list[i..], pageSize)
  {
    assert list[i..][0] == list[i] && list[i..][1..] == list[i + 1..];
  }

  /** scatterwalk_pagedone passes over the rest of the page. */
  lemma NextPageAhead(list: seq<Segment>, pageSize: nat, c: Cursor)
    requires Stands(list, pageSize, c) && AheadOf(list, pageSize, c)[c.lenThisPage..] != []
    ensures var d := NextPage(list, pageSize, c);
            Stands(list, pageSize, d) && AheadOf(list, pageSize, d) == AheadOf(list, pageSize, c)[c.lenThisPage..]
  {
    hide Flat; hide InPage; hide Stretch; hide PageBase; hide AllWalkable; hide Canonical; hide Begin;
    var at, after := PageBase(c.page, pageSize) + c.offset, Flat(list[c.sg + 1..], pageSize);
    StretchDrop(at, c.lenThisSegment, after, c.lenThisPage);
    if c.lenThisPage < c.lenThisSegment {
      PageBaseNext(c.page, pageSize);
    } else {
      StretchNone(at + c.lenThisPage, after);
      FlatNone(list[c.sg + 1..], pageSize);
      BeginAhead(list, pageSize, c.sg + 1);
    }
  }

  lemma PageBaseNext(page: nat, pageSize: nat)
    ensures PageBase(page + 1, pageSize) == PageBase(page, pageSize) + pageSize
  {
  }

  lemma StretchNone(start: nat, rest: Addrs)
    ensures Stretch(start, 0) + rest == rest
  {
  }

  lemma FlatNone(list: seq<Segment>, pageSize: nat)
    ensures list == [] ==> Flat(list, pageSize) == []
  {
  }

  lemma WithinAhead(list: seq<Segment>, pageSize: nat, c: Cursor, n: nat)
    requires Stands(list, pageSize, c) && n <= c.lenThisPage
    ensures Stands(list, pageSize, Within(c, n))
    ensures AheadOf(list, pageSize, Within(c, n)) == AheadOf(list, pageSize, c)[n..]
  {
    hide Flat; hide PageBase; hide InPage;
    StretchDrop(PageBase(c.page, pageSize) + c.offset, c.lenThisSegment, Flat(list[c.sg + 1..], pageSize), n);
  }

  /** scatterwalk_copychunks passes over exactly the bytes it copies. */
  lemma {:induction false} ForwardAhead(list: seq<Segment>, pageSize: nat, c: Cursor, n: nat)
    requires Stands(list, pageSize, c) && n <= |AheadOf(list, pageSize, c)|
    ensures var d := Forward(list, pageSize, c, n);
            Stands(list, pageSize, d) && AheadOf(list, pageSize, d) == AheadOf(list, pageSize, c)[n..]
    decreases n, |list| - c.sg, c.lenThisPage == 0
  {
    if n <= c.lenThisPage {
      WithinAhead(list, pageSize, c, n);
    } else {
      NextPageAhead(list, pageSize, c);
      ForwardAhead(list, pageSize, NextPage(list, pageSize, c), n - c.lenThisPage);
    }
  }

  lemma SettledAhead(list: seq<Segment>, pageSize: nat, c: Cursor, more: bool)
    requires Stands(list, pageSize, c) && (more ==> AheadOf(list, pageSize, c) != [])
    ensures var d := Settled(list, pageSize, c, more);
            Stands(list, pageSize, d) && AheadOf(list, pageSize, d) == AheadOf(list, pageSize, c)
  {
    if c.lenThisPage == 0 && more {
      assert AheadOf(list, pageSize, c)[0..] == AheadOf(list, pageSize, c);
      NextPageAhead(list, pageSize, c);
    }
  }

  /** struct scatter_walk */
  class Walk {
    const pageSize: nat
    const list: seq<Segment>
    var sg: nat
    var page: nat
    var data: nat
    var lenThisPage: nat
    var lenThisSegment: nat
    var offset: nat

    ghost function At(): Cursor
      reads this
    {
      Cursor(sg, page, offset, lenThisPage, lenThisSegment)
    }

    ghost predicate Valid()
      reads this
    {
      Stands(list, pageSize, At())
    }

    /** The addresses still ahead of the cursor. */
    ghost function Ahead(): Addrs
      requires Valid()
      reads this
    {
      AheadOf(list, pageSize, At())
    }

    /** scatterwalk_start on the first segment. */
    constructor (list: seq<Segment>, pageSize: nat)
      requires 0 < pageSize && AllWalkable(list, pageSize) && list != []
      ensures Valid() && this.pageSize == pageSize && this.list == list
      ensures At() == Begin(list, pageSize, 0) && Ahead() == Flat(list, pageSize)
    {
      this.pageSize := pageSize;
      this.list := list;
      sg := 0;
      page := 0;
      data := 0;
      lenThisPage := 0;
      lenThisSegment := 0;
      offset := 0;
      new;
      StartSegment(0);
      assert list[0..] == list;
    }

    /** scatterwalk_start */
    method StartSegment(i: nat)
      requires 0 < pageSize && AllWalkable(list, pageSize) && i < |list|
      modifies this
      ensures Valid() && At() == Begin(list, pageSize, i) && Ahead() == Flat(list[i..], pageSize)
    {
      var s := list[i];
      sg := i;
      page := s.page;
      lenThisSegment := s.length;
      var restOfPage := pageSize - InPage(s.offset, pageSize);
      lenThisPage := Min(s.length, restOfPage);
      offset := s.offset;
      BeginAhead(list, pageSize, i);
    }

    /** scatterwalk_map */
    method Map()
      modifies `data
      ensures data == PageBase(page, pageSize) + offset
    {
      data := PageBase(page, pageSize) + offset;
    }

    /** scatterwalk_pagedone, with more set: on to the next page or the next segment. */
    method PageDone()
      requires Valid() && Ahead()[lenThisPage..] != []
      modifies this
      ensures Valid() && At() == NextPage(list, pageSize, old(At())) && Ahead() == old(Ahead()[lenThisPage..])
      ensures old(lenThisPage) == 0 ==> sg > old(sg) || (sg == old(sg) && lenThisPage > 0)
      ensures sg >= old(sg)
    {
      NextPageAhead(list, pageSize, At());
      lenThisSegment := lenThisSegment - lenThisPage;
      if lenThisSegment != 0 {
        page := page + 1;
        lenThisPage := Min(lenThisSegment, pageSize);
        offset := 0;
      } else {
        StartSegment(sg + 1);
      }
    }

    /** scatterwalk_done */
    method Done(more: bool)
      requires Valid() && (more ==> Ahead() != [])
      modifies this
      ensures Valid() && At() == Settled(list, pageSize, old(At()), more) && Ahead() == old(Ahead())
    {
      if lenThisPage == 0 && more {
        assert Ahead()[0..] == Ahead();
        PageDone();
      }
    }

    /** The cursor moves n bytes on inside the current page. */
    method Advance(n: nat)
      requires Valid() && n <= lenThisPage
      modifies this
      ensures Valid() && At() == Within(old(At()), n) && Ahead() == old(Ahead())[n..]
    {
      WithinAhead(list, pageSize, At(), n);
      offset := offset + n;
      lenThisPage := lenThisPage - n;
      lenThisSegment := lenThisSegment - n;
    }

    /** scatterwalk_whichbuf */
    method WhichBuf(nbytes: nat) returns (b: Buf)
      requires Valid() && data == PageBase(page, pageSize) + offset
      ensures b == if FitsPage(At(), pageSize, nbytes) then OnPage(data) else Scratch
      ensures b.OnPage? ==> nbytes <= lenThisPage <= |Ahead()|
      ensures b.OnPage? ==> forall i :: 0 <= i < nbytes ==> Ahead()[i] == data + i
    {
      if nbytes <= lenThisPage && InPage(data, pageSize) + nbytes <= pageSize {
        b := OnPage(data);
      } else {
        b := Scratch;
      }
    }

    /** scatterwalk_copychunks towards the scratch block (out == 0). */
    method CopyIn(m: array<bv8>, buf: Buf, scratch: array<bv8>, nbytes: nat)
      requires Valid() && InBounds(Ahead(), nbytes, m.Length)
      requires m != scratch && nbytes <= scratch.Length
      requires data == PageBase(page, pageSize) + offset
      requires buf.OnPage? ==> nbytes <= lenThisPage
      modifies this, scratch
      ensures Valid() && At() == Forward(list, pageSize, old(At()), nbytes) && Ahead() == old(Ahead())[nbytes..]
      ensures buf.OnPage? ==> scratch[..] == old(scratch[..])
      ensures buf.Scratch? ==> scratch[..nbytes] == Gather(m[..], old(Ahead())[..nbytes])
    {
      hide PageBase; hide Flat; hide InPage; hide NextPage; hide AheadOf;
      ghost var all := Ahead();
      var left: nat := nbytes;
      if buf.Scratch? {
        left := FetchWholePages(m, scratch, nbytes);
        FetchChunk(m, scratch, nbytes - left, left, all);
      }
      Advance(left);
    }

    /** The loop of scatterwalk_copychunks, inwards. */
    method FetchWholePages(m: array<bv8>, scratch: array<bv8>, nbytes: nat) returns (left: nat)
      requires Valid() && InBounds(Ahead(), nbytes, m.Length)
      requires m != scratch && nbytes <= scratch.Length
      requires data == PageBase(page, pageSize) + offset
      modifies this, scratch
      ensures Valid() && left <= nbytes && left <= lenThisPage && Ahead() == old(Ahead())[nbytes - left..]
      ensures data == PageBase(page, pageSize) + offset
      ensures Within(At(), left) == Forward(list, pageSize, old(At()), nbytes)
      ensures scratch[..nbytes - left] == Gather(m[..], old(Ahead())[..nbytes - left])
    {
      hide PageBase; hide Flat; hide InPage; hide NextPage; hide AheadOf;
      ghost var all := Ahead();
      left := nbytes;
      var k: nat := 0;
      while left > lenThisPage
        invariant Valid() && k == nbytes - left && Ahead() == all[k..]
        invariant data == PageBase(page, pageSize) + offset
        invariant Forward(list, pageSize, At(), left) == Forward(list, pageSize, old(At()), nbytes)
        invariant scratch[..k] == Gather(m[..], all[..k])
        decreases left, |list| - sg, lenThisPage == 0
      {
        var n := FetchPage(m, scratch, k, nbytes, all);
        k := k + n;
        left := left - n;
      }
    }

    /** One turn of that loop. */
    method FetchPage(m: array<bv8>, scratch: array<bv8>, k: nat, nbytes: nat, ghost all: Addrs) returns (n: nat)
      requires Valid() && k + lenThisPage < nbytes <= scratch.Length && m != scratch
      requires InBounds(all, nbytes, m.Length) && Ahead() == all[k..]
      requires data == PageBase(page, pageSize) + offset
      requires scratch[..k] == Gather(m[..], all[..k])
      modifies this, scratch
      ensures Valid() && At() == NextPage(list, pageSize, old(At())) && n == old(lenThisPage) && Ahead() == all[k + n..]
      ensures data == PageBase(page, pageSize) + offset
      ensures scratch[..k + n] == Gather(m[..], all[..k + n])
      ensures sg >= old(sg) && (n == 0 ==> sg > old(sg) || (sg == old(sg) && lenThisPage > 0))
    {
      n := lenThisPage;
      FetchChunk(m, scratch, k, n, all);
      TurnPage(all, k + n);
    }

    /** Unmap, scatterwalk_pagedone, map. */
    method TurnPage(ghost all: Addrs, ghost k: nat)
      requires Valid() && lenThisPage <= k < |all| && Ahead() == all[k - lenThisPage..]
      modifies this
      ensures Valid() && At() == NextPage(list, pageSize, old(At())) && Ahead() == all[k..] && data == PageBase(page, pageSize) + offset
      ensures old(lenThisPage) == 0 ==> sg > old(sg) || (sg == old(sg) && lenThisPage > 0)
      ensures sg >= old(sg)
    {
      assert Ahead()[lenThisPage..] == all[k..];
      PageDone();
      Map();
    }

    /** memcpy_dir inwards: one contiguous piece of the walk goes to the scratch block. */
    method FetchChunk(m: array<bv8>, scratch: array<bv8>, k: nat, n: nat, ghost all: Addrs)
      requires Valid() && n <= lenThisPage && k + n <= scratch.Length && m != scratch
      requires InBounds(all, k + n, m.Length) && Ahead() == all[k..]
      requires data == PageBase(page, pageSize) + offset
      requires scratch[..k] == Gather(m[..], all[..k])
      modifies scratch
      ensures scratch[..k + n] == Gather(m[..], all[..k + n])
    {
      assert forall i :: 0 <= i < n ==> all[k + i] == Ahead()[i] == data + i;
      var i := 0;
      while i < n
        invariant i <= n
        invariant scratch[..k + i] == Gather(m[..], all[..k + i])
      {
        assert all[k + i] == data + i;
        scratch[k + i] := m[data + i];
        i := i + 1;
      }
    }

    /** scatterwalk_copychunks from the scratch block (out == 1). */
    method CopyOut(m: array<bv8>, buf: Buf, scratch: array<bv8>, nbytes: nat)
      requires Valid() && InBounds(Ahead(), nbytes, m.Length)
      requires m != scratch && nbytes == scratch.Length
      requires data == PageBase(page, pageSize) + offset
      requires buf.OnPage? ==> nbytes <= lenThisPage
      modifies this, m
      ensures Valid() && At() == Forward(list, pageSize, old(At()), nbytes) && Ahead() == old(Ahead())[nbytes..]
      ensures buf.OnPage? ==> m[..] == old(m[..])
      ensures buf.Scratch? ==> m[..] == Scatter(old(m[..]), old(Ahead()), scratch[..], nbytes)
    {
      hide Scatter; hide PageBase; hide Flat; hide InPage; hide NextPage; hide AheadOf;
      ghost var all := Ahead();
      var left: nat := nbytes;
      if buf.Scratch? {
        left := StoreWholePages(m, scratch, nbytes);
        StoreChunk(m, scratch, nbytes - left, left, all, old(m[..]));
      }
      Advance(left);
    }

    /** The loop of scatterwalk_copychunks, outwards. */
    method StoreWholePages(m: array<bv8>, scratch: array<bv8>, nbytes: nat) returns (left: nat)
      requires Valid() && InBounds(Ahead(), nbytes, m.Length)
      requires m != scratch && nbytes == scratch.Length
      requires data == PageBase(page, pageSize) + offset
      modifies this, m
      ensures Valid() && left <= nbytes && left <= lenThisPage && Ahead() == old(Ahead())[nbytes - left..]
      ensures data == PageBase(page, pageSize) + offset
      ensures Within(At(), left) == Forward(list, pageSize, old(At()), nbytes)
      ensures m[..] == Scatter(old(m[..]), old(Ahead()), scratch[..], nbytes - left)
    {
      hide Scatter; hide PageBase; hide Flat; hide InPage; hide NextPage; hide AheadOf;
      ghost var all, m0 := Ahead(), m[..];
      ScatterNone(m0, all, scratch[..]);
      left := nbytes;
      var k: nat := 0;
      while left > lenThisPage
        invariant Valid() && k == nbytes - left && Ahead() == all[k..]
        invariant data == PageBase(page, pageSize) + offset
        invariant Forward(list, pageSize, At(), left) == Forward(list, pageSize, old(At()), nbytes)
        invariant m[..] == Scatter(m0, all, scratch[..], k)
        decreases left, |list| - sg, lenThisPage == 0
      {
        var n := StorePage(m, scratch, k, nbytes, all, m0);
        k := k + n;
        left := left - n;
      }
    }

    /** One turn of that loop. */
    method StorePage(m: array<bv8>, scratch: array<bv8>, k: nat, nbytes: nat, ghost all: Addrs, ghost m0: Bytes)
      returns (n: nat)
      requires Valid() && k + lenThisPage < nbytes == scratch.Length && m != scratch
      requires InBounds(all, nbytes, m.Length) && Ahead() == all[k..] && |m0| == m.Length
      requires data == PageBase(page, pageSize) + offset
      requires m[..] == Scatter(m0, all, scratch[..], k)
      modifies this, m
      ensures Valid() && At() == NextPage(list, pageSize, old(At())) && n == old(lenThisPage) && Ahead() == all[k + n..]
      ensures data == PageBase(page, pageSize) + offset
      ensures m[..] == Scatter(m0, all, scratch[..], k + n)
      ensures sg >= old(sg) && (n == 0 ==> sg > old(sg) || (sg == old(sg) && lenThisPage > 0))
    {
      n := lenThisPage;
      StoreChunk(m, scratch, k, n, all, m0);
      TurnPage(all, k + n);
    }

    /** memcpy_dir outwards: one contiguous piece of the walk is filled from the scratch block. */
    method StoreChunk(m: array<bv8>, scratch: array<bv8>, k: nat, n: nat, ghost all: Addrs, ghost m0: Bytes)
      requires Valid() && n <= lenThisPage && k + n <= scratch.Length && m != scratch
      requires InBounds(all, k + n, m.Length) && Ahead() == all[k..] && |m0| == m.Length
      requires data == PageBase(page, pageSize) + offset
      requires m[..] == Scatter(m0, all, scratch[..], k)
      modifies m
      ensures m[..] == Scatter(m0, all, scratch[..], k + n)
    {
      assert forall i :: 0 <= i < n ==> all[k + i] == Ahead()[i] == data + i;
      var i := 0;
      while i < n
        invariant i <= n
        invariant m[..] == Scatter(m0, all, scratch[..], k + i)
      {
        assert all[k + i] == data + i;
        ghost var now := m[..];
        m[data + i] := scratch[k + i];
        assert m[..] == now[all[k + i] := scratch[..][k + i]];
        i := i + 1;
      }
    }
  }

  /** Where a block is worked on: in place on a mapped page, or in a scratch block on the stack. */
  datatype Buf = OnPage(addr: nat) | Scratch
}
