/** compat_copy_strings: argument strings are copied downwards into pages, last string first, so that they end up
    one after another in order. */
module ArgStrings {
  import opened BlockModes
  import opened Wrappers

  /** Strings one after another, each followed by a NUL. */
  function Layout(ss: seq<Bytes>): Bytes {
    if ss == [] then [] else ss[0] + [0] + Layout(ss[1..])
  }

  lemma NoLayout(ss: seq<Bytes>)
    ensures Layout(ss[|ss|..]) == []
  {
  }

  /** Putting one more string in front. */
  lemma LayoutFrom(ss: seq<Bytes>, i: nat)
    requires i < |ss|
    ensures Layout(ss[i..]) == ss[i] + [0] + Layout(ss[i + 1..])
  {
    assert ss[i..][1..] == ss[i + 1..];
  }

  // ---- Pages. ----

  function PageOf(a: nat, ps: nat): nat
    requires 0 < ps
  {
    a / ps
  }

  function OffOf(a: nat, ps: nat): (r: nat)
    requires 0 < ps
    ensures r < ps
  {
    a % ps
  }

  /** Two addresses of one page. */
  lemma SamePage(a: nat, b: nat, ps: nat)
    requires 0 < ps && PageOf(a, ps) == PageOf(b, ps)
    ensures OffOf(b, ps) - OffOf(a, ps) == b - a
  {
    assert a == (a / ps) * ps + a % ps && b == (b / ps) * ps + b % ps;
  }

  /** An address a few bytes on, still in the page. */
  lemma Onwards(a: nat, k: nat, ps: nat)
    requires 0 < ps && OffOf(a, ps) + k < ps
    ensures PageOf(a + k, ps) == PageOf(a, ps) && OffOf(a + k, ps) == OffOf(a, ps) + k
  {
    assert a == (a / ps) * ps + a % ps;
    ModUnique(a + k, ps, a / ps, a % ps + k);
  }

  /** The size of n pages. */
  function Room(n: nat, ps: nat): nat { n * ps }

  lemma IndexBelow(a: nat, ps: nat, n: nat)
    requires 0 < ps && a < Room(n, ps)
    ensures PageOf(a, ps) < n
  {
  }

  function Absent(pages: seq<Option<Bytes>>): nat {
    if pages == [] then 0 else (if pages[0].None? then 1 else 0) + Absent(pages[1..])
  }

  lemma {:induction false} AbsentFilled(pages: seq<Option<Bytes>>, i: nat, page: Bytes)
    requires i < |pages|
    ensures Absent(pages[i := Some(page)]) == Absent(pages) - (if pages[i].None? then 1 else 0)
  {
    var after := pages[i := Some(page)];
    if i == 0 {
      assert after[1..] == pages[1..];
    } else {
      assert after[1..] == pages[1..][i - 1 := Some(page)];
      AbsentFilled(pages[1..], i - 1, page);
    }
  }

  /** The page with n bytes replaced. */
  function Spliced(page: Bytes, o: nat, b: Bytes): (r: Bytes)
    requires o + |b| <= |page|
    ensures |r| == |page|
  {
    page[..o] + b + page[o + |b|..]
  }

  type Pages = seq<Option<Bytes>>

  ghost predicate Full(pages: Pages, ps: nat) {
    forall i :: 0 <= i < |pages| && pages[i].Some? ==> |pages[i].value| == ps
  }

  function CellOf(page: Option<Bytes>, o: nat): bv8 {
    if page.Some? && o < |page.value| then page.value[o] else 0
  }

  /** A byte of the area; what has no page reads as zero. */
  function Byte(pages: Pages, ps: nat, a: nat): bv8 {
    if ps > 0 && PageOf(a, ps) < |pages| then CellOf(pages[PageOf(a, ps)], OffOf(a, ps)) else 0
  }

  /** n bytes of the area. */
  function Area(pages: Pages, ps: nat, a: nat, n: nat): (r: Bytes)
    ensures |r| == n
  {
    seq(n, i requires 0 <= i => Byte(pages, ps, a + i))
  }

  /** Only the given bytes differ, and they are the given ones. */
  ghost predicate Wrote(before: Pages, after: Pages, ps: nat, pos: nat, b: Bytes) {
    forall a: nat :: Byte(after, ps, a) == if pos <= a < pos + |b| then b[a - pos] else Byte(before, ps, a)
  }

  function PageAt(pages: Pages, ps: nat, i: nat): Bytes {
    if i < |pages| && pages[i].Some? then pages[i].value else seq(ps, _ => 0)
  }

  lemma SplicedAt(pages: Pages, ps: nat, i: nat, offset: nat, b: Bytes, r: Bytes)
    requires i < |pages| && Full(pages, ps) && offset + |b| <= ps
    requires r == Spliced(if pages[i].Some? then pages[i].value else seq(ps, _ => 0), offset, b)
    ensures |PageAt(pages, ps, i)| == ps && r == Spliced(PageAt(pages, ps, i), offset, b)
  {
    assert pages[i].None? ==> PageAt(pages, ps, i) == seq(ps, _ => 0);
  }

  lemma PieceByte(pages: Pages, ps: nat, pos: nat, b: Bytes, a: nat)
    requires 0 < ps && Full(pages, ps) && PageOf(pos, ps) < |pages| && OffOf(pos, ps) + |b| <= ps
    ensures |PageAt(pages, ps, PageOf(pos, ps))| == ps
    ensures Byte(pages[PageOf(pos, ps) := Some(Spliced(PageAt(pages, ps, PageOf(pos, ps)), OffOf(pos, ps), b))], ps, a)
         == if pos <= a < pos + |b| then b[a - pos] else Byte(pages, ps, a)
  {
    hide PageOf; hide OffOf;
    if pos <= a < pos + |b| {
      Onwards(pos, a - pos, ps);
    } else if PageOf(a, ps) == PageOf(pos, ps) {
      SamePage(pos, a, ps);
    }
  }

  /** memset(kaddr + from, 0, n) */
  method Clear(kaddr: array<bv8>, from: nat, n: nat)
    requires from + n <= kaddr.Length
    modifies kaddr
    ensures forall i :: 0 <= i < kaddr.Length ==> kaddr[i] == if from <= i < from + n then 0 else old(kaddr[i])
  {
    for k := 0 to n
      invariant forall i :: 0 <= i < kaddr.Length ==> kaddr[i] == if from <= i < from + k then 0 else old(kaddr[i])
    {
      kaddr[from + k] := 0;
    }
  }

  method Fill(kaddr: array<bv8>, at: nat, b: Bytes)
    requires at + |b| <= kaddr.Length
    modifies kaddr
    ensures forall i :: 0 <= i < kaddr.Length ==> kaddr[i] == if at <= i < at + |b| then b[i - at] else old(kaddr[i])
  {
    for k := 0 to |b|
      invariant forall i :: 0 <= i < kaddr.Length ==> kaddr[i] == if at <= i < at + k then b[i - at] else old(kaddr[i])
    {
      kaddr[at + k] := b[k];
    }
  }

  /** A mapped page after a piece was copied to it.  A fresh page may hold anything, and only what the piece does not
      cover is cleared. */
  method Mapped(page: Option<Bytes>, ps: nat, offset: nat, b: Bytes) returns (r: Bytes)
    requires (page.Some? ==> |page.value| == ps) && offset + |b| <= ps
    ensures r == Spliced(if page.Some? then page.value else seq(ps, _ => 0), offset, b)
  {
    var kaddr := new bv8[ps];
    if page.Some? {
      Fill(kaddr, 0, page.value);
    } else {
      if offset != 0 { Clear(kaddr, 0, offset); }
      if ps - offset > |b| { Clear(kaddr, offset + |b|, ps - offset - |b|); }
    }
    Fill(kaddr, offset, b);
    r := kaddr[..];
    assert r == Spliced(if page.Some? then page.value else seq(ps, _ => 0), offset, b);
  }

  /** struct linux_binprm: the pages of the argument area and the position in it. */
  class Bprm {
    const ps: nat
    var pages: seq<Option<Bytes>>
    var p: nat
    /** How many pages can still be allocated. */
    var spare: nat

    ghost predicate Valid()
      reads this
    {
      0 < ps && p <= Room(|pages|, ps) && Full(pages, ps)
    }

    constructor (ps: nat, count: nat, spare: nat)
      requires 0 < ps && 8 <= count * ps
      ensures Valid() && p == count * ps - 8 && this.ps == ps && |pages| == count && this.spare == spare
      ensures Absent(pages) <= count
    {
      this.ps, this.spare := ps, spare;
      pages := seq(count, _ => None);
      p := count * ps - 8;
      new;
      AbsentBound(pages);
    }

    /** One turn of the inner loop: a piece that stays within a page. */
    method Piece(pos: nat, b: Bytes) returns (status: int)
      requires Valid() && pos + |b| <= Room(|pages|, ps) && 0 < |b| && OffOf(pos, ps) + |b| <= ps
      modifies this`pages, this`spare
      ensures Valid() && |pages| == old(|pages|)
      ensures status == 0 || status == -ENOMEM
      ensures old(Absent(pages) <= spare) ==> status == 0 && Absent(pages) <= spare
      ensures status == 0 ==> Wrote(old(pages), pages, ps, pos, b)
    {
      hide Byte; hide Spliced; hide PageAt; hide PageOf; hide OffOf; hide Room;
      IndexBelow(pos, ps, |pages|);
      var offset, i := OffOf(pos, ps), PageOf(pos, ps);
      ghost var page := PageAt(pages, ps, i);
      if pages[i].None? {
        AbsentSome(pages, i);
        if spare == 0 { return -ENOMEM; }
        spare := spare - 1;
      }
      PieceByte(pages, ps, pos, b, 0);
      AbsentFilled(pages, i, Spliced(page, offset, b));
      ghost var before := pages;
      var kaddr := Mapped(pages[i], ps, offset, b);
      SplicedAt(before, ps, i, offset, b, kaddr);
      pages := pages[i := Some(kaddr)];
      forall a: nat ensures Byte(pages, ps, a) == if pos <= a < pos + |b| then b[a - pos] else Byte(before, ps, a) {
        PieceByte(before, ps, pos, b, a);
      }
      status := 0;
    }

    /** The inner loop: the bytes of one string, page by page. */
    method CopyOne(pos: nat, b: Bytes) returns (status: int)
      requires Valid() && pos + |b| <= Room(|pages|, ps)
      modifies this`pages, this`spare
      ensures Valid() && |pages| == old(|pages|) && (status == 0 || status == -ENOMEM)
      ensures old(Absent(pages) <= spare) ==> status == 0 && Absent(pages) <= spare
      ensures status == 0 ==> Wrote(old(pages), pages, ps, pos, b)
    {
      hide Byte; hide PageOf; hide OffOf; hide Wrote; hide Room;
      var k := 0;
      WroteNothing(pages, ps, pos);
      assert b[..0] == [];
      while k < |b|
        invariant k <= |b| && Valid() && |pages| == old(|pages|)
        invariant old(Absent(pages) <= spare) ==> Absent(pages) <= spare
        invariant Wrote(old(pages), pages, ps, pos, b[..k])
      {
        var n := ps - OffOf(pos + k, ps);
        if n > |b| - k { n := |b| - k; }
        ghost var mid := pages;
        status := Piece(pos + k, b[k..k + n]);
        if status != 0 { return; }
        assert b[..k + n] == b[..k] + b[k..k + n];
        WroteMore(old(pages), mid, pages, ps, pos, b[..k], b[k..k + n]);
        k := k + n;
      }
      assert b[..k] == b;
      status := 0;
    }

    /** compat_copy_strings.  An element is None where reading it faults.  If pages do not run out, it succeeds exactly
        when every string can be read and all of them fit. */
    method CopyStrings(argv: seq<Option<Bytes>>) returns (status: int)
      requires Valid()
      modifies this
      ensures Valid() && |pages| == old(|pages|)
      ensures old(Absent(pages) <= spare) ==>
        (status == 0 <==> AllReadable(argv) && |Layout(Values(argv))| <= old(p)) && Absent(pages) <= spare
      ensures status == 0 ==> AllReadable(argv) && p + |Layout(Values(argv))| == old(p)
      ensures status == 0 ==> Wrote(old(pages), pages, ps, p, Layout(Values(argv)))
    {
      hide Wrote; hide Room; hide Absent; hide Layout;
      var argc: nat := |argv|;
      ghost var ss := Values(argv);
      NoLayout(ss);
      WroteNothing(pages, ps, p);
      while argc > 0
        invariant argc <= |argv| && Valid() && |pages| == old(|pages|)
        invariant old(Absent(pages) <= spare) ==> Absent(pages) <= spare
        invariant forall i :: argc <= i < |argv| ==> argv[i].Some?
        invariant p + |Layout(ss[argc..])| == old(p)
        invariant Wrote(old(pages), pages, ps, p, Layout(ss[argc..]))
      {
        argc := argc - 1;
        LayoutFrom(ss, argc);
        LayoutSuffix(ss, argc);
        if argv[argc].None? { return -EFAULT; }
        var len := |argv[argc].value| + 1;
        if p < len { return -E2BIG; }
        ghost var mid := pages;
        p := p - len;
        status := CopyOne(p, argv[argc].value + [0]);
        if status != 0 { return; }
        WroteBelow(old(pages), mid, pages, ps, p, ss[argc] + [0], Layout(ss[argc + 1..]));
      }
      assert ss[0..] == ss;
      status := 0;
    }

    /** The copying part of compat_do_execve: the file name, then the environment, then the arguments. */
    method CopyAll(filename: Bytes, argv: seq<Option<Bytes>>, envp: seq<Option<Bytes>>) returns (status: int)
      requires Valid()
      modifies this
      ensures Valid()
      ensures status == 0 ==> AllReadable(argv) && AllReadable(envp)
      ensures status == 0 ==>
        var all := Layout(Values(argv)) + Layout(Values(envp)) + (filename + [0]);
        p + |all| == old(p) && Wrote(old(pages), pages, ps, p, all)
      ensures old(Absent(pages) <= spare) ==>
        (status == 0 <==> AllReadable(argv) && AllReadable(envp)
                          && |Layout(Values(argv))| + |Layout(Values(envp))| + |filename| + 1 <= old(p))
    {
      hide Wrote; hide Byte; hide Room; hide Absent; hide Values;
      ghost var pages0, name := pages, filename + [0];
      ValuesOne(filename);
      assert [filename][1..] == [];
      assert Layout([filename]) == name + [] == name;
      status := CopyStrings([Some(filename)]);
      if status != 0 { return; }
      ghost var pages1 := pages;
      status := CopyStrings(envp);
      if status != 0 { return; }
      ghost var pages2 := pages;
      WroteBelow(pages0, pages1, pages2, ps, p, Layout(Values(envp)), name);
      status := CopyStrings(argv);
      if status != 0 { return; }
      WroteBelow(pages0, pages2, pages, ps, p, Layout(Values(argv)), Layout(Values(envp)) + name);
      Assoc(Layout(Values(argv)), Layout(Values(envp)), name);
    }
  }

  ghost predicate AllReadable(argv: seq<Option<Bytes>>) {
    forall i :: 0 <= i < |argv| ==> argv[i].Some?
  }

  function Values(argv: seq<Option<Bytes>>): (r: seq<Bytes>)
    ensures |r| == |argv|
  {
    seq(|argv|, i requires 0 <= i < |argv| => if argv[i].Some? then argv[i].value else [])
  }

  lemma ValuesOne(s: Bytes)
    ensures Values([Some(s)]) == [s]
  {
  }

  lemma WroteNothing(pages: Pages, ps: nat, pos: nat)
    ensures Wrote(pages, pages, ps, pos, [])
  {
  }

  lemma WroteMore(a: Pages, b: Pages, c: Pages, ps: nat, pos: nat, x: Bytes, y: Bytes)
    requires Wrote(a, b, ps, pos, x) && Wrote(b, c, ps, pos + |x|, y)
    ensures Wrote(a, c, ps, pos, x + y)
  {
    hide Byte;
  }

  lemma WroteBelow(a: Pages, b: Pages, c: Pages, ps: nat, pos: nat, x: Bytes, y: Bytes)
    requires Wrote(a, b, ps, pos + |x|, y) && Wrote(b, c, ps, pos, x)
    ensures Wrote(a, c, ps, pos, x + y)
  {
    hide Byte;
  }

  lemma {:induction false} LayoutSuffix(ss: seq<Bytes>, i: nat)
    requires i <= |ss|
    ensures |Layout(ss[i..])| <= |Layout(ss)|
    decreases i
  {
    if i == 0 {
      assert ss[0..] == ss;
    } else {
      LayoutSuffix(ss[1..], i - 1);
      assert ss[1..][i - 1..] == ss[i..];
    }
  }


  lemma {:induction false} AbsentBound(pages: seq<Option<Bytes>>)
    ensures Absent(pages) <= |pages|
  {
    if pages != [] { AbsentBound(pages[1..]); }
  }

  lemma {:induction false} AbsentSome(pages: seq<Option<Bytes>>, i: nat)
    requires i < |pages| && pages[i].None?
    ensures Absent(pages) > 0
  {
    if i > 0 { AbsentSome(pages[1..], i - 1); }
  }
}
