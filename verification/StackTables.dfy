/** create_elf_tables and create_aout_tables: the pointer tables below the argument strings are found by scanning
    for NULs, and the scan finds exactly the strings that were copied. */
module StackTables {
  import opened BlockModes
  import opened ArgStrings
  import opened Wrappers

  // ---- Scanning strings. ----

  /** The length of the string at p with its NUL, or 0 if there is none. */
  function Strnlen(m: Bytes, p: nat): nat
    decreases if p < |m| then |m| - p else 0
  {
    if p >= |m| then 0
    else if m[p] == 0 then 1
    else if Strnlen(m, p + 1) == 0 then 0 else 1 + Strnlen(m, p + 1)
  }

  ghost predicate NoNul(s: Bytes) {
    forall i :: 0 <= i < |s| ==> s[i] != 0
  }

  /** s and its NUL are at p. */
  ghost predicate StringAt(m: Bytes, p: nat, s: Bytes) {
    p + |s| < |m| && m[p..p + |s|] == s && m[p + |s|] == 0
  }

  lemma {:induction false} StrnlenOf(m: Bytes, p: nat, s: Bytes)
    requires StringAt(m, p, s) && NoNul(s)
    ensures Strnlen(m, p) == |s| + 1
    decreases |s|
  {
    if s != [] {
      assert m[p] == m[p..p + |s|][0] == s[0];
      assert m[p + 1..p + |s|] == m[p..p + |s|][1..] == s[1..];
      StrnlenOf(m, p + 1, s[1..]);
    }
  }

  /** Where strings laid out from p on begin. */
  function Pointers(p: nat, ss: seq<Bytes>): (r: seq<nat>)
    ensures |r| == |ss|
    decreases |ss|
  {
    if ss == [] then [] else [p] + Pointers(p + |ss[0]| + 1, ss[1..])
  }

  ghost predicate LaidOut(m: Bytes, p: nat, ss: seq<Bytes>) {
    p + |Layout(ss)| <= |m| && m[p..p + |Layout(ss)|] == Layout(ss)
  }

  lemma LaidOutFirst(m: Bytes, p: nat, ss: seq<Bytes>)
    requires LaidOut(m, p, ss) && ss != []
    ensures StringAt(m, p, ss[0]) && LaidOut(m, p + |ss[0]| + 1, ss[1..])
  {
    var s, l := ss[0], Layout(ss);
    var rest := Layout(ss[1..]);
    assert l == s + [0] + rest;
    assert m[p..p + |l|][..|s|] == m[p..p + |s|] && l[..|s|] == s;
    assert m[p + |s|] == m[p..p + |l|][|s|] == 0;
    assert m[p..p + |l|][|s| + 1..] == m[p + |s| + 1..p + |l|] && l[|s| + 1..] == rest;
  }

  /** The i-th pointer leads to the i-th string. */
  lemma {:induction false} PointersLead(m: Bytes, p: nat, ss: seq<Bytes>, i: nat)
    requires LaidOut(m, p, ss) && i < |ss|
    ensures StringAt(m, Pointers(p, ss)[i], ss[i])
    decreases |ss|
  {
    LaidOutFirst(m, p, ss);
    if i > 0 { PointersLead(m, p + |ss[0]| + 1, ss[1..], i - 1); }
  }

  lemma {:induction false} PointersEnd(p: nat, ss: seq<Bytes>, i: nat)
    requires i <= |ss|
    ensures i < |ss| ==> Pointers(p, ss)[i] == p + |Layout(ss[..i])|
    ensures i < |ss| ==> |Layout(ss[..i + 1])| == |Layout(ss[..i])| + |ss[i]| + 1
    decreases |ss|
  {
    if 0 < i < |ss| {
      PointersEnd(p + |ss[0]| + 1, ss[1..], i - 1);
      assert ss[..i][1..] == ss[1..][..i - 1];
      assert ss[..i + 1][1..] == ss[1..][..i];
    } else if i == 0 && ss != [] {
      assert ss[..1][1..] == [];
    }
  }

  ghost predicate AllNoNul(ss: seq<Bytes>) {
    forall i :: 0 <= i < |ss| ==> NoNul(ss[i])
  }

  /** Stepping over a string: the byte loop of create_aout_tables, and what adding strnlen_user does. */
  method Skip(m: Bytes, p0: nat) returns (p: nat)
    requires Strnlen(m, p0) > 0
    ensures p == p0 + Strnlen(m, p0)
  {
    p := p0;
    var c := m[p];
    p := p + 1;
    while c != 0
      invariant p0 < p <= |m| && c == m[p - 1]
      invariant if c == 0 then p == p0 + Strnlen(m, p0) else Strnlen(m, p) > 0 && p + Strnlen(m, p) == p0 + Strnlen(m, p0)
      decreases |m| - p, c
    {
      c := m[p];
      p := p + 1;
    }
  }

  /** One of the two loops of the table builders: put a pointer, step over the string. */
  method PutPointers(m: Bytes, p0: nat, count: nat, table: array<nat>, at: nat, ghost ss: seq<Bytes>) returns (p: nat)
    requires LaidOut(m, p0, ss) && AllNoNul(ss) && count == |ss| && at + count < table.Length
    modifies table
    ensures p == p0 + |Layout(ss)|
    ensures table[..] == old(table[..at]) + Pointers(p0, ss) + [0] + old(table[at + count + 1..])
  {
    hide Strnlen;
    p := p0;
    ghost var t := table[..];
    assert ss[..0] == [] && ss[..|ss|] == ss;
    for k := 0 to count
      invariant p == p0 + |Layout(ss[..k])|
      invariant forall j :: 0 <= j < table.Length ==>
        table[j] == if at <= j < at + k then Pointers(p0, ss)[j - at] else t[j]
    {
      PointersEnd(p0, ss, k);
      PointersLead(m, p0, ss, k);
      StrnlenOf(m, p, ss[k]);
      table[at + k] := p;
      p := Skip(m, p);
    }
    table[at + count] := 0;
  }

  // ---- create_elf_tables, for a stack that grows down. ----

  /** Everything the builder puts on the stack, lowest address first. */
  function StackList(interpAout: bool, sp: nat, w: nat, p: nat, argv: seq<Bytes>, envp: seq<Bytes>, auxv: seq<nat>): seq<nat> {
    [|argv|] + (if interpAout then [sp + w * 3, sp + w * (3 + |argv| + 1)] else [])
      + Pointers(p, argv) + [0] + Pointers(p + |Layout(argv)|, envp) + [0] + auxv
  }

  /** STACK_ROUND(STACK_ADD(p, aux), items) */
  function StackRound(p: nat, w: nat, cells: nat): nat {
    if p < w * cells then 0 else ((p - w * cells) / 16) * 16
  }

  /** The tables are aligned, and end at or below the strings. */
  lemma StackRoundBelow(p: nat, w: nat, cells: nat)
    requires w * cells <= p
    ensures StackRound(p, w, cells) % 16 == 0
    ensures StackRound(p, w, cells) + w * cells <= p < StackRound(p, w, cells) + w * cells + 16
  {
  }

  /** What create_elf_tables puts between the tables and the strings: the platform string and its NUL, above them a
      distance that depends on the process. */
  function PlatformSize(platform: Option<Bytes>, shuffle: nat): nat {
    if platform.Some? then shuffle + |platform.value| + 1 else 0
  }

  /** Memory with the platform string and its NUL at u. */
  function WithPlatform(m: Bytes, platform: Option<Bytes>, u: nat): (r: Bytes)
    ensures |r| == |m|
  {
    if platform.Some? && u + |platform.value| + 1 <= |m|
    then m[..u] + (platform.value + [0]) + m[u + |platform.value| + 1..] else m
  }

  /** Strings above it stay where they are. */
  lemma PlatformBelow(m: Bytes, platform: Option<Bytes>, u: nat, p: nat, ss: seq<Bytes>)
    requires LaidOut(m, p, ss) && (platform.Some? ==> u + |platform.value| + 1 <= p)
    ensures LaidOut(WithPlatform(m, platform, u), p, ss)
  {
    hide Layout;
    var r := WithPlatform(m, platform, u);
    assert r[p..p + |Layout(ss)|] == m[p..p + |Layout(ss)|];
  }

  lemma PlatformAt(m: Bytes, s: Bytes, u: nat)
    requires u + |s| + 1 <= |m|
    ensures StringAt(WithPlatform(m, Some(s), u), u, s)
  {
  }

  /** create_elf_tables.  The strings start at argStart, which is also the stack position it begins with; the platform
      string goes below them, and the tables below that. */
  method ElfTables(m0: Bytes, argStart: nat, platform: Option<Bytes>, shuffle: nat, w: nat, interpAout: bool,
                   auxv: seq<nat>, argc: nat, envc: nat, ghost argv: seq<Bytes>, ghost envp: seq<Bytes>)
    returns (sp: nat, uPlatform: nat, m: Bytes, cells: array<nat>, argEnd: nat, envEnd: nat)
    requires argc == |argv| && envc == |envp| && AllNoNul(argv) && AllNoNul(envp)
    requires LaidOut(m0, argStart, argv) && LaidOut(m0, argStart + |Layout(argv)|, envp)
    requires w * (argc + 1 + (envc + 1) + (if interpAout then 3 else 1) + |auxv|) + PlatformSize(platform, shuffle) <= argStart
    ensures sp % 16 == 0 && fresh(cells) && m == WithPlatform(m0, platform, uPlatform)
    ensures platform.Some? ==> sp + w * cells.Length <= uPlatform && uPlatform + |platform.value| + 1 + shuffle == argStart
    ensures platform.Some? ==> StringAt(m, uPlatform, platform.value)
    ensures platform.None? ==> sp + w * cells.Length <= argStart
    ensures LaidOut(m, argStart, argv) && LaidOut(m, argStart + |Layout(argv)|, envp)
    ensures cells[..] == StackList(interpAout, sp, w, argStart, argv, envp, auxv)
    ensures argEnd == argStart + |Layout(argv)| && envEnd == argEnd + |Layout(envp)|
  {
    hide Layout; hide StackList; hide AllNoNul; hide WithPlatform; hide StringAt;
    var p := argStart;
    uPlatform := 0;
    if platform.Some? {
      p := p - shuffle;
      p := p - (|platform.value| + 1);
      uPlatform := p;
      PlatformAt(m0, platform.value, uPlatform);
    }
    m := WithPlatform(m0, platform, uPlatform);
    PlatformBelow(m0, platform, uPlatform, argStart, argv);
    PlatformBelow(m0, platform, uPlatform, argStart + |Layout(argv)|, envp);
    hide LaidOut;
    sp, cells, argEnd, envEnd := TablesBelow(m, p, argStart, w, interpAout, auxv, argc, envc, argv, envp);
  }

  /** The tables, below p. */
  method TablesBelow(m: Bytes, p: nat, argStart: nat, w: nat, interpAout: bool, auxv: seq<nat>, argc: nat, envc: nat,
                     ghost argv: seq<Bytes>, ghost envp: seq<Bytes>)
    returns (sp: nat, cells: array<nat>, argEnd: nat, envEnd: nat)
    requires argc == |argv| && envc == |envp| && AllNoNul(argv) && AllNoNul(envp)
    requires LaidOut(m, argStart, argv) && LaidOut(m, argStart + |Layout(argv)|, envp)
    requires w * (argc + 1 + (envc + 1) + (if interpAout then 3 else 1) + |auxv|) <= p
    ensures sp % 16 == 0 && sp + w * cells.Length <= p && fresh(cells)
    ensures cells[..] == StackList(interpAout, sp, w, argStart, argv, envp, auxv)
    ensures argEnd == argStart + |Layout(argv)| && envEnd == argEnd + |Layout(envp)|
  {
    hide LaidOut; hide Layout; hide Pointers; hide StackRound; hide AllNoNul;
    var items := (argc + 1) + (envc + 1) + (if interpAout then 3 else 1);
    var total := items + |auxv|;
    StackRoundBelow(p, w, total);
    sp := StackRound(p, w, total);
    cells := new nat[total];
    var at := PutHead(cells, argc, interpAout, sp + w * 3, sp + w * (3 + argc + 1));
    ghost var head := cells[..at];
    argEnd, envEnd := Fill(m, argStart, cells, at, argc, envc, auxv, argv, envp);
  }

  /** create_aout_tables: the same without an auxiliary vector, below the strings at p, aligned to words.  pointers
      says whether the architecture also pushes the addresses of the tables. */
  method AoutTables(m: Bytes, p: nat, w: nat, pointers: bool, argc: nat, envc: nat,
                    ghost argv: seq<Bytes>, ghost envp: seq<Bytes>)
    returns (sp: nat, cells: array<nat>, argEnd: nat, envEnd: nat)
    requires argc == |argv| && envc == |envp| && AllNoNul(argv) && AllNoNul(envp)
    requires LaidOut(m, p, argv) && LaidOut(m, p + |Layout(argv)|, envp)
    requires 0 < w && w * (argc + 1 + (envc + 1) + (if pointers then 3 else 1)) <= WordAlign(p, w)
    ensures sp % w == 0 && sp + w * cells.Length <= p && fresh(cells)
    ensures cells[..] == StackList(pointers, sp, w, p, argv, envp, [])
    ensures argEnd == p + |Layout(argv)| && envEnd == argEnd + |Layout(envp)|
  {
    hide LaidOut; hide Layout; hide Pointers; hide AllNoNul;
    var total := (argc + 1) + (envc + 1) + (if pointers then 3 else 1);
    WordAlignBelow(p, w, total);
    sp := WordAlign(p, w) - w * total;
    hide WordAlign;
    cells := new nat[total];
    var at := PutHead(cells, argc, pointers, sp + w * 3, sp + w * (3 + argc + 1));
    ghost var head := cells[..at];
    argEnd, envEnd := Fill(m, p, cells, at, argc, envc, [], argv, envp);
  }

  /** p & -sizeof(char *) */
  function WordAlign(p: nat, w: nat): nat
    requires 0 < w
  {
    (p / w) * w
  }

  lemma WordAlignBelow(p: nat, w: nat, cells: nat)
    requires 0 < w && w * cells <= WordAlign(p, w)
    ensures WordAlign(p, w) <= p && (WordAlign(p, w) - w * cells) % w == 0
  {
    var q := p / w;
    assert q * w - w * cells == (q - cells) * w;
    ModUnique((q - cells) * w, w, q - cells, 0);
  }

  /** argc, and the addresses of the tables if they are wanted. */
  method PutHead(cells: array<nat>, argc: nat, pointers: bool, argv: nat, envp: nat) returns (at: nat)
    requires cells.Length >= 3 || (!pointers && cells.Length >= 1)
    modifies cells
    ensures at == (if pointers then 3 else 1) <= cells.Length
    ensures cells[..at] == [argc] + (if pointers then [argv, envp] else [])
  {
    cells[0] := argc;
    at := 1;
    if pointers {
      cells[1] := argv;
      cells[2] := envp;
      at := 3;
    }
  }

  /** Both tables and what follows them. */
  method Fill(m: Bytes, p: nat, cells: array<nat>, at: nat, argc: nat, envc: nat, auxv: seq<nat>,
              ghost argv: seq<Bytes>, ghost envp: seq<Bytes>)
    returns (argEnd: nat, envEnd: nat)
    requires argc == |argv| && envc == |envp| && AllNoNul(argv) && AllNoNul(envp)
    requires LaidOut(m, p, argv) && LaidOut(m, p + |Layout(argv)|, envp)
    requires cells.Length == at + (argc + 1) + (envc + 1) + |auxv|
    modifies cells
    ensures argEnd == p + |Layout(argv)| && envEnd == argEnd + |Layout(envp)|
    ensures cells[..] == old(cells[..at]) + Pointers(p, argv) + [0] + Pointers(argEnd, envp) + [0] + auxv
  {
    hide LaidOut; hide Layout; hide Pointers;
    ghost var head := cells[..at];
    argEnd := PutPointers(m, p, argc, cells, at, argv);
    ghost var second := cells[..at + argc + 1];
    assert second == head + Pointers(p, argv) + [0];
    envEnd := PutPointers(m, argEnd, envc, cells, at + argc + 1, envp);
    assert cells[..at + (argc + 1) + (envc + 1)] == second + Pointers(argEnd, envp) + [0];
    PutAll(cells, at + (argc + 1) + (envc + 1), auxv);
  }

  /** copy_to_user of the auxiliary vector. */
  method PutAll(cells: array<nat>, at: nat, vs: seq<nat>)
    requires at + |vs| == cells.Length
    modifies cells
    ensures cells[..] == old(cells[..at]) + vs
  {
    ghost var t := cells[..];
    for k := 0 to |vs|
      invariant forall j :: 0 <= j < cells.Length ==> cells[j] == if at <= j < at + k then vs[j - at] else t[j]
    {
      cells[at + k] := vs[k];
    }
  }

  // ---- Copying and reading back. ----

  /** The argument area as the new program sees it. */
  function Seen(pages: Pages, ps: nat, top: nat): Bytes { Area(pages, ps, 0, top) }

  lemma SeenSlice(before: Pages, after: Pages, ps: nat, top: nat, pos: nat, all: Bytes, k: nat, b: Bytes)
    requires Wrote(before, after, ps, pos, all) && pos + |all| <= top && k + |b| <= |all| && all[k..k + |b|] == b
    ensures Seen(after, ps, top)[pos + k..pos + k + |b|] == b
  {
    hide Byte;
    var m := Seen(after, ps, top);
    forall i | 0 <= i < |b| ensures m[pos + k + i] == b[i] {
      assert m[pos + k + i] == Byte(after, ps, pos + k + i);
      assert b[i] == all[k..k + |b|][i] == all[k + i];
    }
  }

  /** What was copied is laid out for the table builders. */
  lemma CopiedIsLaidOut(before: Pages, after: Pages, ps: nat, top: nat, pos: nat, argv: seq<Bytes>, envp: seq<Bytes>, name: Bytes)
    requires Wrote(before, after, ps, pos, Layout(argv) + Layout(envp) + name)
    requires pos + |Layout(argv) + Layout(envp) + name| <= top
    ensures LaidOut(Seen(after, ps, top), pos, argv)
    ensures LaidOut(Seen(after, ps, top), pos + |Layout(argv)|, envp)
  {
    hide Wrote; hide Layout; hide Seen; hide Area;
    var a, e := Layout(argv), Layout(envp);
    var all := a + e + name;
    assert all[0..|a|] == a && all[|a|..|a| + |e|] == e;
    SeenSlice(before, after, ps, top, pos, all, 0, a);
    SeenSlice(before, after, ps, top, pos, all, |a|, e);
    SeenLength(after, ps, top);
  }

  lemma SeenLength(pages: Pages, ps: nat, top: nat)
    ensures |Seen(pages, ps, top)| == top
  {
  }

  /** A stack: the count, pointers to the arguments, NULL, pointers to the environment, NULL. */
  ghost predicate Leads(m: Bytes, l: seq<nat>, argv: seq<Bytes>, envp: seq<Bytes>) {
    && |l| >= 1 + |argv| + 1 + |envp| + 1 && l[0] == |argv|
    && (forall i :: 0 <= i < |argv| ==> StringAt(m, l[1 + i], argv[i])) && l[1 + |argv|] == 0
    && (forall j :: 0 <= j < |envp| ==> StringAt(m, l[1 + |argv| + 1 + j], envp[j])) && l[1 + |argv| + 1 + |envp|] == 0
  }

  /** The address space of the new program: the argument area lies at base. */
  function Space(base: nat, pages: Pages, ps: nat, top: nat): (r: Bytes)
    ensures |r| == base + top
  {
    seq(base, _ => 0) + Seen(pages, ps, top)
  }

  lemma LaidOutHigher(low: Bytes, m: Bytes, p: nat, ss: seq<Bytes>)
    requires LaidOut(m, p, ss)
    ensures LaidOut(low + m, |low| + p, ss)
  {
    hide Layout;
    assert (low + m)[|low| + p..|low| + p + |Layout(ss)|] == m[p..p + |Layout(ss)|];
  }

  /** How many bytes execve copies. */
  function Copied(filename: Bytes, argv: seq<Bytes>, envp: seq<Bytes>): nat {
    |Layout(argv)| + |Layout(envp)| + |filename| + 1
  }

  /** How many bytes create_elf_tables puts below them. */
  function Below(argv: seq<Bytes>, envp: seq<Bytes>, platform: Option<Bytes>, shuffle: nat, w: nat, auxv: seq<nat>): nat {
    w * (|argv| + 1 + (|envp| + 1) + 1 + |auxv|) + PlatformSize(platform, shuffle)
  }

  /** From execve to the new stack.  The strings go into the argument area, which is then mapped at base, and the tables
      below the strings may reach below the area.  Given pages, it succeeds if and only if the strings fit in the area;
      then every argv and envp pointer leads to the string given to execve, through the copy into pages and the scan for
      NULs. */
  method ExecStack(bprm: Bprm, base: nat, filename: Bytes, argv: seq<Bytes>, envp: seq<Bytes>, platform: Option<Bytes>,
                   shuffle: nat, w: nat, auxv: seq<nat>)
    returns (status: int, sp: nat, uPlatform: nat, m: Bytes, cells: array<nat>)
    requires bprm.Valid() && AllNoNul(argv) && AllNoNul(envp)
    requires Copied(filename, argv, envp) <= bprm.p
             ==> Below(argv, envp, platform, shuffle, w, auxv) + Copied(filename, argv, envp) <= base + bprm.p
    modifies bprm
    ensures old(Absent(bprm.pages) <= bprm.spare) ==> (status == 0 <==> Copied(filename, argv, envp) <= old(bprm.p))
    ensures status == 0 ==> bprm.p + Copied(filename, argv, envp) == old(bprm.p)
    ensures status == 0 ==> sp % 16 == 0 && sp + w * cells.Length + PlatformSize(platform, shuffle) <= base + bprm.p
    ensures status == 0 ==> m == WithPlatform(Space(base, bprm.pages, bprm.ps, old(bprm.p)), platform, uPlatform)
    ensures status == 0 ==> Leads(m, cells[..], argv, envp)
    ensures status == 0 && platform.Some? ==> StringAt(m, uPlatform, platform.value)
  {
    hide Wrote; hide Layout; hide Byte; hide Pointers; hide Seen; hide LaidOut; hide Leads; hide Absent;
    hide AllNoNul; hide Room; hide WithPlatform; hide StringAt;
    hide StackList;
    sp, uPlatform, m, cells := 0, 0, [], new nat[0];
    var top := bprm.p;
    ghost var before := bprm.pages;
    ValuesOf(argv);
    ValuesOf(envp);
    status := bprm.CopyAll(filename, Wrapped(argv), Wrapped(envp));
    if status != 0 { return; }
    CopiedIsLaidOut(before, bprm.pages, bprm.ps, top, bprm.p, argv, envp, filename + [0]);
    var argStart := base + bprm.p;
    LaidOutHigher(seq(base, _ => 0), Seen(bprm.pages, bprm.ps, top), bprm.p, argv);
    LaidOutHigher(seq(base, _ => 0), Seen(bprm.pages, bprm.ps, top), bprm.p + |Layout(argv)|, envp);
    var argEnd, envEnd;
    sp, uPlatform, m, cells, argEnd, envEnd := ElfTables(Space(base, bprm.pages, bprm.ps, top), argStart, platform, shuffle,
                                                         w, false, auxv, |argv|, |envp|, argv, envp);
    ListLeads(m, sp, w, argStart, argv, envp, auxv);
  }

  function Wrapped(ss: seq<Bytes>): (r: seq<Option<Bytes>>)
    ensures |r| == |ss|
  {
    seq(|ss|, i requires 0 <= i < |ss| => Some(ss[i]))
  }

  lemma ValuesOf(ss: seq<Bytes>)
    ensures Values(Wrapped(ss)) == ss && AllReadable(Wrapped(ss))
  {
  }

  lemma ListLeads(m: Bytes, sp: nat, w: nat, p: nat, argv: seq<Bytes>, envp: seq<Bytes>, auxv: seq<nat>)
    requires LaidOut(m, p, argv) && LaidOut(m, p + |Layout(argv)|, envp)
    ensures Leads(m, StackList(false, sp, w, p, argv, envp, auxv), argv, envp)
  {
    hide StringAt; hide LaidOut; hide Layout; hide Pointers;
    var l := StackList(false, sp, w, p, argv, envp, auxv);
    var a, e := Pointers(p, argv), Pointers(p + |Layout(argv)|, envp);
    assert l == [|argv|] + [] + a + [0] + e + [0] + auxv;
    assert [|argv|] + [] == [|argv|];
    forall i | 0 <= i < |argv| ensures StringAt(m, l[1 + i], argv[i]) {
      PointersLead(m, p, argv, i);
      assert l[1 + i] == a[i];
    }
    forall j | 0 <= j < |envp| ensures StringAt(m, l[1 + |argv| + 1 + j], envp[j]) {
      PointersLead(m, p + |Layout(argv)|, envp, j);
      assert l[1 + |argv| + 1 + j] == e[j];
    }
  }
}
