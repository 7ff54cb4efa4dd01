/** elf_core_dump: both passes, and what they make of each other. */
module ElfDump {
  import opened BlockModes
  import opened BlockStream
  import opened ElfCore
  import opened Wrappers

  lemma {:induction false} TimesMonotone(m: nat, n: nat, k: nat)
    requires m <= n
    ensures Times(m, k) <= Times(n, k)
    decreases n
  {
    if m < n { TimesMonotone(m, n - 1, k); }
  }

  lemma TimesOne(k: nat)
    ensures Times(1, k) == k
  {
    assert Times(1, k) == Times(0, k) + k;
  }

  lemma {:induction false} WrittenMonotone(vmas: seq<Vma>, i: nat, pageSize: nat)
    requires i <= |vmas|
    ensures Written(vmas[..i], pageSize) <= Written(vmas, pageSize)
    decreases |vmas|
  {
    if i < |vmas| {
      var front := vmas[..|vmas| - 1];
      WrittenMonotone(front, i, pageSize);
      assert front[..i] == vmas[..i];
    } else {
      assert vmas[..i] == vmas;
    }
  }

  lemma {:induction false} PagesWrittenMonotone(pages: seq<Option<Bytes>>, i: nat, pageSize: nat)
    requires i <= |pages|
    ensures PagesWritten(pages[..i], pageSize) <= PagesWritten(pages, pageSize)
    decreases |pages|
  {
    if i < |pages| {
      var front := pages[..|pages| - 1];
      PagesWrittenMonotone(front, i, pageSize);
      assert front[..i] == pages[..i];
    } else {
      assert pages[..i] == pages;
    }
  }

  /** The first pass: a program header for every area, with the offset its bytes will have. */
  method WriteHeaders(f: Format, vmas: seq<Vma>, dataoff: nat, size0: nat, limit: nat, file: DumpFile)
    returns (ok: bool, size: nat, offset: nat)
    requires Good(f) && file.Valid() && size0 <= limit
    modifies file
    ensures file.Valid() && size >= size0
    ensures ok <==> size0 + Times(|vmas|, f.phdrSize) <= limit
    ensures ok ==> size == size0 + Times(|vmas|, f.phdrSize) && offset == dataoff + FileSizes(vmas)
    ensures ok ==> file.Content() == old(file.Content()) + PhdrImage(f, vmas, dataoff)
    ensures ok ==> file.pos == old(file.pos) + Times(|vmas|, f.phdrSize)
    ensures old(|file.data| == file.pos) ==> |file.data| == file.pos
  {
    hide Load; hide DumpFile.Content; hide PhdrImage; hide FileSizes; hide Times; hide FileSize;
    ghost var c := file.Content();
    size, offset := size0, dataoff;
    NoHeaders(f, vmas, dataoff, c);
    for i := 0 to |vmas|
      invariant file.Valid() && size == size0 + Times(i, f.phdrSize) && size <= limit
      invariant offset == dataoff + FileSizes(vmas[..i])
      invariant file.Content() == c + PhdrImage(f, vmas[..i], dataoff)
      invariant file.pos == old(file.pos) + Times(i, f.phdrSize)
      invariant old(|file.data| == file.pos) ==> |file.data| == file.pos
    {
      PhdrSnoc(f, vmas, i, dataoff, c);
      TimesStep(i, f.phdrSize);
      var phdr := Load(f, vmas[i], offset);
      size := size + f.phdrSize;
      if size > limit {
        TimesMonotone(i + 1, |vmas|, f.phdrSize);
        return false, size, offset;
      }
      file.Write(f.phdr(phdr));
      offset := offset + FileSize(vmas[i]);
    }
    assert vmas[..|vmas|] == vmas;
    ok := true;
  }

  lemma NoHeaders(f: Format, vmas: seq<Vma>, dataoff: nat, c: Bytes)
    ensures FileSizes(vmas[..0]) == 0 && c + PhdrImage(f, vmas[..0], dataoff) == c && Times(0, f.phdrSize) == 0
  {
  }

  lemma PhdrSnoc(f: Format, vmas: seq<Vma>, i: nat, dataoff: nat, c: Bytes)
    requires i < |vmas|
    ensures FileSizes(vmas[..i + 1]) == FileSizes(vmas[..i]) + FileSize(vmas[i])
    ensures c + PhdrImage(f, vmas[..i + 1], dataoff)
         == c + PhdrImage(f, vmas[..i], dataoff) + f.phdr(Load(f, vmas[i], dataoff + FileSizes(vmas[..i])))
  {
    hide Load; hide FileSize;
    assert vmas[..i + 1][..i] == vmas[..i] && vmas[..i + 1][i] == vmas[i];
    Assoc(c, PhdrImage(f, vmas[..i], dataoff), f.phdr(Load(f, vmas[i], dataoff + FileSizes(vmas[..i]))));
  }

  method WriteNotes(notes: seq<Note>, file: DumpFile)
    requires file.Valid() && file.pos % 4 == 0
    modifies file
    ensures file.Valid() && file.pos == old(file.pos) + NotesSize(notes) && file.pos % 4 == 0
    ensures file.Content() == old(file.Content()) + NotesImage(notes)
    ensures |file.data| == NotesEnd(notes, old(file.pos), old(|file.data|))
  {
    hide NoteImage; hide NoteSize; hide NoteEnd;
    ghost var c := file.Content();
    assert notes[..0] == [] && c + [] == c;
    for i := 0 to |notes|
      invariant file.Valid() && file.pos == old(file.pos) + NotesSize(notes[..i]) && file.pos % 4 == 0
      invariant file.Content() == c + NotesImage(notes[..i])
      invariant |file.data| == NotesEnd(notes[..i], old(file.pos), old(|file.data|))
    {
      assert notes[..i + 1][i] == notes[i] && notes[..i + 1][..i] == notes[..i];
      NotesSnoc(notes, i);
      Assoc(c, NotesImage(notes[..i]), NoteImage(notes[i]));
      WriteNote(file, notes[i]);
    }
    assert notes[..|notes|] == notes;
  }

  /** The size of the notes, added up before they are written. */
  method SumNotes(notes: seq<Note>) returns (sz: nat)
    ensures sz == NotesSize(notes)
  {
    hide NoteImage; hide NoteSize;
    sz := 0;
    for i := 0 to |notes|
      invariant sz == NotesSize(notes[..i])
    {
      NotesSnoc(notes, i);
      sz := sz + NoteSize(notes[i]);
    }
    assert notes[..|notes|] == notes;
  }

  /** elf_dump_thread_status: the status of a thread, its floating-point registers if there are any, and the
      room both will take. */
  method ThreadStatus(prstatus: Bytes, fpu: Option<Bytes>) returns (notes: seq<Note>, sz: nat)
    ensures sz == NotesSize(notes)
    ensures notes == [Note(CORE, 1, prstatus)] + (if fpu.Some? then [Note(CORE, 2, fpu.value)] else [])
  {
    hide NoteSize;
    notes := [Note(CORE, 1, prstatus)];
    sz := NoteSize(notes[0]);
    assert notes[1..] == [];
    if fpu.Some? {
      NotesSizeAppend(notes, [Note(CORE, 2, fpu.value)]);
      assert [Note(CORE, 2, fpu.value)][1..] == [];
      notes := notes + [Note(CORE, 2, fpu.value)];
      sz := sz + NoteSize(notes[1]);
    }
  }

  /** "CORE" */
  const CORE: Bytes := [0x43, 0x4f, 0x52, 0x45]

  method SumThreads(threads: seq<seq<Note>>) returns (sz: nat)
    ensures sz == NotesSize(AllNotes(threads))
  {
    hide NotesSize;
    sz := SumNotes([]);
    for i := 0 to |threads|
      invariant sz == NotesSize(AllNotes(threads[..i]))
    {
      assert threads[..i + 1][..i] == threads[..i] && threads[..i + 1][i] == threads[i];
      NotesSizeAppend(AllNotes(threads[..i]), threads[i]);
      var one := SumNotes(threads[i]);
      sz := sz + one;
    }
    assert threads[..|threads|] == threads;
  }

  method WriteThreads(threads: seq<seq<Note>>, file: DumpFile)
    requires file.Valid() && file.pos % 4 == 0
    modifies file
    ensures file.Valid() && file.pos == old(file.pos) + NotesSize(AllNotes(threads)) && file.pos % 4 == 0
    ensures file.Content() == old(file.Content()) + NotesImage(AllNotes(threads))
    ensures |file.data| == NotesEnd(AllNotes(threads), old(file.pos), old(|file.data|))
  {
    hide NotesSize; hide NotesImage; hide NoteEnd; hide NotesEnd;
    ghost var c := file.Content();
    NoNotes(file.pos, |file.data|);
    assert c + [] == c;
    for i := 0 to |threads|
      invariant file.Valid() && file.pos == old(file.pos) + NotesSize(AllNotes(threads[..i])) && file.pos % 4 == 0
      invariant file.Content() == c + NotesImage(AllNotes(threads[..i]))
      invariant |file.data| == NotesEnd(AllNotes(threads[..i]), old(file.pos), old(|file.data|))
    {
      NotesEndAppend(AllNotes(threads[..i]), threads[i], old(file.pos), old(|file.data|));
      assert threads[..i + 1][..i] == threads[..i] && threads[..i + 1][i] == threads[i];
      NotesSizeAppend(AllNotes(threads[..i]), threads[i]);
      Assoc(c, NotesImage(AllNotes(threads[..i])), NotesImage(threads[i]));
      WriteNotes(threads[i], file);
    }
    assert threads[..|threads|] == threads;
  }

  lemma NoNotes(p: nat, e: nat)
    ensures NotesSize([]) == 0 && NotesImage([]) == [] && NotesEnd([], p, e) == e
  {
  }

  lemma NotesEndAppend(a: seq<Note>, b: seq<Note>, p: nat, e: nat)
    ensures NotesEnd(a + b, p, e) == NotesEnd(b, p + NotesSize(a), NotesEnd(a, p, e))
  {
    hide NoteEnd; hide NotesSize; hide NotesImage; hide NotesEnd;
    LastOf(a, b);
    if b == [] {
      NoNotes(p + NotesSize(a), NotesEnd(a, p, e));
    } else {
      var c, n := b[..|b| - 1], b[|b| - 1];
      NotesEndSnoc(a + c, n, p, e);
      NotesEndSnoc(c, n, p + NotesSize(a), NotesEnd(a, p, e));
      NotesSizeAppend(a, c);
    }
  }

  lemma LastOf(a: seq<Note>, b: seq<Note>)
    ensures b == [] ==> a + b == a
    ensures b != [] ==> b == b[..|b| - 1] + [b[|b| - 1]] && a + b == (a + b[..|b| - 1]) + [b[|b| - 1]]
  {
  }

  lemma NotesEndSnoc(notes: seq<Note>, n: Note, p: nat, e: nat)
    ensures NotesEnd(notes + [n], p, e) == NoteEnd(n, p + NotesSize(notes))
  {
    hide NoteEnd; hide NotesSize;
    assert (notes + [n])[..|notes|] == notes;
  }

  /** The second pass over one area: page by page, skipping those that are missing or zero. */
  method WriteArea(v: Vma, pageSize: nat, size0: nat, limit: nat, file: DumpFile) returns (ok: bool, size: nat)
    requires 0 < pageSize && file.Valid() && WellPaged(v, pageSize) && size0 <= limit
    modifies file
    ensures file.Valid() && size >= size0
    ensures ok <==> size0 + PagesWritten(v.pages, pageSize) <= limit
    ensures ok ==> size == size0 + PagesWritten(v.pages, pageSize)
    ensures ok ==> file.Content() == old(file.Content()) + Pages(v.pages, pageSize)
    ensures ok ==> |file.data| == PagesEnd(v.pages, pageSize, old(file.pos), old(|file.data|))
  {
    hide PageBytes; hide Pages; hide PagesWritten; hide PagesEnd; hide DumpFile.Content;
    ghost var c, p, e := file.Content(), file.pos, |file.data|;
    size := size0;
    var addr, k := v.start, 0;
    NoPages(v.pages, pageSize, c, p, e);
    while addr < v.start + v.size
      invariant file.Valid() && v.start <= addr && k <= |v.pages|
      invariant PageCount(if addr < v.start + v.size then v.start + v.size - addr else 0, pageSize) == |v.pages| - k
      invariant size == size0 + PagesWritten(v.pages[..k], pageSize) && size <= limit
      invariant file.Content() == c + Pages(v.pages[..k], pageSize)
      invariant |file.data| == PagesEnd(v.pages[..k], pageSize, p, e)
    {
      NextPage(v.pages, k, pageSize, c, p, e);
      PagesWrittenMonotone(v.pages, k + 1, pageSize);
      ok, size := WritePage(v.pages[k], pageSize, size, limit, file);
      if !ok { return false, size; }
      k := k + 1;
      addr := addr + pageSize;
    }
    assert v.pages[..k] == v.pages;
    ok := true;
  }

  lemma NoPages(pages: seq<Option<Bytes>>, pageSize: nat, c: Bytes, p: nat, e: nat)
    ensures c + Pages(pages[..0], pageSize) == c && PagesWritten(pages[..0], pageSize) == 0
    ensures PagesEnd(pages[..0], pageSize, p, e) == e
  {
  }

  /** One page more. */
  lemma NextPage(pages: seq<Option<Bytes>>, k: nat, pageSize: nat, c: Bytes, p: nat, e: nat)
    requires k < |pages| && |c| == p
    ensures c + Pages(pages[..k + 1], pageSize) == c + Pages(pages[..k], pageSize) + PageBytes(pages[k], pageSize)
    ensures PagesWritten(pages[..k + 1], pageSize)
         == PagesWritten(pages[..k], pageSize) + (if pages[k].Some? then pageSize else 0)
    ensures PagesEnd(pages[..k + 1], pageSize, p, e)
         == if pages[k].Some? then |c + Pages(pages[..k + 1], pageSize)| else PagesEnd(pages[..k], pageSize, p, e)
  {
    hide PageBytes;
    assert pages[..k + 1][..k] == pages[..k] && pages[..k + 1][k] == pages[k];
    Assoc(c, Pages(pages[..k], pageSize), PageBytes(pages[k], pageSize));
  }

  /** One page: written if there is one, skipped otherwise. */
  method WritePage(page: Option<Bytes>, pageSize: nat, size0: nat, limit: nat, file: DumpFile)
    returns (ok: bool, size: nat)
    requires 0 < pageSize && file.Valid() && size0 <= limit && (page.Some? ==> |page.value| == pageSize)
    modifies file
    ensures file.Valid() && size == size0 + (if page.Some? then pageSize else 0)
    ensures ok <==> size <= limit
    ensures ok ==> file.Content() == old(file.Content()) + PageBytes(page, pageSize)
    ensures ok ==> |file.data| == if page.Some? then |file.Content()| else old(|file.data|)
  {
    size, ok := size0, true;
    if page.None? {
      file.Seek(file.pos + pageSize);
    } else {
      size := size + pageSize;
      if size > limit { return false, size; }
      file.Write(page.value);
    }
  }

  method WriteAreas(vmas: seq<Vma>, pageSize: nat, size0: nat, limit: nat, file: DumpFile) returns (ok: bool)
    requires 0 < pageSize && file.Valid() && size0 <= limit
    requires forall i :: 0 <= i < |vmas| ==> WellPaged(vmas[i], pageSize)
    modifies file
    ensures file.Valid()
    ensures ok <==> size0 + Written(vmas, pageSize) <= limit
    ensures ok ==> file.Content() == old(file.Content()) + Segments(vmas, pageSize)
    ensures ok ==> |file.data| == AreasEnd(vmas, pageSize, old(file.pos), old(|file.data|))
  {
    hide Pages; hide PagesWritten; hide WellPaged; hide PagesEnd;
    ghost var c := file.Content();
    var size := size0;
    assert vmas[..0] == [] && c + [] == c;
    for i := 0 to |vmas|
      invariant file.Valid() && size == size0 + Written(vmas[..i], pageSize) && size <= limit
      invariant file.Content() == c + Segments(vmas[..i], pageSize)
      invariant |file.data| == AreasEnd(vmas[..i], pageSize, old(file.pos), old(|file.data|))
    {
      assert vmas[..i + 1][..i] == vmas[..i] && vmas[..i + 1][i] == vmas[i];
      Assoc(c, Segments(vmas[..i], pageSize), VmaBytes(vmas[i], pageSize));
      WrittenMonotone(vmas, i + 1, pageSize);
      if MayDump(vmas[i]) {
        ok, size := WriteArea(vmas[i], pageSize, size, limit, file);
        if !ok { return false; }
      }
    }
    assert vmas[..|vmas|] == vmas;
    ok := true;
  }

  /** The file of a complete dump: it ends with the last byte written, and zeros complete it to the image. */
  ghost predicate IsDump(f: Format, vmas: seq<Vma>, notes: seq<Note>, data: Bytes)
    requires Good(f)
  {
    var image := Image(f, vmas, notes);
    |data| == FileEnd(f, vmas, notes) <= |image| && image == data + Zeros(|image| - |data|)
  }

  /** elf_core_dump.  The dump is complete exactly when what it counts stays within the limit, and then the
      file is the image up to the last byte written, with nothing but zeros missing.  offset is the end of the data as
      the first pass computed it, and the position the second pass ends at is compared with it: they agree exactly when
      every dumped area is a whole number of pages. */
  method CoreDump(f: Format, vmas: seq<Vma>, mapCount: nat, own: seq<Note>, threads: seq<seq<Note>>,
                  limit: nat, file: DumpFile)
    returns (done: bool, offset: nat)
    requires Good(f) && mapCount == |vmas| && file.Valid() && file.pos == 0
    requires forall i :: 0 <= i < |vmas| ==> WellPaged(vmas[i], f.pageSize)
    modifies file
    ensures done <==> Counted(f, vmas) <= limit
    ensures done ==> file.Valid() && IsDump(f, vmas, own + AllNotes(threads), file.data)
    ensures done ==> file.pos == |Image(f, vmas, own + AllNotes(threads))|
    ensures done ==> offset == DataOff(f, |vmas|, own + AllNotes(threads)) + FileSizes(vmas)
    ensures done ==> (file.pos == offset <==> PageAligned(vmas, f.pageSize))
  {
    hide Segments; hide PhdrImage; hide NotesImage; hide NotesSize; hide Zeros; hide RoundUp; hide WellPaged; hide IsDump;
    hide DumpFile.Content; hide Times; hide Image; hide AllNotes; hide FileSizes; hide PageAligned;
    var threadSize := SumThreads(threads);
    var sz := SumNotes(own);
    NotesSizeAppend(own, AllNotes(threads));
    sz := sz + threadSize;
    TimesMonotone(1, mapCount + 1, f.phdrSize);
    TimesOne(f.phdrSize);
    done, offset := WriteStart(f, mapCount, sz, limit, file);
    if !done { return; }
    var dataoff := RoundUp(offset + sz, f.execPage);
    done, offset := Body(f, vmas, own, threads, dataoff, f.ehdrSize + f.phdrSize, limit, file);
    EndExactly(f, vmas, own + AllNotes(threads));
  }

  /** The header of the file and the program header of the notes. */
  method WriteStart(f: Format, segs: nat, sz: nat, limit: nat, file: DumpFile) returns (ok: bool, offset: nat)
    requires Good(f) && file.Valid() && file.pos == 0
    modifies file
    ensures ok <==> f.ehdrSize + f.phdrSize <= limit
    ensures ok ==> offset == NoteOff(f, segs) && file.Valid() && file.pos == |file.data| == f.ehdrSize + f.phdrSize
    ensures ok ==> file.Content() == f.ehdr(segs + 1) + f.phdr(NoteHdr(offset, sz))
  {
    hide DumpFile.Content; hide Times;
    Untouched(file, f.ehdr(segs + 1));
    ok, offset := false, 0;
    var size := f.ehdrSize;
    if size > limit { return; }
    file.Write(f.ehdr(segs + 1));
    offset := TableSize(segs + 1, f.phdrSize);
    offset := f.ehdrSize + offset;
    size := size + f.phdrSize;
    if size > limit { return; }
    file.Write(f.phdr(NoteHdr(offset, sz)));
    ok := true;
  }

  lemma Untouched(file: DumpFile, b: Bytes)
    requires file.Valid() && file.pos == 0
    ensures file.data == [] && file.Content() + b == b
  {
  }

  method TableSize(n: nat, k: nat) returns (r: nat)
    ensures r == Times(n, k)
  {
    TimesIsProduct(n, k);
    r := n * k;
  }

  /** elf_core_dump after the headers of the file and of the notes. */
  method Body(f: Format, vmas: seq<Vma>, own: seq<Note>, threads: seq<seq<Note>>, dataoff: nat, size0: nat,
              limit: nat, file: DumpFile)
    returns (done: bool, offset: nat)
    requires Good(f) && file.Valid() && size0 <= limit && size0 == f.ehdrSize + f.phdrSize
    requires forall i :: 0 <= i < |vmas| ==> WellPaged(vmas[i], f.pageSize)
    requires file.pos == |file.data| == f.ehdrSize + f.phdrSize && dataoff == DataOff(f, |vmas|, own + AllNotes(threads))
    requires file.Content() == f.ehdr(|vmas| + 1) + f.phdr(NoteHdr(NoteOff(f, |vmas|), NotesSize(own + AllNotes(threads))))
    modifies file
    ensures done <==> Counted(f, vmas) <= limit
    ensures done ==> file.Valid() && IsDump(f, vmas, own + AllNotes(threads), file.data)
    ensures done ==> file.pos == |Image(f, vmas, own + AllNotes(threads))|
    ensures done ==> offset == dataoff + FileSizes(vmas)
  {
    hide Segments; hide HeadImage; hide NotesSize; hide WellPaged; hide IsDump; hide DumpFile.Content; hide NotesEnd;
    hide AreasEnd; hide DataOff; hide Times; hide FileSizes;
    var size;
    done, size, offset := WriteHead(f, vmas, own, threads, dataoff, size0, limit, file);
    if !done { return; }
    done := WriteAreas(vmas, f.pageSize, size, limit, file);
    if done { Dumped(f, vmas, own + AllNotes(threads), file); }
  }

  /** The program headers of the areas, the notes, and the gap before the data. */
  method WriteHead(f: Format, vmas: seq<Vma>, own: seq<Note>, threads: seq<seq<Note>>, dataoff: nat, size0: nat,
                   limit: nat, file: DumpFile)
    returns (ok: bool, size: nat, offset: nat)
    requires Good(f) && file.Valid() && size0 <= limit && size0 == f.ehdrSize + f.phdrSize
    requires file.pos == |file.data| == f.ehdrSize + f.phdrSize && dataoff == DataOff(f, |vmas|, own + AllNotes(threads))
    requires file.Content() == f.ehdr(|vmas| + 1) + f.phdr(NoteHdr(NoteOff(f, |vmas|), NotesSize(own + AllNotes(threads))))
    modifies file
    ensures ok <==> f.ehdrSize + Times(|vmas| + 1, f.phdrSize) <= limit
    ensures ok ==> size == f.ehdrSize + Times(|vmas| + 1, f.phdrSize) && offset == dataoff + FileSizes(vmas)
    ensures ok ==> file.Valid() && file.pos == dataoff && file.Content() == HeadImage(f, vmas, own + AllNotes(threads))
    ensures ok ==> |file.data| == NotesEnd(own + AllNotes(threads), NoteOff(f, |vmas|), NoteOff(f, |vmas|))
  {
    hide PhdrImage; hide NotesImage; hide NotesSize; hide Zeros; hide RoundUp; hide DumpFile.Content; hide NotesEnd;
    hide Times; hide FileSizes; hide AllNotes;
    TimesStep(|vmas|, f.phdrSize);
    ok, size, offset := WriteHeaders(f, vmas, dataoff, size0, limit, file);
    if !ok { return; }
    TimesAligned(|vmas| + 1, f.phdrSize);
    ghost var c := file.Content();
    WriteNotes(own, file);
    WriteThreads(threads, file);
    NotesSizeAppend(own, AllNotes(threads));
    NotesEndAppend(own, AllNotes(threads), NoteOff(f, |vmas|), NoteOff(f, |vmas|));
    Assoc(c, NotesImage(own), NotesImage(AllNotes(threads)));
    RoundUpIsUp(NoteOff(f, |vmas|) + NotesSize(own + AllNotes(threads)), f.execPage);
    file.Seek(dataoff);
  }

  lemma Dumped(f: Format, vmas: seq<Vma>, notes: seq<Note>, file: DumpFile)
    requires Good(f) && file.Valid() && file.Content() == Image(f, vmas, notes) && |file.data| == FileEnd(f, vmas, notes)
    ensures IsDump(f, vmas, notes, file.data)
  {
    hide Image; hide FileEnd;
  }

  /** How a file ends, part by part. */
  lemma {:induction false} PagesEndExactly(pages: seq<Option<Bytes>>, pageSize: nat, p: nat, e: nat)
    requires 0 < pageSize && e <= p
    requires forall i :: 0 <= i < |pages| && pages[i].Some? ==> |pages[i].value| == pageSize
    ensures PagesEnd(pages, pageSize, p, e) <= p + |Pages(pages, pageSize)|
    ensures pages != [] ==> (PagesEnd(pages, pageSize, p, e) == p + |Pages(pages, pageSize)| <==> pages[|pages| - 1].Some?)
  {
    if pages != [] { PagesEndExactly(pages[..|pages| - 1], pageSize, p, e); }
  }

  lemma AreaEnd(v: Vma, pageSize: nat, p: nat, e: nat)
    requires 0 < pageSize && e <= p && WellPaged(v, pageSize)
    ensures PagesEnd(v.pages, pageSize, p, e) <= p + |Pages(v.pages, pageSize)|
    ensures if v.pages == [] then PagesEnd(v.pages, pageSize, p, e) == e && Pages(v.pages, pageSize) == []
            else PagesEnd(v.pages, pageSize, p, e) == p + |Pages(v.pages, pageSize)| <==> v.pages[|v.pages| - 1].Some?
  {
    PagesEndExactly(v.pages, pageSize, p, e);
  }

  lemma {:induction false} AreasEndExactly(vmas: seq<Vma>, pageSize: nat, p: nat, e: nat)
    requires 0 < pageSize && e <= p && AllPaged(vmas, pageSize)
    ensures AreasEnd(vmas, pageSize, p, e) <= p + |Segments(vmas, pageSize)|
    ensures AreasEnd(vmas, pageSize, p, e) == p + |Segments(vmas, pageSize)|
            <==> if LastPage(vmas).Some? then LastPage(vmas).value.Some? else e == p
  {
    hide Pages; hide PagesEnd; hide WellPaged; hide AllPaged; hide MayDump;
    if vmas != [] {
      var k := |vmas| - 1;
      PagedFront(vmas, k, pageSize);
      AreasEndExactly(vmas[..k], pageSize, p, e);
      AreaEnd(vmas[k], pageSize, p + |Segments(vmas[..k], pageSize)|, AreasEnd(vmas[..k], pageSize, p, e));
    }
  }

  lemma PagedFront(vmas: seq<Vma>, k: nat, pageSize: nat)
    requires k < |vmas| && AllPaged(vmas, pageSize)
    ensures AllPaged(vmas[..k], pageSize) && WellPaged(vmas[k], pageSize)
  {
    hide WellPaged;
  }

  lemma NotesEndBound(notes: seq<Note>, p: nat)
    ensures NotesEnd(notes, p, p) <= p + NotesSize(notes)
  {
    if notes != [] {
      var k := |notes| - 1;
      NotesSnoc(notes, k);
      assert notes[..k + 1] == notes;
    }
  }

  /** The whole image is in the file if and only if the last page visited was written; with no page at all, if and
      only if the notes end on the boundary the data would start at. */
  lemma FileEndExactly(f: Format, vmas: seq<Vma>, notes: seq<Note>, data: Bytes)
    requires Good(f) && AllPaged(vmas, f.pageSize) && IsDump(f, vmas, notes, data)
    ensures data <= Image(f, vmas, notes)
    ensures data == Image(f, vmas, notes)
            <==> if LastPage(vmas).Some? then LastPage(vmas).value.Some?
                 else NotesEnd(notes, NoteOff(f, |vmas|), NoteOff(f, |vmas|)) == DataOff(f, |vmas|, notes)
  {
    hide HeadImage; hide Segments; hide RoundUp; hide AreasEnd; hide LastPage; hide NotesEnd; hide Zeros; hide NoteOff;
    hide NotesSize; hide DataOff; hide AllPaged;
    var e, p := NotesEnd(notes, NoteOff(f, |vmas|), NoteOff(f, |vmas|)), DataOff(f, |vmas|, notes);
    HeadLength(f, vmas, notes);
    NotesBeforeData(f, vmas, notes);
    AreasEndExactly(vmas, f.pageSize, p, e);
    Prefix(data, Zeros(|Image(f, vmas, notes)| - |data|));
  }

  lemma NotesBeforeData(f: Format, vmas: seq<Vma>, notes: seq<Note>)
    requires Good(f)
    ensures NotesEnd(notes, NoteOff(f, |vmas|), NoteOff(f, |vmas|)) <= DataOff(f, |vmas|, notes)
  {
    hide RoundUp; hide NotesEnd; hide NoteOff; hide NotesSize;
    RoundUpIsUp(NoteOff(f, |vmas|) + NotesSize(notes), f.execPage);
    NotesEndBound(notes, NoteOff(f, |vmas|));
  }

  lemma Prefix(a: Bytes, b: Bytes)
    ensures a <= a + b && (a == a + b <==> |b| == 0)
  {
  }

  lemma OneMissing(v: Vma, pageSize: nat, p: nat, e: nat)
    requires v.pages == [None]
    ensures AreasEnd([v], pageSize, p, e) == e
  {
    assert v.pages[..0] == [] && [v][..0] == [];
    assert AreasEnd([v][..0], pageSize, p, e) == e;
    assert PagesEnd(v.pages, pageSize, p + |Segments([v][..0], pageSize)|, e) == PagesEnd([], pageSize, p, e) == e;
  }

  /** An area whose only page was never touched: the file stops short of the bytes its program header names. */
  lemma ShortFileExample(f: Format, notes: seq<Note>, data: Bytes)
    requires Good(f)
    requires IsDump(f, [Vma(0, f.pageSize, false, false, false, true, true, true, false, [None])], notes, data)
    ensures var v := Vma(0, f.pageSize, false, false, false, true, true, true, false, [None]);
      && AllPaged([v], f.pageSize) && PageAligned([v], f.pageSize)
      && |data| <= DataOff(f, 1, notes) < DataOff(f, 1, notes) + FileSize(v) == |Image(f, [v], notes)|
  {
    hide HeadImage; hide RoundUp; hide Zeros; hide NotesEnd;
    var v := Vma(0, f.pageSize, false, false, false, true, true, true, false, [None]);
    assert PageCount(f.pageSize, f.pageSize) == 1 + PageCount(0, f.pageSize);
    assert WellPaged(v, f.pageSize) && Whole(f.pageSize, f.pageSize);
    assert [v][..0] == [] && v.pages[..0] == [];
    EndExactly(f, [v], notes);
    RoundUpIsUp(NoteOff(f, 1) + NotesSize(notes), f.execPage);
    NotesEndBound(notes, NoteOff(f, 1));
    assert FileSizes([v]) == FileSizes([]) + FileSize(v);
    OneMissing(v, f.pageSize, DataOff(f, 1, notes), NotesEnd(notes, NoteOff(f, 1), NoteOff(f, 1)));
  }

  lemma {:induction false} NotesSizeAppend(a: seq<Note>, b: seq<Note>)
    ensures NotesSize(a + b) == NotesSize(a) + NotesSize(b)
    ensures NotesImage(a + b) == NotesImage(a) + NotesImage(b)
  {
    hide NoteImage; hide NoteSize;
    if a == [] {
      assert a + b == b;
    } else {
      assert (a + b)[1..] == a[1..] + b;
      NotesSizeAppend(a[1..], b);
      Assoc(NoteImage(a[0]), NotesImage(a[1..]), NotesImage(b));
    }
  }

  lemma {:induction false} TimesAligned(n: nat, k: nat)
    requires k % 4 == 0
    ensures Times(n, k) % 4 == 0
  {
    if n != 0 { TimesAligned(n - 1, k); }
  }

  // ---- Reading the file by its headers. ----

  /** Every dumped area is a whole number of pages. */
  ghost predicate PageAligned(vmas: seq<Vma>, pageSize: nat)
    requires 0 < pageSize
  {
    forall i :: 0 <= i < |vmas| && MayDump(vmas[i]) ==> Whole(vmas[i].size, pageSize)
  }

  ghost predicate AllPaged(vmas: seq<Vma>, pageSize: nat) {
    forall i :: 0 <= i < |vmas| ==> WellPaged(vmas[i], pageSize)
  }

  /** The pages visited cover an area, and exactly if it is a whole number of pages. */
  lemma {:induction false} CountExactly(size: nat, pageSize: nat)
    requires 0 < pageSize
    ensures Times(PageCount(size, pageSize), pageSize) >= size
    ensures Times(PageCount(size, pageSize), pageSize) == size <==> Whole(size, pageSize)
    decreases size
  {
    if size >= pageSize {
      CountExactly(size - pageSize, pageSize);
    } else if size > 0 {
      assert PageCount(size, pageSize) == 1 + PageCount(0, pageSize) == 1;
      assert Times(1, pageSize) == Times(0, pageSize) + pageSize;
    }
  }

  lemma {:induction false} PagesLength(pages: seq<Option<Bytes>>, pageSize: nat)
    requires forall i :: 0 <= i < |pages| && pages[i].Some? ==> |pages[i].value| == pageSize
    ensures |Pages(pages, pageSize)| == Times(|pages|, pageSize)
  {
    if pages != [] { PagesLength(pages[..|pages| - 1], pageSize); }
  }

  lemma AreaLength(v: Vma, pageSize: nat)
    requires 0 < pageSize && WellPaged(v, pageSize)
    ensures |VmaBytes(v, pageSize)| >= FileSize(v)
    ensures |VmaBytes(v, pageSize)| == FileSize(v) <==> (MayDump(v) ==> Whole(v.size, pageSize))
  {
    CountExactly(v.size, pageSize);
    PagesLength(v.pages, pageSize);
  }

  /** The second pass agrees with the offsets of the first exactly when the areas are whole pages. */
  lemma {:induction false} OffsetsExactly(vmas: seq<Vma>, pageSize: nat)
    requires 0 < pageSize && AllPaged(vmas, pageSize)
    ensures |Segments(vmas, pageSize)| >= FileSizes(vmas)
    ensures |Segments(vmas, pageSize)| == FileSizes(vmas) <==> PageAligned(vmas, pageSize)
  {
    if vmas != [] {
      var k := |vmas| - 1;
      hide VmaBytes; hide FileSize; hide Whole; hide WellPaged;
      assert AllPaged(vmas[..k], pageSize);
      OffsetsExactly(vmas[..k], pageSize);
      AreaLength(vmas[k], pageSize);
      assert PageAligned(vmas, pageSize)
        <==> PageAligned(vmas[..k], pageSize) && (MayDump(vmas[k]) ==> Whole(vmas[k].size, pageSize)) by {
        if PageAligned(vmas[..k], pageSize) && (MayDump(vmas[k]) ==> Whole(vmas[k].size, pageSize)) {
          forall i | 0 <= i < |vmas| && MayDump(vmas[i]) ensures Whole(vmas[i].size, pageSize) {
            if i < k { assert vmas[..k][i] == vmas[i]; }
          }
        }
        if PageAligned(vmas, pageSize) {
          forall i | 0 <= i < k && MayDump(vmas[..k][i]) ensures Whole(vmas[..k][i].size, pageSize) {
            assert vmas[..k][i] == vmas[i];
          }
        }
      }
    }
  }

  lemma {:induction false} PhdrLength(f: Format, vmas: seq<Vma>, dataoff: nat)
    requires Good(f)
    ensures |PhdrImage(f, vmas, dataoff)| == Times(|vmas|, f.phdrSize)
  {
    if vmas != [] { PhdrLength(f, vmas[..|vmas| - 1], dataoff); }
  }

  lemma HeadLength(f: Format, vmas: seq<Vma>, notes: seq<Note>)
    requires Good(f)
    ensures |HeadImage(f, vmas, notes)| == DataOff(f, |vmas|, notes)
  {
    hide RoundUp;
    PhdrLength(f, vmas, DataOff(f, |vmas|, notes));
    RoundUpIsUp(NoteOff(f, |vmas|) + NotesSize(notes), f.execPage);
  }

  /** The image is as long as the first pass said, if and only if every dumped area is a whole number of pages. */
  lemma EndExactly(f: Format, vmas: seq<Vma>, notes: seq<Note>)
    requires Good(f) && AllPaged(vmas, f.pageSize)
    ensures |Image(f, vmas, notes)| == DataOff(f, |vmas|, notes) + FileSizes(vmas) <==> PageAligned(vmas, f.pageSize)
  {
    hide HeadImage; hide Segments;
    HeadLength(f, vmas, notes);
    OffsetsExactly(vmas, f.pageSize);
  }

  /** The notes fill exactly the range their program header names, and read back. */
  lemma NotesAt(f: Format, vmas: seq<Vma>, notes: seq<Note>)
    requires Good(f) && forall i :: 0 <= i < |notes| ==> Fits(notes[i])
    ensures NoteOff(f, |vmas|) + NotesSize(notes) <= |Image(f, vmas, notes)|
    ensures ParseNotes(Image(f, vmas, notes)[NoteOff(f, |vmas|)..NoteOff(f, |vmas|) + NotesSize(notes)]) == notes
  {
    hide RoundUp; hide Segments; hide PhdrImage; hide NotesImage; hide NotesSize; hide ParseNotes; hide Times;
    var at, sz, dataoff := NoteOff(f, |vmas|), NotesSize(notes), DataOff(f, |vmas|, notes);
    PhdrLength(f, vmas, dataoff);
    TimesStep(|vmas|, f.phdrSize);
    RoundUpIsUp(at + sz, f.execPage);
    NotesRoundTrip(notes);
    var before := f.ehdr(|vmas| + 1) + f.phdr(NoteHdr(at, sz)) + PhdrImage(f, vmas, dataoff);
    Middle(before, NotesImage(notes), Zeros(dataoff - (at + sz)), Segments(vmas, f.pageSize));
  }

  lemma TimesStep(n: nat, k: nat)
    ensures Times(n + 1, k) == Times(n, k) + k
  {
  }

  lemma Middle(a: Bytes, b: Bytes, c: Bytes, d: Bytes)
    ensures (a + b + c + d)[|a|..|a| + |b|] == b
  {
  }

  lemma {:induction false} SegmentsSplit(vmas: seq<Vma>, i: nat, pageSize: nat)
    requires i < |vmas|
    ensures |Segments(vmas[..i], pageSize)| + |VmaBytes(vmas[i], pageSize)| <= |Segments(vmas, pageSize)|
    ensures var at := |Segments(vmas[..i], pageSize)|;
      Segments(vmas, pageSize)[at..at + |VmaBytes(vmas[i], pageSize)|] == VmaBytes(vmas[i], pageSize)
    decreases |vmas|
  {
    hide VmaBytes;
    var k := |vmas| - 1;
    var front, last := Segments(vmas[..k], pageSize), VmaBytes(vmas[k], pageSize);
    assert Segments(vmas, pageSize) == front + last;
    hide Segments;
    if i < k {
      SegmentsSplit(vmas[..k], i, pageSize);
      assert vmas[..k][..i] == vmas[..i] && vmas[..k][i] == vmas[i];
      InFront(front, last, |Segments(vmas[..i], pageSize)|, |VmaBytes(vmas[i], pageSize)|);
    } else {
      AtEnd(front, last);
    }
  }

  lemma InFront(a: Bytes, b: Bytes, i: nat, n: nat)
    requires i + n <= |a|
    ensures (a + b)[i..i + n] == a[i..i + n]
  {
  }

  lemma AtEnd(a: Bytes, b: Bytes)
    ensures (a + b)[|a|..|a| + |b|] == b
  {
  }

  /** Where an area's bytes are, and when that is where its program header says. */
  lemma SegmentAt(f: Format, vmas: seq<Vma>, notes: seq<Note>, i: nat)
    requires Good(f) && AllPaged(vmas, f.pageSize) && i < |vmas|
    ensures var at := DataOff(f, |vmas|, notes) + |Segments(vmas[..i], f.pageSize)|;
      at + |VmaBytes(vmas[i], f.pageSize)| <= |Image(f, vmas, notes)|
      && Image(f, vmas, notes)[at..at + |VmaBytes(vmas[i], f.pageSize)|] == VmaBytes(vmas[i], f.pageSize)
      && (at == DataOff(f, |vmas|, notes) + FileSizes(vmas[..i]) <==> PageAligned(vmas[..i], f.pageSize))
  {
    hide HeadImage; hide Segments; hide VmaBytes;
    HeadLength(f, vmas, notes);
    SegmentsSplit(vmas, i, f.pageSize);
    assert AllPaged(vmas[..i], f.pageSize);
    OffsetsExactly(vmas[..i], f.pageSize);
    Shift(HeadImage(f, vmas, notes), Segments(vmas, f.pageSize), |Segments(vmas[..i], f.pageSize)|,
          |VmaBytes(vmas[i], f.pageSize)|);
  }

  lemma Shift(a: Bytes, b: Bytes, i: nat, n: nat)
    requires i + n <= |b|
    ensures (a + b)[|a| + i..|a| + i + n] == b[i..i + n]
  {
  }

  lemma {:induction false} PhdrSplit(f: Format, vmas: seq<Vma>, dataoff: nat, i: nat)
    requires Good(f) && i < |vmas|
    ensures Times(i, f.phdrSize) + f.phdrSize <= |PhdrImage(f, vmas, dataoff)|
    ensures PhdrImage(f, vmas, dataoff)[Times(i, f.phdrSize)..Times(i, f.phdrSize) + f.phdrSize]
         == f.phdr(Load(f, vmas[i], dataoff + FileSizes(vmas[..i])))
    decreases |vmas|
  {
    hide Load; hide Times; hide FileSizes;
    var k := |vmas| - 1;
    var front, last := PhdrImage(f, vmas[..k], dataoff), f.phdr(Load(f, vmas[k], dataoff + FileSizes(vmas[..k])));
    assert PhdrImage(f, vmas, dataoff) == front + last;
    hide PhdrImage;
    PhdrLength(f, vmas[..k], dataoff);
    if i < k {
      PhdrSplit(f, vmas[..k], dataoff, i);
      assert vmas[..k][..i] == vmas[..i] && vmas[..k][i] == vmas[i];
      InFront(front, last, Times(i, f.phdrSize), f.phdrSize);
    } else {
      AtEnd(front, last);
    }
  }

  /** The i-th entry of the program header table. */
  lemma HeaderAt(f: Format, vmas: seq<Vma>, notes: seq<Note>, i: nat)
    requires Good(f) && i < |vmas|
    ensures var slot := f.ehdrSize + f.phdrSize + Times(i, f.phdrSize);
      && slot + f.phdrSize <= |Image(f, vmas, notes)|
      && Image(f, vmas, notes)[slot..slot + f.phdrSize]
         == f.phdr(Load(f, vmas[i], DataOff(f, |vmas|, notes) + FileSizes(vmas[..i])))
  {
    hide Segments; hide PhdrImage; hide NotesImage; hide NotesSize; hide Times; hide RoundUp; hide Load; hide FileSizes;
    var dataoff := DataOff(f, |vmas|, notes);
    PhdrSplit(f, vmas, dataoff, i);
    var at, sz := NoteOff(f, |vmas|), NotesSize(notes);
    RoundUpIsUp(at + sz, f.execPage);
    Deep(f.ehdr(|vmas| + 1) + f.phdr(NoteHdr(at, sz)), PhdrImage(f, vmas, dataoff), NotesImage(notes),
         Zeros(dataoff - (at + sz)), Segments(vmas, f.pageSize), Times(i, f.phdrSize), f.phdrSize);
  }

  /** A reader of the file: the i-th entry of the program header table, and the bytes it points to, are those of
      the i-th area, whenever the areas are whole pages. */
  lemma CoreReadable(f: Format, vmas: seq<Vma>, notes: seq<Note>, i: nat)
    requires Good(f) && AllPaged(vmas, f.pageSize) && PageAligned(vmas, f.pageSize) && i < |vmas|
    ensures var slot := f.ehdrSize + f.phdrSize + Times(i, f.phdrSize);
      var h := Load(f, vmas[i], DataOff(f, |vmas|, notes) + FileSizes(vmas[..i]));
      && slot + f.phdrSize <= |Image(f, vmas, notes)| && Image(f, vmas, notes)[slot..slot + f.phdrSize] == f.phdr(h)
      && h.offset + h.filesz <= |Image(f, vmas, notes)|
      && Image(f, vmas, notes)[h.offset..h.offset + h.filesz] == VmaBytes(vmas[i], f.pageSize)
  {
    hide Image; hide DataOff; hide Segments; hide Times; hide VmaBytes; hide FileSize; hide FileSizes; hide Whole;
    hide WellPaged;
    HeaderAt(f, vmas, notes, i);
    SegmentAt(f, vmas, notes, i);
    assert PageAligned(vmas[..i], f.pageSize);
    AreaLength(vmas[i], f.pageSize);
  }

  /** What reads as n bytes from a on by a reader that takes what is not in the file for zeros. */
  function ReadPadded(data: Bytes, a: nat, n: nat): Bytes {
    seq(n, i requires 0 <= i => if a + i < |data| then data[a + i] else 0)
  }

  lemma PaddedSlice(data: Bytes, gap: nat, a: nat, n: nat)
    requires a + n <= |data| + gap
    ensures (data + Zeros(gap))[a..a + n] == ReadPadded(data, a, n)
  {
  }

  /** The same of the file itself: what its i-th program header points to reads as the bytes of the i-th area, if what
      lies behind the end of the file reads as zeros; and as it is, if the last page visited was written. */
  lemma FileReadable(f: Format, vmas: seq<Vma>, notes: seq<Note>, data: Bytes, i: nat)
    requires Good(f) && AllPaged(vmas, f.pageSize) && PageAligned(vmas, f.pageSize) && i < |vmas|
    requires IsDump(f, vmas, notes, data)
    ensures var h := Load(f, vmas[i], DataOff(f, |vmas|, notes) + FileSizes(vmas[..i]));
      && ReadPadded(data, f.ehdrSize + f.phdrSize + Times(i, f.phdrSize), f.phdrSize) == f.phdr(h)
      && ReadPadded(data, h.offset, h.filesz) == VmaBytes(vmas[i], f.pageSize)
      && (LastPage(vmas).Some? && LastPage(vmas).value.Some? ==>
            h.offset + h.filesz <= |data| && data[h.offset..h.offset + h.filesz] == VmaBytes(vmas[i], f.pageSize))
  {
    hide Image; hide DataOff; hide Segments; hide Times; hide VmaBytes; hide FileSize; hide FileSizes; hide FileEnd;
    hide PageAligned; hide AllPaged; hide ReadPadded; hide Zeros; hide LastPage;
    CoreReadable(f, vmas, notes, i);
    FileEndExactly(f, vmas, notes, data);
    var image := Image(f, vmas, notes);
    var h := Load(f, vmas[i], DataOff(f, |vmas|, notes) + FileSizes(vmas[..i]));
    PaddedSlice(data, |image| - |data|, f.ehdrSize + f.phdrSize + Times(i, f.phdrSize), f.phdrSize);
    PaddedSlice(data, |image| - |data|, h.offset, h.filesz);
  }

  /** The notes are read back from the file itself, at the range their program header names: what lies behind the end
      of the file, the padding of a last note, read as zeros; and as it is, if the last page visited was written. */
  lemma NotesInFile(f: Format, vmas: seq<Vma>, notes: seq<Note>, data: Bytes)
    requires Good(f) && AllPaged(vmas, f.pageSize) && IsDump(f, vmas, notes, data)
    requires forall i :: 0 <= i < |notes| ==> Fits(notes[i])
    ensures var at, sz := NoteOff(f, |vmas|), NotesSize(notes);
      && ParseNotes(ReadPadded(data, at, sz)) == notes
      && (LastPage(vmas).Some? && LastPage(vmas).value.Some? ==>
            at + sz <= |data| && ParseNotes(data[at..at + sz]) == notes)
  {
    hide Image; hide DataOff; hide FileEnd; hide AllPaged; hide ReadPadded; hide Zeros; hide LastPage; hide NoteOff;
    hide NotesSize; hide ParseNotes; hide Fits;
    NotesAt(f, vmas, notes);
    FileEndExactly(f, vmas, notes, data);
    PaddedSlice(data, |Image(f, vmas, notes)| - |data|, NoteOff(f, |vmas|), NotesSize(notes));
  }

  /** What the condition on whole pages keeps out, and the kernel never maps: an area of one byte would take a page
      of the file where its program header counts one byte. */
  lemma UnalignedExample(pageSize: nat, page: Bytes)
    requires pageSize > 1 && |page| == pageSize
    ensures var v := Vma(0, 1, false, false, false, true, true, true, false, [Some(page)]);
      WellPaged(v, pageSize) && |VmaBytes(v, pageSize)| == pageSize && FileSize(v) == 1
  {
    var pages := [Some(page)];
    assert PageCount(1, pageSize) == 1 + PageCount(0, pageSize);
    assert Pages(pages, pageSize) == Pages(pages[..0], pageSize) + page;
  }

  /** The words of the auxiliary vector up to and including its AT_NULL pair. */
  method AuxvWords(auxv: seq<nat>, ghost last: nat) returns (i: nat)
    requires 2 * last + 1 < |auxv| && auxv[2 * last] == 0
    ensures 2 <= i <= |auxv| && i % 2 == 0 && auxv[i - 2] == 0
    ensures forall j :: 0 <= j < i - 2 && j % 2 == 0 ==> auxv[j] != 0
  {
    i := 2;
    while auxv[i - 2] != 0
      invariant 2 <= i <= 2 * last + 2 && i % 2 == 0
      invariant forall j :: 0 <= j < i - 2 && j % 2 == 0 ==> auxv[j] != 0
      decreases 2 * last + 2 - i
    {
      i := i + 2;
    }
  }

  lemma Deep(a: Bytes, b: Bytes, c: Bytes, d: Bytes, e: Bytes, i: nat, n: nat)
    requires i + n <= |b|
    ensures |a| + i + n <= |a + b + c + d + e| && (a + b + c + d + e)[|a| + i..|a| + i + n] == b[i..i + n]
  {
    Shift(a, b, i, n);
    var x := a + b;
    assert (x + c + d + e)[|a| + i..|a| + i + n] == x[|a| + i..|a| + i + n];
  }
}
