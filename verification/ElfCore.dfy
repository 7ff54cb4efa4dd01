/** The two-pass core dumper of binfmt_elf.c: the offsets promised in the program headers of the first pass
    are where the second pass puts the bytes.  Words are stored least significant byte first. */
module ElfCore {
  import opened BlockModes
  import opened BlockStream
  import opened ByteIndex
  import opened Wrappers

  // ---- The file. ----

  /** A file that is written front to back.  What was skipped reads as zeros once something is written behind it;
      moving the position alone does not make the file longer. */
  class DumpFile {
    var data: Bytes
    var pos: nat

    ghost predicate Valid()
      reads this
    {
      |data| <= pos
    }

    /** The file, and zeros for what was skipped after its end. */
    ghost function Content(): (r: Bytes)
      requires Valid()
      reads this
      ensures |r| == pos
    {
      data + Zeros(pos - |data|)
    }

    constructor ()
      ensures Valid() && pos == 0 && data == Content() == []
    {
      data, pos := [], 0;
    }

    /** dump_write */
    method Write(b: Bytes)
      requires Valid()
      modifies this
      ensures Valid() && Content() == old(Content()) + b && pos == old(pos) + |b|
      ensures data == if b == [] then old(data) else Content()
    {
      if |b| > 0 {
        data := data + Zeros(pos - |data|) + b;
        pos := pos + |b|;
      }
    }

    /** dump_seek, forwards */
    method Seek(off: nat)
      requires Valid() && pos <= off
      modifies this
      ensures Valid() && Content() == old(Content()) + Zeros(off - old(pos)) && pos == off
      ensures data == old(data)
    {
      ZerosSplit(pos - |data|, off - pos);
      Assoc(data, Zeros(pos - |data|), Zeros(off - pos));
      pos := off;
    }
  }

  // ---- Notes. ----

  /** struct memelfnote; the name without its NUL. */
  datatype Note = Note(name: Bytes, ntype: nat, desc: Bytes)

  /** roundup(x, 4) */
  function Up4(x: nat): nat { ((x + 3) / 4) * 4 }

  /** notesize */
  function NoteSize(n: Note): nat {
    12 + Up4(|n.name| + 1) + Up4(|n.desc|)
  }

  function NotesSize(notes: seq<Note>): nat {
    if notes == [] then 0 else NoteSize(notes[0]) + NotesSize(notes[1..])
  }

  /** Where the last byte of a note at p is written; its padding is skipped. */
  function NoteEnd(n: Note, p: nat): nat {
    p + 12 + if n.desc == [] then |n.name| + 1 else Up4(|n.name| + 1) + |n.desc|
  }

  /** Where notes from p on leave the end of a file that ended at e. */
  function NotesEnd(notes: seq<Note>, p: nat, e: nat): nat {
    if notes == [] then e else NoteEnd(notes[|notes| - 1], p + NotesSize(notes[..|notes| - 1]))
  }

  function Head(n: Note): (r: Bytes)
    ensures |r| == 12
  {
    Le(|n.name| + 1, 4) + Le(|n.desc|, 4) + Le(n.ntype, 4)
  }

  function Padded4(b: Bytes): (r: Bytes)
    ensures |r| == Up4(|b|)
  {
    b + Zeros(Up4(|b|) - |b|)
  }

  /** A note as it appears in a file. */
  function NoteImage(n: Note): (r: Bytes)
    ensures |r| == NoteSize(n)
  {
    Head(n) + (Padded4(n.name + [0]) + Padded4(n.desc))
  }

  function NotesImage(notes: seq<Note>): (r: Bytes)
    ensures |r| == NotesSize(notes)
  {
    if notes == [] then [] else NoteImage(notes[0]) + NotesImage(notes[1..])
  }

  lemma {:induction false} NotesSnoc(notes: seq<Note>, i: nat)
    requires i < |notes|
    ensures NotesImage(notes[..i + 1]) == NotesImage(notes[..i]) + NoteImage(notes[i])
    ensures NotesSize(notes[..i + 1]) == NotesSize(notes[..i]) + NoteSize(notes[i])
    decreases i
  {
    assert notes[..i + 1][1..] == notes[1..][..i];
    if i > 0 {
      assert notes[..i][1..] == notes[1..][..i - 1];
      NotesSnoc(notes[1..], i - 1);
      Assoc(NoteImage(notes[0]), NotesImage(notes[1..][..i - 1]), NoteImage(notes[i]));
    }
  }

  lemma Up4Aligned(p: nat, x: nat)
    requires p % 4 == 0
    ensures Up4(p + x) == p + Up4(x) && Up4(x) % 4 == 0 && x <= Up4(x)
  {
    var q := p / 4;
    assert p == 4 * q;
    assert (p + x + 3) / 4 == q + (x + 3) / 4 by { Quarter(q, x + 3); }
  }

  lemma Quarter(q: nat, y: nat)
    ensures (4 * q + y) / 4 == q + y / 4
  {
  }

  /** writenote: where the position is a multiple of four, a note takes exactly notesize bytes. */
  method WriteNote(file: DumpFile, n: Note)
    requires file.Valid() && file.pos % 4 == 0
    modifies file
    ensures file.Valid() && file.pos == old(file.pos) + NoteSize(n) && file.pos % 4 == 0
    ensures file.Content() == old(file.Content()) + NoteImage(n) && |file.data| == NoteEnd(n, old(file.pos))
  {
    hide Le; hide Zeros; hide Up4;
    ghost var c := file.Content();
    file.Write(Le(|n.name| + 1, 4) + Le(|n.desc|, 4) + Le(n.ntype, 4));
    WritePadded(file, n.name + [0]);
    WritePadded(file, n.desc);
    Assoc(c + Head(n), Padded4(n.name + [0]), Padded4(n.desc));
    Assoc(c, Head(n), Padded4(n.name + [0]) + Padded4(n.desc));
    NoteAligned(n);
  }

  lemma NoteAligned(n: Note)
    ensures NoteSize(n) % 4 == 0
  {
  }

  method WritePadded(file: DumpFile, b: Bytes)
    requires file.Valid() && file.pos % 4 == 0
    modifies file
    ensures file.Valid() && file.pos == old(file.pos) + Up4(|b|) && file.pos % 4 == 0
    ensures file.Content() == old(file.Content()) + Padded4(b)
    ensures |file.data| == if b == [] then old(|file.data|) else old(file.pos) + |b|
  {
    hide Zeros;
    ghost var c, p := file.Content(), file.pos;
    file.Write(b);
    Up4Aligned(p, |b|);
    file.Seek(Up4(file.pos));
    Assoc(c, b, Zeros(Up4(|b|) - |b|));
  }

  // ---- Reading notes back. ----

  /** The notes in a PT_NOTE range, found by the sizes in their headers. */
  function ParseNotes(b: Bytes): seq<Note>
    decreases |b|
  {
    if |b| < 12 then []
    else
      var ns, ds, ty := FromLe(b[..4]), FromLe(b[4..8]), FromLe(b[8..12]);
      var at := 12 + Up4(ns);
      var next := at + Up4(ds);
      if ns == 0 || next > |b| then []
      else [Note(b[12..12 + ns - 1], ty, b[at..at + ds])] + ParseNotes(b[next..])
  }

  ghost predicate Fits(n: Note) {
    |n.name| + 1 < 0x1_0000_0000 && |n.desc| < 0x1_0000_0000 && n.ntype < 0x1_0000_0000
  }

  lemma HeadParses(n: Note, rest: Bytes)
    requires Fits(n)
    ensures var b := NoteImage(n) + rest;
      FromLe(b[..4]) == |n.name| + 1 && FromLe(b[4..8]) == |n.desc| && FromLe(b[8..12]) == n.ntype
  {
    hide Le; hide FromLe; hide Pow256; hide Padded4;
    Powers();
    FromLeLe(|n.name| + 1, 4);
    FromLeLe(|n.desc|, 4);
    FromLeLe(n.ntype, 4);
    var b := NoteImage(n) + rest;
    assert b[..12] == Head(n);
    assert b[..4] == b[..12][..4] == Le(|n.name| + 1, 4);
    assert b[4..8] == b[..12][4..8] == Le(|n.desc|, 4);
    assert b[8..12] == b[..12][8..12] == Le(n.ntype, 4);
  }

  lemma BodyParses(n: Note, rest: Bytes)
    ensures var b := NoteImage(n) + rest;
      var at := 12 + Up4(|n.name| + 1);
      NoteSize(n) <= |b| && at + |n.desc| <= |b| && b[12..12 + |n.name|] == n.name
      && b[at..at + |n.desc|] == n.desc && b[NoteSize(n)..] == rest
  {
    hide Head;
    var b, at := NoteImage(n) + rest, 12 + Up4(|n.name| + 1);
    var name, desc := Padded4(n.name + [0]), Padded4(n.desc);
    assert b[12..at] == name;
    assert b[at..NoteSize(n)] == desc;
    assert b[12..12 + |n.name|] == b[12..at][..|n.name|];
    assert b[at..at + |n.desc|] == b[at..NoteSize(n)][..|n.desc|];
  }

  lemma OneParses(n: Note, rest: Bytes)
    requires Fits(n)
    ensures ParseNotes(NoteImage(n) + rest) == [n] + ParseNotes(rest)
  {
    hide NoteImage; hide FromLe;
    HeadParses(n, rest);
    BodyParses(n, rest);
  }

  /** Every sequence of notes is recovered from its image. */
  lemma {:induction false} NotesRoundTrip(notes: seq<Note>)
    requires forall i :: 0 <= i < |notes| ==> Fits(notes[i])
    ensures ParseNotes(NotesImage(notes)) == notes
  {
    hide ParseNotes; hide NoteImage;
    if notes == [] {
      NothingParses();
    } else {
      OneParses(notes[0], NotesImage(notes[1..]));
      NotesRoundTrip(notes[1..]);
    }
  }

  lemma NothingParses()
    ensures ParseNotes([]) == []
  {
  }

  /** The notes of all threads, thread by thread. */
  function AllNotes(threads: seq<seq<Note>>): seq<Note> {
    if threads == [] then [] else AllNotes(threads[..|threads| - 1]) + threads[|threads| - 1]
  }

  // ---- Memory areas and program headers. ----

  /** The parts of a struct vm_area_struct the dumper looks at.  A page is None where the dumper finds no
      page or the zero page. */
  datatype Vma = Vma(start: nat, size: nat, io: bool, shared: bool, reserved: bool, anon: bool,
                     read: bool, write: bool, exec: bool, pages: seq<Option<Bytes>>)

  predicate MayDump(v: Vma) {
    !v.io && !v.shared && !v.reserved && v.anon
  }

  /** How many pages the loop over [vm_start, vm_end) visits. */
  function PageCount(size: nat, pageSize: nat): nat
    decreases size
  {
    if size == 0 || pageSize == 0 then 0 else 1 + PageCount(if size < pageSize then 0 else size - pageSize, pageSize)
  }

  /** Every page visited is one page long. */
  ghost predicate WellPaged(v: Vma, pageSize: nat) {
    && |v.pages| == PageCount(v.size, pageSize)
    && forall i :: 0 <= i < |v.pages| && v.pages[i].Some? ==> |v.pages[i].value| == pageSize
  }

  datatype Phdr = NoteHdr(offset: nat, filesz: nat)
                | LoadHdr(offset: nat, vaddr: nat, filesz: nat, memsz: nat, r: bool, w: bool, x: bool, align: nat)

  /** Sizes and encodings that depend on the ELF class and the machine. */
  datatype Format = Format(ehdrSize: nat, phdrSize: nat, pageSize: nat, execPage: nat,
                           ehdr: nat -> Bytes, phdr: Phdr -> Bytes)

  ghost predicate Good(f: Format) {
    && f.ehdrSize % 4 == 0 && f.phdrSize % 4 == 0 && 0 < f.pageSize && 0 < f.execPage
    && (forall n :: |f.ehdr(n)| == f.ehdrSize) && (forall p :: |f.phdr(p)| == f.phdrSize)
  }

  function FileSize(v: Vma): nat { if MayDump(v) then v.size else 0 }

  function FileSizes(vmas: seq<Vma>): nat {
    if vmas == [] then 0 else FileSizes(vmas[..|vmas| - 1]) + FileSize(vmas[|vmas| - 1])
  }

  function Load(f: Format, v: Vma, offset: nat): Phdr {
    LoadHdr(offset, v.start, FileSize(v), v.size, v.read, v.write, v.exec, f.execPage)
  }

  /** The program headers of the first i areas. */
  function PhdrImage(f: Format, vmas: seq<Vma>, dataoff: nat): Bytes {
    if vmas == [] then []
    else
      var k := |vmas| - 1;
      PhdrImage(f, vmas[..k], dataoff) + f.phdr(Load(f, vmas[k], dataoff + FileSizes(vmas[..k])))
  }

  function PageBytes(p: Option<Bytes>, pageSize: nat): Bytes {
    if p.Some? then p.value else Zeros(pageSize)
  }

  /** The contents of an area, page by page. */
  function Pages(pages: seq<Option<Bytes>>, pageSize: nat): Bytes {
    if pages == [] then [] else Pages(pages[..|pages| - 1], pageSize) + PageBytes(pages[|pages| - 1], pageSize)
  }

  function VmaBytes(v: Vma, pageSize: nat): Bytes {
    if MayDump(v) then Pages(v.pages, pageSize) else []
  }

  function Segments(vmas: seq<Vma>, pageSize: nat): Bytes {
    if vmas == [] then [] else Segments(vmas[..|vmas| - 1], pageSize) + VmaBytes(vmas[|vmas| - 1], pageSize)
  }

  /** Where the notes and the data go. */
  function NoteOff(f: Format, segs: nat): nat {
    f.ehdrSize + Times(segs + 1, f.phdrSize)
  }

  /** n * k, by adding. */
  function Times(n: nat, k: nat): nat {
    if n == 0 then 0 else Times(n - 1, k) + k
  }

  lemma TimesIsProduct(n: nat, k: nat)
    ensures Times(n, k) == n * k
  {
  }

  /** roundup(x, y) */
  function RoundUp(x: nat, y: nat): nat
    requires 0 < y
  {
    ((x + (y - 1)) / y) * y
  }

  lemma RoundUpIsUp(x: nat, y: nat)
    requires 0 < y
    ensures x <= RoundUp(x, y) < x + y && RoundUp(x, y) % y == 0
  {
    var q, r := (x + (y - 1)) / y, (x + (y - 1)) % y;
    assert q * y + r == x + (y - 1);
    ModUnique(q * y, y, q, 0);
  }

  function DataOff(f: Format, segs: nat, notes: seq<Note>): nat
    requires 0 < f.execPage
  {
    RoundUp(NoteOff(f, segs) + NotesSize(notes), f.execPage)
  }

  /** The whole file: headers, notes, a gap up to a page boundary, and the dumped areas. */
  function Image(f: Format, vmas: seq<Vma>, notes: seq<Note>): Bytes
    requires Good(f)
  {
    HeadImage(f, vmas, notes) + Segments(vmas, f.pageSize)
  }

  function HeadImage(f: Format, vmas: seq<Vma>, notes: seq<Note>): Bytes
    requires Good(f)
  {
    var at, sz, dataoff := NoteOff(f, |vmas|), NotesSize(notes), DataOff(f, |vmas|, notes);
    RoundUpIsUp(at + sz, f.execPage);
    f.ehdr(|vmas| + 1) + f.phdr(NoteHdr(at, sz)) + PhdrImage(f, vmas, dataoff) + NotesImage(notes)
      + Zeros(dataoff - (at + sz))
  }

  /** What counts towards the limit: everything written but the notes. */
  function Counted(f: Format, vmas: seq<Vma>): nat {
    f.ehdrSize + Times(|vmas| + 1, f.phdrSize) + Written(vmas, f.pageSize)
  }

  function Written(vmas: seq<Vma>, pageSize: nat): nat {
    if vmas == [] then 0
    else
      var k := |vmas| - 1;
      Written(vmas[..k], pageSize) + (if MayDump(vmas[k]) then PagesWritten(vmas[k].pages, pageSize) else 0)
  }

  function PagesWritten(pages: seq<Option<Bytes>>, pageSize: nat): nat {
    if pages == [] then 0
    else PagesWritten(pages[..|pages| - 1], pageSize) + (if pages[|pages| - 1].Some? then pageSize else 0)
  }

  /** Where the pages of an area from p on leave the end of a file that ended at e: after the last page written. */
  function PagesEnd(pages: seq<Option<Bytes>>, pageSize: nat, p: nat, e: nat): nat {
    if pages == [] then e
    else if pages[|pages| - 1].Some? then p + |Pages(pages, pageSize)|
    else PagesEnd(pages[..|pages| - 1], pageSize, p, e)
  }

  function AreasEnd(vmas: seq<Vma>, pageSize: nat, p: nat, e: nat): nat {
    if vmas == [] then e
    else
      var k := |vmas| - 1;
      var before := AreasEnd(vmas[..k], pageSize, p, e);
      if MayDump(vmas[k]) then PagesEnd(vmas[k].pages, pageSize, p + |Segments(vmas[..k], pageSize)|, before) else before
  }

  /** Where the file ends. */
  function FileEnd(f: Format, vmas: seq<Vma>, notes: seq<Note>): nat
    requires Good(f)
  {
    AreasEnd(vmas, f.pageSize, DataOff(f, |vmas|, notes), NotesEnd(notes, NoteOff(f, |vmas|), NoteOff(f, |vmas|)))
  }

  /** The last page the second pass visits, if it visits any. */
  function LastPage(vmas: seq<Vma>): Option<Option<Bytes>> {
    if vmas == [] then None
    else
      var v := vmas[|vmas| - 1];
      if MayDump(v) && v.pages != [] then Some(v.pages[|v.pages| - 1]) else LastPage(vmas[..|vmas| - 1])
  }
}
