/** The shared-library loader of binfmt_flat.c: relocating one library may load others, which may refer back.

    A library file is given by what its loading finds out: the outcome of reading its header and mapping it, the
    addresses it was mapped to, and its relocations.  The word that a relocation entry points to is part of it. */
module FlatLoader {
  import opened Wrappers

  const RELOC_FAILED: nat := 0xff00ff01
  const WORD: nat := 0x1_0000_0000

  /** An entry of lib_list. */
  datatype Lib = Lib(loaded: bool, startCode: nat, startData: nat, startBrk: nat, textLen: nat, entry: nat, date: nat)

  /** A relocation entry: where the pointer is, and the pointer found there. */
  datatype Reloc = Reloc(at: nat, pointer: nat)

  /** status is 0, or the error found before the library is entered in lib_list.  got is the table at the start
      of the data segment up to its terminator, empty without FLAT_FLAG_GOTPIC. */
  datatype Image = Image(status: nat, lib: Lib, got: seq<nat>, relocs: seq<Reloc>)

  /** A pointer written back: where and what. */
  datatype Fix = Fix(at: nat, value: nat)

  /** lib_list, the relocated words of each library, and the libraries in the order they were entered. */
  datatype State = State(libs: seq<Lib>, gots: seq<seq<nat>>, fixes: seq<seq<Fix>>, order: seq<nat>)

  // ---- What a relocation means. ----

  /** The library a relocation refers to: bits 24 to 31, or the current one for 0. */
  function Id(r: nat, cur: nat): nat { if r == 0 then cur else (r / 0x100_0000) % 256 }

  function Offset(r: nat): nat { r % 0x100_0000 }

  predicate Younger(l: Lib, cur: Lib) { l.date != 0 && cur.date != 0 && cur.date < l.date }

  function Size(l: Lib): nat { (l.startBrk - l.startData + l.textLen) % WORD }

  function Address(l: Lib, o: nat): nat {
    (if o < l.textLen then o + l.startCode else o - l.textLen + l.startData) % WORD
  }

  /** The address of a relocation, if it is good: in a loaded library that is not younger than the one referring to
      it, and inside it. */
  function Resolve(libs: seq<Lib>, cur: nat, r: nat, internal: bool): Option<nat>
    requires cur < |libs|
  {
    var id := Id(r, cur);
    if id >= |libs| || (id != cur && (internal || !libs[id].loaded || Younger(libs[id], libs[cur]))) then None
    else if Offset(r) > Size(libs[id]) then None
    else Some(Address(libs[id], Offset(r)))
  }

  // ---- The files. ----

  function LibOf(img: Image): Lib { img.lib.(loaded := true) }

  predicate Usable(files: seq<Option<Image>>, i: nat) {
    i < |files| && files[i].Some? && files[i].value.status == 0
  }

  /** The list as it would be with every usable file loaded. */
  function AllLibs(files: seq<Option<Image>>): (r: seq<Lib>)
    ensures |r| == |files|
  {
    seq(|files|, i requires 0 <= i < |files| =>
      if Usable(files, i) then LibOf(files[i].value) else Lib(false, 0, 0, 0, 0, 0, 0))
  }

  /** A reference of library i is good if it resolves, and not to the value that signals failure. */
  ghost predicate GoodRef(files: seq<Option<Image>>, i: nat, r: nat, internal: bool) {
    i < |files| && Resolve(AllLibs(files), i, r, internal).Some? && Resolve(AllLibs(files), i, r, internal).value != RELOC_FAILED
  }

  function Resolved(files: seq<Option<Image>>, i: nat, r: nat): nat {
    if i < |files| && Resolve(AllLibs(files), i, r, false).Some? then Resolve(AllLibs(files), i, r, false).value else 0
  }

  function Located(files: seq<Option<Image>>, i: nat, r: nat): nat {
    if i < |files| && Resolve(AllLibs(files), i, r, true).Some? then Resolve(AllLibs(files), i, r, true).value else 0
  }

  /** The relocated table of library i, up to its k-th word. */
  function GotDone(files: seq<Option<Image>>, i: nat, got: seq<nat>, k: nat): (r: seq<nat>)
    requires k <= |got|
    ensures |r| == |got|
  {
    seq(|got|, j requires 0 <= j < |got| => if j < k && got[j] != 0 then Resolved(files, i, got[j]) else got[j])
  }

  function FixesDone(files: seq<Option<Image>>, i: nat, relocs: seq<Reloc>): seq<Fix> {
    if relocs == [] then []
    else
      var k := |relocs| - 1;
      FixesDone(files, i, relocs[..k])
        + (if relocs[k].pointer == 0 then []
           else [Fix(Located(files, i, relocs[k].at), Resolved(files, i, relocs[k].pointer))])
  }

  ghost predicate GotRefs(files: seq<Option<Image>>, loaded: set<nat>, i: nat, got: seq<nat>, k: nat) {
    forall j :: 0 <= j < k && j < |got| && got[j] != 0 ==> GoodRef(files, i, got[j], false) && Id(got[j], i) in loaded
  }

  ghost predicate RelocRefs(files: seq<Option<Image>>, loaded: set<nat>, i: nat, relocs: seq<Reloc>, k: nat) {
    forall j :: 0 <= j < k && j < |relocs| ==>
      && GoodRef(files, i, relocs[j].at, true)
      && (relocs[j].pointer != 0 ==> GoodRef(files, i, relocs[j].pointer, false) && Id(relocs[j].pointer, i) in loaded)
  }

  /** Every library of the set is usable and refers only to libraries of the set, and well. */
  ghost predicate Closed(files: seq<Option<Image>>, s: set<nat>) {
    forall i :: i in s ==>
      && Usable(files, i)
      && GotRefs(files, s, i, files[i].value.got, |files[i].value.got|)
      && RelocRefs(files, s, i, files[i].value.relocs, |files[i].value.relocs|)
  }

  // ---- Invariants. ----

  function Loaded(st: State): set<nat> {
    set i | 0 <= i < |st.libs| && st.libs[i].loaded
  }

  ghost predicate Inv(files: seq<Option<Image>>, st: State) {
    && |st.libs| == |st.gots| == |st.fixes| == |files|
    && (forall i :: 0 <= i < |files| && st.libs[i].loaded ==> Usable(files, i) && st.libs[i] == LibOf(files[i].value))
    && (forall i, j :: 0 <= i < j < |st.order| ==> st.order[i] != st.order[j])
    && (forall i :: i in st.order <==> i in Loaded(st))
  }

  /** What was loaded stays as it was; the order only grows. */
  ghost predicate Grown(a: State, b: State) {
    && |a.libs| == |b.libs| == |a.gots| == |b.gots| == |a.fixes| == |b.fixes|
    && a.order <= b.order
    && forall i :: 0 <= i < |a.libs| && a.libs[i].loaded ==>
         b.libs[i] == a.libs[i] && b.gots[i] == a.gots[i] && b.fixes[i] == a.fixes[i]
  }

  /** Library i is loaded and completely relocated, and everything it refers to is loaded. */
  ghost predicate Done(files: seq<Option<Image>>, st: State, i: nat) {
    && i < |files| && Inv(files, st) && st.libs[i].loaded && files[i].Some?
    && GotRefs(files, Loaded(st), i, files[i].value.got, |files[i].value.got|)
    && RelocRefs(files, Loaded(st), i, files[i].value.relocs, |files[i].value.relocs|)
    && st.gots[i] == GotDone(files, i, files[i].value.got, |files[i].value.got|)
    && st.fixes[i] == FixesDone(files, i, files[i].value.relocs)
  }

  /** Every library loaded between a and b is done, except possibly one. */
  ghost predicate NewDone(files: seq<Option<Image>>, a: State, b: State, except: int) {
    |a.libs| == |b.libs| && forall i :: 0 <= i < |b.libs| && b.libs[i].loaded && !a.libs[i].loaded && i != except ==> Done(files, b, i)
  }

  // ---- Lemmas about the invariants. ----

  function Unloaded(libs: seq<Lib>): nat {
    if libs == [] then 0 else (if libs[0].loaded then 0 else 1) + Unloaded(libs[1..])
  }

  lemma {:induction false} UnloadedShrinks(a: seq<Lib>, b: seq<Lib>)
    requires |a| == |b| && forall i :: 0 <= i < |a| && a[i].loaded ==> b[i].loaded
    ensures Unloaded(b) <= Unloaded(a)
    ensures (exists i :: 0 <= i < |a| && !a[i].loaded && b[i].loaded) ==> Unloaded(b) < Unloaded(a)
  {
    if a != [] {
      UnloadedShrinks(a[1..], b[1..]);
      if i :| 0 <= i < |a| && !a[i].loaded && b[i].loaded {
        if i > 0 { assert !a[1..][i - 1].loaded && b[1..][i - 1].loaded; }
      }
    }
  }

  lemma LoadedGrows(a: State, b: State)
    requires Grown(a, b)
    ensures Loaded(a) <= Loaded(b) && Unloaded(b.libs) <= Unloaded(a.libs)
  {
    UnloadedShrinks(a.libs, b.libs);
  }

  lemma GrownTrans(a: State, b: State, c: State)
    requires Grown(a, b) && Grown(b, c)
    ensures Grown(a, c)
  {
  }

  lemma DoneStays(files: seq<Option<Image>>, a: State, b: State, i: nat)
    requires Done(files, a, i) && Grown(a, b) && Inv(files, b)
    ensures Done(files, b, i)
  {
    hide GoodRef; hide GotDone; hide FixesDone; hide Id;
    LoadedGrows(a, b);
  }

  lemma NewDoneTrans(files: seq<Option<Image>>, a: State, b: State, c: State, except: int)
    requires NewDone(files, a, b, except) && NewDone(files, b, c, except) && Grown(b, c) && Inv(files, c)
    ensures NewDone(files, a, c, except)
  {
    hide Done;
    forall i | 0 <= i < |c.libs| && c.libs[i].loaded && !a.libs[i].loaded && i != except ensures Done(files, c, i) {
      if b.libs[i].loaded { DoneStays(files, b, c, i); }
    }
  }

  /** A reference resolves among the loaded libraries exactly as among all, if its target is loaded. */
  lemma ResolveLoaded(files: seq<Option<Image>>, st: State, cur: nat, r: nat, internal: bool)
    requires Inv(files, st) && cur < |files| && st.libs[cur].loaded
    ensures Id(r, cur) < |files| && st.libs[Id(r, cur)].loaded ==>
      Resolve(st.libs, cur, r, internal) == Resolve(AllLibs(files), cur, r, internal)
    ensures Resolve(st.libs, cur, r, internal).Some? ==> Id(r, cur) in Loaded(st)
  {
    hide Id; hide Size; hide Address;
  }

  /** Entering a library in the list. */
  function Entered(st: State, id: nat, img: Image): State
    requires id < |st.libs| == |st.gots| == |st.fixes|
  {
    State(st.libs[id := LibOf(img)], st.gots[id := img.got], st.fixes[id := []], st.order + [id])
  }

  lemma EnteredKeeps(files: seq<Option<Image>>, st: State, id: nat)
    requires Inv(files, st) && Usable(files, id) && !st.libs[id].loaded
    ensures Inv(files, Entered(st, id, files[id].value)) && Grown(st, Entered(st, id, files[id].value))
    ensures Unloaded(Entered(st, id, files[id].value).libs) < Unloaded(st.libs)
    ensures Loaded(Entered(st, id, files[id].value)) == Loaded(st) + {id}
    ensures NewDone(files, st, Entered(st, id, files[id].value), id)
  {
    var b := Entered(st, id, files[id].value);
    assert Loaded(b) == Loaded(st) + {id};
    assert id !in st.order;
    assert !st.libs[id].loaded && b.libs[id].loaded;
    UnloadedShrinks(st.libs, b.libs);
  }

  /** A word of the table, or a pointer, of the library being relocated. */
  function GotSet(st: State, id: nat, k: nat, v: nat): State
    requires id < |st.gots| && k < |st.gots[id]|
  {
    var got: seq<nat> := st.gots[id][k := v];
    st.(gots := st.gots[id := got])
  }

  function FixAdd(st: State, id: nat, f: Fix): State
    requires id < |st.fixes|
  {
    st.(fixes := st.fixes[id := st.fixes[id] + [f]])
  }

  /** Only the words of library id differ. */
  ghost predicate SameBut(a: State, b: State, id: nat) {
    && a.libs == b.libs && a.order == b.order && |a.gots| == |b.gots| && |a.fixes| == |b.fixes|
    && (forall i :: 0 <= i < |a.gots| && i != id ==> a.gots[i] == b.gots[i])
    && (forall i :: 0 <= i < |a.fixes| && i != id ==> a.fixes[i] == b.fixes[i])
  }

  lemma SameButKeeps(files: seq<Option<Image>>, was: State, a: State, b: State, id: nat)
    requires Inv(files, a) && SameBut(a, b, id) && Grown(was, a) && NewDone(files, was, a, id)
    requires id < |files| && !was.libs[id].loaded
    ensures Inv(files, b) && Grown(was, b) && NewDone(files, was, b, id) && Loaded(a) == Loaded(b)
  {
    hide GoodRef; hide GotDone; hide FixesDone; hide Id;
    assert Loaded(a) == Loaded(b);
    forall i | 0 <= i < |b.libs| && b.libs[i].loaded && !was.libs[i].loaded && i != id ensures Done(files, b, i) {
      assert Done(files, a, i);
    }
  }

  lemma NoSuchLibrary(files: seq<Option<Image>>, cur: nat, r: nat, internal: bool)
    requires cur < |files| && Id(r, cur) >= |files|
    ensures !GoodRef(files, cur, r, internal)
  {
  }

  lemma NotInternal(files: seq<Option<Image>>, cur: nat, r: nat)
    requires cur < |files| && Id(r, cur) != cur
    ensures !GoodRef(files, cur, r, true)
  {
  }

  lemma NotUsable(files: seq<Option<Image>>, s: set<nat>, id: nat)
    requires !Usable(files, id)
    ensures !(Closed(files, s) && id in s)
  {
  }

  lemma ClosedRefs(files: seq<Option<Image>>, s: set<nat>, i: nat)
    requires Closed(files, s) && i in s
    ensures Usable(files, i)
    ensures GotRefs(files, s, i, files[i].value.got, |files[i].value.got|)
    ensures RelocRefs(files, s, i, files[i].value.relocs, |files[i].value.relocs|)
  {
  }

  /** What a run of relocations of library id keeps: was is the state before it was entered. */
  ghost predicate Relocating(files: seq<Option<Image>>, was: State, st: State, id: nat) {
    && Inv(files, st) && id < |files| && |was.libs| == |files| && st.libs[id].loaded && !was.libs[id].loaded
    && Grown(was, st) && |st.gots| == |st.fixes| == |files|
  }

  /** Only libraries of a closed set are added. */
  ghost predicate Within(files: seq<Option<Image>>, a: State, b: State, s: set<nat>) {
    Closed(files, s) ==> Loaded(b) <= Loaded(a) + s
  }

  /** If nothing was loaded before, what is loaded now is closed. */
  lemma FreshClosed(files: seq<Option<Image>>, was: State, st: State)
    requires Inv(files, st) && NewDone(files, was, st, -1) && Loaded(was) == {}
    ensures Closed(files, Loaded(st)) && forall i :: i in Loaded(st) ==> Done(files, st, i)
  {
    hide GoodRef; hide Id; hide GotDone; hide FixesDone;
    forall i | i in Loaded(st) ensures Done(files, st, i) {
      assert i !in Loaded(was);
    }
  }

  class Loader {
    const files: seq<Option<Image>>
    var st: State

    constructor (files: seq<Option<Image>>)
      ensures this.files == files && Inv(files, st) && Loaded(st) == {}
    {
      this.files := files;
      var none: seq<nat>, no: seq<Fix> := [], [];
      st := State(seq(|files|, _ => Lib(false, 0, 0, 0, 0, 0, 0)), seq(|files|, _ => none), seq(|files|, _ => no), []);
    }

    /** The loading part of load_flat_binary, whose own file has id 0.  It succeeds if and only if some closed set of
        libraries contains the program; then exactly the least such set has been loaded, each library once, and all
        of them are completely relocated. */
    method LoadBinary(ghost closed: set<nat>) returns (res: int)
      requires Inv(files, st) && Loaded(st) == {} && 0 < |files| && files[0].Some?
      modifies this
      ensures Inv(files, st) && res <= 0
      ensures res == 0 ==> 0 in Loaded(st) && Closed(files, Loaded(st)) && forall i :: i in Loaded(st) ==> Done(files, st, i)
      ensures 0 in closed && Closed(files, closed) ==> res == 0 && Loaded(st) <= closed
    {
      hide GoodRef; hide Id; hide GotDone; hide FixesDone;
      ghost var was := st;
      assert 0 !in Loaded(was);
      res := LoadFile(0, files[0].value, closed);
      if res == 0 { FreshClosed(files, was, st); }
    }

    /** calc_reloc, for the library cur that is being relocated.  closed is any closed set of libraries: within it,
        nothing fails and nothing else is loaded. */
    method CalcReloc(r: nat, cur: nat, internal: bool, ghost closed: set<nat>) returns (addr: nat)
      requires Inv(files, st) && cur < |files| && st.libs[cur].loaded
      modifies this
      ensures Inv(files, st) && Grown(old(st), st)
      ensures addr != RELOC_FAILED ==> GoodRef(files, cur, r, internal) && Id(r, cur) in Loaded(st)
      ensures addr != RELOC_FAILED ==> Resolve(AllLibs(files), cur, r, internal) == Some(addr) && NewDone(files, old(st), st, -1)
      ensures internal || Id(r, cur) in closed ==> Within(files, old(st), st, closed)
      ensures (internal || Id(r, cur) in closed) && Closed(files, closed) && GoodRef(files, cur, r, internal) ==> addr != RELOC_FAILED
      decreases Unloaded(st.libs), 2
    {
      hide Resolve; hide Done; hide Closed; hide Unloaded; hide GoodRef; hide Id;
      var id := Id(r, cur);
      if id >= |st.libs| {
        NoSuchLibrary(files, cur, r, internal);
        return RELOC_FAILED;
      }
      if cur != id {
        if internal {
          NotInternal(files, cur, r);
          return RELOC_FAILED;
        }
        if !st.libs[id].loaded {
          var res := LoadLibrary(id, closed);
          if res < 0 { return RELOC_FAILED; }
        }
      }
      addr := Place(r, cur, id, internal);
    }

    /** The rest of calc_reloc: the library is loaded; its date and the offset are checked. */
    method Place(r: nat, cur: nat, id: nat, internal: bool) returns (addr: nat)
      requires Inv(files, st) && cur < |files| && st.libs[cur].loaded
      requires id == Id(r, cur) < |files| && st.libs[id].loaded
      requires internal ==> id == cur
      ensures addr != RELOC_FAILED <==> GoodRef(files, cur, r, internal)
      ensures addr != RELOC_FAILED ==> Resolve(AllLibs(files), cur, r, internal) == Some(addr)
      ensures id in Loaded(st)
    {
      hide Id; hide Size; hide Address;
      ResolveLoaded(files, st, cur, r, internal);
      if cur != id && st.libs[id].date != 0 && st.libs[cur].date != 0 && st.libs[cur].date < st.libs[id].date {
        return RELOC_FAILED;
      }
      if Offset(r) > Size(st.libs[id]) { return RELOC_FAILED; }
      addr := Address(st.libs[id], Offset(r));
    }

    /** load_flat_shared_library */
    method LoadLibrary(id: nat, ghost closed: set<nat>) returns (res: int)
      requires Inv(files, st) && id < |files| && !st.libs[id].loaded
      modifies this
      ensures res <= 0 && Inv(files, st) && Grown(old(st), st)
      ensures res == 0 ==> st.libs[id].loaded && NewDone(files, old(st), st, -1)
      ensures id in closed ==> Within(files, old(st), st, closed) && (Closed(files, closed) ==> res == 0)
      decreases Unloaded(st.libs), 1
    {
      hide Done; hide Unloaded;
      if files[id].None? { return -2; }
      res := LoadFile(id, files[id].value, closed);
    }

    /** load_flat_file, with everything before the library is entered in the list summed up in the status. */
    method LoadFile(id: nat, img: Image, ghost closed: set<nat>) returns (res: int)
      requires Inv(files, st) && id < |files| && !st.libs[id].loaded && files[id] == Some(img)
      modifies this
      ensures res <= 0 && Inv(files, st) && Grown(old(st), st)
      ensures res == 0 ==> st.libs[id].loaded && NewDone(files, old(st), st, -1)
      ensures id in closed ==> Within(files, old(st), st, closed) && (Closed(files, closed) ==> res == 0)
      decreases Unloaded(st.libs), 0
    {
      hide Done; hide Unloaded; hide Closed; hide NewDone; hide GoodRef;
      if img.status != 0 {
        NotUsable(files, closed, id);
        return 0 - img.status as int;
      }
      ghost var was := st;
      EnteredKeeps(files, st, id);
      st := Entered(st, id, img);
      var ok := RelocateGot(id, img, was, closed);
      if !ok { return -8; }
      ok := RelocateList(id, img, was, closed);
      if !ok { return -8; }
      Finished(files, was, st, id);
      return 0;
    }

    /** The table at the start of the data segment, relocated in place. */
    method RelocateGot(id: nat, img: Image, ghost was: State, ghost closed: set<nat>) returns (ok: bool)
      requires Relocating(files, was, st, id) && NewDone(files, was, st, id)
      requires Usable(files, id) && files[id] == Some(img)
      requires st.gots[id] == img.got && st.fixes[id] == [] && (id in closed ==> Within(files, was, st, closed))
      modifies this
      ensures Relocating(files, was, st, id) && Unloaded(st.libs) <= old(Unloaded(st.libs))
      ensures ok ==> NewDone(files, was, st, id) && st.fixes[id] == [] && st.gots[id] == GotDone(files, id, img.got, |img.got|)
      ensures ok ==> GotRefs(files, Loaded(st), id, img.got, |img.got|)
      ensures id in closed ==> Within(files, was, st, closed) && (Closed(files, closed) ==> ok)
      decreases Unloaded(st.libs), 3
    {
      hide Done; hide Unloaded; hide Closed; hide GoodRef; hide Resolve; hide NewDone; hide Id; hide Inv; hide Grown;
      if Closed(files, closed) && id in closed { ClosedRefs(files, closed, id); }
      for k := 0 to |img.got|
        invariant Relocating(files, was, st, id) && NewDone(files, was, st, id) && st.fixes[id] == []
        invariant st.gots[id] == GotDone(files, id, img.got, k) && GotRefs(files, Loaded(st), id, img.got, k)
        invariant id in closed ==> Within(files, was, st, closed)
        invariant Unloaded(st.libs) <= old(Unloaded(st.libs))
      {
        ok := GotWord(id, img, was, closed, k);
        if !ok { return; }
      }
      ok := true;
    }

    /** One word of the table. */
    method GotWord(id: nat, img: Image, ghost was: State, ghost closed: set<nat>, k: nat) returns (ok: bool)
      requires Relocating(files, was, st, id) && NewDone(files, was, st, id)
      requires Usable(files, id) && files[id] == Some(img)
      requires k < |img.got| && st.fixes[id] == [] && st.gots[id] == GotDone(files, id, img.got, k)
      requires GotRefs(files, Loaded(st), id, img.got, k) && (id in closed ==> Within(files, was, st, closed))
      modifies this
      ensures Relocating(files, was, st, id) && Unloaded(st.libs) <= old(Unloaded(st.libs))
      ensures ok ==> NewDone(files, was, st, id) && st.fixes[id] == [] && st.gots[id] == GotDone(files, id, img.got, k + 1)
      ensures ok ==> GotRefs(files, Loaded(st), id, img.got, k + 1)
      ensures id in closed ==> Within(files, was, st, closed) && (Closed(files, closed) ==> ok)
      decreases Unloaded(st.libs), 3, 0
    {
      hide Done; hide Unloaded; hide Closed; hide GoodRef; hide Resolve; hide NewDone; hide Id; hide GotDone;
      if Closed(files, closed) && id in closed { ClosedRefs(files, closed, id); }
      GotStep(files, id, img.got, k);
      var r := st.gots[id][k];
      if r == 0 { return true; }
      ghost var a := st;
      var addr := CalcReloc(r, id, false, closed);
      LoadedGrows(a, st);
      GrownTrans(was, a, st);
      if addr == RELOC_FAILED { return false; }
      Continued(files, was, a, st, id);
      ghost var mid := st;
      st := GotSet(st, id, k, addr);
      SameButKeeps(files, was, mid, st, id);
      ok := true;
    }

    /** The relocation entries behind the image: the place of each pointer is in the library itself. */
    method RelocateList(id: nat, img: Image, ghost was: State, ghost closed: set<nat>) returns (ok: bool)
      requires Relocating(files, was, st, id) && NewDone(files, was, st, id)
      requires Usable(files, id) && files[id] == Some(img)
      requires st.gots[id] == GotDone(files, id, img.got, |img.got|)
      requires GotRefs(files, Loaded(st), id, img.got, |img.got|)
      requires st.fixes[id] == [] && (id in closed ==> Within(files, was, st, closed))
      modifies this
      ensures Relocating(files, was, st, id)
      ensures ok ==> NewDone(files, was, st, id) && st.gots[id] == GotDone(files, id, img.got, |img.got|)
      ensures ok ==> GotRefs(files, Loaded(st), id, img.got, |img.got|) && st.fixes[id] == FixesDone(files, id, img.relocs)
      ensures ok ==> RelocRefs(files, Loaded(st), id, img.relocs, |img.relocs|)
      ensures id in closed ==> Within(files, was, st, closed) && (Closed(files, closed) ==> ok)
      decreases Unloaded(st.libs), 3
    {
      hide Done; hide Unloaded; hide Closed; hide GoodRef; hide Resolve; hide NewDone; hide Id; hide Inv; hide Grown;
      assert img.relocs[..0] == [];
      for k := 0 to |img.relocs|
        invariant Relocating(files, was, st, id) && NewDone(files, was, st, id)
        invariant st.gots[id] == GotDone(files, id, img.got, |img.got|) && GotRefs(files, Loaded(st), id, img.got, |img.got|)
        invariant st.fixes[id] == FixesDone(files, id, img.relocs[..k]) && RelocRefs(files, Loaded(st), id, img.relocs, k)
        invariant id in closed ==> Within(files, was, st, closed)
        invariant Unloaded(st.libs) <= old(Unloaded(st.libs))
      {
        ok := Entry(id, img, was, closed, k);
        if !ok { return; }
      }
      assert img.relocs[..|img.relocs|] == img.relocs;
      ok := true;
    }

    /** One relocation entry. */
    method Entry(id: nat, img: Image, ghost was: State, ghost closed: set<nat>, k: nat) returns (ok: bool)
      requires Relocating(files, was, st, id) && NewDone(files, was, st, id)
      requires Usable(files, id) && files[id] == Some(img)
      requires k < |img.relocs| && st.gots[id] == GotDone(files, id, img.got, |img.got|)
      requires GotRefs(files, Loaded(st), id, img.got, |img.got|)
      requires st.fixes[id] == FixesDone(files, id, img.relocs[..k]) && RelocRefs(files, Loaded(st), id, img.relocs, k)
      requires id in closed ==> Within(files, was, st, closed)
      modifies this
      ensures Relocating(files, was, st, id) && Unloaded(st.libs) <= old(Unloaded(st.libs))
      ensures ok ==> NewDone(files, was, st, id) && st.gots[id] == GotDone(files, id, img.got, |img.got|)
      ensures ok ==> GotRefs(files, Loaded(st), id, img.got, |img.got|)
      ensures ok ==> st.fixes[id] == FixesDone(files, id, img.relocs[..k + 1]) && RelocRefs(files, Loaded(st), id, img.relocs, k + 1)
      ensures id in closed ==> Within(files, was, st, closed) && (Closed(files, closed) ==> ok)
      decreases Unloaded(st.libs), 3, 0
    {
      hide Done; hide Unloaded; hide Closed; hide GoodRef; hide Resolve; hide NewDone; hide Id; hide GotDone;
      hide FixesDone;
      if Closed(files, closed) && id in closed { ClosedRefs(files, closed, id); }
      ghost var a := st;
      var rp := CalcReloc(img.relocs[k].at, id, true, closed);
      LoadedGrows(a, st);
      GrownTrans(was, a, st);
      if rp == RELOC_FAILED { return false; }
      Continued(files, was, a, st, id);
      FixStep(files, id, img.relocs, k);
      var pointer := img.relocs[k].pointer;
      if pointer == 0 { return true; }
      ghost var b := st;
      var addr := CalcReloc(pointer, id, false, closed);
      LoadedGrows(b, st);
      GrownTrans(was, b, st);
      if addr == RELOC_FAILED { return false; }
      Continued(files, was, b, st, id);
      ghost var mid := st;
      st := FixAdd(st, id, Fix(rp, addr));
      SameButKeeps(files, was, mid, st, id);
      ok := true;
    }
  }

  lemma GotStep(files: seq<Option<Image>>, id: nat, got: seq<nat>, k: nat)
    requires k < |got|
    ensures GotDone(files, id, got, k)[k] == got[k]
    ensures GotDone(files, id, got, k + 1) == GotDone(files, id, got, k)[k := if got[k] == 0 then 0 else Resolved(files, id, got[k])]
  {
    hide Resolved;
  }

  lemma FixStep(files: seq<Option<Image>>, id: nat, relocs: seq<Reloc>, k: nat)
    requires k < |relocs|
    ensures FixesDone(files, id, relocs[..k + 1])
         == FixesDone(files, id, relocs[..k])
            + (if relocs[k].pointer == 0 then []
               else [Fix(Located(files, id, relocs[k].at), Resolved(files, id, relocs[k].pointer))])
  {
    hide Resolved; hide Located;
    assert relocs[..k + 1][..k] == relocs[..k];
  }

  /** A nested call leaves the relocation of library id where it was. */
  lemma Continued(files: seq<Option<Image>>, was: State, a: State, b: State, id: nat)
    requires Inv(files, b) && Grown(a, b) && NewDone(files, was, a, id) && NewDone(files, a, b, -1)
    ensures NewDone(files, was, b, id)
  {
    hide Done;
    NewDoneTrans(files, was, a, b, id);
  }

  /** The library itself is done at the end. */
  lemma Finished(files: seq<Option<Image>>, was: State, st: State, id: nat)
    requires Relocating(files, was, st, id) && NewDone(files, was, st, id) && Usable(files, id)
    requires GotRefs(files, Loaded(st), id, files[id].value.got, |files[id].value.got|)
    requires RelocRefs(files, Loaded(st), id, files[id].value.relocs, |files[id].value.relocs|)
    requires st.gots[id] == GotDone(files, id, files[id].value.got, |files[id].value.got|)
    requires st.fixes[id] == FixesDone(files, id, files[id].value.relocs)
    ensures NewDone(files, was, st, -1)
  {
    hide GoodRef; hide GotDone; hide FixesDone; hide Id; hide GotRefs; hide RelocRefs;
    assert Done(files, st, id);
  }

  // ---- The start-up chain. ----

  /** The entry points of the loaded libraries from i on, in ascending order. */
  function EntriesFrom(libs: seq<Lib>, i: nat): seq<nat>
    decreases |libs| - i
  {
    if i >= |libs| then []
    else (if libs[i].loaded then [libs[i].entry] else []) + EntriesFrom(libs, i + 1)
  }

  /** What runs when control starts at pc and every routine returns to the word it finds on the stack, whose top is
      the last element. */
  function Runs(pc: nat, stack: seq<nat>): seq<nat>
    decreases |stack|
  {
    if stack == [] then [pc] else [pc] + Runs(stack[|stack| - 1], stack[..|stack| - 1])
  }

  /** The end of load_flat_binary: the pushed return addresses start the libraries in ascending order, and then the
      program. */
  method StartChain(libs: seq<Lib>) returns (start: nat, stack: seq<nat>)
    requires 0 < |libs|
    ensures Runs(start, stack) == EntriesFrom(libs, 1) + [libs[0].entry]
  {
    start, stack := libs[0].entry, [];
    var i := |libs| - 1;
    while i > 0
      invariant 0 <= i < |libs|
      invariant Runs(start, stack) == EntriesFrom(libs, i + 1) + [libs[0].entry]
    {
      if libs[i].loaded {
        assert (stack + [start])[..|stack|] == stack;
        stack := stack + [start];
        start := libs[i].entry;
      }
      assert EntriesFrom(libs, i) == (if libs[i].loaded then [libs[i].entry] else []) + EntriesFrom(libs, i + 1);
      i := i - 1;
    }
  }

  /** Where a good relocation points: into the text of its library, or into its data up to and including its end. */
  lemma AddressInside(libs: seq<Lib>, cur: nat, r: nat, internal: bool)
    requires cur < |libs| && Resolve(libs, cur, r, internal).Some?
    requires forall i :: 0 <= i < |libs| ==>
      libs[i].startCode + libs[i].textLen <= WORD && libs[i].startData <= libs[i].startBrk
      && libs[i].startBrk + libs[i].textLen < WORD
    ensures var l, a := libs[Id(r, cur)], Resolve(libs, cur, r, internal).value;
      l.startCode <= a < l.startCode + l.textLen || l.startData <= a <= l.startBrk
  {
    hide Id;
  }

  /** A library that refers to itself by number, or a cycle of libraries, is loaded like any other. */
  lemma CycleExample()
    ensures var l := Lib(false, 0x1000, 0x2000, 0x3000, 0x100, 0x1004, 0);
      var a := Image(0, l, [0x0100_0010], []);
      var b := Image(0, l, [0x0000_0020], []);
      Closed([Some(a), Some(b)], {0, 1})
  {
    var l := Lib(false, 0x1000, 0x2000, 0x3000, 0x100, 0x1004, 0);
    var a := Image(0, l, [0x0100_0010], []);
    var b := Image(0, l, [0x0000_0020], []);
    var files := [Some(a), Some(b)];
    assert Usable(files, 0) && Usable(files, 1);
    assert Id(0x0100_0010, 0) == 1 && Id(0x0000_0020, 1) == 0;
    assert GoodRef(files, 0, 0x0100_0010, false) && GoodRef(files, 1, 0x0000_0020, false);
  }
}
