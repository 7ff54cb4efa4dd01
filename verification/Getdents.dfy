/** compat_filldir and compat_sys_getdents: directory entries packed into a user buffer, and read back from it by
    their record lengths.  Words are stored least significant byte first. */
module Getdents {
  import opened BlockModes
  import opened BlockStream
  import opened Wrappers

  /** What a file system passes to filldir. */
  datatype Entry = Entry(name: Bytes, offset: nat, ino: nat, dtype: bv8)

  /** COMPAT_ROUND_UP(NAME_OFFSET + namlen + 2) */
  function RecLen(e: Entry): nat { ((10 + |e.name| + 2 + 3) / 4) * 4 }

  /** The name's NUL and the type byte at the end of the record are different bytes. */
  lemma RecLenRoom(e: Entry)
    ensures RecLen(e) % 4 == 0 && 10 + |e.name| + 1 < RecLen(e) <= 10 + |e.name| + 5
  {
  }

  function Total(es: seq<Entry>): nat {
    if es == [] then 0 else RecLen(es[0]) + Total(es[1..])
  }

  lemma {:induction false} TotalSnoc(es: seq<Entry>, e: Entry)
    ensures Total(es + [e]) == Total(es) + RecLen(e)
  {
    if es == [] {
      assert ([e])[1..] == [];
      assert es + [e] == [e];
    } else {
      assert (es + [e])[1..] == es[1..] + [e];
      TotalSnoc(es[1..], e);
    }
  }

  // ---- Records in a buffer. ----

  /** Everything about a record but its d_off. */
  ghost predicate RecordAt(b: Bytes, p: nat, e: Entry) {
    && p + RecLen(e) <= |b| && 10 + |e.name| + 1 < RecLen(e)
    && b[p..p + 4] == Le(e.ino, 4) && b[p + 8..p + 10] == Le(RecLen(e), 2)
    && b[p + 10..p + 10 + |e.name|] == e.name && b[p + 10 + |e.name|] == 0 && b[p + RecLen(e) - 1] == e.dtype
  }

  ghost predicate OffAt(b: Bytes, p: nat, off: nat) {
    p + 8 <= |b| && b[p + 4..p + 8] == Le(off, 4)
  }

  /** The records of es from p on; the d_off of each is the offset of the next. */
  ghost predicate Packed(b: Bytes, p: nat, es: seq<Entry>)
    decreases |es|
  {
    es != [] ==>
      && RecordAt(b, p, es[0])
      && (|es| > 1 ==> OffAt(b, p, es[1].offset))
      && Packed(b, p + RecLen(es[0]), es[1..])
  }

  /** Where the last record is. */
  function LastAt(p: nat, es: seq<Entry>): nat
    requires es != []
    decreases |es|
  {
    if |es| == 1 then p else LastAt(p + RecLen(es[0]), es[1..])
  }

  lemma {:induction false} LastAtEnd(p: nat, es: seq<Entry>)
    requires es != []
    ensures LastAt(p, es) >= p && LastAt(p, es) + RecLen(es[|es| - 1]) == p + Total(es)
    decreases |es|
  {
    if |es| == 1 {
      assert es[1..] == [];
    } else {
      LastAtEnd(p + RecLen(es[0]), es[1..]);
    }
  }

  /** Buffers that agree up to limit, except in the four bytes of one d_off. */
  ghost predicate Agree(b: Bytes, c: Bytes, limit: nat, hole: int) {
    limit <= |b| == |c| && forall i :: 0 <= i < limit && !(hole <= i < hole + 4) ==> b[i] == c[i]
  }

  lemma AgreeRecord(b: Bytes, c: Bytes, limit: nat, hole: int, p: nat, e: Entry)
    requires RecordAt(b, p, e) && Agree(b, c, limit, hole) && p + RecLen(e) <= limit
    requires hole == p + 4 || hole + 4 <= p || p + RecLen(e) <= hole
    ensures RecordAt(c, p, e)
  {
    hide Le;
    RecLenRoom(e);
    assert c[p..p + 4] == b[p..p + 4] && c[p + 8..p + 10] == b[p + 8..p + 10];
    assert c[p + 10..p + 10 + |e.name|] == b[p + 10..p + 10 + |e.name|];
  }

  /** Filling in the last d_off, or writing behind the records, keeps them. */
  lemma {:induction false} AgreePacked(b: Bytes, c: Bytes, p: nat, es: seq<Entry>, limit: nat, hole: int)
    requires Packed(b, p, es) && Agree(b, c, limit, hole) && p + Total(es) <= limit
    requires hole + 4 <= 0 || (es != [] && hole == LastAt(p, es) + 4)
    ensures Packed(c, p, es)
    decreases |es|
  {
    hide RecordAt; hide Le;
    if es != [] {
      var e, q := es[0], p + RecLen(es[0]);
      RecLenRoom(e);
      LastAtEnd(p, es);
      if |es| > 1 {
        LastAtEnd(q, es[1..]);
        AgreeRecord(b, c, limit, hole, p, e);
        assert c[p + 4..p + 8] == b[p + 4..p + 8];
        AgreePacked(b, c, q, es[1..], limit, hole);
      } else {
        assert es[1..] == [];
        AgreeRecord(b, c, limit, hole, p, e);
      }
    }
  }

  /** One more record. */
  lemma {:induction false} PackedSnoc(b: Bytes, p: nat, es: seq<Entry>, e: Entry)
    requires Packed(b, p, es) && RecordAt(b, p + Total(es), e)
    requires es != [] ==> OffAt(b, LastAt(p, es), e.offset)
    ensures Packed(b, p, es + [e]) && LastAt(p, es + [e]) == p + Total(es)
    decreases |es|
  {
    hide RecordAt; hide OffAt;
    var all := es + [e];
    if es == [] {
      assert all == [e] && all[1..] == [];
    } else {
      assert all[1..] == es[1..] + [e] && all[0] == es[0];
      if |es| == 1 {
        assert es[1..] == [] && all[1] == e;
      } else {
        assert all[1] == es[1];
      }
      PackedSnoc(b, p + RecLen(es[0]), es[1..], e);
    }
  }

  // ---- Writing. ----

  /** put_user and copy_to_user. */
  method Poke(buf: array<bv8>, at: nat, x: Bytes)
    requires at + |x| <= buf.Length
    modifies buf
    ensures forall i :: 0 <= i < buf.Length ==> buf[i] == if at <= i < at + |x| then x[i - at] else old(buf[i])
  {
    ghost var was := buf[..];
    for k := 0 to |x|
      invariant forall i :: 0 <= i < buf.Length ==> buf[i] == if at <= i < at + k then x[i - at] else was[i]
    {
      buf[at + k] := x[k];
    }
  }

  lemma SliceWritten(b: Bytes, at: nat, x: Bytes)
    requires at + |x| <= |b| && forall i :: at <= i < at + |x| ==> b[i] == x[i - at]
    ensures b[at..at + |x|] == x
  {
  }

  /** The fields of one record. */
  method WriteRecord(buf: array<bv8>, cur: nat, e: Entry)
    requires cur + RecLen(e) <= buf.Length
    modifies buf
    ensures RecordAt(buf[..], cur, e)
    ensures forall i :: 0 <= i < buf.Length && !(cur <= i < cur + RecLen(e)) ==> buf[i] == old(buf[i])
  {
    hide Le;
    RecLenRoom(e);
    hide RecLen;
    Poke(buf, cur, Le(e.ino, 4));
    Poke(buf, cur + 8, Le(RecLen(e), 2));
    Poke(buf, cur + 10, e.name);
    Poke(buf, cur + 10 + |e.name|, [0]);
    Poke(buf, cur + RecLen(e) - 1, [e.dtype]);
    assert buf[cur..cur + 4] == Le(e.ino, 4);
    assert buf[cur + 8..cur + 10] == Le(RecLen(e), 2);
    assert buf[cur + 10..cur + 10 + |e.name|] == e.name;
    SlicesOf(buf, cur, e);
  }

  lemma SlicesOf(buf: array<bv8>, p: nat, e: Entry)
    requires p + 10 + |e.name| <= buf.Length
    ensures buf[..][p..p + 4] == buf[p..p + 4] && buf[..][p + 8..p + 10] == buf[p + 8..p + 10]
    ensures buf[..][p + 10..p + 10 + |e.name|] == buf[p + 10..p + 10 + |e.name|]
  {
  }

  /** (int) count */
  function AsInt(count: nat): int { if count < 0x8000_0000 then count else count - 0x1_0000_0000 }

  /** struct compat_getdents_callback; previous is -1 for NULL. */
  class Callback {
    const buf: array<bv8>
    var current: nat
    var previous: int
    var count: int
    var error: int

    /** The buffer holds the records of es, and count is what is left of the capacity. */
    ghost predicate Holds(es: seq<Entry>, capacity: int)
      reads this, buf
    {
      && capacity <= buf.Length && current == Total(es) && count == capacity - current
      && (es != [] ==> 0 <= count)
      && previous == (if es == [] then -1 else LastAt(0, es))
      && Packed(buf[..], 0, es)
    }

    constructor (buf: array<bv8>, count: nat)
      requires count == buf.Length < 0x1_0000_0000
      ensures Holds([], AsInt(count)) && error == 0 && this.buf == buf
    {
      this.buf, current, previous, this.count, error := buf, 0, -1, AsInt(count), 0;
    }

    /** compat_filldir: an entry is taken exactly when its record fits in what is left. */
    method FillDir(e: Entry, ghost es: seq<Entry>, ghost capacity: int) returns (r: int)
      requires Holds(es, capacity)
      modifies this, buf
      ensures error == -EINVAL
      ensures r == if RecLen(e) <= old(count) then 0 else -EINVAL
      ensures r == 0 ==> Holds(es + [e], capacity) && count == old(count) - RecLen(e)
      ensures r != 0 ==> Holds(es, capacity) && count == old(count) && buf[..] == old(buf[..])
    {
      hide RecLen; hide RecordAt; hide Packed; hide Total; hide LastAt; hide Le;
      error := -EINVAL;
      if RecLen(e) > count { return -EINVAL; }
      TotalSnoc(es, e);
      if previous >= 0 { PutOff(e.offset, es); }
      ghost var b := buf[..];
      WriteRecord(buf, current, e);
      AgreePacked(b, buf[..], 0, es, current, -4);
      if es != [] { KeepOff(b, buf[..], LastAt(0, es), e.offset, es); }
      PackedSnoc(buf[..], 0, es, e);
      previous := current;
      current := current + RecLen(e);
      count := count - RecLen(e);
      return 0;
    }

    /** The d_off of the record before. */
    method PutOff(off: nat, ghost es: seq<Entry>)
      requires es != [] && previous == LastAt(0, es) && Packed(buf[..], 0, es) && Total(es) <= buf.Length
      modifies buf
      ensures Packed(buf[..], 0, es) && OffAt(buf[..], previous, off)
    {
      hide RecordAt; hide Packed; hide Le;
      LastAtEnd(0, es);
      RecLenRoom(es[|es| - 1]);
      ghost var b := buf[..];
      Poke(buf, previous + 4, Le(off, 4));
      SliceWritten(buf[..], previous + 4, Le(off, 4));
      AgreePacked(b, buf[..], 0, es, Total(es), previous + 4);
    }
  }

  lemma KeepOff(b: Bytes, c: Bytes, p: nat, off: nat, es: seq<Entry>)
    requires es != [] && p == LastAt(0, es) && OffAt(b, p, off) && |b| == |c|
    requires forall i :: 0 <= i < Total(es) && i < |b| ==> b[i] == c[i]
    ensures OffAt(c, p, off)
  {
    hide Le;
    LastAtEnd(0, es);
    RecLenRoom(es[|es| - 1]);
    assert c[p + 4..p + 8] == b[p + 4..p + 8];
  }

  // ---- The system call. ----

  /** How many entries fit, one after another. */
  function Accepted(es: seq<Entry>, room: int): (k: nat)
    ensures k <= |es|
  {
    if es == [] || RecLen(es[0]) > room then 0 else 1 + Accepted(es[1..], room - RecLen(es[0]))
  }

  /** The position a directory is left at after k entries. */
  function Position(es: seq<Entry>, end: nat, k: nat): nat {
    if k < |es| then es[k].offset else end
  }

  /** Complete records: the last d_off is the position of the directory. */
  ghost predicate Complete(b: Bytes, es: seq<Entry>, end: nat) {
    Packed(b, 0, es) && (es != [] ==> OffAt(b, LastAt(0, es), end))
  }

  /** compat_sys_getdents.  The file system offers es until one is refused, leaves the directory at the first entry
      not taken, and returns status. */
  method GetDents(buf: array<bv8>, count: nat, es: seq<Entry>, end: nat, status: int) returns (r: int)
    requires count == buf.Length < 0x1_0000_0000
    modifies buf
    ensures status < 0 ==> r == status
    ensures var k := Accepted(es, AsInt(count));
      status >= 0 ==>
        && r == (if k > 0 then Total(es[..k]) else if es == [] then 0 else -EINVAL)
        && (k > 0 ==> r <= count)
        && Complete(buf[..], es[..k], Position(es, end, k))
  {
    hide RecLen; hide Packed; hide Total; hide LastAt; hide OffAt;
    var cb := new Callback(buf, count);
    var i := 0;
    var going := true;
    EmptyStart(es);
    while going && i < |es|
      invariant i <= |es| && (!going ==> i < |es|) && cb.buf == buf && cb.Holds(es[..i], AsInt(count))
      invariant Accepted(es, AsInt(count)) == if going then i + Accepted(es[i..], cb.count) else i
      invariant cb.error == if i == 0 && going then 0 else -EINVAL
      invariant fresh(cb)
      decreases |es| - i, going
    {
      var f := cb.FillDir(es[i], es[..i], AsInt(count));
      NextAccepted(es, i);
      if f != 0 { going := false; } else { i := i + 1; }
    }
    assert es[|es|..] == [];
    assert (es[..i] == [] <==> i == 0) && (es == [] <==> |es| == 0);
    if status < 0 { return status; }
    r := cb.error;
    if cb.previous >= 0 {
      cb.PutOff(Position(es, end, i), es[..i]);
      r := AsInt(count) - cb.count;
    }
  }

  lemma EmptyStart(es: seq<Entry>)
    ensures es[..0] == [] && es[0..] == es && Total([]) == 0
  {
  }

  lemma NextAccepted(es: seq<Entry>, i: nat)
    requires i < |es|
    ensures es[i..][0] == es[i] && es[i..][1..] == es[i + 1..] && es[..i + 1] == es[..i] + [es[i]]
  {
  }

  // ---- Reading back. ----

  datatype Rec = Rec(ino: nat, off: nat, name: Bytes, dtype: bv8)

  /** The first NUL in [i, limit), or limit if there is none. */
  function Nul(b: Bytes, i: nat, limit: nat): nat
    decreases if i < limit then limit - i else 0
  {
    if i >= limit || i >= |b| then limit else if b[i] == 0 then i else Nul(b, i + 1, limit)
  }

  /** A reader that goes from record to record by d_reclen, up to limit. */
  function Parse(b: Bytes, p: nat, limit: nat): seq<Rec>
    decreases if p < limit then limit - p else 0
  {
    if p + 12 > limit || limit > |b| then []
    else
      var len := FromLe(b[p + 8..p + 10]);
      var nul := Nul(b, p + 10, p + len);
      if len < 12 || p + len > limit || nul >= p + len || nul < p + 10 then []
      else [Rec(FromLe(b[p..p + 4]), FromLe(b[p + 4..p + 8]), b[p + 10..nul], b[p + len - 1])] + Parse(b, p + len, limit)
  }

  /** What a reader should find: inode numbers and offsets in 32 bits, each offset that of the next entry. */
  function Expected(es: seq<Entry>, end: nat): seq<Rec> {
    if es == [] then []
    else
      var next := if |es| > 1 then es[1].offset else end;
      [Rec(es[0].ino % 0x1_0000_0000, next % 0x1_0000_0000, es[0].name, es[0].dtype)] + Expected(es[1..], end)
  }

  ghost predicate Named(es: seq<Entry>) {
    forall i, j :: 0 <= i < |es| && 0 <= j < |es[i].name| ==> es[i].name[j] != 0
  }

  /** The record length fits in the 16 bits of d_reclen. */
  predicate Fits(e: Entry) { RecLen(e) < 0x1_0000 }

  lemma FitsExactly(e: Entry)
    ensures Fits(e) <==> |e.name| <= 65520
  {
  }

  lemma LeField(n: nat)
    ensures FromLe(Le(n, 4)) == n % 0x1_0000_0000
    ensures FromLe(Le(n, 2)) == n % 0x1_0000
  {
    hide Le; hide FromLe; hide Pow256;
    Powers();
    Pow2();
    FromLeLe(n % 0x1_0000_0000, 4);
    LeLow(n, n % 0x1_0000_0000, 4, n / 0x1_0000_0000);
    FromLeLe(n % 0x1_0000, 2);
    LeLow(n, n % 0x1_0000, 2, n / 0x1_0000);
  }

  lemma Pow2()
    ensures Pow256(2) == 0x1_0000
  {
    assert Pow256(1) == 256;
  }

  lemma {:induction false} NulAfter(b: Bytes, i: nat, limit: nat, k: nat)
    requires i <= k < |b| && (forall j :: i <= j < k ==> b[j] != 0)
    ensures b[k] == 0 && k < limit ==> Nul(b, i, limit) == k
    ensures limit <= k ==> Nul(b, i, limit) == limit
    decreases k - i
  {
    if i < k { NulAfter(b, i + 1, limit, k); }
  }

  /** The fields of a record as a reader sees them. */
  lemma FieldsRead(b: Bytes, p: nat, e: Entry, off: nat)
    requires RecordAt(b, p, e) && OffAt(b, p, off) && Fits(e)
    ensures FromLe(b[p..p + 4]) == e.ino % 0x1_0000_0000 && FromLe(b[p + 4..p + 8]) == off % 0x1_0000_0000
    ensures FromLe(b[p + 8..p + 10]) == RecLen(e)
  {
    hide Le; hide FromLe;
    LeField(e.ino);
    LeField(off);
    LeField(RecLen(e));
  }

  lemma NameRead(b: Bytes, p: nat, e: Entry)
    requires RecordAt(b, p, e) && forall j :: 0 <= j < |e.name| ==> e.name[j] != 0
    ensures Nul(b, p + 10, p + RecLen(e)) == p + 10 + |e.name|
  {
    hide Le; hide RecLen;
    var n := p + 10 + |e.name|;
    forall j | p + 10 <= j < n ensures b[j] != 0 { assert b[p + 10..n][j - (p + 10)] == b[j]; }
    NulAfter(b, p + 10, p + RecLen(e), n);
  }

  /** One record that fits is read, and the reader goes on at the next. */
  lemma ParseOne(b: Bytes, p: nat, limit: nat, e: Entry, off: nat)
    requires RecordAt(b, p, e) && OffAt(b, p, off) && Fits(e) && p + RecLen(e) <= limit <= |b|
    requires forall j :: 0 <= j < |e.name| ==> e.name[j] != 0
    ensures Parse(b, p, limit)
         == [Rec(e.ino % 0x1_0000_0000, off % 0x1_0000_0000, e.name, e.dtype)] + Parse(b, p + RecLen(e), limit)
  {
    hide Le; hide FromLe; hide RecLen; hide Nul; hide OffAt; hide RecordAt; hide Fits;
    RecLenRoom(e);
    FieldsRead(b, p, e, off);
    NameRead(b, p, e);
    NameAndType(b, p, e);
  }

  lemma NameAndType(b: Bytes, p: nat, e: Entry)
    requires RecordAt(b, p, e)
    ensures b[p + 10..p + 10 + |e.name|] == e.name && b[p + RecLen(e) - 1] == e.dtype
  {
  }

  /** One that does not stops the reader. */
  lemma ParseStops(b: Bytes, p: nat, limit: nat, e: Entry)
    requires RecordAt(b, p, e) && !Fits(e) && p + RecLen(e) <= limit <= |b|
    requires forall j :: 0 <= j < |e.name| ==> e.name[j] != 0
    ensures Parse(b, p, limit) == []
  {
    hide Le; hide FromLe;
    RecLenRoom(e);
    LeField(RecLen(e));
    var n, len := p + 10 + |e.name|, RecLen(e) % 0x1_0000;
    forall j | p + 10 <= j < n ensures b[j] != 0 { assert b[p + 10..n][j - (p + 10)] == b[j]; }
    NulAfter(b, p + 10, p + len, n);
  }

  ghost predicate AllFit(es: seq<Entry>) {
    forall i :: 0 <= i < |es| ==> Fits(es[i])
  }

  ghost predicate CompleteFrom(b: Bytes, p: nat, es: seq<Entry>, end: nat) {
    Packed(b, p, es) && (es != [] ==> OffAt(b, LastAt(p, es), end))
  }

  /** The buffer reads back as the entries taken, if and only if every record length fits in 16 bits. */
  lemma {:induction false} ReadsBackExactly(b: Bytes, p: nat, es: seq<Entry>, end: nat)
    requires CompleteFrom(b, p, es, end) && Named(es) && p + Total(es) <= |b|
    ensures Parse(b, p, p + Total(es)) == Expected(es, end) <==> AllFit(es)
    decreases |es|
  {
    hide RecordAt; hide OffAt; hide RecLen; hide Parse; hide Named; hide AllFit; hide Fits;
    if es == [] {
      ParseEmpty(b, p);
      NothingToFit();
    } else {
      var e, rest, limit := es[0], es[1..], p + Total(es);
      HeadAndTail(es);
      ReadsBackExactly(b, p + RecLen(e), rest, end);
      if Fits(e) {
        ParseOne(b, p, limit, e, if |es| > 1 then es[1].offset else end);
        assert Parse(b, p, limit)[1..] == Parse(b, p + RecLen(e), limit);
        assert Expected(es, end)[1..] == Expected(rest, end);
      } else {
        ParseStops(b, p, limit, e);
      }
    }
  }

  lemma NothingToFit()
    ensures AllFit([])
  {
  }

  lemma HeadAndTail(es: seq<Entry>)
    requires es != [] && Named(es)
    ensures Named(es[1..]) && forall j :: 0 <= j < |es[0].name| ==> es[0].name[j] != 0
    ensures AllFit(es) <==> Fits(es[0]) && AllFit(es[1..])
  {
    hide Fits;
    var rest := es[1..];
    forall i | 0 <= i < |rest| ensures rest[i] == es[i + 1] {
    }
    if Fits(es[0]) && AllFit(rest) {
      forall i | 0 <= i < |es| ensures Fits(es[i]) {
        if i > 0 { assert es[i] == rest[i - 1]; }
      }
    }
  }

  lemma ParseEmpty(b: Bytes, p: nat)
    ensures Parse(b, p, p) == []
  {
  }

  /** A name of 65521 bytes makes a record of 65536, which d_reclen stores as 0. */
  lemma TruncatedExample(name: Bytes)
    requires |name| == 65521
    ensures RecLen(Entry(name, 0, 0, 0)) == 0x1_0000 && FromLe(Le(0x1_0000, 2)) == 0
  {
    hide Le; hide FromLe;
    LeField(0x1_0000);
  }

  // ---- Reading a whole directory. ----

  lemma {:induction false} ExpectedSplit(es: seq<Entry>, k: nat, end: nat)
    requires k <= |es|
    ensures Expected(es, end) == Expected(es[..k], Position(es, end, k)) + Expected(es[k..], end)
    decreases k
  {
    if k == 0 {
      assert es[..0] == [] && es[0..] == es;
    } else {
      var rest := es[1..];
      ExpectedSplit(rest, k - 1, end);
      assert es[..k][1..] == rest[..k - 1] && es[..k][0] == es[0];
      assert es[k..] == rest[k - 1..];
      if k > 1 { assert es[..k][1] == es[1]; }
    }
  }

  /** What is taken fits in the buffer, record by record. */
  lemma {:induction false} AcceptedFits(es: seq<Entry>, room: int)
    ensures forall i :: 0 <= i < Accepted(es, room) ==> RecLen(es[i]) <= room
    ensures Total(es[..Accepted(es, room)]) <= room || Accepted(es, room) == 0
  {
    hide RecLen;
    if es != [] && RecLen(es[0]) <= room {
      var k := Accepted(es[1..], room - RecLen(es[0]));
      AcceptedFits(es[1..], room - RecLen(es[0]));
      assert es[..k + 1][1..] == es[1..][..k];
      forall i | 0 <= i < k + 1 ensures RecLen(es[i]) <= room {
        if i > 0 { assert es[i] == es[1..][i - 1]; }
      }
      if k == 0 { assert es[1..][..0] == []; }
    }
  }

  /** Calls of getdents until the directory is exhausted, each with a buffer of count bytes, reading every buffer by its
      record lengths.  The calls get to the end if and only if every record fits in the buffer, whose size is taken
      as a signed number; and then each entry is read exactly once, in order, if and only if every record length fits
      in 16 bits. */
  method ListAll(es: seq<Entry>, end: nat, count: nat) returns (ok: bool, recs: seq<Rec>)
    requires count < 0x1_0000_0000 && Named(es)
    ensures ok <==> forall i :: 0 <= i < |es| ==> RecLen(es[i]) <= AsInt(count)
    ensures ok ==> (recs == Expected(es, end) <==> AllFit(es))
  {
    hide RecLen; hide Parse; hide Expected; hide Accepted; hide Named; hide Complete; hide Total; hide Fits; hide AllFit;
    recs := [];
    var at: nat := 0;
    ListStart(es, end);
    while at < |es|
      invariant at <= |es| && ReadSoFar(es, at, end, recs)
      invariant forall i :: 0 <= i < at ==> RecLen(es[i]) <= AsInt(count)
    {
      var buf := new bv8[count];
      var r := GetDents(buf, count, es[at..], end, 0);
      PositiveTotal(es[at..], Accepted(es[at..], AsInt(count)));
      if r <= 0 {
        Refused(es, at, AsInt(count));
        return false, recs;
      }
      var taken := Accepted(es[at..], AsInt(count));
      Batch(es, at, taken, AsInt(count), end, buf[..], r);
      ReadMore(es, at, taken, end, recs, Parse(buf[..], 0, r));
      recs := recs + Parse(buf[..], 0, r);
      at := at + taken;
    }
    ListEnd(es, end, recs);
    ok := true;
  }

  /** After at entries: all of them, or fewer records than entries. */
  ghost predicate ReadSoFar(es: seq<Entry>, at: nat, end: nat, recs: seq<Rec>)
    requires at <= |es|
  {
    if AllFit(es[..at]) then recs + Expected(es[at..], end) == Expected(es, end) else |recs| < at
  }

  /** One buffer more. */
  lemma ReadMore(es: seq<Entry>, at: nat, k: nat, end: nat, recs: seq<Rec>, more: seq<Rec>)
    requires at + k <= |es| && ReadSoFar(es, at, end, recs) && |more| <= k
    requires if AllFit(es[at..][..k]) then more + Expected(es[at + k..], end) == Expected(es[at..], end) else |more| < k
    ensures ReadSoFar(es, at + k, end, recs + more)
  {
    hide Expected; hide Fits;
    var a, b := es[..at], es[at..][..k];
    assert es[..at + k] == a + b;
    FitConcat(a, b);
    if AllFit(a) {
      ExpectedLength(es, end);
      ExpectedLength(es[at..], end);
      assert recs + (more + Expected(es[at + k..], end)) == (recs + more) + Expected(es[at + k..], end);
    }
  }

  lemma FitConcat(a: seq<Entry>, b: seq<Entry>)
    ensures AllFit(a + b) <==> AllFit(a) && AllFit(b)
  {
    hide Fits;
    if AllFit(a + b) {
      forall i | 0 <= i < |a| ensures Fits(a[i]) { assert (a + b)[i] == a[i]; }
      forall i | 0 <= i < |b| ensures Fits(b[i]) { assert (a + b)[|a| + i] == b[i]; }
    }
  }

  lemma {:induction false} ExpectedLength(es: seq<Entry>, end: nat)
    ensures |Expected(es, end)| == |es|
  {
    if es != [] { ExpectedLength(es[1..], end); }
  }

  /** A reader finds fewer records than there are if some record length does not fit in 16 bits. */
  lemma {:induction false} ReadsFewer(b: Bytes, p: nat, es: seq<Entry>, end: nat)
    requires CompleteFrom(b, p, es, end) && Named(es) && p + Total(es) <= |b|
    ensures |Parse(b, p, p + Total(es))| <= |es|
    ensures !AllFit(es) ==> |Parse(b, p, p + Total(es))| < |es|
    decreases |es|
  {
    hide RecordAt; hide OffAt; hide RecLen; hide Parse; hide Named; hide AllFit; hide Fits;
    if es == [] {
      ParseEmpty(b, p);
      NothingToFit();
    } else {
      var e, rest, limit := es[0], es[1..], p + Total(es);
      HeadAndTail(es);
      ReadsFewer(b, p + RecLen(e), rest, end);
      if Fits(e) {
        ParseOne(b, p, limit, e, if |es| > 1 then es[1].offset else end);
      } else {
        ParseStops(b, p, limit, e);
      }
    }
  }

  lemma PositiveTotal(es: seq<Entry>, k: nat)
    requires k <= |es|
    ensures k > 0 ==> Total(es[..k]) > 0
  {
  }

  lemma ListStart(es: seq<Entry>, end: nat)
    ensures ReadSoFar(es, 0, end, [])
  {
    assert es[0..] == es && es[..0] == [];
    NothingToFit();
    assert [] + Expected(es, end) == Expected(es, end);
  }

  lemma ListEnd(es: seq<Entry>, end: nat, recs: seq<Rec>)
    requires ReadSoFar(es, |es|, end, recs)
    ensures recs == Expected(es, end) <==> AllFit(es)
  {
    assert es[|es|..] == [] && es[..|es|] == es;
    assert recs + [] == recs;
    ExpectedLength(es, end);
  }

  /** Nothing was taken: the next record does not fit. */
  lemma Refused(es: seq<Entry>, at: nat, room: int)
    requires at < |es| && Accepted(es[at..], room) == 0
    ensures RecLen(es[at]) > room
  {
  }

  /** One buffer: its records are those of the next entries, and the rest remains. */
  lemma Batch(es: seq<Entry>, at: nat, k: nat, room: int, end: nat, b: Bytes, r: int)
    requires at < |es| && Named(es) && k == Accepted(es[at..], room) && 0 < k
    requires r == Total(es[at..][..k]) && room <= |b|
    requires Complete(b, es[at..][..k], Position(es[at..], end, k))
    ensures at + k <= |es| && 0 <= r && |Parse(b, 0, r)| <= k
    ensures if AllFit(es[at..][..k]) then Parse(b, 0, r) + Expected(es[at + k..], end) == Expected(es[at..], end)
            else |Parse(b, 0, r)| < k
    ensures forall i :: at <= i < at + k ==> RecLen(es[i]) <= room
  {
    hide RecLen; hide Parse; hide Expected; hide Accepted; hide Packed; hide OffAt; hide LastAt; hide Total; hide AllFit;
    var rest := es[at..];
    var taken := rest[..k];
    AcceptedFits(rest, room);
    forall i | at <= i < at + k ensures RecLen(es[i]) <= room {
      assert es[i] == rest[i - at];
    }
    assert Named(taken);
    ReadsBackExactly(b, 0, taken, Position(rest, end, k));
    ReadsFewer(b, 0, taken, Position(rest, end, k));
    ExpectedSplit(rest, k, end);
    assert rest[k..] == es[at + k..];
  }
}
