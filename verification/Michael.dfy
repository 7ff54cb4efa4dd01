/** michael_mic.c: the keyed message integrity code, streamed four bytes at a time. */
module Michael {
  import opened BlockModes
  import opened BlockStream
  import opened Wrappers

  datatype State = State(l: bv32, r: bv32)

  function Le32(a: bv8, b: bv8, c: bv8, d: bv8): bv32 {
    (a as bv32) | ((b as bv32) << 8) | ((c as bv32) << 16) | ((d as bv32) << 24)
  }

  /** get_le32 */
  function Word(p: Bytes): bv32 {
    if |p| < 4 then 0 else Le32(p[0], p[1], p[2], p[3])
  }

  /** put_le32 */
  function Put(v: bv32): Bytes {
    [(v & 0xff) as bv8, ((v >> 8) & 0xff) as bv8, ((v >> 16) & 0xff) as bv8, ((v >> 24) & 0xff) as bv8]
  }

  function Swap(v: bv32): bv32 { ((v & 0x00ff00ff) << 8) | ((v & 0xff00ff00) >> 8) }

  /** michael_block */
  function Block(s: State): State {
    var r := s.r ^ ((s.l << 17) | (s.l >> 15));
    var l := s.l + r;
    var r := r ^ Swap(l);
    var l := l + r;
    var r := r ^ ((l << 3) | (l >> 29));
    var l := l + r;
    var r := r ^ ((l >> 2) | (l << 30));
    var l := l + r;
    State(l, r)
  }

  function Xor32(x: bv32, y: bv32): bv32 { x ^ y }

  /** One word of the message goes into l, then the block function mixes l and r. */
  function Mix(s: State, p: Bytes): State {
    Block(State(Xor32(s.l, Word(p)), s.r))
  }

  /** The message with one byte 0x5a and the fewest zeros, at least four, that make whole words. */
  function Padded(msg: Bytes): Bytes {
    msg + [0x5a] + Zeros(4 + (3 - |msg| % 4))
  }

  lemma PaddedIsLeast(msg: Bytes, k: nat)
    ensures |Padded(msg)| % 4 == 0
    ensures 4 <= k && (|msg| + 1 + k) % 4 == 0 ==> |Padded(msg)| <= |msg| + 1 + k
  {
  }

  /** The code of a message under the key (l, r). */
  function Code(key: State, msg: Bytes): Bytes {
    var s := Fold(Mix, key, 4, Padded(msg));
    Put(s.l) + Put(s.r)
  }

  /** The padded last word, as the four cases of michael_final write it. */
  function LastWord(p: Bytes): bv32 {
    match |p|
    case 0 => 0x5a
    case 1 => (p[0] as bv32) | 0x5a00
    case 2 => (p[0] as bv32) | ((p[1] as bv32) << 8) | 0x5a0000
    case 3 => (p[0] as bv32) | ((p[1] as bv32) << 8) | ((p[2] as bv32) << 16) | 0x5a000000
    case _ => 0
  }

  lemma LastWordForms(a: bv8, b: bv8, c: bv8)
    ensures Le32(0x5a, 0, 0, 0) == 0x5a
    ensures Le32(a, 0x5a, 0, 0) == (a as bv32) | 0x5a00
    ensures Le32(a, b, 0x5a, 0) == (a as bv32) | ((b as bv32) << 8) | 0x5a0000
    ensures Le32(a, b, c, 0x5a) == (a as bv32) | ((b as bv32) << 8) | ((c as bv32) << 16) | 0x5a000000
  {
  }

  lemma LastWordIsPadded(p: Bytes)
    requires |p| < 4
    ensures LastWord(p) == Word(p + [0x5a] + Zeros(3 - |p|))
  {
    hide Le32;
    LastWordForms(if |p| > 0 then p[0] else 0, if |p| > 1 then p[1] else 0, if |p| > 2 then p[2] else 0);
  }

  lemma ZeroWord()
    ensures Word(Zeros(4)) == 0
  {
  }

  lemma XorZero(x: bv32)
    ensures Xor32(x, 0) == x
  {
  }

  /** The two last blocks. */
  lemma TailBlocks(s: State, p: Bytes)
    requires |p| < 4
    ensures Fold(Mix, s, 4, p + ([0x5a] + Zeros(4 + (3 - |p|)))) == Block(Block(State(Xor32(s.l, LastWord(p)), s.r)))
  {
    hide Block; hide Word; hide Xor32; hide LastWord;
    var first := p + [0x5a] + Zeros(3 - |p|);
    var all := p + ([0x5a] + Zeros(4 + (3 - |p|)));
    assert Zeros(4 + (3 - |p|)) == Zeros(3 - |p|) + Zeros(4);
    assert all[..4] == first && all[4..] == Zeros(4);
    assert Zeros(4)[..4] == Zeros(4) && Zeros(4)[4..] == [];
    assert Fold(Mix, s, 4, all) == Fold(Mix, Mix(s, first), 4, Zeros(4));
    assert Fold(Mix, Mix(s, first), 4, Zeros(4)) == Mix(Mix(s, first), Zeros(4));
    LastWordIsPadded(p);
    ZeroWord();
    XorZero(Mix(s, first).l);
  }

  /** The initial state given by a key of eight bytes. */
  function KeyState(key: Bytes): State
    requires |key| == 8
  {
    State(Word(key[..4]), Word(key[4..]))
  }

  class Context {
    const pending: array<bv8>
    var pendingLen: nat
    var l: bv32
    var r: bv32

    /** The context after the bytes of msg under the given key. */
    ghost predicate Holds(key: State, msg: Bytes)
      reads this, pending
    {
      && pending.Length == 4
      && pendingLen == |msg| % 4
      && pending[..pendingLen] == Rest(4, msg)
      && State(l, r) == Fold(Mix, key, 4, msg)
    }

    constructor ()
      ensures fresh(pending) && pending.Length == 4
    {
      pending, pendingLen, l, r := new bv8[4], 0, 0, 0;
    }

    /** michael_setkey: any length but eight is refused and changes nothing. */
    method SetKey(key: Bytes) returns (status: int)
      modifies this`l, this`r
      ensures status == if |key| == 8 then 0 else -EINVAL
      ensures State(l, r) == if |key| == 8 then KeyState(key) else old(State(l, r))
    {
      if |key| != 8 { return -EINVAL; }
      l, r := Word(key[..4]), Word(key[4..]);
      return 0;
    }

    /** michael_init: l and r are as michael_setkey left them. */
    method Init()
      requires pending.Length == 4
      modifies this`pendingLen
      ensures Holds(State(l, r), [])
    {
      pendingLen := 0;
      assert pending[..0] == [];
    }

    /** michael_update, for every length. */
    method Update(data: Bytes, ghost key: State, ghost msg: Bytes)
      requires Holds(key, msg)
      modifies this, pending
      ensures Holds(key, msg + data)
    {
      hide Mix;
      RestLength(4, msg);
      RestLength(4, msg + data);
      FoldAppend(Mix, key, 4, msg, data);
      ghost var all, s := Rest(4, msg) + data, State(l, r);
      if pendingLen != 0 {
        var flen := if 4 - pendingLen > |data| then |data| else 4 - pendingLen;
        Memcpy(pending, pendingLen, data[..flen]);
        ghost var was := pendingLen;
        pendingLen := pendingLen + flen;
        assert pending[..pendingLen] == all[..pendingLen];
        if pendingLen < 4 {
          assert all[..pendingLen] == all;
          return;
        }
        FirstBlock(Mix, s, 4, all, data, flen, pending[..]);
        MixWord(pending[..]);
        pendingLen := 0;
        Words(data[flen..], Fold(Mix, s, 4, all));
      } else {
        assert all == data;
        Words(data, Fold(Mix, s, 4, all));
      }
    }

    /** l ^= get_le32(p); michael_block(l, r) */
    method MixWord(p: Bytes)
      requires |p| == 4
      modifies this`l, this`r
      ensures State(l, r) == Mix(old(State(l, r)), p)
    {
      var s := Block(State(Xor32(l, Word(p)), r));
      l, r := s.l, s.r;
    }

    /** The loop over whole words, and the bytes left over. */
    method Words(data: Bytes, ghost goal: State)
      requires pending.Length == 4 && pendingLen == 0
      requires Fold(Mix, State(l, r), 4, data) == goal
      modifies this, pending
      ensures State(l, r) == goal
      ensures pendingLen == |Rest(4, data)| && pending[..pendingLen] == Rest(4, data)
    {
      hide Mix;
      var i := 0;
      assert data[0..] == data;
      while |data| - i >= 4
        invariant i <= |data| && pendingLen == 0
        invariant Fold(Mix, State(l, r), 4, data[i..]) == goal && Rest(4, data) == Rest(4, data[i..])
      {
        NextBlock(data, i, 4);
        MixWord(data[i..i + 4]);
        i := i + 4;
      }
      if |data| - i > 0 {
        pendingLen := |data| - i;
        Memcpy(pending, 0, data[i..]);
      }
    }

    /** michael_final */
    method Final(ghost key: State, ghost msg: Bytes) returns (out: Bytes)
      requires Holds(key, msg)
      modifies this
      ensures out == Code(key, msg)
    {
      hide Mix; hide Block; hide Xor32; hide LastWord; hide Put;
      FoldAppend(Mix, key, 4, msg, [0x5a] + Zeros(4 + (3 - |msg| % 4)));
      RestLength(4, msg);
      Assoc(msg, [0x5a], Zeros(4 + (3 - |msg| % 4)));
      TailBlocks(State(l, r), pending[..pendingLen]);
      hide Fold;
      var s := Block(State(Xor32(l, LastWord(pending[..pendingLen])), r));
      s := Block(s);
      l, r := s.l, s.r;
      out := Put(l) + Put(r);
    }
  }

  /** With a good key, any way of cutting a message into updates gives its code. */
  method Digest(key: Bytes, chunks: seq<Bytes>) returns (status: int, out: Bytes)
    ensures status == if |key| == 8 then 0 else -EINVAL
    ensures |key| == 8 ==> out == Code(KeyState(key), Joined(chunks))
  {
    hide Code; hide Fold; hide Rest; hide KeyState;
    var ctx := new Context();
    status := ctx.SetKey(key);
    if status != 0 { return status, []; }
    ctx.Init();
    ghost var k := KeyState(key);
    for i := 0 to |chunks|
      invariant fresh(ctx) && fresh(ctx.pending) && ctx.Holds(k, Joined(chunks[..i]))
    {
      JoinedSnoc(chunks, i);
      ctx.Update(chunks[i], k, Joined(chunks[..i]));
    }
    assert chunks[..|chunks|] == chunks;
    out := ctx.Final(k, Joined(chunks));
  }
}
