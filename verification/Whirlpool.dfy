/** wp512.c: Whirlpool's bit buffer and its 256-bit length, for an arbitrary compression function. */
module Whirlpool {
  import opened BlockModes
  import opened BlockStream
  import opened ByteIndex
  import Counters

  /** The padded message: 0x80, zeros, and the length in bits as 32 bytes. */
  function Padded(msg: Bytes): Bytes {
    msg + (Pad(|msg|, 64, 32) + Be(8 * |msg|, 32))
  }

  function Hash<S>(f: (S, Bytes) -> S, initial: S, msg: Bytes): S {
    Fold(f, initial, 64, Padded(msg))
  }

  // ---- Shifts of a byte by a computed amount, and OR. ----

  function Shl(x: bv8, n: nat): bv8
    decreases n
  {
    if n == 0 then x else Shl(x << 1, n - 1)
  }

  function Shr(x: bv8, n: nat): bv8
    decreases n
  {
    if n == 0 then x else Shr(x >> 1, n - 1)
  }

  function Or(x: bv8, y: bv8): bv8 { x | y }

  lemma ShiftedOut(x: bv8)
    ensures Shl(x, 8) == 0 && Shr(x, 8) == 0
  {
    assert Shl(x, 8) == Shl(x << 1, 7) == Shl((x << 1) << 1, 6);
    assert Shl((x << 1) << 1, 6) == Shl(x << 2, 6) == Shl((x << 2) << 1, 5) == Shl(x << 3, 5);
    assert Shl(x << 3, 5) == Shl((x << 3) << 1, 4) == Shl(x << 4, 4);
    assert Shl(x << 4, 4) == Shl((x << 4) << 1, 3) == Shl(x << 5, 3);
    assert Shl(x << 5, 3) == Shl((x << 5) << 1, 2) == Shl(x << 6, 2);
    assert Shl(x << 6, 2) == Shl((x << 6) << 1, 1) == Shl(x << 7, 1) == Shl((x << 7) << 1, 0);
    assert Shr(x, 8) == Shr(x >> 1, 7) == Shr((x >> 1) >> 1, 6) == Shr(x >> 2, 6);
    assert Shr(x >> 2, 6) == Shr((x >> 2) >> 1, 5) == Shr(x >> 3, 5);
    assert Shr(x >> 3, 5) == Shr((x >> 3) >> 1, 4) == Shr(x >> 4, 4);
    assert Shr(x >> 4, 4) == Shr((x >> 4) >> 1, 3) == Shr(x >> 5, 3);
    assert Shr(x >> 5, 3) == Shr((x >> 5) >> 1, 2) == Shr(x >> 6, 2);
    assert Shr(x >> 6, 2) == Shr((x >> 6) >> 1, 1) == Shr(x >> 7, 1) == Shr((x >> 7) >> 1, 0);
  }

  lemma OrZero(x: bv8)
    ensures Or(x, 0) == x && Or(0, x) == x
  {
  }

  // ---- The 32-byte length. ----

  /** Adding v to a big-endian number digit by digit, as the carry loop does. */
  function AddBytes(s: Bytes, v: nat): (r: Bytes)
    ensures |r| == |s|
  {
    if s == [] then []
    else
      var x := Index(s[|s| - 1]) + v;
      AddBytes(s[..|s| - 1], x / 256) + [ByteAt(x % 256)]
  }

  /** Digit-by-digit addition is addition, modulo 256^k. */
  lemma {:induction false} AddBytesIsAdd(n: nat, k: nat, v: nat)
    ensures AddBytes(Be(n, k), v) == Be(n + v, k)
    decreases k
  {
    hide Be; hide ByteAt; hide Index; hide AddBytes;
    if k == 0 {
      AddToEmpty(Be(n, 0), v);
    } else {
      AddBytesIsAdd(n / 256, k - 1, (n % 256 + v) / 256);
      IndexOfByte(n % 256);
      AddDigits(n, v);
      BeUnfold(n, k);
      BeUnfold(n + v, k);
      AddSnoc(Be(n / 256, k - 1), ByteAt(n % 256), v);
    }
  }

  lemma AddToEmpty(s: Bytes, v: nat)
    requires s == []
    ensures AddBytes(s, v) == []
  {
  }

  lemma AddSnoc(s: Bytes, d: bv8, v: nat)
    ensures AddBytes(s + [d], v) == AddBytes(s, (Index(d) + v) / 256) + [ByteAt((Index(d) + v) % 256)]
  {
    assert (s + [d])[..|s|] == s;
  }

  lemma AddDigits(n: nat, v: nat)
    ensures n / 256 + (n % 256 + v) / 256 == (n + v) / 256
    ensures (n % 256 + v) % 256 == (n + v) % 256
  {
  }

  lemma {:induction false} AddNothing(s: Bytes)
    ensures AddBytes(s, 0) == s
  {
    hide Index; hide ByteAt;
    if s != [] {
      AddNothing(s[..|s| - 1]);
      ByteAtIndex(s[|s| - 1]);
    }
  }

  class Context<S> {
    const compress: (S, Bytes) -> S
    const initial: S
    const encode: S -> Bytes
    const bitLength: array<bv8>
    const buffer: array<bv8>
    var bufferBits: nat
    var bufferPos: nat
    var hash: S

    /** The buffer after the bytes of msg; its next byte is zero, so that OR stores into it. */
    ghost predicate Buffered(msg: Bytes)
      reads this, buffer
    {
      && buffer.Length == 64
      && bufferPos == |msg| % 64 && bufferBits == 8 * bufferPos
      && buffer[..bufferPos] == Rest(64, msg)
      && buffer[bufferPos] == 0
      && hash == Fold(compress, initial, 64, msg)
    }

    ghost predicate Holds(msg: Bytes)
      reads this, buffer, bitLength
    {
      Buffered(msg) && bitLength.Length == 32 && bitLength != buffer && bitLength[..] == Be(8 * |msg|, 32)
    }

    /** wp512_init */
    constructor (compress: (S, Bytes) -> S, initial: S, encode: S -> Bytes)
      ensures Holds([]) && fresh(buffer) && fresh(bitLength)
      ensures this.compress == compress && this.initial == initial && this.encode == encode
    {
      this.compress, this.initial, this.encode := compress, initial, encode;
      bitLength := new bv8[32](_ => 0);
      buffer := new bv8[64];
      bufferBits, bufferPos := 0, 0;
      hash := initial;
      new;
      buffer[0] := 0;
      BeZero(32);
      assert bitLength[..] == Zeros(32);
      assert buffer[..0] == [];
    }

    /** The carry loop: it stops as soon as nothing is left to add. */
    method AddLength(bits: nat)
      requires bitLength.Length == 32
      modifies bitLength
      ensures bitLength[..] == AddBytes(old(bitLength[..]), bits)
    {
      hide Index; hide ByteAt; hide AddBytes;
      ghost var was := bitLength[..];
      var i: nat, carry: nat, value: nat := 32, 0, bits;
      assert was[..32] == was && AddBytes(was, bits) == AddBytes(was[..32], bits) + [];
      while i > 0 && (carry != 0 || value != 0)
        invariant i <= 32 && bitLength[..i] == was[..i]
        invariant AddBytes(was, bits) == AddBytes(was[..i], carry + value) + bitLength[i..]
      {
        i := i - 1;
        ghost var tail := bitLength[i + 1..];
        assert bitLength[i] == bitLength[..i + 1][i] == was[i];
        LastDigit(was, i, carry + value);
        CarryStep(Index(was[i]), carry, value);
        carry := carry + Index(bitLength[i]) + value % 256;
        bitLength[i] := ByteAt(carry % 256);
        assert bitLength[i..] == [ByteAt(carry % 256)] + tail;
        Assoc(AddBytes(was[..i], carry / 256 + value / 256), [ByteAt(carry % 256)], tail);
        carry := carry / 256;
        value := value / 256;
      }
      Remaining(was[..i], carry + value, bitLength[..i]);
      assert bitLength[..] == bitLength[..i] + bitLength[i..];
    }

    /** The position moves past a stored byte; a full buffer is compressed and the next byte cleared. */
    method Advance(spill: bv8, bufferRem: nat, ghost msg: Bytes, ghost b: bv8)
      requires buffer.Length == 64 && bufferPos == |msg| % 64 && bufferBits == 8 * bufferPos
      requires buffer[..bufferPos + 1] == Rest(64, msg) + [b] && hash == Fold(compress, initial, 64, msg)
      requires spill == 0 && bufferRem == 0
      modifies this, buffer
      ensures Buffered(msg + [b])
    {
      hide Fold; hide Rest;
      bufferPos := bufferPos + 1;
      bufferBits := bufferBits + (8 - bufferRem);
      if bufferBits == 512 {
        Fills(compress, initial, msg, b);
        assert buffer[..] == buffer[..64];
        hash := compress(hash, buffer[..]);
        bufferBits, bufferPos := 0, 0;
        buffer[0] := spill;
        assert buffer[..0] == [];
      } else {
        Stays(compress, initial, msg, b);
        ghost var kept := buffer[..bufferPos];
        buffer[bufferPos] := spill;
        assert buffer[..bufferPos] == kept;
      }
    }

    /** A byte is stored by OR at the position. */
    method Put(b: bv8, bufferRem: nat, ghost msg: Bytes)
      requires Buffered(msg) && bufferRem == 0
      modifies buffer
      ensures buffer[..bufferPos + 1] == Rest(64, msg) + [b]
    {
      hide Shr; hide Or; hide Fold; hide Rest;
      NoShift(b);
      OrZero(b);
      buffer[bufferPos] := Or(buffer[bufferPos], Shr(b, bufferRem));
    }

    /** One turn of the loop of wp512_update. */
    method Push(source: bv8, next: bv8, sourceGap: nat, bufferRem: nat, ghost msg: Bytes)
      requires Buffered(msg) && sourceGap == 0 && bufferRem == 0
      modifies this, buffer
      ensures Buffered(msg + [source])
    {
      hide Shl; hide Shr; hide Or; hide Fold; hide Rest;
      ShiftedOut(next);
      NoShift(source);
      OrZero(source);
      ShiftedOut(source);
      var b := Or(Shl(source, sourceGap), Shr(next, 8 - sourceGap));
      Put(b, bufferRem, msg);
      Advance(Shl(b, 8 - bufferRem), bufferRem, msg, source);
      bufferBits := bufferBits + bufferRem;
    }

    /** The last byte, if there is one. */
    method PushLast(source: bv8, bitsLen: nat, sourceGap: nat, bufferRem: nat, ghost msg: Bytes)
      requires Buffered(msg) && sourceGap == 0 && bufferRem == 0 && (bitsLen == 0 || bitsLen == 8)
      modifies this, buffer
      ensures Buffered(if bitsLen == 0 then msg else msg + [source])
    {
      hide Shl; hide Shr; hide Or; hide Fold; hide Rest;
      var b := 0;
      if bitsLen > 0 {
        NoShift(source);
        b := Shl(source, sourceGap);
        Put(b, bufferRem, msg);
      }
      if bufferRem + bitsLen < 8 {
        bufferBits := bufferBits + bitsLen;
      } else {
        ShiftedOut(b);
        Advance(Shl(b, 8 - bufferRem), bufferRem, msg, source);
        bufferBits := bufferBits + (bitsLen - (8 - bufferRem));
      }
    }

    /** wp512_update, for every 32-bit length.  The number of bits is computed in 32 bits, so what is
        hashed is the data up to its length modulo 2^29. */
    method Update(data: Bytes, ghost msg: Bytes)
      requires Holds(msg) && |data| < 0x1_0000_0000
      modifies this, buffer, bitLength
      ensures Holds(msg + data[..|data| % 0x2000_0000])
    {
      hide Be; hide AddBytes; hide Buffered;
      var bitsLen := (8 * |data|) % 0x1_0000_0000;
      Counters.Octuple(|data|);
      AddLength(bitsLen);
      AddBytesIsAdd(8 * |msg|, 32, bitsLen);
      ghost var n := |data| % 0x2000_0000;
      assert 8 * |msg + data[..n]| == 8 * |msg| + bitsLen;
      assert Buffered(msg);
      Feed(data, bitsLen, msg, n);
    }

    /** wp512_update after the length is stepped. */
    method Feed(data: Bytes, bits: nat, ghost msg: Bytes, ghost n: nat)
      requires Buffered(msg) && n <= |data| && bits == 8 * n
      modifies this, buffer
      ensures Buffered(msg + data[..n])
    {
      var bitsLen := bits;
      var sourceGap, bufferRem := (8 - bitsLen % 8) % 8, bufferBits % 8;
      var sourcePos := 0;
      assert msg + data[..0] == msg;
      hide Buffered;
      while bitsLen > 8
        invariant sourcePos <= n && bitsLen == 8 * (n - sourcePos)
        invariant Buffered(msg + data[..sourcePos])
      {
        Push(data[sourcePos], data[sourcePos + 1], sourceGap, bufferRem, msg + data[..sourcePos]);
        Grow(msg, data, sourcePos);
        bitsLen := bitsLen - 8;
        sourcePos := sourcePos + 1;
      }
      if bitsLen > 0 { Grow(msg, data, sourcePos); }
      PushLast(if bitsLen > 0 then data[sourcePos] else 0, bitsLen, sourceGap, bufferRem, msg + data[..sourcePos]);
    }

    /** wp512_final */
    method Final(ghost msg: Bytes) returns (out: Bytes)
      requires Holds(msg)
      modifies this, buffer
      ensures out == encode(Hash(compress, initial, msg))
    {
      hide Be; hide Fold; hide Rest; hide Pad;
      FoldAppend(compress, initial, 64, msg, Pad(|msg|, 64, 32) + Be(8 * |msg|, 32));
      var at := Start(msg);
      ghost var head := buffer[..at];
      Memcpy(buffer, at, Zeros(32 - at));
      Memcpy(buffer, 32, bitLength[..]);
      assert buffer[..] == head + Zeros(32 - at) + Be(8 * |msg|, 32);
      hash := compress(hash, buffer[..]);
      out := encode(hash);
    }

    /** The first half of wp512_final: append the bit, and finish the block if the length does not fit. */
    method Start(ghost msg: Bytes) returns (at: nat)
      requires Buffered(msg)
      modifies this, buffer
      ensures at <= 32
      ensures Fold(compress, old(hash), 64, Rest(64, msg) + (Pad(|msg|, 64, 32) + Be(8 * |msg|, 32)))
           == compress(hash, buffer[..at] + Zeros(32 - at) + Be(8 * |msg|, 32))
    {
      hide Be; hide Fold; hide Rest; hide Pad; hide Shr;
      RestLength(64, msg);
      ghost var rest := buffer[..bufferPos];
      NoShift(0x80);
      OrZero(0x80);
      buffer[bufferPos] := Or(buffer[bufferPos], Shr(0x80, bufferBits % 8));
      at := bufferPos + 1;
      assert buffer[..at] == rest + [0x80];
      if at > 32 {
        if at < 64 { Memcpy(buffer, at, Zeros(64 - at)); }
        assert buffer[..] == rest + [0x80] + Zeros(63 - |rest|);
        TwoTailBlocks(compress, hash, rest, |msg|, 32, Be(8 * |msg|, 32), buffer[..]);
        hash := compress(hash, buffer[..]);
        at := 0;
        assert buffer[..0] + Zeros(32) == Zeros(32);
      } else {
        OneTailBlock(compress, hash, rest, |msg|, 32, Be(8 * |msg|, 32), buffer[..at]);
      }
    }
  }

  lemma Grow(msg: Bytes, data: Bytes, i: nat)
    requires i < |data|
    ensures msg + data[..i] + [data[i]] == msg + data[..i + 1]
  {
  }

  lemma BeZero(k: nat)
    ensures Be(0, k) == Zeros(k)
  {
  }

  lemma NoShift(x: bv8)
    ensures Shl(x, 0) == x && Shr(x, 0) == x
  {
  }

  lemma LastDigit(was: Bytes, i: nat, v: nat)
    requires i < |was|
    ensures AddBytes(was[..i + 1], v)
         == AddBytes(was[..i], (Index(was[i]) + v) / 256) + [ByteAt((Index(was[i]) + v) % 256)]
  {
    assert was[..i + 1] == was[..i] + [was[i]];
    AddSnoc(was[..i], was[i], v);
  }

  lemma Remaining(s: Bytes, v: nat, same: Bytes)
    requires s == same && (s == [] || v == 0)
    ensures AddBytes(s, v) == same
  {
    AddNothing(s);
  }

  lemma CarryStep(x: nat, carry: nat, value: nat)
    ensures (carry + x + value % 256) % 256 == (x + (carry + value)) % 256
    ensures (carry + x + value % 256) / 256 + value / 256 == (x + (carry + value)) / 256
  {
    assert value == 256 * (value / 256) + value % 256;
  }

  /** The byte that fills a block. */
  lemma Fills<S>(f: (S, Bytes) -> S, s: S, msg: Bytes, b: bv8)
    requires |msg| % 64 == 63
    ensures Rest(64, msg + [b]) == [] && |msg + [b]| % 64 == 0
    ensures Fold(f, s, 64, msg + [b]) == f(Fold(f, s, 64, msg), Rest(64, msg) + [b])
  {
    FoldAppend(f, s, 64, msg, [b]);
    RestLength(64, msg);
    var r := Rest(64, msg) + [b];
    assert r[..64] == r && r[64..] == [];
  }

  /** Any other byte. */
  lemma Stays<S>(f: (S, Bytes) -> S, s: S, msg: Bytes, b: bv8)
    requires |msg| % 64 != 63
    ensures Rest(64, msg + [b]) == Rest(64, msg) + [b] && |msg + [b]| % 64 == |msg| % 64 + 1
    ensures Fold(f, s, 64, msg + [b]) == Fold(f, s, 64, msg)
  {
    FoldAppend(f, s, 64, msg, [b]);
    RestLength(64, msg);
  }

  /** Any way of cutting a message into updates shorter than 2^29 bytes gives its hash. */
  method Digest<S>(f: (S, Bytes) -> S, initial: S, encode: S -> Bytes, chunks: seq<Bytes>) returns (out: Bytes)
    requires forall i :: 0 <= i < |chunks| ==> |chunks[i]| < 0x2000_0000
    ensures out == encode(Hash(f, initial, Joined(chunks)))
  {
    hide Hash; hide Be; hide Fold; hide Rest;
    var ctx := new Context(f, initial, encode);
    for i := 0 to |chunks|
      invariant fresh(ctx) && fresh(ctx.buffer) && fresh(ctx.bitLength) && ctx.Holds(Joined(chunks[..i]))
    {
      JoinedSnoc(chunks, i);
      assert chunks[i][..|chunks[i]|] == chunks[i];
      ctx.Update(chunks[i], Joined(chunks[..i]));
    }
    assert chunks[..|chunks|] == chunks;
    out := ctx.Final(Joined(chunks));
  }
}
