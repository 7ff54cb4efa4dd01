/** Byte strings, and the block-cipher modes of sections 6.1 and 6.2 of NIST SP 800-38A over one
    contiguous byte string.  This is the reference that the scatterlist walk of cipher.c is compared with. */
module BlockModes {

  type Bytes = seq<bv8>

  /** A block cipher in one direction under a fixed key. */
  type BlockFn = Bytes -> Bytes

  ghost predicate KeepsLength(fn: BlockFn, bs: nat) {
    forall x: Bytes :: |x| == bs ==> |fn(x)| == bs
  }

  ghost predicate Inverts(dec: BlockFn, enc: BlockFn, bs: nat) {
    forall x: Bytes :: |x| == bs ==> dec(enc(x)) == x
  }

  /** n bytes are a whole number of blocks. */
  predicate Whole(n: nat, bs: nat)
    requires 0 < bs
  {
    n == 0 || (bs <= n && Whole(n - bs, bs))
  }

  lemma {:induction false} WholeIsMultiple(n: nat, bs: nat)
    requires 0 < bs
    ensures Whole(n, bs) <==> n % bs == 0
  {
    if bs <= n {
      WholeIsMultiple(n - bs, bs);
      ModStep(n, bs);
    }
  }

  lemma ModStep(n: nat, d: nat)
    requires 0 < d <= n
    ensures n % d == (n - d) % d
  {
    var q, r := n / d, n % d;
    assert n == q * d + r;
    assert n - d == (q - 1) * d + r;
    ModUnique(n - d, d, q - 1, r);
  }

  lemma ModUnique(n: int, d: nat, q: int, r: nat)
    requires r < d && n == q * d + r
    ensures n % d == r && n / d == q
  {
    var k := n / d - q;
    assert k * d == r - n % d;
    assert k < 1 by { if k >= 1 { Scale(k, 1, d); assert false; } }
    assert k > -1 by { if k <= -1 { Scale(-1, k, d); assert false; } }
  }

  lemma Scale(a: int, b: int, d: nat)
    requires a >= b
    ensures a * d >= b * d
  {
  }

  datatype Mode = Ecb | CbcEncrypt | CbcDecrypt

  /** Bytewise exclusive or, as long as the shorter operand. */
  function Xor(a: Bytes, b: Bytes): (r: Bytes)
    ensures |r| == if |a| <= |b| then |a| else |b|
  {
    seq(if |a| <= |b| then |a| else |b|, i requires 0 <= i < |a| && i < |b| => a[i] ^ b[i])
  }

  lemma XorCancels(a: Bytes, b: Bytes)
    requires |a| == |b|
    ensures Xor(Xor(a, b), a) == b
    ensures Xor(Xor(a, b), b) == a
  {
  }

  /** One block: what is written out, and the chaining value left behind. */
  function OneBlock(mode: Mode, fn: BlockFn, iv: Bytes, block: Bytes): (Bytes, Bytes) {
    match mode
    case Ecb => (fn(block), iv)
    case CbcEncrypt => (fn(Xor(iv, block)), fn(Xor(iv, block)))
    case CbcDecrypt => (Xor(fn(block), iv), block)
  }

  /** The mode over a whole byte string; a final partial block is dropped. */
  function Run(mode: Mode, fn: BlockFn, bs: nat, iv: Bytes, text: Bytes): (Bytes, Bytes)
    decreases |text|
  {
    if bs == 0 || |text| < bs then ([], iv)
    else
      var step := OneBlock(mode, fn, iv, text[..bs]);
      var rest := Run(mode, fn, bs, step.1, text[bs..]);
      (step.0 + rest.0, rest.1)
  }

  /** Unfolding Run at a block boundary. */
  lemma RunStep(mode: Mode, fn: BlockFn, bs: nat, iv: Bytes, block: Bytes, rest: Bytes)
    requires 0 < bs == |block|
    ensures var step := OneBlock(mode, fn, iv, block);
            Run(mode, fn, bs, iv, block + rest) == (step.0 + Run(mode, fn, bs, step.1, rest).0, Run(mode, fn, bs, step.1, rest).1)
  {
    assert (block + rest)[..bs] == block && (block + rest)[bs..] == rest;
  }

  /** As many bytes come out as go in. */
  lemma {:induction false} RunLength(mode: Mode, fn: BlockFn, bs: nat, iv: Bytes, text: Bytes)
    requires 0 < bs == |iv| && Whole(|text|, bs) && KeepsLength(fn, bs)
    ensures |Run(mode, fn, bs, iv, text).0| == |text| && |Run(mode, fn, bs, iv, text).1| == bs
    decreases |text|
  {
    if text != [] {
      RunLength(mode, fn, bs, OneBlock(mode, fn, iv, text[..bs]).1, text[bs..]);
    }
  }

  lemma Assoc(a: Bytes, b: Bytes, c: Bytes)
    ensures (a + b) + c == a + (b + c)
  {
  }

  lemma SplitConcat(a: Bytes, b: Bytes, k: nat)
    requires k <= |a|
    ensures a[..k] + a[k..] == a && a[..k] + (a[k..] + b) == a + b
  {
  }

  /** Running on a concatenation is running on the parts, carrying the chaining value. */
  lemma {:induction false} RunConcat(mode: Mode, fn: BlockFn, bs: nat, iv: Bytes, a: Bytes, b: Bytes)
    requires 0 < bs && Whole(|a|, bs)
    ensures var first := Run(mode, fn, bs, iv, a);
            var second := Run(mode, fn, bs, first.1, b);
            Run(mode, fn, bs, iv, a + b) == (first.0 + second.0, second.1)
    decreases |a|
  {
    if a == [] {
      assert a + b == b;
      assert [] + Run(mode, fn, bs, iv, b).0 == Run(mode, fn, bs, iv, b).0;
    } else {
      var p, q := a[..bs], a[bs..];
      SplitConcat(a, b, bs);
      var step := OneBlock(mode, fn, iv, p);
      RunConcat(mode, fn, bs, step.1, q, b);
      RunStep(mode, fn, bs, iv, p, q);
      RunStep(mode, fn, bs, iv, p, q + b);
      var restA := Run(mode, fn, bs, step.1, q);
      Assoc(step.0, restA.0, Run(mode, fn, bs, restA.1, b).0);
    }
  }

  /** ECB decryption undoes ECB encryption. */
  lemma {:induction false} EcbRoundTrip(enc: BlockFn, dec: BlockFn, bs: nat, iv: Bytes, text: Bytes)
    requires 0 < bs && Whole(|text|, bs)
    requires KeepsLength(enc, bs) && Inverts(dec, enc, bs)
    ensures Run(Ecb, dec, bs, iv, Run(Ecb, enc, bs, iv, text).0).0 == text
    decreases |text|
  {
    if text != [] {
      var p, q := text[..bs], text[bs..];
      assert text == p + q;
      EcbRoundTrip(enc, dec, bs, iv, q);
      RunStep(Ecb, enc, bs, iv, p, q);
      RunStep(Ecb, dec, bs, iv, enc(p), Run(Ecb, enc, bs, iv, q).0);
    }
  }

  /** CBC decryption from the same IV undoes CBC encryption, and both leave the same chaining value. */
  lemma {:induction false} CbcRoundTrip(enc: BlockFn, dec: BlockFn, bs: nat, iv: Bytes, text: Bytes)
    requires 0 < bs == |iv| && Whole(|text|, bs)
    requires KeepsLength(enc, bs) && Inverts(dec, enc, bs)
    ensures Run(CbcDecrypt, dec, bs, iv, Run(CbcEncrypt, enc, bs, iv, text).0)
         == (text, Run(CbcEncrypt, enc, bs, iv, text).1)
    decreases |text|
  {
    if text != [] {
      var p, q := text[..bs], text[bs..];
      var c := enc(Xor(iv, p));
      CbcRoundTrip(enc, dec, bs, c, q);
      RunStep(CbcEncrypt, enc, bs, iv, p, q);
      RunStep(CbcDecrypt, dec, bs, iv, c, Run(CbcEncrypt, enc, bs, c, q).0);
      XorCancels(iv, p);
      assert p + q == text;
    }
  }

  /** Section 6.2 block by block.  At every whole number of blocks k before the end, ciphertext block k is
      E(P xor previous ciphertext block), the IV standing in for the block before the first. */
  lemma {:induction false} CbcEncryptBlocks(fn: BlockFn, bs: nat, iv: Bytes, text: Bytes, k: nat)
    requires 0 < bs == |iv| && Whole(|text|, bs) && Whole(k, bs) && k < |text|
    requires KeepsLength(fn, bs)
    ensures k + bs <= |text| && (k == 0 || bs <= k)
    ensures var c := Run(CbcEncrypt, fn, bs, iv, text).0;
            |c| == |text| && c[k..k + bs] == fn(Xor(if k == 0 then iv else c[k - bs..k], text[k..k + bs]))
    decreases |text|
  {
    var p, rest := text[..bs], text[bs..];
    assert text == p + rest;
    var c0 := fn(Xor(iv, p));
    RunStep(CbcEncrypt, fn, bs, iv, p, rest);
    RunLength(CbcEncrypt, fn, bs, c0, rest);
    var c, tail := Run(CbcEncrypt, fn, bs, iv, text).0, Run(CbcEncrypt, fn, bs, c0, rest).0;
    assert c == c0 + tail;
    if k == 0 {
      assert c[..bs] == c0;
    } else {
      var j := k - bs;
      CbcEncryptBlocks(fn, bs, c0, rest, j);
      assert c[k..k + bs] == tail[j..j + bs];
      assert text[k..k + bs] == rest[j..j + bs];
      if j > 0 { assert c[k - bs..k] == tail[j - bs..j]; } else { assert c[k - bs..k] == c0; }
    }
  }

  /** The chaining value CBC encryption leaves behind is the last ciphertext block. */
  lemma {:induction false} CbcEncryptLeavesLastBlock(fn: BlockFn, bs: nat, iv: Bytes, text: Bytes)
    requires 0 < bs == |iv| && Whole(|text|, bs) && text != []
    requires KeepsLength(fn, bs)
    ensures bs <= |text|
    ensures var c := Run(CbcEncrypt, fn, bs, iv, text);
            |c.0| == |text| && c.1 == c.0[|text| - bs..]
    decreases |text|
  {
    var p, rest := text[..bs], text[bs..];
    assert text == p + rest;
    var c0 := fn(Xor(iv, p));
    RunStep(CbcEncrypt, fn, bs, iv, p, rest);
    if rest != [] {
      CbcEncryptLeavesLastBlock(fn, bs, c0, rest);
    } else {
      assert Run(CbcEncrypt, fn, bs, c0, rest) == ([], c0);
    }
  }

  /** And the one CBC decryption leaves behind is the last block of the ciphertext it was given. */
  lemma {:induction false} CbcDecryptLeavesLastBlock(fn: BlockFn, bs: nat, iv: Bytes, text: Bytes)
    requires 0 < bs == |iv| && Whole(|text|, bs) && text != []
    ensures bs <= |text| && Run(CbcDecrypt, fn, bs, iv, text).1 == text[|text| - bs..]
    decreases |text|
  {
    var c, rest := text[..bs], text[bs..];
    assert text == c + rest;
    RunStep(CbcDecrypt, fn, bs, iv, c, rest);
    if rest != [] {
      CbcDecryptLeavesLastBlock(fn, bs, c, rest);
    } else {
      assert Run(CbcDecrypt, fn, bs, c, rest) == ([], c);
    }
  }
}
