/** What crypt of cipher.c leaves in memory when source and destination share bytes, and exactly when that is the
    mode over the flat source text.

    Everything here is about address sequences: the source bytes, the destination bytes, and for every block
    whether CBC decryption reads the ciphertext block again, from memory, after the plaintext was stored. */
module Overlap {
  import opened BlockModes
  import opened Scatterwalk

  predicate First(flags: seq<bool>) {
    flags != [] && flags[0]
  }

  function Rest(flags: seq<bool>): seq<bool> {
    if flags == [] then [] else flags[1..]
  }

  /** One block through shared memory. */
  function Turned(mode: Mode, fn: BlockFn, bs: nat, m: Bytes, iv: Bytes, src: Addrs, dst: Addrs, reread: bool)
    : (Bytes, Bytes)
    requires bs <= |src| && bs <= |dst|
  {
    var step := OneBlock(mode, fn, iv, Gather(m, src[..bs]));
    if |step.0| != bs then (m, iv)
    else
      var m' := Scatter(m, dst, step.0, bs);
      (m', if mode.CbcDecrypt? && reread then Gather(m', src[..bs]) else step.1)
  }

  /** crypt as it goes: each block is read from memory as the blocks before it have left it. */
  function Interleaved(mode: Mode, fn: BlockFn, bs: nat, m: Bytes, iv: Bytes, src: Addrs, dst: Addrs, n: nat,
                       rereads: seq<bool>): (Bytes, Bytes)
    requires n <= |src| && n <= |dst|
    decreases n
  {
    if bs == 0 || n < bs then (m, iv)
    else
      var t := Turned(mode, fn, bs, m, iv, src, dst, First(rereads));
      Interleaved(mode, fn, bs, t.0, t.1, src[bs..], dst[bs..], n - bs, Rest(rereads))
  }

  /** What it should leave: the mode's output over the source text, stored over the destination. */
  function Flattened(mode: Mode, fn: BlockFn, bs: nat, m: Bytes, iv: Bytes, src: Addrs, dst: Addrs, n: nat)
    : (Bytes, Bytes)
    requires n <= |src| && n <= |dst|
  {
    var out := Run(mode, fn, bs, iv, Gather(m, src[..n]));
    if |out.0| != n then (m, iv) else (Scatter(m, dst, out.0, n), out.1)
  }

  /** No byte of the one is a byte of the other. */
  ghost predicate Disjoint(a: Addrs, b: Addrs) {
    forall k, j :: 0 <= k < |a| && 0 <= j < |b| ==> a[k] != b[j]
  }

  /** How source and destination may share memory.  A byte stored in some block is never a source byte of a later
      block, and a block whose ciphertext is read again shares no byte with its destination. */
  ghost predicate Compatible(mode: Mode, src: Addrs, dst: Addrs, n: nat, bs: nat, rereads: seq<bool>)
    requires 0 < bs && n <= |src| && n <= |dst|
    decreases n
  {
    n < bs
    || (&& Disjoint(dst[..bs], src[bs..n])
        && (mode.CbcDecrypt? && First(rereads) ==> Disjoint(dst[..bs], src[..bs]))
        && Compatible(mode, src[bs..], dst[bs..], n - bs, bs, Rest(rereads)))
  }

  /** Storing at other addresses does not change what is read. */
  lemma DisjointKept(m: Bytes, dst: Addrs, out: Bytes, bs: nat, at: Addrs)
    requires bs <= |dst| && bs <= |out| && Disjoint(dst[..bs], at)
    ensures Gather(Scatter(m, dst, out, bs), at) == Gather(m, at)
  {
    forall i, j | 0 <= i < bs && 0 <= j < |at| ensures dst[i] != at[j] {
      assert dst[..bs][i] != at[j];
    }
    GatherElsewhere(m, dst, out, bs, at);
  }

  lemma ExtendScatter(m0: Bytes, dst: Addrs, done: Bytes, out: Bytes)
    requires |done| + |out| <= |dst|
    ensures Scatter(m0, dst, done + out, |done| + |out|)
         == Scatter(Scatter(m0, dst, done, |done|), dst[|done|..], out, |out|)
  {
    ScatterSplit(m0, dst, done + out, |done|, |out|);
    ScatterPrefix(m0, dst, done + out, dst, done, |done|);
    assert (done + out)[|done|..] == out;
  }

  lemma GatherSplit(m: Bytes, src: Addrs, bs: nat, n: nat)
    requires bs <= n <= |src|
    ensures src[bs..][..n - bs] == src[bs..n]
    ensures Gather(m, src[..n]) == Gather(m, src[..bs]) + Gather(m, src[bs..n])
  {
  }

  /** One turn of a compatible run is one block of the mode, and leaves the later source bytes alone. */
  lemma CompatibleTurn(mode: Mode, fn: BlockFn, bs: nat, m: Bytes, iv: Bytes, src: Addrs, dst: Addrs, n: nat,
                       rereads: seq<bool>)
    requires 0 < bs == |iv| && bs <= n <= |src| && n <= |dst| && KeepsLength(fn, bs)
    requires Compatible(mode, src, dst, n, bs, rereads)
    ensures Compatible(mode, src[bs..], dst[bs..], n - bs, bs, Rest(rereads))
    ensures var step := OneBlock(mode, fn, iv, Gather(m, src[..bs]));
            var m' := Scatter(m, dst, step.0, bs);
            && |step.0| == |step.1| == bs
            && Turned(mode, fn, bs, m, iv, src, dst, First(rereads)) == (m', step.1)
            && Gather(m', src[bs..n]) == Gather(m, src[bs..n])
  {
    hide Scatter;
    var step := OneBlock(mode, fn, iv, Gather(m, src[..bs]));
    DisjointKept(m, dst, step.0, bs, src[bs..n]);
    if mode.CbcDecrypt? && First(rereads) {
      DisjointKept(m, dst, step.0, bs, src[..bs]);
    }
  }

  /** Compatible lists: working block by block through shared memory is the mode over the flat source text. */
  lemma {:induction false} InterleavedIsFlat(mode: Mode, fn: BlockFn, bs: nat, m: Bytes, iv: Bytes, src: Addrs,
                                             dst: Addrs, n: nat, rereads: seq<bool>)
    requires 0 < bs == |iv| && n <= |src| && n <= |dst| && Whole(n, bs) && KeepsLength(fn, bs)
    requires Compatible(mode, src, dst, n, bs, rereads)
    ensures |Run(mode, fn, bs, iv, Gather(m, src[..n])).0| == n
    ensures Interleaved(mode, fn, bs, m, iv, src, dst, n, rereads) == Flattened(mode, fn, bs, m, iv, src, dst, n)
    decreases n
  {
    hide Scatter; hide Turned; hide Compatible; hide OneBlock;
    if n == 0 {
      ScatterNone(m, dst, Run(mode, fn, bs, iv, Gather(m, src[..n])).0);
    } else {
      var block, rest := Gather(m, src[..bs]), Gather(m, src[bs..n]);
      var step := OneBlock(mode, fn, iv, block);
      CompatibleTurn(mode, fn, bs, m, iv, src, dst, n, rereads);
      var m' := Scatter(m, dst, step.0, bs);
      InterleavedIsFlat(mode, fn, bs, m', step.1, src[bs..], dst[bs..], n - bs, Rest(rereads));
      GatherSplit(m, src, bs, n);
      RunStep(mode, fn, bs, iv, block, rest);
      ExtendScatter(m, dst, step.0, Run(mode, fn, bs, step.1, rest).0);
    }
  }

  // The other direction: a block function, a chaining value and a memory for which an incompatible run goes wrong.

  /** As long as every source byte is zero and the chaining value is undisturbed, every byte stored is 0xFF;
      a stored byte is never 0xFF if either is 0xFF instead where it should not be. */
  function ProbeByte(mode: Mode, x: bv8): bv8 {
    if mode.CbcEncrypt? then x else if x == 0 then 0xFF else 1
  }

  function Probe(mode: Mode): BlockFn {
    x => seq(|x|, i requires 0 <= i < |x| => ProbeByte(mode, x[i]))
  }

  function Calm(mode: Mode, bs: nat): (r: Bytes)
    ensures |r| == bs
  {
    seq(bs, i => if mode.CbcEncrypt? then 0xFF else 0)
  }

  function Filled(x: bv8, n: nat): (r: Bytes)
    ensures |r| == n
  {
    seq(n, i => x)
  }

  lemma ProbeKeepsLength(mode: Mode, bs: nat)
    ensures KeepsLength(Probe(mode), bs)
  {
  }

  /** Source bytes and chaining value hold nothing but the two values. */
  ghost predicate TwoValued(mode: Mode, m: Bytes, iv: Bytes, src: Addrs, n: nat, bs: nat) {
    && |iv| == bs && InBounds(src, n, |m|)
    && (forall p :: 0 <= p < n ==> m[src[p]] == 0 || m[src[p]] == 0xFF)
    && (if mode.CbcDecrypt? then forall i :: 0 <= i < bs ==> iv[i] == 0 || iv[i] == 0xFF else iv == Calm(mode, bs))
  }

  /** Some earlier block has spoilt what the next ones work on. */
  ghost predicate Spoilt(mode: Mode, m: Bytes, iv: Bytes, src: Addrs, n: nat, bs: nat)
    requires InBounds(src, n, |m|)
  {
    iv != Calm(mode, bs) || exists p :: 0 <= p < n && m[src[p]] == 0xFF
  }

  /** The probe shows whether a byte is as it should be. */
  lemma ProbeShows(mode: Mode, iv: Bytes, block: Bytes, bs: nat, j: nat)
    requires |iv| == |block| == bs && j < bs
    requires block[j] == 0 || block[j] == 0xFF
    requires if mode.CbcDecrypt? then iv[j] == 0 || iv[j] == 0xFF else iv == Calm(mode, bs)
    ensures var out := OneBlock(mode, Probe(mode), iv, block).0;
            |out| == bs && (out[j] == 0xFF <==> block[j] == 0 && iv[j] == Calm(mode, bs)[j])
  {
  }

  /** A block that finds everything as it should be. */
  lemma CalmBlock(mode: Mode, bs: nat)
    ensures OneBlock(mode, Probe(mode), Calm(mode, bs), Filled(0, bs)) == (Filled(0xFF, bs), Calm(mode, bs))
  {
    var step := OneBlock(mode, Probe(mode), Calm(mode, bs), Filled(0, bs));
    forall j | 0 <= j < bs ensures |step.0| == bs && step.0[j] == 0xFF {
      ProbeShows(mode, Calm(mode, bs), Filled(0, bs), bs, j);
    }
    if bs == 0 { assert step.0 == [] == Filled(0xFF, bs); }
    assert step.0 == Filled(0xFF, bs);
    assert Calm(mode, bs) == Filled(if mode.CbcEncrypt? then 0xFF else 0, bs);
  }

  /** The flat mode over zeros. */
  lemma {:induction false} CalmRun(mode: Mode, bs: nat, n: nat)
    requires 0 < bs && Whole(n, bs)
    ensures Run(mode, Probe(mode), bs, Calm(mode, bs), Filled(0, n)) == (Filled(0xFF, n), Calm(mode, bs))
    decreases n
  {
    if n == 0 {
      assert Filled(0xFF, n) == [];
    } else {
      CalmBlock(mode, bs);
      CalmRun(mode, bs, n - bs);
      assert Filled(0, n) == Filled(0, bs) + Filled(0, n - bs);
      assert Filled(0xFF, n) == Filled(0xFF, bs) + Filled(0xFF, n - bs);
      RunStep(mode, Probe(mode), bs, Calm(mode, bs), Filled(0, bs), Filled(0, n - bs));
    }
  }

  /** Addresses outside the destination keep their bytes through a whole run. */
  lemma {:induction false} InterleavedFrame(mode: Mode, fn: BlockFn, bs: nat, m: Bytes, iv: Bytes, src: Addrs,
                                            dst: Addrs, n: nat, rereads: seq<bool>, x: nat)
    requires n <= |src| && n <= |dst| && x < |m| && forall i :: 0 <= i < n ==> dst[i] != x
    ensures var r := Interleaved(mode, fn, bs, m, iv, src, dst, n, rereads); |r.0| == |m| && r.0[x] == m[x]
    decreases n
  {
    if 0 < bs <= n {
      var t := Turned(mode, fn, bs, m, iv, src, dst, First(rereads));
      var out := OneBlock(mode, fn, iv, Gather(m, src[..bs])).0;
      if |out| == bs {
        ScatterFrame(m, dst, out, bs, x);
      }
      InterleavedFrame(mode, fn, bs, t.0, t.1, src[bs..], dst[bs..], n - bs, Rest(rereads), x);
    }
  }

  /** What storing 0xFF throughout makes of a byte. */
  lemma {:induction false} ScatterFilled(m: Bytes, dst: Addrs, bs: nat, n: nat, x: nat)
    requires n <= bs && n <= |dst| && x < |m|
    ensures Scatter(m, dst, Filled(0xFF, bs), n)[x] == if x in dst[..n] then 0xFF else m[x]
  {
    if n != 0 {
      ScatterFilled(m, dst, bs, n - 1, x);
      assert dst[..n] == dst[..n - 1] + [dst[n - 1]];
    }
  }

  /** A byte of the first block is stored for good. */
  lemma StoredStays(mode: Mode, fn: BlockFn, bs: nat, m: Bytes, iv: Bytes, src: Addrs, dst: Addrs, n: nat,
                    rereads: seq<bool>, j: nat)
    requires 0 < bs <= n && n <= |src| && Distinct(dst, n) && InBounds(dst, n, |m|) && j < bs
    requires |OneBlock(mode, fn, iv, Gather(m, src[..bs])).0| == bs
    ensures var r := Interleaved(mode, fn, bs, m, iv, src, dst, n, rereads);
            |r.0| == |m| && r.0[dst[j]] == OneBlock(mode, fn, iv, Gather(m, src[..bs])).0[j]
  {
    hide Scatter; hide OneBlock;
    var out := OneBlock(mode, fn, iv, Gather(m, src[..bs])).0;
    var t := Turned(mode, fn, bs, m, iv, src, dst, First(rereads));
    GatherScattered(m, dst, out, bs);
    assert Gather(t.0, dst[..bs])[j] == out[j];
    InterleavedFrame(mode, fn, bs, t.0, t.1, src[bs..], dst[bs..], n - bs, Rest(rereads), dst[j]);
  }

  /** A byte that is not as it should be shows in what is stored, for good. */
  lemma StainStays(mode: Mode, bs: nat, m: Bytes, iv: Bytes, src: Addrs, dst: Addrs, n: nat, rereads: seq<bool>, j: nat)
    requires 0 < bs <= n && n <= |src| && Distinct(dst, n) && InBounds(dst, n, |m|) && j < bs
    requires TwoValued(mode, m, iv, src, n, bs)
    requires m[src[j]] == 0xFF || iv[j] != Calm(mode, bs)[j]
    ensures var r := Interleaved(mode, Probe(mode), bs, m, iv, src, dst, n, rereads);
            |r.0| == |m| && r.0[dst[j]] != 0xFF
  {
    hide Interleaved; hide OneBlock; hide Probe;
    var block := Gather(m, src[..bs]);
    assert block[j] == m[src[j]];
    ProbeShows(mode, iv, block, bs, j);
    StoredStays(mode, Probe(mode), bs, m, iv, src, dst, n, rereads, j);
  }

  /** A block that finds everything as it should be stores 0xFF throughout. */
  lemma CalmTurn(mode: Mode, bs: nat, m: Bytes, iv: Bytes, src: Addrs, dst: Addrs, n: nat, reread: bool)
    requires 0 < bs <= n && n <= |src| && n <= |dst| && InBounds(src, n, |m|) && iv == Calm(mode, bs)
    requires forall j :: 0 <= j < bs ==> m[src[j]] == 0
    ensures var m' := Scatter(m, dst, Filled(0xFF, bs), bs);
            Turned(mode, Probe(mode), bs, m, iv, src, dst, reread)
            == (m', if mode.CbcDecrypt? && reread then Gather(m', src[..bs]) else Calm(mode, bs))
  {
    assert Gather(m, src[..bs]) == Filled(0, bs);
    CalmBlock(mode, bs);
  }

  lemma FilledValues(m: Bytes, dst: Addrs, bs: nat, a: Addrs, n: nat)
    requires bs <= |dst| && InBounds(a, n, |m|)
    ensures var m' := Scatter(m, dst, Filled(0xFF, bs), bs);
            forall p :: 0 <= p < n ==> m'[a[p]] == if a[p] in dst[..bs] then 0xFF else m[a[p]]
  {
    forall p | 0 <= p < n ensures Scatter(m, dst, Filled(0xFF, bs), bs)[a[p]] == if a[p] in dst[..bs] then 0xFF else m[a[p]] {
      ScatterFilled(m, dst, bs, bs, a[p]);
    }
  }

  /** After a calm block the two values are still the only ones. */
  lemma CalmKeeps(mode: Mode, bs: nat, m: Bytes, src: Addrs, dst: Addrs, n: nat, reread: bool)
    requires 0 < bs <= n && n <= |src| && n <= |dst|
    requires TwoValued(mode, m, Calm(mode, bs), src, n, bs)
    requires forall j :: 0 <= j < bs ==> m[src[j]] == 0
    ensures var t := Turned(mode, Probe(mode), bs, m, Calm(mode, bs), src, dst, reread);
            |t.0| == |m| && TwoValued(mode, t.0, t.1, src[bs..], n - bs, bs)
  {
    hide Scatter; hide Turned;
    CalmTurn(mode, bs, m, Calm(mode, bs), src, dst, n, reread);
    FilledValues(m, dst, bs, src, n);
    assert forall p :: 0 <= p < n - bs ==> src[bs..][p] == src[bs + p];
  }

  /** A later source byte that is or becomes 0xFF is so after the block. */
  lemma SourceSpoilt(m: Bytes, dst: Addrs, bs: nat, src: Addrs, n: nat, p: nat)
    requires bs <= p < n <= |src| && bs <= |dst| && InBounds(src, n, |m|)
    requires m[src[p]] == 0xFF || src[p] in dst[..bs]
    ensures var m' := Scatter(m, dst, Filled(0xFF, bs), bs);
            exists q :: 0 <= q < n - bs && m'[src[bs..][q]] == 0xFF
  {
    ScatterFilled(m, dst, bs, bs, src[p]);
    assert src[bs..][p - bs] == src[p];
  }

  /** A ciphertext byte read again after it was overwritten. */
  lemma ChainSpoilt(m: Bytes, dst: Addrs, bs: nat, src: Addrs, j: nat)
    requires j < bs <= |src| && bs <= |dst| && src[j] < |m| && src[j] in dst[..bs]
    ensures Gather(Scatter(m, dst, Filled(0xFF, bs), bs), src[..bs]) != Calm(CbcDecrypt, bs)
  {
    ScatterFilled(m, dst, bs, bs, src[j]);
    assert Gather(Scatter(m, dst, Filled(0xFF, bs), bs), src[..bs])[j] == 0xFF != Calm(CbcDecrypt, bs)[j];
  }

  /** What spoils the run is still ahead after a calm block. */
  lemma CalmStep(mode: Mode, bs: nat, m: Bytes, src: Addrs, dst: Addrs, n: nat, rereads: seq<bool>)
    requires 0 < bs <= n && n <= |src| && n <= |dst|
    requires TwoValued(mode, m, Calm(mode, bs), src, n, bs)
    requires forall j :: 0 <= j < bs ==> m[src[j]] == 0
    requires Spoilt(mode, m, Calm(mode, bs), src, n, bs) || !Compatible(mode, src, dst, n, bs, rereads)
    ensures var t := Turned(mode, Probe(mode), bs, m, Calm(mode, bs), src, dst, First(rereads));
            && |t.0| == |m| && InBounds(src[bs..], n - bs, |t.0|)
            && (Spoilt(mode, t.0, t.1, src[bs..], n - bs, bs)
                || !Compatible(mode, src[bs..], dst[bs..], n - bs, bs, Rest(rereads)))
  {
    hide Scatter; hide Turned; hide Filled; hide Gather; hide Probe;
    CalmTurn(mode, bs, m, Calm(mode, bs), src, dst, n, First(rereads));
    if Spoilt(mode, m, Calm(mode, bs), src, n, bs) {
      var p :| 0 <= p < n && m[src[p]] == 0xFF;
      SourceSpoilt(m, dst, bs, src, n, p);
    } else if !Disjoint(dst[..bs], src[bs..n]) {
      var k, j :| 0 <= k < bs && 0 <= j < n - bs && dst[..bs][k] == src[bs..n][j];
      assert src[bs + j] == src[bs..n][j] && src[bs + j] in dst[..bs];
      SourceSpoilt(m, dst, bs, src, n, bs + j);
    } else if mode.CbcDecrypt? && First(rereads) && !Disjoint(dst[..bs], src[..bs]) {
      var k, j :| 0 <= k < bs && 0 <= j < bs && dst[..bs][k] == src[..bs][j];
      assert src[j] == src[..bs][j] && src[j] in dst[..bs];
      ChainSpoilt(m, dst, bs, src, j);
    }
  }

  lemma NoStain(mode: Mode, bs: nat, m: Bytes, iv: Bytes, src: Addrs, n: nat)
    requires bs <= n <= |src| && TwoValued(mode, m, iv, src, n, bs)
    requires forall j :: 0 <= j < bs ==> m[src[j]] != 0xFF && iv[j] == Calm(mode, bs)[j]
    ensures iv == Calm(mode, bs) && forall j :: 0 <= j < bs ==> m[src[j]] == 0
  {
  }

  /** Once something is spoilt, or will be, the run does not end with 0xFF throughout and a calm chaining value. */
  lemma {:induction false} Spoils(mode: Mode, bs: nat, m: Bytes, iv: Bytes, src: Addrs, dst: Addrs, n: nat,
                                  rereads: seq<bool>)
    requires 0 < bs && Whole(n, bs) && n <= |src| && Distinct(dst, n) && InBounds(dst, n, |m|)
    requires TwoValued(mode, m, iv, src, n, bs)
    requires Spoilt(mode, m, iv, src, n, bs) || !Compatible(mode, src, dst, n, bs, rereads)
    ensures var r := Interleaved(mode, Probe(mode), bs, m, iv, src, dst, n, rereads);
            |r.0| == |m| && (r.1 != Calm(mode, bs) || exists p :: 0 <= p < n && r.0[dst[p]] != 0xFF)
    decreases n
  {
    hide Turned; hide Scatter; hide Probe; hide Calm;
    if n != 0 {
      if j :| 0 <= j < bs && (m[src[j]] == 0xFF || iv[j] != Calm(mode, bs)[j]) {
        StainStays(mode, bs, m, iv, src, dst, n, rereads, j);
      } else {
        NoStain(mode, bs, m, iv, src, n);
        CalmKeeps(mode, bs, m, src, dst, n, First(rereads));
        CalmStep(mode, bs, m, src, dst, n, rereads);
        var t := Turned(mode, Probe(mode), bs, m, iv, src, dst, First(rereads));
        Spoils(mode, bs, t.0, t.1, src[bs..], dst[bs..], n - bs, Rest(rereads));
        var r := Interleaved(mode, Probe(mode), bs, m, iv, src, dst, n, rereads);
        if r.1 == Calm(mode, bs) {
          var p :| 0 <= p < n - bs && r.0[dst[bs..][p]] != 0xFF;
          assert dst[bs..][p] == dst[bs + p];
        }
      }
    }
  }

  /** A run leaves what it should. */
  ghost predicate Right(mode: Mode, fn: BlockFn, bs: nat, m: Bytes, iv: Bytes, src: Addrs, dst: Addrs, n: nat,
                        rereads: seq<bool>)
    requires n <= |src| && n <= |dst|
  {
    Interleaved(mode, fn, bs, m, iv, src, dst, n, rereads) == Flattened(mode, fn, bs, m, iv, src, dst, n)
  }

  /** The run the probe sees go wrong. */
  lemma ProbeWrong(mode: Mode, bs: nat, src: Addrs, dst: Addrs, n: nat, rereads: seq<bool>, size: nat)
    requires 0 < bs && Whole(n, bs) && InBounds(src, n, size) && InBounds(dst, n, size) && Distinct(dst, n)
    requires !Compatible(mode, src, dst, n, bs, rereads)
    ensures !Right(mode, Probe(mode), bs, Filled(0, size), Calm(mode, bs), src, dst, n, rereads)
  {
    hide Scatter; hide Interleaved; hide Run;
    var m, iv := Filled(0, size), Calm(mode, bs);
    Spoils(mode, bs, m, iv, src, dst, n, rereads);
    assert Gather(m, src[..n]) == Filled(0, n);
    CalmRun(mode, bs, n);
    FilledValues(m, dst, n, dst, n);
    assert forall p :: 0 <= p < n ==> dst[p] in dst[..n];
  }

  /** The result is right for every block function, chaining value and memory if and only if the lists are
      compatible; the destination names no byte twice. */
  lemma RightExactly(mode: Mode, bs: nat, src: Addrs, dst: Addrs, n: nat, rereads: seq<bool>, size: nat)
    requires 0 < bs && Whole(n, bs) && InBounds(src, n, size) && InBounds(dst, n, size) && Distinct(dst, n)
    ensures Compatible(mode, src, dst, n, bs, rereads)
            <==> forall fn: BlockFn, iv: Bytes, m: Bytes :: KeepsLength(fn, bs) && |iv| == bs && |m| == size
                   ==> Right(mode, fn, bs, m, iv, src, dst, n, rereads)
  {
    hide Interleaved; hide Run; hide Compatible;
    if Compatible(mode, src, dst, n, bs, rereads) {
      forall fn: BlockFn, iv: Bytes, m: Bytes | KeepsLength(fn, bs) && |iv| == bs && |m| == size
        ensures Right(mode, fn, bs, m, iv, src, dst, n, rereads)
      {
        InterleavedIsFlat(mode, fn, bs, m, iv, src, dst, n, rereads);
      }
    } else {
      ProbeKeepsLength(mode, bs);
      ProbeWrong(mode, bs, src, dst, n, rereads, size);
    }
  }
}
