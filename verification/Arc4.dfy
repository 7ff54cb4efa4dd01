/** arc4.c: the key schedule and the byte-at-a-time cipher, against the textbook stream cipher. */
module Arc4 {
  import opened BlockModes
  import opened BlockStream
  import opened ByteIndex

  // ---- The textbook cipher. ----

  type Box = seq<nat>

  function Identity(n: nat): (r: Box)
    ensures |r| == n
  {
    seq(n, i => i)
  }

  /** A permutation of 0 to 255. */
  ghost predicate Permutation(s: Box) {
    |s| == 256 && multiset(s) == multiset(Identity(256))
  }

  function Swapped(s: Box, i: nat, j: nat): (r: Box)
    ensures |r| == |s|
  {
    if i < |s| && j < |s| then s[i := s[j]][j := s[i]] else s
  }

  function At(s: Box, i: nat): nat { if i < |s| then s[i] else 0 }

  datatype Ksa = Ksa(s: Box, j: nat)

  /** The key schedule after i of its 256 steps. */
  function Scheduled(key: Bytes, i: nat): Ksa
    requires key != []
  {
    if i == 0 then Ksa(Identity(256), 0)
    else
      var p := Scheduled(key, i - 1);
      var j := (p.j + At(p.s, i - 1) + Index(key[(i - 1) % |key|])) % 256;
      Ksa(Swapped(p.s, i - 1, j), j)
  }

  /** The generator: i is stepped before it is used, and starts at 0. */
  datatype Gen = Gen(s: Box, i: nat, j: nat)

  function Step(g: Gen): Gen {
    var i := (g.i + 1) % 256;
    var j := (g.j + At(g.s, i)) % 256;
    Gen(Swapped(g.s, i, j), i, j)
  }

  /** The byte the generator gives after a step. */
  function Output(g: Gen): bv8 {
    ByteAt(At(g.s, (At(g.s, g.i) + At(g.s, g.j)) % 256))
  }

  function Steps(g: Gen, n: nat): Gen {
    if n == 0 then g else Step(Steps(g, n - 1))
  }

  function Keystream(g: Gen, n: nat): (r: Bytes)
    ensures |r| == n
  {
    if n == 0 then [] else Keystream(g, n - 1) + [Output(Steps(g, n))]
  }

  function Start(key: Bytes): Gen
    requires key != []
  {
    Gen(Scheduled(key, 256).s, 0, 0)
  }

  function XorOne(x: bv8, y: bv8): bv8 { x ^ y }

  function XorWith(m: Bytes, k: Bytes): (r: Bytes)
    requires |m| == |k|
    ensures |r| == |m|
  {
    seq(|m|, i requires 0 <= i < |m| => XorOne(m[i], k[i]))
  }

  lemma XorOneTwice(x: bv8, y: bv8)
    ensures XorOne(XorOne(x, y), y) == x
  {
  }

  lemma XorTwice(m: Bytes, k: Bytes)
    requires |m| == |k|
    ensures XorWith(XorWith(m, k), k) == m
  {
    hide XorOne;
    forall i | 0 <= i < |m| ensures XorWith(XorWith(m, k), k)[i] == m[i] {
      XorOneTwice(m[i], k[i]);
    }
  }

  // ---- Permutations. ----

  lemma SwapKeeps(s: Box, i: nat, j: nat)
    requires i < |s| && j < |s|
    ensures multiset(Swapped(s, i, j)) == multiset(s)
  {
  }

  /** No value is missing and none is there twice. */
  lemma PermutationMeans(s: Box, v: nat)
    requires Permutation(s) && v < 256
    ensures v in s && multiset(s)[v] == 1
  {
    var id := Identity(256);
    assert id[v] == v;
    assert v in multiset(id);
    assert v in multiset(s);
    Once(256, v);
  }

  lemma {:induction false} Once(n: nat, v: nat)
    ensures multiset(Identity(n))[v] == if v < n then 1 else 0
  {
    if n == 0 {
      assert Identity(0) == [];
    } else {
      assert Identity(n) == Identity(n - 1) + [n - 1];
      Once(n - 1, v);
    }
  }

  lemma {:induction false} ScheduledPermutes(key: Bytes, i: nat)
    requires key != [] && i <= 256
    ensures Permutation(Scheduled(key, i).s) && Scheduled(key, i).j < 256
  {
    hide Index;
    if i > 0 {
      ScheduledPermutes(key, i - 1);
      var p := Scheduled(key, i - 1);
      SwapKeeps(p.s, i - 1, Scheduled(key, i).j);
    }
  }

  ghost predicate Good(g: Gen) {
    Permutation(g.s) && g.i < 256 && g.j < 256
  }

  lemma StepKeeps(g: Gen)
    requires Good(g)
    ensures Good(Step(g))
  {
    SwapKeeps(g.s, Step(g).i, Step(g).j);
  }

  /** In every run the box stays a permutation. */
  lemma {:induction false} StepsKeep(g: Gen, n: nat)
    requires Good(g)
    ensures Good(Steps(g, n))
  {
    if n > 0 {
      StepsKeep(g, n - 1);
      StepKeeps(Steps(g, n - 1));
    }
  }

  lemma {:induction false} StepsAdd(g: Gen, m: nat, n: nat)
    ensures Steps(Steps(g, m), n) == Steps(g, m + n)
    ensures Keystream(g, m + n) == Keystream(g, m) + Keystream(Steps(g, m), n)
  {
    hide Step; hide Output;
    if n == 0 {
      assert Keystream(g, m) + [] == Keystream(g, m);
    } else {
      StepsAdd(g, m, n - 1);
      Assoc(Keystream(g, m), Keystream(Steps(g, m), n - 1), [Output(Steps(g, m + n))]);
    }
  }

  // ---- The code. ----

  class Context {
    const S: array<nat>
    var x: nat
    var y: nat

    /** The context is at a state of the textbook generator; x is one ahead. */
    ghost predicate IsAt(g: Gen)
      reads this, S
    {
      S.Length == 256 && Good(g) && S[..] == g.s && x == (g.i + 1) % 256 && y == g.j
    }

    /** arc4_set_key */
    constructor (key: Bytes)
      requires 1 <= |key| <= 256
      ensures IsAt(Start(key)) && fresh(S)
    {
      S := new nat[256];
      x, y := 1, 0;
      new;
      FillIdentity(S);
      Schedule(S, key);
      ScheduledPermutes(key, 256);
    }

    /** arc4_crypt */
    method Crypt(b: bv8, ghost g: Gen) returns (out: bv8)
      requires IsAt(g)
      modifies this, S
      ensures IsAt(Step(g)) && out == XorOne(b, Output(Step(g)))
    {
      hide XorOne; hide ByteAt;
      StepKeeps(g);
      hide Permutation;
      var a := S[x];
      y := (y + a) % 256;
      var c := S[y];
      S[x] := c;
      S[y] := a;
      assert S[..] == Step(g).s;
      x := (x + 1) % 256;
      out := XorOne(b, ByteAt(S[(a + c) % 256]));
    }

    /** Any number of bytes, one by one. */
    method CryptAll(m: Bytes, ghost g: Gen) returns (out: Bytes)
      requires IsAt(g)
      modifies this, S
      ensures IsAt(Steps(g, |m|)) && out == XorWith(m, Keystream(g, |m|))
    {
      hide Step; hide Output; hide XorOne; hide Good;
      out := [];
      for i := 0 to |m|
        invariant IsAt(Steps(g, i)) && out == XorWith(m[..i], Keystream(g, i))
      {
        var c := Crypt(m[i], Steps(g, i));
        XorSnoc(m[..i], Keystream(g, i), m[i], Output(Steps(g, i + 1)));
        assert m[..i + 1] == m[..i] + [m[i]];
        out := out + [c];
      }
      assert m[..|m|] == m;
    }
  }

  method FillIdentity(S: array<nat>)
    requires S.Length == 256
    modifies S
    ensures S[..] == Identity(256)
  {
    for i := 0 to 256
      invariant forall k :: 0 <= k < i ==> S[k] == k
    {
      S[i] := i;
    }
  }

  /** The second loop of arc4_set_key. */
  method Schedule(S: array<nat>, key: Bytes)
    requires S.Length == 256 && key != [] && S[..] == Identity(256)
    modifies S
    ensures S[..] == Scheduled(key, 256).s
  {
    hide Index; hide Scheduled; hide Identity; hide Permutation;
    var j, k := 0, 0;
    ScheduleStarts(key);
    for i := 0 to 256
      invariant S[..] == Scheduled(key, i).s && j == Scheduled(key, i).j && k == i % |key|
    {
      ScheduleStep(key, i);
      ghost var s := S[..];
      var a := S[i];
      j := (j + Index(key[k]) + a) % 256;
      S[i] := S[j];
      S[j] := a;
      assert S[..] == Swapped(s, i, j);
      Wrap(i, |key|);
      k := k + 1;
      if k >= |key| { k := 0; }
    }
  }

  lemma ScheduleStarts(key: Bytes)
    requires key != []
    ensures Scheduled(key, 0) == Ksa(Identity(256), 0) && 0 % |key| == 0
  {
  }

  lemma ScheduleStep(key: Bytes, i: nat)
    requires key != [] && i < 256
    ensures var p := Scheduled(key, i);
      var j := (p.j + Index(key[i % |key|]) + At(p.s, i)) % 256;
      Scheduled(key, i + 1) == Ksa(Swapped(p.s, i, j), j)
  {
    hide Index;
  }

  lemma Wrap(i: nat, n: nat)
    requires n > 0
    ensures (i + 1) % n == if i % n + 1 >= n then 0 else i % n + 1
  {
    var q, r := i / n, i % n;
    assert i == q * n + r;
    if r + 1 >= n {
      assert i + 1 == (q + 1) * n;
      ModUnique(i + 1, n, q + 1, 0);
    } else {
      ModUnique(i + 1, n, q, r + 1);
    }
  }

  lemma XorSnoc(m: Bytes, k: Bytes, x: bv8, y: bv8)
    requires |m| == |k|
    ensures XorWith(m + [x], k + [y]) == XorWith(m, k) + [XorOne(x, y)]
  {
    hide XorOne;
  }

  /** One context fed a stream in pieces: the output is the stream XORed with a keystream that depends on the key and
      the position only. */
  method CryptStream(key: Bytes, chunks: seq<Bytes>) returns (outs: seq<Bytes>)
    requires 1 <= |key| <= 256
    ensures Joined(outs) == XorWith(Joined(chunks), Keystream(Start(key), |Joined(chunks)|))
  {
    hide Start; hide Keystream; hide XorWith; hide Good; hide Steps; hide Joined;
    var ctx := new Context(key);
    ghost var g := Start(key);
    outs := [];
    NothingYet(g);
    ghost var done: Bytes := [];
    assert chunks[..0] == [];
    for i := 0 to |chunks|
      invariant fresh(ctx) && fresh(ctx.S) && done == Joined(chunks[..i])
      invariant ctx.IsAt(Steps(g, |done|)) && Joined(outs) == XorWith(done, Keystream(g, |done|))
    {
      var out := ctx.CryptAll(chunks[i], Steps(g, |done|));
      JoinedSnoc(chunks, i);
      StepsAdd(g, |done|, |chunks[i]|);
      XorAppend(done, chunks[i], Keystream(g, |done|), Keystream(Steps(g, |done|), |chunks[i]|));
      JoinedMore(outs, out);
      outs := outs + [out];
      done := done + chunks[i];
    }
    assert chunks[..|chunks|] == chunks;
  }

  lemma NothingYet(g: Gen)
    ensures Keystream(g, 0) == [] && XorWith([], []) == [] && Steps(g, 0) == g && Joined([]) == []
  {
  }

  lemma JoinedMore(xs: seq<Bytes>, x: Bytes)
    ensures Joined(xs + [x]) == Joined(xs) + x
  {
    JoinedSnoc(xs + [x], |xs|);
    assert (xs + [x])[..|xs|] == xs && (xs + [x])[..|xs| + 1] == xs + [x];
  }

  lemma XorAppend(a: Bytes, b: Bytes, k: Bytes, l: Bytes)
    requires |a| == |k| && |b| == |l|
    ensures XorWith(a + b, k + l) == XorWith(a, k) + XorWith(b, l)
  {
    hide XorOne;
  }

  /** A byte string cut into pieces of the given sizes, and a last piece with the rest. */
  method Cut(m: Bytes, sizes: seq<nat>) returns (pieces: seq<Bytes>)
    ensures Joined(pieces) == m
  {
    pieces := [];
    var at: nat := 0;
    for i := 0 to |sizes|
      invariant at <= |m| && Joined(pieces) == m[..at]
    {
      var n := if sizes[i] <= |m| - at then sizes[i] else |m| - at;
      JoinedMore(pieces, m[at..at + n]);
      assert m[..at] + m[at..at + n] == m[..at + n];
      pieces := pieces + [m[at..at + n]];
      at := at + n;
    }
    JoinedMore(pieces, m[at..]);
    assert m[..at] + m[at..] == m;
    pieces := pieces + [m[at..]];
  }

  /** A second context with the same key decrypts, however both streams are cut. */
  method RoundTrip(key: Bytes, chunks: seq<Bytes>, sizes: seq<nat>) returns (plain: seq<Bytes>)
    requires 1 <= |key| <= 256
    ensures Joined(plain) == Joined(chunks)
  {
    hide Start; hide Keystream; hide XorWith; hide Joined;
    var outs := CryptStream(key, chunks);
    var again := Cut(Joined(outs), sizes);
    plain := CryptStream(key, again);
    XorTwice(Joined(chunks), Keystream(Start(key), |Joined(chunks)|));
  }
}
