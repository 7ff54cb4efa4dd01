/** The ioctl32 translation table of compat.c: hash buckets holding linked chains, some of whose nodes are the
    elements of a built-in array.  Every operation is shown to act on a partial map from commands to entries. */
module Ioctl32 {
  import opened ByteIndex
  import opened Wrappers

  /** struct ioctl_trans; cmd and handler are set before a node is inserted and never change. */
  class Node<H> {
    const cmd: bv32
    const handler: H
    var next: Node?<H>

    constructor (cmd: bv32, handler: H)
      ensures this.cmd == cmd && this.handler == handler && next == null
    {
      this.cmd, this.handler, next := cmd, handler, null;
    }
  }

  /** ioctl32_hash */
  function Hash(cmd: bv32): (b: nat)
    ensures b < 256
  {
    Index((((cmd >> 6) ^ (cmd >> 4) ^ cmd) & 0xff) as bv8)
  }

  // ---- One chain. ----

  /** The nodes reached from head are those of chain, in order. */
  ghost predicate Linked<H>(head: Node?<H>, chain: seq<Node<H>>)
    reads chain
  {
    && head == (if chain == [] then null else chain[0])
    && forall i :: 0 <= i < |chain| ==> chain[i].next == After(chain, i)
  }

  function After<H>(chain: seq<Node<H>>, i: nat): Node?<H> {
    if i + 1 < |chain| then chain[i + 1] else null
  }

  ghost predicate NoRepeats<H>(chain: seq<Node<H>>) {
    forall i, j :: 0 <= i < j < |chain| ==> chain[i] != chain[j]
  }

  /** The first node of a chain for a command. */
  ghost function First<H>(chain: seq<Node<H>>, cmd: bv32): Node?<H> {
    if chain == [] then null else if chain[0].cmd == cmd then chain[0] else First(chain[1..], cmd)
  }

  lemma {:induction false} FirstSkips<H>(chain: seq<Node<H>>, cmd: bv32, i: nat)
    requires i <= |chain| && forall j :: 0 <= j < i ==> chain[j].cmd != cmd
    ensures First(chain, cmd) == First(chain[i..], cmd)
    decreases i
  {
    if i != 0 {
      FirstSkips(chain[1..], cmd, i - 1);
      assert chain[1..][i - 1..] == chain[i..];
    }
  }

  lemma {:induction false} FirstAppend<H>(chain: seq<Node<H>>, t: Node<H>, cmd: bv32)
    ensures First(chain + [t], cmd)
         == if First(chain, cmd) != null then First(chain, cmd) else if t.cmd == cmd then t else null
  {
    if chain != [] {
      assert (chain + [t])[1..] == chain[1..] + [t];
      FirstAppend(chain[1..], t, cmd);
    }
  }

  /** Taking out the only node for its command. */
  lemma {:induction false} FirstRemoved<H>(chain: seq<Node<H>>, i: nat, cmd: bv32)
    requires i < |chain| && forall j :: 0 <= j < |chain| && j != i ==> chain[j].cmd != chain[i].cmd
    ensures First(chain[..i] + chain[i + 1..], cmd) == if cmd == chain[i].cmd then null else First(chain, cmd)
    ensures First(chain, chain[i].cmd) == chain[i]
  {
    if i == 0 {
      assert chain[..0] + chain[1..] == chain[1..];
      FirstSkips(chain[1..], chain[0].cmd, |chain| - 1);
    } else {
      assert (chain[..i] + chain[i + 1..])[1..] == chain[1..][..i - 1] + chain[1..][i..];
      FirstRemoved(chain[1..], i - 1, cmd);
    }
  }

  lemma {:induction false} FirstIn<H>(chain: seq<Node<H>>, cmd: bv32) returns (i: nat)
    requires First(chain, cmd) != null
    ensures i < |chain| && chain[i] == First(chain, cmd) && chain[i].cmd == cmd
  {
    if chain[0].cmd == cmd {
      i := 0;
    } else {
      var k := FirstIn(chain[1..], cmd);
      i := k + 1;
    }
  }

  /** The search loop shared by lookup and registration. */
  method Search<H>(head: Node?<H>, ghost chain: seq<Node<H>>, cmd: bv32) returns (r: Node?<H>)
    requires Linked(head, chain)
    ensures r == First(chain, cmd)
  {
    r := head;
    ghost var i := 0;
    while r != null
      invariant i <= |chain| && (r == null <==> i == |chain|) && (i < |chain| ==> r == chain[i])
      invariant forall j :: 0 <= j < i ==> chain[j].cmd != cmd
      decreases |chain| - i
    {
      FirstSkips(chain, cmd, i);
      if r.cmd == cmd { return; }
      assert chain[i].next == After(chain, i);
      r := r.next;
      i := i + 1;
    }
    FirstSkips(chain, cmd, |chain|);
  }

  /** The walk to the end of a chain that is not empty. */
  method Append<H>(head: Node<H>, ghost chain: seq<Node<H>>, t: Node<H>)
    requires Linked(head, chain) && NoRepeats(chain) && t !in chain && t.next == null
    modifies chain, t
    ensures Linked(head, chain + [t])
  {
    var p := head;
    ghost var i := 0;
    while p.next != null
      invariant i < |chain| && p == chain[i] && Linked(head, chain)
      decreases |chain| - i
    {
      assert chain[i].next == After(chain, i);
      p := p.next;
      i := i + 1;
    }
    assert chain[i].next == After(chain, i);
    ghost var c := chain + [t];
    t.next := null;
    p.next := t;
    forall k | 0 <= k < |c| ensures c[k].next == After(c, k) {
      if k < |chain| && k != i { assert c[k] == chain[k] != chain[i]; }
    }
  }

  /** Chains of different buckets share no node. */
  lemma Elsewhere<H>(x: seq<Node<H>>, d: nat, c: seq<Node<H>>, b: nat, nodes: set<Node<H>>, builtins: seq<Node<H>>)
    requires d != b && Sound(x, d, nodes, builtins) && Sound(c, b, nodes, builtins)
    ensures forall i :: 0 <= i < |x| ==> x[i] !in c && x[i] in nodes
  {
    hide Hash;
  }

  lemma Members<H>(c: seq<Node<H>>, b: nat, nodes: set<Node<H>>, builtins: seq<Node<H>>)
    requires Sound(c, b, nodes, builtins)
    ensures NoRepeats(c) && forall i :: 0 <= i < |c| ==> c[i] in nodes
  {
  }

  /** A chain without repetition, all of whose commands hash to its bucket.  A node that is not built in is the
      only one for its command. */
  ghost predicate Sound<H>(c: seq<Node<H>>, b: nat, nodes: set<Node<H>>, builtins: seq<Node<H>>) {
    && (forall i :: 0 <= i < |c| ==> c[i] in nodes)
    && NoRepeats(c)
    && (forall i :: 0 <= i < |c| ==> Hash(c[i].cmd) == b)
    && (forall i, j :: 0 <= i < |c| && 0 <= j < |c| && i != j && c[i] !in builtins ==> c[i].cmd != c[j].cmd)
  }

  /** A node may join a chain if its command is new there, or if it and all its namesakes are built in. */
  ghost predicate Welcome<H>(c: seq<Node<H>>, t: Node<H>, builtins: seq<Node<H>>) {
    forall i :: 0 <= i < |c| && c[i].cmd == t.cmd ==> c[i] in builtins && t in builtins
  }

  lemma SoundAppend<H>(c: seq<Node<H>>, b: nat, nodes: set<Node<H>>, builtins: seq<Node<H>>, t: Node<H>)
    requires Sound(c, b, nodes, builtins) && t !in nodes && Hash(t.cmd) == b
    requires Welcome(c, t, builtins)
    ensures Sound(c + [t], b, nodes + {t}, builtins)
  {
    hide Hash;
  }

  lemma SoundMore<H>(c: seq<Node<H>>, b: nat, nodes: set<Node<H>>, builtins: seq<Node<H>>, t: Node<H>)
    requires Sound(c, b, nodes, builtins)
    ensures Sound(c, b, nodes + {t}, builtins)
  {
    hide Hash;
  }

  // ---- The table. ----

  class Table<H> {
    const heads: array<Node?<H>>
    /** ioctl_start */
    const builtins: seq<Node<H>>
    ghost var chains: seq<seq<Node<H>>>
    ghost var nodes: set<Node<H>>

    ghost predicate Bucket(b: nat)
      requires b < |chains| && b < heads.Length
      reads this, heads, chains[b]
    {
      Sound(chains[b], b, nodes, builtins) && Linked(heads[b], chains[b])
    }

    ghost predicate Valid()
      reads this, heads, nodes
    {
      && heads.Length == 256 && |chains| == 256
      && forall b :: 0 <= b < 256 ==> (forall i :: 0 <= i < |chains[b]| ==> chains[b][i] in nodes) && Bucket(b)
    }

    /** The partial map: the entry found for a command. */
    ghost function Entry(cmd: bv32): Node?<H>
      requires |chains| == 256
      reads this
    {
      First(chains[Hash(cmd)], cmd)
    }

    constructor (builtins: seq<Node<H>>)
      ensures Valid() && fresh(heads) && this.builtins == builtins && nodes == {}
      ensures forall c :: Entry(c) == null
    {
      this.builtins := builtins;
      heads := new Node?<H>[256](_ => null);
      chains := seq(256, _ => []);
      nodes := {};
    }

    /** The lookup of compat_sys_ioctl. */
    method Lookup(cmd: bv32) returns (t: Node?<H>)
      requires Valid()
      ensures t == Entry(cmd)
    {
      hide Hash;
      assert Bucket(Hash(cmd));
      t := Search(heads[Hash(cmd)], chains[Hash(cmd)], cmd);
    }

    /** ioctl32_insert_translation */
    method Insert(t: Node<H>)
      requires Valid() && t !in nodes && t.next == null
      requires Welcome(chains[Hash(t.cmd)], t, builtins)
      modifies this, heads, nodes, t
      ensures Valid() && nodes == old(nodes) + {t}
      ensures chains == old(chains)[Hash(t.cmd) := old(chains)[Hash(t.cmd)] + [t]]
    {
      hide Hash; hide First; hide Sound;
      var b := Hash(t.cmd);
      ghost var c := chains[b];
      assert Bucket(b);
      Members(c, b, nodes, builtins);
      Link(b, t, c);
      SoundAppend(c, b, nodes, builtins, t);
      chains := chains[b := c + [t]];
      nodes := nodes + {t};
      forall d | 0 <= d < 256 ensures Bucket(d) && forall i :: 0 <= i < |chains[d]| ==> chains[d][i] in nodes {
        assert old(Bucket(d));
        if d != b {
          SoundMore(chains[d], d, old(nodes), builtins, t);
          Elsewhere(chains[d], d, c, b, old(nodes), builtins);
        }
      }
    }

    /** The pointers of one bucket. */
    method Link(b: nat, t: Node<H>, ghost c: seq<Node<H>>)
      requires b < heads.Length && Linked(heads[b], c) && NoRepeats(c) && t !in c && t.next == null
      modifies heads, c, t
      ensures Linked(heads[b], c + [t])
      ensures forall d :: 0 <= d < heads.Length && d != b ==> heads[d] == old(heads[d])
    {
      if heads[b] == null {
        heads[b] := t;
      } else {
        Append(heads[b], c, t);
      }
    }

    /** The table stands for a map. */
    ghost predicate Is(m: Commands<H>)
      reads this
    {
      |chains| == 256 && forall c :: Stands(m, c)
    }

    /** The map agrees with the table on one command. */
    ghost predicate Stands(m: Commands<H>, c: bv32)
      requires |chains| == 256
      reads this
    {
      m(c) == if Entry(c) == null then Empty else Full(Entry(c).handler, Entry(c) in builtins)
    }

    /** One operation of a run. */
    method Perform(op: Op<H>, ghost m: Commands<H>) returns (a: Answer<H>)
      requires Valid() && Is(m)
      modifies this, heads, nodes
      ensures Valid() && Is(Next(m, op)) && a == Reply(m, op) && fresh(nodes - old(nodes))
    {
      hide Hash; hide First; hide Sound;
      match op {
        case Register(cmd, handler, memory) =>
          assert Stands(m, cmd);
          var status := Register(cmd, handler, memory);
          a := Status(status);
          forall c ensures Stands(Next(m, op), c) {
            assert old(Stands(m, c));
          }
        case Unregister(cmd) =>
          var status := Unregister(cmd);
          a := Status(status);
          assert old(Stands(m, cmd));
          forall c ensures Stands(Next(m, op), c) {
            assert old(Stands(m, c));
          }
        case Find(cmd) =>
          assert Stands(m, cmd);
          var t := Lookup(cmd);
          a := if t != null then Found(t.handler) else Missing;
      }
    }

    /** register_ioctl32_conversion: given memory, it succeeds exactly when the command has no entry, and then adds
        one; otherwise the map stays as it was. */
    method Register(cmd: bv32, handler: H, memory: bool) returns (status: int)
      requires Valid()
      modifies this, heads, nodes
      ensures Valid() && fresh(nodes - old(nodes)) && old(nodes) <= nodes
      ensures status == if !memory then -ENOMEM else if old(Entry(cmd)) != null then -EINVAL else 0
      ensures forall c :: c != cmd || status != 0 ==> Entry(c) == old(Entry(c))
      ensures status == 0 ==> Entry(cmd) != null && fresh(Entry(cmd)) && Entry(cmd).handler == handler
    {
      hide Hash; hide First; hide Sound;
      if !memory { return -ENOMEM; }
      var new_t := new Node(cmd, handler);
      var t := Lookup(cmd);
      if t != null { return -EINVAL; }
      NoneIsWelcome(chains[Hash(cmd)], new_t, builtins);
      Insert(new_t);
      forall c ensures Entry(c) == if c == cmd then new_t else old(Entry(c)) {
        FirstAppend(old(chains)[Hash(cmd)], new_t, c);
      }
      return 0;
    }

    /** init_sys32_ioctl: every built-in node must come unlinked; then a command's entry is the first built-in node
        that has it. */
    method Init() returns (status: int)
      requires Valid() && nodes == {} && NoRepeats(builtins) && (forall c :: Entry(c) == null)
      modifies this, heads, builtins
      ensures Valid()
      ensures status == if forall i :: 0 <= i < |builtins| ==> old(builtins[i].next) == null then 0 else -1
      ensures status == 0 ==> forall c :: Entry(c) == First(builtins, c)
      ensures status == 0 ==> forall n :: n in nodes ==> n in builtins
    {
      hide Hash; hide Sound; hide First;
      NothingFirst<H>();
      for i := 0 to |builtins|
        invariant Valid() && Installed(i)
        invariant forall k :: i <= k < |builtins| ==> builtins[k].next == old(builtins[k].next)
        invariant forall k :: 0 <= k < i ==> old(builtins[k].next) == null
      {
        if builtins[i].next != null { return -1; }
        InitOne(i);
      }
      assert builtins[..|builtins|] == builtins;
      return 0;
    }

    /** The first i built-in nodes, and no others, are in the table. */
    ghost predicate Installed(i: nat)
      requires i <= |builtins| && |chains| == 256
      reads this
    {
      nodes == (set n | n in builtins[..i]) && forall c :: Entry(c) == First(builtins[..i], c)
    }

    method InitOne(i: nat)
      requires Valid() && i < |builtins| && NoRepeats(builtins) && Installed(i) && builtins[i].next == null
      modifies this, heads, builtins[..i + 1]
      ensures Valid() && Installed(i + 1)
    {
      hide Hash; hide Sound; hide First; hide Linked;
      var t := builtins[i];
      assert t !in builtins[..i];
      ghost var before := chains;
      assert Bucket(Hash(t.cmd));
      AllWelcome(chains[Hash(t.cmd)], t, Hash(t.cmd), nodes, builtins);
      Insert(t);
      assert builtins[..i + 1] == builtins[..i] + [t];
      forall c ensures Entry(c) == First(builtins[..i + 1], c) {
        FirstAppend(before[Hash(t.cmd)], t, c);
        FirstAppend(builtins[..i], t, c);
      }
    }

    /** unregister_ioctl32_conversion: it succeeds exactly when the entry of the command is not built in, and then
        removes that entry and nothing else; otherwise nothing changes. */
    method Unregister(cmd: bv32) returns (status: int)
      requires Valid()
      modifies this, heads, nodes
      ensures Valid() && nodes <= old(nodes)
      ensures status == if old(Entry(cmd)) != null && old(Entry(cmd)) !in builtins then 0 else -EINVAL
      ensures forall c :: Entry(c) == if c == cmd && status == 0 then null else old(Entry(c))
      ensures status != 0 ==> chains == old(chains) && nodes == old(nodes)
      ensures status == 0 ==> nodes == old(nodes) - {old(Entry(cmd))}
    {
      hide Hash; hide Sound; hide First;
      var b := Hash(cmd);
      ghost var c := chains[b];
      assert Bucket(b);
      Members(c, b, nodes, builtins);
      ghost var i;
      status, i := Unlink(b, cmd, c);
      forall d | 0 <= d < 256 && d != b ensures Bucket(d) {
        assert old(Bucket(d));
        Elsewhere(chains[d], d, c, b, nodes, builtins);
      }
      if status == 0 {
        Removable(c, i, b, nodes, builtins);
        Drop(b, i);
      } else {
        NotRemovable(c, b, nodes, builtins, cmd);
      }
    }

    /** The map without one node that is alone for its command and no longer linked. */
    ghost method Drop(b: nat, i: nat)
      requires heads.Length == 256 && |chains| == 256 && b < 256 && i < |chains[b]|
      requires forall d :: 0 <= d < 256 && d != b ==> Bucket(d)
      requires Sound(chains[b], b, nodes, builtins) && chains[b][i] !in builtins && Hash(chains[b][i].cmd) == b
      requires Linked(heads[b], chains[b][..i] + chains[b][i + 1..])
      modifies this`chains, this`nodes
      ensures Valid() && nodes == old(nodes) - {old(chains)[b][i]}
      ensures forall x :: Entry(x) == if x == old(chains)[b][i].cmd then null else old(Entry(x))
    {
      hide Hash; hide Sound; hide First; hide Linked;
      ghost var c, t := chains[b], chains[b][i];
      Removable(c, i, b, nodes, builtins);
      chains := chains[b := c[..i] + c[i + 1..]];
      nodes := nodes - {t};
      forall d | 0 <= d < 256 ensures Bucket(d) && forall k :: 0 <= k < |chains[d]| ==> chains[d][k] in nodes {
        if d != b {
          assert old(Bucket(d));
          Elsewhere(chains[d], d, c, b, old(nodes), builtins);
          SoundLess(chains[d], d, old(nodes), builtins, t);
        }
        Members(chains[d], d, nodes, builtins);
      }
      forall x ensures Entry(x) == if x == t.cmd then null else old(Entry(x)) {
        FirstRemoved(c, i, x);
      }
    }

    /** The pointers of one bucket. */
    method Unlink(b: nat, cmd: bv32, ghost c: seq<Node<H>>) returns (status: int, ghost i: nat)
      requires b < heads.Length && Linked(heads[b], c) && NoRepeats(c)
      modifies heads, c
      ensures status == 0 || status == -EINVAL
      ensures status == 0 ==> i < |c| && c[i].cmd == cmd && c[i] !in builtins && Linked(heads[b], c[..i] + c[i + 1..])
      ensures status != 0 ==> Linked(heads[b], c) && Kept(c, cmd, builtins)
      ensures forall d :: 0 <= d < heads.Length && d != b ==> heads[d] == old(heads[d])
    {
      i := 0;
      var t := heads[b];
      if t == null { return -EINVAL, 0; }
      assert c[0].next == After(c, 0);
      if t.cmd == cmd && t !in builtins {
        heads[b] := t.next;
        Beheaded(c, heads[b]);
        return 0, 0;
      }
      status, i := UnlinkInside(t, cmd, builtins, c);
    }
  }

  /** The loop over the nodes after the head. */
  method UnlinkInside<H>(head: Node<H>, cmd: bv32, builtins: seq<Node<H>>, ghost c: seq<Node<H>>)
    returns (status: int, ghost i: nat)
    requires Linked(head, c) && NoRepeats(c) && (head.cmd == cmd ==> head in builtins)
    modifies c
    ensures status == 0 || status == -EINVAL
    ensures status == 0 ==> i < |c| && c[i].cmd == cmd && c[i] !in builtins && Linked(head, c[..i] + c[i + 1..])
    ensures status != 0 ==> Linked(head, c) && Kept(c, cmd, builtins)
  {
    i := 0;
    var t := head;
    while t.next != null
      invariant i < |c| && t == c[i] && Linked(head, c)
      invariant forall k :: 1 <= k <= i ==> c[k].cmd != cmd
      decreases |c| - i
    {
      assert c[i].next == After(c, i);
      var t1 := t.next;
      if t1.cmd == cmd {
        if t1 in builtins {
          FirstIsBuiltIn(c, cmd, builtins, i + 1);
          return -EINVAL, 0;
        }
        assert c[i + 1].next == After(c, i + 1);
        t.next := t1.next;
        i := i + 1;
        Spliced(c, i, head);
        return 0, i;
      }
      t := t1;
      i := i + 1;
    }
    assert c[i].next == After(c, i);
    return -EINVAL, 0;
  }

  lemma FirstIsBuiltIn<H>(c: seq<Node<H>>, cmd: bv32, builtins: seq<Node<H>>, i: nat)
    requires 0 < i < |c| && c[i].cmd == cmd && c[i] in builtins && (c[0].cmd == cmd ==> c[0] in builtins)
    requires forall k :: 1 <= k < i ==> c[k].cmd != cmd
    ensures Kept(c, cmd, builtins)
  {
  }

  // ---- Whole runs. ----

  datatype Op<H> = Register(cmd: bv32, handler: H, memory: bool) | Unregister(cmd: bv32) | Find(cmd: bv32)

  datatype Slot<H> = Empty | Full(handler: H, builtin: bool)

  datatype Answer<H> = Status(code: int) | Found(handler: H) | Missing

  /** A partial map from commands to handlers. */
  type Commands<H> = bv32 -> Slot<H>

  /** What an operation does to such a map. */
  function Next<H>(m: Commands<H>, op: Op<H>): Commands<H> {
    match op
    case Register(cmd, handler, memory) => if memory && m(cmd).Empty? then With(m, cmd, Full(handler, false)) else m
    case Unregister(cmd) => if m(cmd).Full? && !m(cmd).builtin then With(m, cmd, Empty) else m
    case Find(_) => m
  }

  function With<H>(m: Commands<H>, cmd: bv32, s: Slot<H>): Commands<H> {
    c => if c == cmd then s else m(c)
  }

  function Reply<H>(m: Commands<H>, op: Op<H>): Answer<H> {
    match op
    case Register(cmd, _, memory) => Status(if !memory then -ENOMEM else if m(cmd).Full? then -EINVAL else 0)
    case Unregister(cmd) => Status(if m(cmd).Full? && !m(cmd).builtin then 0 else -EINVAL)
    case Find(cmd) => if m(cmd).Full? then Found(m(cmd).handler) else Missing
  }

  function States<H>(m: Commands<H>, ops: seq<Op<H>>): Commands<H> {
    if ops == [] then m else Next(States(m, ops[..|ops| - 1]), ops[|ops| - 1])
  }

  function Replies<H>(m: Commands<H>, ops: seq<Op<H>>): (r: seq<Answer<H>>)
    ensures |r| == |ops|
  {
    if ops == [] then []
    else Replies(m, ops[..|ops| - 1]) + [Reply(States(m, ops[..|ops| - 1]), ops[|ops| - 1])]
  }

  predicate BuiltIn<H>(s: Slot<H>) { s.Full? && s.builtin }

  /** No run removes or changes a built-in entry, or adds one. */
  lemma {:induction false} BuiltinsStay<H>(m: Commands<H>, ops: seq<Op<H>>, c: bv32)
    ensures BuiltIn(States(m, ops)(c)) <==> BuiltIn(m(c))
    ensures BuiltIn(m(c)) ==> States(m, ops)(c) == m(c)
  {
    if ops != [] {
      BuiltinsStay(m, ops[..|ops| - 1], c);
    }
  }

  /** Any sequence of operations on a table answers, and ends, as the same sequence on the map it stands for. */
  method Run<H>(table: Table<H>, ops: seq<Op<H>>, ghost m: Commands<H>) returns (answers: seq<Answer<H>>)
    requires table.Valid() && table.Is(m)
    modifies table, table.heads, table.nodes
    ensures table.Valid() && table.Is(States(m, ops)) && answers == Replies(m, ops)
  {
    hide Hash; hide First; hide Sound; hide Next; hide Reply;
    answers := [];
    assert ops[..0] == [];
    for i := 0 to |ops|
      invariant table.Valid() && table.Is(States(m, ops[..i])) && answers == Replies(m, ops[..i])
      invariant fresh(table.nodes - old(table.nodes))
    {
      assert ops[..i + 1][..i] == ops[..i] && ops[..i + 1][i] == ops[i];
      var a := table.Perform(ops[i], States(m, ops[..i]));
      answers := answers + [a];
    }
    assert ops[..|ops|] == ops;
  }

  /** The map a table of built-in nodes stands for: of the nodes for a command, the first. */
  ghost function Built<H>(builtins: seq<Node<H>>): Commands<H> {
    c => if First(builtins, c) == null then Empty else Full(First(builtins, c).handler, true)
  }

  /** From the empty table on: if every built-in node comes unlinked, initialisation and any sequence of operations
      after it answer as the map of the first built-in nodes does; otherwise initialisation fails. */
  method Lifetime<H>(builtins: seq<Node<H>>, ops: seq<Op<H>>) returns (status: int, answers: seq<Answer<H>>)
    requires NoRepeats(builtins)
    modifies builtins
    ensures status == if forall i :: 0 <= i < |builtins| ==> old(builtins[i].next) == null then 0 else -1
    ensures status == 0 ==> answers == Replies(Built(builtins), ops)
  {
    hide Hash; hide First; hide Sound; hide Next; hide Reply;
    answers := [];
    var table := new Table(builtins);
    status := table.Init();
    if status == 0 {
      forall c ensures table.Stands(Built(builtins), c) {
        if First(builtins, c) != null { ghost var k := FirstIn(builtins, c); }
      }
      answers := Run(table, ops, Built(builtins));
    }
  }

  lemma NoneIsWelcome<H>(c: seq<Node<H>>, t: Node<H>, builtins: seq<Node<H>>)
    requires First(c, t.cmd) == null
    ensures Welcome(c, t, builtins)
  {
    forall i | 0 <= i < |c| && c[i].cmd == t.cmd ensures false {
      FirstFinds(c, i);
    }
  }

  lemma {:induction false} FirstFinds<H>(c: seq<Node<H>>, i: nat)
    requires i < |c|
    ensures First(c, c[i].cmd) != null
    decreases i
  {
    if c[0].cmd != c[i].cmd { FirstFinds(c[1..], i - 1); }
  }

  lemma NothingFirst<H>()
    ensures forall c :: First<H>([], c) == null
  {
  }

  lemma AllWelcome<H>(c: seq<Node<H>>, t: Node<H>, b: nat, nodes: set<Node<H>>, builtins: seq<Node<H>>)
    requires Sound(c, b, nodes, builtins) && t in builtins && forall n :: n in nodes ==> n in builtins
    ensures Welcome(c, t, builtins)
  {
  }

  /** What a failed removal found: past the head, the first node for the command, if any, is built in; and so is the
      head if it is for the command. */
  ghost predicate Kept<H>(c: seq<Node<H>>, cmd: bv32, builtins: seq<Node<H>>) {
    && (c != [] && c[0].cmd == cmd ==> c[0] in builtins)
    && (forall k :: 1 <= k < |c| && c[k].cmd == cmd && c[k] !in builtins
          ==> exists j :: 1 <= j < k && c[j].cmd == cmd)
  }

  lemma NotRemovable<H>(c: seq<Node<H>>, b: nat, nodes: set<Node<H>>, builtins: seq<Node<H>>, cmd: bv32)
    requires Sound(c, b, nodes, builtins) && Kept(c, cmd, builtins)
    ensures First(c, cmd) == null || First(c, cmd) in builtins
  {
    hide Hash;
    if First(c, cmd) != null {
      var k := FirstIn(c, cmd);
    }
  }

  lemma Removable<H>(c: seq<Node<H>>, i: nat, b: nat, nodes: set<Node<H>>, builtins: seq<Node<H>>)
    requires Sound(c, b, nodes, builtins) && i < |c| && c[i] !in builtins
    ensures forall j :: 0 <= j < |c| && j != i ==> c[j].cmd != c[i].cmd
    ensures First(c, c[i].cmd) == c[i]
    ensures Sound(c[..i] + c[i + 1..], b, nodes - {c[i]}, builtins)
  {
    hide Hash;
    FirstRemoved(c, i, c[i].cmd);
    var r := c[..i] + c[i + 1..];
    forall k | 0 <= k < |r| ensures r[k] == c[if k < i then k else k + 1] {
    }
  }

  lemma SoundLess<H>(c: seq<Node<H>>, b: nat, nodes: set<Node<H>>, builtins: seq<Node<H>>, t: Node<H>)
    requires Sound(c, b, nodes, builtins) && forall i :: 0 <= i < |c| ==> c[i] != t
    ensures Sound(c, b, nodes - {t}, builtins)
  {
    hide Hash;
  }

  lemma Beheaded<H>(c: seq<Node<H>>, head: Node?<H>)
    requires c != [] && head == c[0].next && Linked(c[0], c)
    ensures Linked(head, c[..0] + c[1..])
  {
    var rest := c[1..];
    assert c[..0] + rest == rest;
    forall k | 0 <= k < |rest| ensures rest[k].next == After(rest, k) {
      assert c[k + 1].next == After(c, k + 1);
    }
  }

  /** After the node before it has been made to skip c[i]. */
  lemma Spliced<H>(c: seq<Node<H>>, i: nat, head: Node?<H>)
    requires 0 < i < |c| && head == c[0] && c[i - 1].next == After(c, i)
    requires forall k :: 0 <= k < |c| && k != i - 1 ==> c[k].next == After(c, k)
    ensures Linked(head, c[..i] + c[i + 1..])
  {
    var r := c[..i] + c[i + 1..];
    forall k | 0 <= k < |r| ensures r[k].next == After(r, k) {
      if k >= i { assert c[k + 1].next == After(c, k + 1); }
    }
  }
}
