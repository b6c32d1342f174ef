/**
 Replicas of the last-writer-wins keys. Each keeps a log of writes, compacted to the newest of every key, and
 sends a peer what that peer has not acknowledged. Batches and acknowledgements may be lost, repeated and
 reordered; a stream may be opened again, with nothing acknowledged.
 */
module LastWriterGossip {
  import opened Text
  import opened RateLimitShard
  import opened LastWriter
  import opened SendWatermark

  type Store = map<string, Register>

  /** `round` is the log as last collected for sending, `acked` what every peer acknowledged. */
  datatype Node = Node(clock: nat, store: Store, log: seq<Op>, round: seq<Op>, acked: map<nat, Watermark>)

  datatype Message = Batch(sender: nat, to: nat, ops: seq<Op>) | Ack(sender: nat, to: nat, versions: Watermark)

  /** The replicas by number, every message ever sent, and every write ever made. */
  datatype System = System(nodes: seq<Node>, wire: set<Message>, issued: set<Op>)

  // --- what a replica does ---------------------------------------------------------------------------

  function Reg(store: Store, key: string): Option<Register> {
    if key in store then Some(store[key]) else None
  }

  predicate Accepts(store: Store, op: Op) {
    Apply(Reg(store, op.key), op) != Reg(store, op.key)
  }

  function Record(store: Store, op: Op): Store {
    if Accepts(store, op) then store[op.key := Written(op)] else store
  }

  function RecordAll(store: Store, ops: seq<Op>): Store {
    if ops == [] then store else Record(RecordAll(store, ops[..|ops| - 1]), ops[|ops| - 1])
  }

  function Without(ops: seq<Op>, key: string): (r: seq<Op>)
    ensures forall op :: op in r <==> op in ops && op.key != key
  {
    if ops == [] then []
    else
      assert ops == [ops[0]] + ops[1..];
      (if ops[0].key == key then [] else [ops[0]]) + Without(ops[1..], key)
  }

  predicate Beaten(ops: seq<Op>, op: Op) {
    exists w | w in ops :: w.key == op.key && Older(op.version, w.version)
  }

  /** One more write, which takes its key's place unless an older one. */
  function Absorb(ops: seq<Op>, op: Op): seq<Op> {
    if Beaten(ops, op) then ops else Without(ops, op.key) + [op]
  }

  /** `compact_by_key`: of every key the last of its newest writes. */
  function Compact(ops: seq<Op>): seq<Op> {
    if ops == [] then [] else Absorb(Compact(ops[..|ops| - 1]), ops[|ops| - 1])
  }

  ghost predicate Tops(ops: seq<Op>, w: Op) {
    w in ops && forall op | op in ops && op.key == w.key :: !Older(w.version, op.version)
  }

  /** The newest write of every key the log had, and no other. */
  ghost predicate Compacted(ops: seq<Op>, c: seq<Op>) {
    && (forall w | w in c :: Tops(ops, w))
    && (forall op | op in ops :: exists w :: w in c && w.key == op.key)
    && (forall v, w | v in c && w in c && v.key == w.key :: v == w)
  }

  lemma {:induction false} CompactExact(ops: seq<Op>)
    ensures Compacted(ops, Compact(ops))
  {
    if ops != [] {
      CompactExact(ops[..|ops| - 1]);
      AbsorbKeeps(ops[..|ops| - 1], Compact(ops[..|ops| - 1]), ops[|ops| - 1]);
      assert ops[..|ops| - 1] + [ops[|ops| - 1]] == ops;
    }
  }

  lemma AbsorbKeeps(ops: seq<Op>, c: seq<Op>, op: Op)
    requires Compacted(ops, c)
    ensures Compacted(ops + [op], Absorb(c, op))
  {
    hide Compacted, Without;
    if Beaten(c, op) {
      AbsorbBeaten(ops, c, op);
    } else {
      AbsorbTaken(ops, c, op);
    }
  }

  lemma AbsorbBeaten(ops: seq<Op>, c: seq<Op>, op: Op)
    requires Compacted(ops, c) && Beaten(c, op)
    ensures Compacted(ops + [op], c)
  {
    var v :| v in c && v.key == op.key && Older(op.version, v.version);
    forall w | w in c ensures Tops(ops + [op], w) {
      assert Tops(ops, w);
    }
  }

  lemma AbsorbTaken(ops: seq<Op>, c: seq<Op>, op: Op)
    requires Compacted(ops, c) && !Beaten(c, op)
    ensures Compacted(ops + [op], Without(c, op.key) + [op])
  {
    hide Without, Tops;
    var more := Without(c, op.key) + [op];
    assert op in more && forall w | w in more && w != op :: w in c && w.key != op.key;
    forall w | w in more ensures Tops(ops + [op], w) {
      if w == op {
        TopsUnbeaten(ops, c, op);
      } else {
        TopsMore(ops, w, op);
      }
    }
    forall x | x in ops + [op] ensures exists w :: w in more && w.key == x.key {
      if x.key != op.key {
        var w :| w in c && w.key == x.key;
        assert w in more;
      }
    }
  }

  lemma TopsUnbeaten(ops: seq<Op>, c: seq<Op>, op: Op)
    requires Compacted(ops, c) && !Beaten(c, op)
    ensures Tops(ops + [op], op)
  {
    forall x | x in ops && x.key == op.key ensures !Older(op.version, x.version) {
      var w :| w in c && w.key == x.key;
      assert Tops(ops, w);
    }
  }

  lemma TopsMore(ops: seq<Op>, w: Op, op: Op)
    requires Tops(ops, w) && w.key != op.key
    ensures Tops(ops + [op], w)
  {
  }

  /** The writes whose versions the log does not have. */
  function Unseen(log: seq<Op>, ops: seq<Op>): (r: seq<Op>)
    ensures forall op :: op in r <==> op in ops && forall x | x in log :: x.version != op.version
  {
    if ops == [] then []
    else
      assert ops == [ops[0]] + ops[1..];
      (if forall x | x in log :: x.version != ops[0].version then [ops[0]] else []) + Unseen(log, ops[1..])
  }

  /** `LamportClock::update` with every timestamp in turn. */
  function Observe(clock: nat, ops: seq<Op>): (r: nat)
    ensures clock <= r && forall op | op in ops :: op.version.timestamp < r
  {
    if ops == [] then clock
    else
      assert ops == ops[..|ops| - 1] + [ops[|ops| - 1]];
      var c := Observe(clock, ops[..|ops| - 1]);
      (if c < ops[|ops| - 1].version.timestamp then ops[|ops| - 1].version.timestamp else c) + 1
  }

  /** `put_local` and `delete_local`, with the clock ticked. */
  function Write(n: Node, op: Op): Node {
    var m := n.(clock := n.clock + 1);
    if Accepts(n.store, op) then m.(store := Record(n.store, op), log := n.log + [op]) else m
  }

  /** `apply_remote_ops` */
  function Receive(n: Node, ops: seq<Op>): Node {
    var unseen := Unseen(n.log, ops);
    if unseen == [] then n
    else n.(clock := Observe(n.clock, unseen), store := RecordAll(n.store, unseen), log := Compact(n.log + unseen))
  }

  function AckedBy(n: Node, peer: nat): Watermark {
    if peer in n.acked then n.acked[peer] else map[]
  }

  /** What the filter lets through to a peer. */
  function Allowed(n: Node, peer: nat, ops: seq<Op>): (r: seq<Op>)
    ensures forall op :: op in r <==> op in ops && Allows(AckedBy(n, peer), op.key, op.version)
  {
    if ops == [] then []
    else
      assert ops == [ops[0]] + ops[1..];
      (if Allows(AckedBy(n, peer), ops[0].key, ops[0].version) then [ops[0]] else []) + Allowed(n, peer, ops[1..])
  }

  /** A tick is a write to a key kept elsewhere. A batch is any part of what the filter lets through, in any
      order: frames are cut by size, dropped on a full channel, and sorted where they arrive. */
  datatype Step =
    | DoWrite(op: Op)
    | DoTick(r: nat)
    | DoCompact(r: nat)
    | DoCollect(r: nat)
    | DoSend(r: nat, to: nat, ops: seq<Op>)
    | DoReceive(batch: Message)
    | DoAck(ack: Message)
    | DoReopen(r: nat, peer: nat)

  ghost predicate Enabled(sys: System, step: Step) {
    match step
    case DoWrite(op) => var r := op.version.replica; r < |sys.nodes| && op.version.timestamp == sys.nodes[r].clock + 1
    case DoTick(r) => r < |sys.nodes|
    case DoCompact(r) => r < |sys.nodes|
    case DoCollect(r) => r < |sys.nodes|
    case DoSend(r, to, ops) =>
      && r < |sys.nodes| && to < |sys.nodes|
      && forall op | op in ops :: op in Allowed(sys.nodes[r], to, sys.nodes[r].round)
    case DoReceive(batch) => batch in sys.wire && batch.Batch? && batch.to < |sys.nodes|
    case DoAck(ack) => ack in sys.wire && ack.Ack? && ack.to < |sys.nodes|
    case DoReopen(r, _) => r < |sys.nodes|
  }

  ghost function Next(sys: System, step: Step): System
    requires Enabled(sys, step)
  {
    match step
    case DoWrite(op) =>
      var r := op.version.replica;
      sys.(nodes := sys.nodes[r := Write(sys.nodes[r], op)], issued := sys.issued + {op})
    case DoTick(r) => sys.(nodes := sys.nodes[r := sys.nodes[r].(clock := sys.nodes[r].clock + 1)])
    case DoCompact(r) => sys.(nodes := sys.nodes[r := sys.nodes[r].(log := Compact(sys.nodes[r].log))])
    case DoCollect(r) => sys.(nodes := sys.nodes[r := sys.nodes[r].(round := sys.nodes[r].log)])
    case DoSend(r, to, ops) => sys.(wire := sys.wire + {Batch(r, to, ops)})
    case DoReceive(b) =>
      sys.(nodes := sys.nodes[b.to := Receive(sys.nodes[b.to], b.ops)],
           wire := sys.wire + {Ack(b.to, b.sender, AckOf(b.ops))})
    case DoAck(a) =>
      var n := sys.nodes[a.to];
      sys.(nodes := sys.nodes[a.to := n.(acked := n.acked[a.sender := MergeMax(AckedBy(n, a.sender), a.versions)])])
    case DoReopen(r, peer) =>
      sys.(nodes := sys.nodes[r := sys.nodes[r].(acked := sys.nodes[r].acked[peer := map[]])])
  }

  // --- what every step keeps -------------------------------------------------------------------------

  /** A replica's value of the key is at least as new as the version. */
  predicate Reaches(store: Store, key: string, v: Version) {
    key in store && !Older(store[key].version, v)
  }

  /** The log has the write behind every value, and none a value does not cover. */
  ghost predicate LogInv(store: Store, log: seq<Op>) {
    && (forall op | op in log :: Reaches(store, op.key, op.version))
    && (forall key | key in store :: exists op :: op in log && op.key == key && Written(op) == store[key])
  }

  ghost predicate NodeInv(n: Node, issued: set<Op>) {
    && LogInv(n.store, n.log)
    && (forall op | op in n.log :: op in issued) && (forall op | op in n.round :: op in issued)
    && (forall op | op in n.log :: op.version.timestamp <= n.clock)
  }

  /** What was acknowledged was reached. */
  ghost predicate Honest(w: Watermark, store: Store) {
    forall key | key in w :: Reaches(store, key, w[key])
  }

  ghost predicate AcksInv(nodes: seq<Node>, n: Node) {
    forall p | p in n.acked :: n.acked[p] == map[] || (p < |nodes| && Honest(n.acked[p], nodes[p].store))
  }

  ghost predicate MessageInv(nodes: seq<Node>, issued: set<Op>, m: Message) {
    && m.sender < |nodes| && m.to < |nodes|
    && (m.Batch? ==> forall op | op in m.ops :: op in issued)
    && (m.Ack? ==> Honest(m.versions, nodes[m.sender].store))
  }

  /** A version names one write, and is no later than its replica's clock. */
  ghost predicate IssuedInv(nodes: seq<Node>, issued: set<Op>) {
    && (forall a, b | a in issued && b in issued && a.version == b.version :: a == b)
    && (forall op | op in issued ::
       op.version.replica < |nodes| && op.version.timestamp <= nodes[op.version.replica].clock)
  }

  ghost predicate Inv(sys: System) {
    && IssuedInv(sys.nodes, sys.issued)
    && (forall r | 0 <= r < |sys.nodes| :: NodeInv(sys.nodes[r], sys.issued) && AcksInv(sys.nodes, sys.nodes[r]))
    && (forall m | m in sys.wire :: MessageInv(sys.nodes, sys.issued, m))
  }

  /** No value gets older. */
  ghost predicate Grows(a: Store, b: Store) {
    forall key | key in a :: Reaches(b, key, a[key].version)
  }

  lemma HonestStays(w: Watermark, a: Store, b: Store)
    requires Honest(w, a) && Grows(a, b)
    ensures Honest(w, b)
  {
    forall key | key in w ensures Reaches(b, key, w[key]) {
      assert Reaches(a, key, w[key]) && Reaches(b, key, a[key].version);
    }
  }

  lemma RecordGrows(store: Store, op: Op)
    ensures Grows(store, Record(store, op)) && Reaches(Record(store, op), op.key, op.version)
  {
  }

  lemma GrowsOn(a: Store, b: Store, c: Store)
    requires Grows(a, b) && Grows(b, c)
    ensures Grows(a, c)
  {
    forall key | key in a ensures Reaches(c, key, a[key].version) {
      assert Reaches(b, key, a[key].version) && Reaches(c, key, b[key].version);
    }
  }

  /** Recording writes keeps the log's promises, once the log has them too. */
  lemma {:induction false} RecordAllKeeps(store: Store, log: seq<Op>, ops: seq<Op>)
    requires LogInv(store, log)
    ensures Grows(store, RecordAll(store, ops)) && LogInv(RecordAll(store, ops), log + ops)
  {
    hide Record, LogInv, Grows;
    if ops == [] {
      assert log + ops == log;
      GrowsItself(store);
    } else {
      var n := |ops| - 1;
      RecordAllKeeps(store, log, ops[..n]);
      var before := RecordAll(store, ops[..n]);
      RecordGrows(before, ops[n]);
      GrowsOn(store, before, Record(before, ops[n]));
      RecordKeeps(before, log + ops[..n], ops[n]);
      assert log + ops[..n] + [ops[n]] == log + ops;
    }
  }

  lemma GrowsItself(store: Store)
    ensures Grows(store, store)
  {
  }

  lemma RecordKeeps(store: Store, log: seq<Op>, op: Op)
    requires LogInv(store, log)
    ensures LogInv(Record(store, op), log + [op])
  {
    var after := Record(store, op);
    RecordGrows(store, op);
    forall x | x in log + [op] ensures Reaches(after, x.key, x.version) {
      if x in log {
        assert Reaches(store, x.key, x.version) && Reaches(after, x.key, store[x.key].version);
      }
    }
    forall key | key in after ensures exists x :: x in log + [op] && x.key == key && Written(x) == after[key] {
      if key in store && after[key] == store[key] {
        var x :| x in log && x.key == key && Written(x) == store[key];
        assert x in log + [op];
      } else {
        assert op in log + [op] && Written(op) == after[key];
      }
    }
  }

  ghost predicate Fixed(log: seq<Op>) {
    forall a, b | a in log && b in log && a.version == b.version :: a == b
  }

  /** So does compacting it. */
  lemma CompactKeeps(store: Store, log: seq<Op>)
    requires LogInv(store, log) && Fixed(log)
    ensures LogInv(store, Compact(log)) && forall op | op in Compact(log) :: op in log
  {
    hide Compact, Fixed;
    CompactExact(log);
    forall op | op in Compact(log) ensures op in log && Reaches(store, op.key, op.version) {
      assert Tops(log, op);
    }
    forall key | key in store ensures exists op :: op in Compact(log) && op.key == key && Written(op) == store[key] {
      var w := CompactHas(store, log, Compact(log), key);
    }
  }

  lemma CompactHas(store: Store, log: seq<Op>, c: seq<Op>, key: string) returns (w: Op)
    requires LogInv(store, log) && Fixed(log) && Compacted(log, c) && key in store
    ensures w in c && w.key == key && Written(w) == store[key]
  {
    hide Tops, Fixed, Reaches;
    var x :| x in log && x.key == key && Written(x) == store[key];
    w :| w in c && w.key == x.key;
    OneNewest(store, log, x, w);
  }

  lemma OneNewest(store: Store, log: seq<Op>, x: Op, w: Op)
    requires x in log && x.key in store && Written(x) == store[x.key] && Tops(log, w) && w.key == x.key
    requires LogInv(store, log) && Fixed(log)
    ensures w == x
  {
    assert Reaches(store, w.key, w.version);
    assert !Older(w.version, x.version);
  }

  lemma IssuedFixed(nodes: seq<Node>, issued: set<Op>, log: seq<Op>)
    requires IssuedInv(nodes, issued) && forall op | op in log :: op in issued
    ensures Fixed(log)
  {
  }

  lemma ReceiveKeeps(nodes: seq<Node>, n: Node, ops: seq<Op>, issued: set<Op>)
    requires IssuedInv(nodes, issued) && NodeInv(n, issued) && forall op | op in ops :: op in issued
    ensures NodeInv(Receive(n, ops), issued) && Grows(n.store, Receive(n, ops).store)
    ensures forall op | op in ops :: Reaches(Receive(n, ops).store, op.key, op.version)
  {
    hide RecordAll, Compact, LogInv, IssuedInv, Grows;
    var unseen := Unseen(n.log, ops);
    RecordAllKeeps(n.store, n.log, unseen);
    assert forall op | op in n.log + unseen :: op in issued;
    IssuedFixed(nodes, issued, n.log + unseen);
    var after := RecordAll(n.store, unseen);
    CompactKeeps(after, n.log + unseen);
    GrowsItself(n.store);
    forall op | op in ops ensures Reaches(Receive(n, ops).store, op.key, op.version) {
      AlreadyOrNew(nodes, issued, n, ops, op);
      InLogReaches(n.store, n.log, op);
      InLogReaches(after, n.log + unseen, op);
    }
  }

  lemma InLogReaches(store: Store, log: seq<Op>, op: Op)
    requires LogInv(store, log)
    ensures op in log ==> Reaches(store, op.key, op.version)
  {
  }

  lemma AlreadyOrNew(nodes: seq<Node>, issued: set<Op>, n: Node, ops: seq<Op>, op: Op)
    requires IssuedInv(nodes, issued) && op in ops && op in issued && forall x | x in n.log :: x in issued
    ensures op in n.log + Unseen(n.log, ops) && (Unseen(n.log, ops) == [] ==> op in n.log)
  {
    if op !in Unseen(n.log, ops) {
      var x :| x in n.log && x.version == op.version;
      assert x == op;
    }
  }

  /** A replica whose values do not get older disturbs no acknowledgement and no message. */
  lemma ReplacedKeeps(sys: System, r: nat, n: Node, issued: set<Op>)
    requires Inv(sys) && r < |sys.nodes| && sys.issued <= issued && IssuedInv(sys.nodes[r := n], issued)
    requires Grows(sys.nodes[r].store, n.store) && NodeInv(n, issued) && AcksInv(sys.nodes, n)
    ensures Inv(System(sys.nodes[r := n], sys.wire, issued))
  {
    hide LogInv, Honest, Grows, IssuedInv;
    var nodes := sys.nodes[r := n];
    forall p | 0 <= p < |nodes| ensures Grows(sys.nodes[p].store, nodes[p].store) {
      GrowsItself(sys.nodes[p].store);
    }
    forall k | 0 <= k < |nodes| ensures NodeInv(nodes[k], issued) && AcksInv(nodes, nodes[k]) {
      AcksStay(sys.nodes, nodes, nodes[k]);
    }
    forall m | m in sys.wire ensures MessageInv(nodes, issued, m) {
      assert MessageInv(sys.nodes, sys.issued, m);
      if m.Ack? {
        HonestStays(m.versions, sys.nodes[m.sender].store, nodes[m.sender].store);
      }
    }
  }

  lemma AcksStay(before: seq<Node>, after: seq<Node>, n: Node)
    requires |before| == |after| && AcksInv(before, n)
    requires forall p | 0 <= p < |before| :: Grows(before[p].store, after[p].store)
    ensures AcksInv(after, n)
  {
    hide Honest, Grows;
    forall p | p in n.acked ensures n.acked[p] == map[] || (p < |after| && Honest(n.acked[p], after[p].store)) {
      if n.acked[p] != map[] {
        HonestStays(n.acked[p], before[p].store, after[p].store);
      }
    }
  }

  lemma HonestMerge(a: Watermark, b: Watermark, store: Store)
    requires Honest(a, store) && Honest(b, store)
    ensures Honest(MergeMax(a, b), store)
  {
    forall key | key in MergeMax(a, b) ensures Reaches(store, key, MergeMax(a, b)[key]) {
      assert key in a ==> Reaches(store, key, a[key]);
      assert key in b ==> Reaches(store, key, b[key]);
    }
  }

  lemma HonestAck(ops: seq<Op>, store: Store)
    requires forall op | op in ops :: Reaches(store, op.key, op.version)
    ensures Honest(AckOf(ops), store)
  {
    hide AckOf;
    AckOfExact(ops);
    forall key | key in AckOf(ops) ensures Reaches(store, key, AckOf(ops)[key]) {
      var i :| 0 <= i < |ops| && ops[i].key == key && ops[i].version == AckOf(ops)[key];
      assert ops[i] in ops;
    }
  }

  lemma WriteKeeps(sys: System, op: Op)
    requires Inv(sys) && Enabled(sys, DoWrite(op))
    ensures Inv(Next(sys, DoWrite(op)))
  {
    hide MessageInv, AcksInv, NodeInv, IssuedInv, Grows, Write;
    var r := op.version.replica;
    var m := Write(sys.nodes[r], op);
    WrittenNode(sys.nodes[r], op, sys.issued);
    SameAcks(sys.nodes, sys.nodes[r], m);
    FreshVersion(sys.nodes, op, m, sys.issued);
    ReplacedKeeps(sys, r, m, sys.issued + {op});
  }

  lemma WrittenNode(n: Node, op: Op, issued: set<Op>)
    requires NodeInv(n, issued) && op.version.timestamp == n.clock + 1
    ensures var m := Write(n, op);
            NodeInv(m, issued + {op}) && Grows(n.store, m.store) && m.acked == n.acked && m.clock == n.clock + 1
  {
    hide LogInv, Grows, Record;
    RecordGrows(n.store, op);
    GrowsItself(n.store);
    RecordKeeps(n.store, n.log, op);
  }

  /** Stamped past its replica's clock, a write has a version of its own. */
  lemma FreshVersion(nodes: seq<Node>, op: Op, m: Node, issued: set<Op>)
    requires IssuedInv(nodes, issued) && op.version.replica < |nodes|
    requires op.version.timestamp == nodes[op.version.replica].clock + 1 == m.clock
    ensures IssuedInv(nodes[op.version.replica := m], issued + {op})
  {
  }

  lemma SameAcks(nodes: seq<Node>, a: Node, b: Node)
    requires AcksInv(nodes, a) && a.acked == b.acked
    ensures AcksInv(nodes, b)
  {
  }

  /** A replica that keeps its values and its acknowledgements. */
  lemma QuietKeeps(sys: System, r: nat, n: Node)
    requires Inv(sys) && r < |sys.nodes| && n.store == sys.nodes[r].store && n.acked == sys.nodes[r].acked
    requires n.clock >= sys.nodes[r].clock && NodeInv(n, sys.issued)
    ensures Inv(sys.(nodes := sys.nodes[r := n]))
  {
    hide MessageInv, NodeInv, AcksInv, Grows;
    GrowsItself(n.store);
    SameAcks(sys.nodes, sys.nodes[r], n);
    ReplacedKeeps(sys, r, n, sys.issued);
  }

  lemma DeliverKeeps(sys: System, b: Message)
    requires Inv(sys) && Enabled(sys, DoReceive(b))
    ensures Inv(Next(sys, DoReceive(b)))
  {
    hide NodeInv, AcksInv, Grows, IssuedInv, AckOf, Receive, Honest;
    assert MessageInv(sys.nodes, sys.issued, b);
    var n := sys.nodes[b.to];
    var m := Receive(n, b.ops);
    ReceiveKeeps(sys.nodes, n, b.ops, sys.issued);
    ReceiveFrame(n, b.ops);
    SameAcks(sys.nodes, n, m);
    LaterClock(sys.nodes, b.to, m, sys.issued);
    ReplacedKeeps(sys, b.to, m, sys.issued);
    HonestAck(b.ops, m.store);
  }

  lemma ReceiveFrame(n: Node, ops: seq<Op>)
    ensures Receive(n, ops).acked == n.acked && Receive(n, ops).clock >= n.clock && Receive(n, ops).round == n.round
  {
  }

  lemma LaterClock(nodes: seq<Node>, r: nat, n: Node, issued: set<Op>)
    requires IssuedInv(nodes, issued) && r < |nodes| && n.clock >= nodes[r].clock
    ensures IssuedInv(nodes[r := n], issued)
  {
  }

  lemma AckKeeps(sys: System, a: Message)
    requires Inv(sys) && Enabled(sys, DoAck(a))
    ensures Inv(Next(sys, DoAck(a)))
  {
    hide NodeInv, Grows, IssuedInv, Honest, MergeMax;
    assert MessageInv(sys.nodes, sys.issued, a);
    var n := sys.nodes[a.to];
    var w := MergeMax(AckedBy(n, a.sender), a.versions);
    var m := n.(acked := n.acked[a.sender := w]);
    EmptyHonest(sys.nodes[a.sender].store);
    assert AcksInv(sys.nodes, n);
    HonestMerge(AckedBy(n, a.sender), a.versions, sys.nodes[a.sender].store);
    GrowsItself(n.store);
    SameNode(n, m, sys.issued);
    LaterClock(sys.nodes, a.to, m, sys.issued);
    ReplacedKeeps(sys, a.to, m, sys.issued);
  }

  lemma SameNode(a: Node, b: Node, issued: set<Op>)
    requires NodeInv(a, issued) && a.store == b.store && a.log == b.log && a.round == b.round && a.clock <= b.clock
    ensures NodeInv(b, issued)
  {
  }

  lemma EmptyHonest(store: Store)
    ensures Honest(map[], store)
  {
  }

  lemma ReopenKeeps(sys: System, r: nat, peer: nat)
    requires Inv(sys) && Enabled(sys, DoReopen(r, peer))
    ensures Inv(Next(sys, DoReopen(r, peer)))
  {
    hide NodeInv, Grows, IssuedInv, Honest;
    var n := sys.nodes[r];
    var m := n.(acked := n.acked[peer := map[]]);
    assert AcksInv(sys.nodes, n);
    GrowsItself(n.store);
    SameNode(n, m, sys.issued);
    LaterClock(sys.nodes, r, m, sys.issued);
    ReplacedKeeps(sys, r, m, sys.issued);
  }

  lemma SendKeeps(sys: System, r: nat, to: nat, ops: seq<Op>)
    requires Inv(sys) && Enabled(sys, DoSend(r, to, ops))
    ensures Inv(Next(sys, DoSend(r, to, ops)))
  {
    hide AcksInv, IssuedInv, LogInv;
    assert NodeInv(sys.nodes[r], sys.issued);
    assert MessageInv(sys.nodes, sys.issued, Batch(r, to, ops));
  }

  lemma StepKeeps(sys: System, step: Step)
    requires Inv(sys) && Enabled(sys, step)
    ensures Inv(Next(sys, step)) && |Next(sys, step).nodes| == |sys.nodes|
  {
    hide NodeInv, AcksInv, IssuedInv, MessageInv, Receive, Write;
    match step
    case DoWrite(op) => WriteKeeps(sys, op);
    case DoTick(r) =>
      SameNode(sys.nodes[r], sys.nodes[r].(clock := sys.nodes[r].clock + 1), sys.issued);
      QuietKeeps(sys, r, sys.nodes[r].(clock := sys.nodes[r].clock + 1));
    case DoCompact(r) => CompactStepKeeps(sys, r);
    case DoCollect(r) =>
      CollectedNode(sys.nodes[r], sys.issued);
      QuietKeeps(sys, r, sys.nodes[r].(round := sys.nodes[r].log));
    case DoSend(r, to, ops) => SendKeeps(sys, r, to, ops);
    case DoReceive(b) => DeliverKeeps(sys, b);
    case DoAck(a) => AckKeeps(sys, a);
    case DoReopen(r, peer) => ReopenKeeps(sys, r, peer);
  }

  lemma CollectedNode(n: Node, issued: set<Op>)
    requires NodeInv(n, issued)
    ensures NodeInv(n.(round := n.log), issued)
  {
  }

  lemma CompactStepKeeps(sys: System, r: nat)
    requires Inv(sys) && r < |sys.nodes|
    ensures Inv(sys.(nodes := sys.nodes[r := sys.nodes[r].(log := Compact(sys.nodes[r].log))]))
  {
    hide AcksInv, IssuedInv, MessageInv, Compact, LogInv;
    var n := sys.nodes[r];
    assert NodeInv(n, sys.issued);
    IssuedFixed(sys.nodes, sys.issued, n.log);
    CompactKeeps(n.store, n.log);
    QuietKeeps(sys, r, n.(log := Compact(n.log)));
  }

  // --- every run -------------------------------------------------------------------------------------

  ghost predicate Fresh(sys: System) {
    && sys.wire == {} && sys.issued == {}
    && forall r | 0 <= r < |sys.nodes| :: sys.nodes[r] == Node(0, map[], [], [], map[])
  }

  ghost predicate Follows(a: System, b: System) {
    exists step :: Enabled(a, step) && b == Next(a, step)
  }

  ghost predicate Run(trace: seq<System>) {
    && trace != [] && Fresh(trace[0])
    && forall i | 0 < i < |trace| :: Follows(trace[i - 1], trace[i])
  }

  lemma FreshKeeps(sys: System)
    requires Fresh(sys)
    ensures Inv(sys)
  {
  }

  lemma {:induction false} EveryRunKeeps(trace: seq<System>, i: nat)
    requires Run(trace) && i < |trace|
    ensures Inv(trace[i]) && |trace[i].nodes| == |trace[0].nodes|
  {
    hide Next, Enabled, Inv;
    if i == 0 {
      FreshKeeps(trace[0]);
    } else {
      EveryRunKeeps(trace, i - 1);
      assert Follows(trace[i - 1], trace[i]);
      var step :| Enabled(trace[i - 1], step) && trace[i] == Next(trace[i - 1], step);
      StepKeeps(trace[i - 1], step);
    }
  }

  lemma StepGrows(sys: System, step: Step, p: nat)
    requires Inv(sys) && Enabled(sys, step) && p < |sys.nodes|
    ensures |Next(sys, step).nodes| == |sys.nodes| && Grows(sys.nodes[p].store, Next(sys, step).nodes[p].store)
  {
    hide NodeInv, AcksInv, IssuedInv, MessageInv, Grows, Receive, Write;
    GrowsItself(sys.nodes[p].store);
    match step
    case DoWrite(op) => WrittenNode(sys.nodes[op.version.replica], op, sys.issued);
    case DoReceive(b) =>
      BatchIssued(sys, b);
      ReceiveKeeps(sys.nodes, sys.nodes[b.to], b.ops, sys.issued);
    case _ =>
  }

  lemma BatchIssued(sys: System, b: Message)
    requires Inv(sys) && b in sys.wire && b.Batch?
    ensures forall op | op in b.ops :: op in sys.issued
  {
    assert MessageInv(sys.nodes, sys.issued, b);
  }

  lemma {:induction false} RunGrows(trace: seq<System>, i: nat, j: nat, p: nat)
    requires Run(trace) && i <= j < |trace| && p < |trace[0].nodes|
    ensures |trace[i].nodes| == |trace[j].nodes| == |trace[0].nodes|
    ensures Grows(trace[i].nodes[p].store, trace[j].nodes[p].store)
    decreases j
  {
    hide Next, Enabled, Inv, Grows;
    EveryRunKeeps(trace, i);
    EveryRunKeeps(trace, j);
    if i == j {
      GrowsItself(trace[i].nodes[p].store);
    } else {
      RunGrows(trace, i, j - 1, p);
      EveryRunKeeps(trace, j - 1);
      assert Follows(trace[j - 1], trace[j]);
      var step :| Enabled(trace[j - 1], step) && trace[j] == Next(trace[j - 1], step);
      StepGrows(trace[j - 1], step, p);
      GrowsOn(trace[i].nodes[p].store, trace[j - 1].nodes[p].store, trace[j].nodes[p].store);
    }
  }

  /** A replica's own write stands at once, over whatever it held, and is logged; no other key changes. */
  lemma WriteStands(trace: seq<System>, i: nat, op: Op)
    requires Run(trace) && i < |trace| && Enabled(trace[i], DoWrite(op))
    ensures var n, m := trace[i].nodes[op.version.replica], Next(trace[i], DoWrite(op)).nodes[op.version.replica];
            && m.store == n.store[op.key := Register(op.version, if op.Insert? then Some(op.value) else None)]
            && m.log == n.log + [op] && m.clock == op.version.timestamp
  {
    hide Run, AcksInv, MessageInv, IssuedInv;
    EveryRunKeeps(trace, i);
    var n := trace[i].nodes[op.version.replica];
    assert NodeInv(n, trace[i].issued);
    if op.key in n.store {
      var x :| x in n.log && x.key == op.key && Written(x) == n.store[op.key];
    }
  }

  /** A clock moves once for every write it observes, and past the later of it and itself by no more. */
  lemma {:induction false} ObserveExact(clock: nat, ops: seq<Op>, top: nat)
    requires clock <= top && forall op | op in ops :: op.version.timestamp <= top
    ensures clock + |ops| <= Observe(clock, ops) <= top + |ops|
  {
    if ops != [] {
      ObserveExact(clock, ops[..|ops| - 1], top);
      assert ops[|ops| - 1] in ops;
    }
  }

  /** A peer that has reached a write's version has taken the write in. */
  lemma ReachedIsAbsorbed(sys: System, p: nat, op: Op)
    requires Inv(sys) && p < |sys.nodes| && op in sys.issued && Reaches(sys.nodes[p].store, op.key, op.version)
    ensures !Accepts(sys.nodes[p].store, op)
  {
    var store := sys.nodes[p].store;
    assert NodeInv(sys.nodes[p], sys.issued);
    var x :| x in sys.nodes[p].log && x.key == op.key && Written(x) == store[op.key];
    assert x.version == op.version ==> x == op;
  }

  lemma AckedIsReached(sys: System, r: nat, p: nat, op: Op)
    requires Inv(sys) && r < |sys.nodes| && p < |sys.nodes| && !Allows(AckedBy(sys.nodes[r], p), op.key, op.version)
    ensures Reaches(sys.nodes[p].store, op.key, op.version)
  {
    var w := AckedBy(sys.nodes[r], p);
    assert AcksInv(sys.nodes, sys.nodes[r]);
    assert op.key in w && Reaches(sys.nodes[p].store, op.key, w[op.key]);
  }

  lemma {:induction false} IssuedStays(trace: seq<System>, i: nat, j: nat)
    requires Run(trace) && i <= j < |trace|
    ensures trace[i].issued <= trace[j].issued
    decreases j
  {
    hide Enabled;
    if i < j {
      IssuedStays(trace, i, j - 1);
      assert Follows(trace[j - 1], trace[j]);
    }
  }

  /** Over every run, what the filter leaves out the peer has taken in, then and at any time later. */
  lemma LeftOutIsAbsorbed(trace: seq<System>, i: nat, j: nat, r: nat, p: nat, op: Op)
    requires Run(trace) && i <= j < |trace| && r < |trace[i].nodes| && p < |trace[j].nodes|
    requires var n := trace[i].nodes[r]; op in n.round + n.log && !Allows(AckedBy(n, p), op.key, op.version)
    ensures !Accepts(trace[j].nodes[p].store, op)
  {
    hide Next, Enabled, Run, MessageInv, IssuedInv, LogInv;
    EveryRunKeeps(trace, i);
    EveryRunKeeps(trace, j);
    AckedIsReached(trace[i], r, p, op);
    RunGrows(trace, i, j, p);
    IssuedStays(trace, i, j);
    assert NodeInv(trace[i].nodes[r], trace[i].issued);
    ReachedLater(trace[i].nodes[p].store, trace[j].nodes[p].store, op);
    ReachedIsAbsorbed(trace[j], p, op);
  }

  lemma ReachedLater(a: Store, b: Store, op: Op)
    requires Reaches(a, op.key, op.version) && Grows(a, b)
    ensures Reaches(b, op.key, op.version)
  {
    assert Reaches(b, op.key, a[op.key].version);
  }

  /** Nothing of the log is left to send. */
  ghost predicate Done(n: Node, p: nat) {
    forall op | op in n.log :: !Allows(AckedBy(n, p), op.key, op.version)
  }

  /** With nothing left to send, the peer has every key, at least as new. */
  lemma DoneReaches(sys: System, r: nat, p: nat, key: string)
    requires Inv(sys) && r < |sys.nodes| && p < |sys.nodes| && Done(sys.nodes[r], p) && key in sys.nodes[r].store
    ensures Reaches(sys.nodes[p].store, key, sys.nodes[r].store[key].version)
  {
    assert NodeInv(sys.nodes[r], sys.issued);
    var op :| op in sys.nodes[r].log && op.key == key && Written(op) == sys.nodes[r].store[key];
    AckedIsReached(sys, r, p, op);
  }

  /** Over every run, two replicas with nothing left to send each other have the same values. */
  lemma DoneAgree(trace: seq<System>, i: nat, r: nat, p: nat)
    requires Run(trace) && i < |trace| && r < |trace[i].nodes| && p < |trace[i].nodes|
    requires Done(trace[i].nodes[r], p) && Done(trace[i].nodes[p], r)
    ensures trace[i].nodes[r].store == trace[i].nodes[p].store
  {
    hide Run, Done, Inv;
    EveryRunKeeps(trace, i);
    var sys := trace[i];
    var a, b := sys.nodes[r].store, sys.nodes[p].store;
    forall key | key in a ensures key in b && a[key] == b[key] {
      DoneReaches(sys, r, p, key);
      DoneReaches(sys, p, r, key);
      OneValue(sys, r, p, key);
    }
    forall key | key in b ensures key in a {
      DoneReaches(sys, p, r, key);
    }
  }

  lemma OneValue(sys: System, r: nat, p: nat, key: string)
    requires Inv(sys) && r < |sys.nodes| && p < |sys.nodes| && key in sys.nodes[r].store && key in sys.nodes[p].store
    requires sys.nodes[r].store[key].version == sys.nodes[p].store[key].version
    ensures sys.nodes[r].store[key] == sys.nodes[p].store[key]
  {
    assert NodeInv(sys.nodes[r], sys.issued) && NodeInv(sys.nodes[p], sys.issued);
    var x :| x in sys.nodes[r].log && x.key == key && Written(x) == sys.nodes[r].store[key];
    var y :| y in sys.nodes[p].log && y.key == key && Written(y) == sys.nodes[p].store[key];
    assert x == y;
  }

  /** A replica collects its log, sends all that is allowed, and hears back. */
  ghost function Exchange(sys: System, r: nat, p: nat): (t: System)
    requires r < |sys.nodes| && p < |sys.nodes|
  {
    var one := Next(sys, DoCollect(r));
    var ops := Allowed(one.nodes[r], p, one.nodes[r].round);
    var two := Next(one, DoSend(r, p, ops));
    var three := Next(two, DoReceive(Batch(r, p, ops)));
    Next(three, DoAck(Ack(p, r, AckOf(ops))))
  }

  /** And then has nothing left to send. */
  lemma ExchangeIsDone(sys: System, r: nat, p: nat)
    requires r < |sys.nodes| && p < |sys.nodes| && r != p
    ensures |Exchange(sys, r, p).nodes| == |sys.nodes| && Done(Exchange(sys, r, p).nodes[r], p)
  {
    hide Receive, MergeMax, AckOf, Allows;
    var n := sys.nodes[r];
    var ops := Allowed(n.(round := n.log), p, n.log);
    var before := AckedBy(n, p);
    var after := Exchange(sys, r, p).nodes[r];
    assert after.log == n.log && AckedBy(after, p) == MergeMax(before, AckOf(ops));
    AckOfExact(ops);
    forall op | op in n.log ensures !Allows(MergeMax(before, AckOf(ops)), op.key, op.version) {
      if op in ops {
        var i :| 0 <= i < |ops| && ops[i] == op;
      }
      AckOnlyNarrows(before, AckOf(ops), op.key, op.version);
    }
  }
}
