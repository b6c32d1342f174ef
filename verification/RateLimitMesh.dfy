/**
 Replicas of one rate-limit key. Each stamps its writes with its Lamport clock, logs them, folds its log into
 one entry from time to time, and sends a peer the entries that peer has not acknowledged. Batches and
 acknowledgements may be lost, repeated and reordered.
 */
module RateLimitMesh {
  import opened Text
  import opened RateLimitShard
  import opened RateLimitWrites
  import opened SendWatermark

  /** A log entry: its state, and the writes that went into it. */
  datatype Entry = Entry(state: State, seen: set<Write>)

  /** `round` is the log as last collected for sending, `acked` the version every peer acknowledged, `seen` the
      writes that went into the state. */
  datatype Node = Node(clock: nat, state: Option<State>, log: seq<Entry>, round: seq<Entry>, acked: map<nat, Version>,
                       seen: set<Write>)

  datatype Message = Batch(sender: nat, to: nat, entries: seq<Entry>) | Ack(sender: nat, to: nat, version: Version)

  /** The replicas by number, every message ever sent, and every write ever made. */
  datatype System = System(nodes: seq<Node>, wire: set<Message>, issued: set<Write>)

  // --- logs --------------------------------------------------------------------------------------------

  function SeenOf(log: seq<Entry>): set<Write> {
    set e, w | e in log && w in e.seen :: w
  }

  /** `compact_operations`: the entries merged one after the other. */
  function FoldStates(log: seq<Entry>): Option<State>
    requires log != []
  {
    var last := log[|log| - 1].state;
    if |log| == 1 then Some(last)
    else
      match FoldStates(log[..|log| - 1])
      case None => None
      case Some(s) => Merge(s, last)
  }

  function Compact(log: seq<Entry>): seq<Entry> {
    if log == [] then []
    else
      match FoldStates(log)
      case None => []
      case Some(s) => [Entry(s, SeenOf(log))]
  }

  ghost predicate EntryInv(e: Entry) {
    e.seen != {} && Holds(e.state, e.seen)
  }

  ghost predicate Entries(log: seq<Entry>) {
    forall e | e in log :: EntryInv(e)
  }

  lemma SeenJoin(a: seq<Entry>, b: seq<Entry>)
    ensures SeenOf(a + b) == SeenOf(a) + SeenOf(b)
  {
  }

  lemma SeenOne(e: Entry)
    ensures SeenOf([e]) == e.seen
  {
  }

  lemma SeenLast(log: seq<Entry>)
    requires log != []
    ensures SeenOf(log) == SeenOf(log[..|log| - 1]) + log[|log| - 1].seen
  {
    var n := |log| - 1;
    assert log == log[..n] + [log[n]];
    SeenJoin(log[..n], [log[n]]);
    SeenOne(log[n]);
  }

  /** Folding a log gives what all its writes come to. */
  lemma {:induction false} FoldHolds(log: seq<Entry>)
    requires log != [] && Entries(log) && Unique(SeenOf(log))
    ensures FoldStates(log).Some? && Holds(FoldStates(log).value, SeenOf(log)) && SeenOf(log) != {}
  {
    hide Holds, SeenOf, Merge;
    var n := |log| - 1;
    assert EntryInv(log[n]);
    if n == 0 {
      assert log == [log[0]];
      SeenOne(log[0]);
    } else {
      SeenLast(log);
      UniqueWithin(SeenOf(log[..n]), SeenOf(log));
      FoldHolds(log[..n]);
      FoldStep(FoldStates(log[..n]).value, SeenOf(log[..n]), log[n]);
    }
  }

  lemma FoldStep(s: State, seen: set<Write>, e: Entry)
    requires EntryInv(e) && Holds(s, seen) && seen != {} && Unique(seen + e.seen)
    ensures Merge(s, e.state).Some? && Holds(Merge(s, e.state).value, seen + e.seen)
  {
    hide Stands, IsTomb, PointsOf, Merge;
    var x :| IsTomb(seen, x) && Stands(s, PointsOf(seen), x);
    var y :| IsTomb(e.seen, y) && Stands(e.state, PointsOf(e.seen), y);
    UniquePoints(seen + e.seen);
    PointsJoin(seen, e.seen);
    TombJoin(seen, e.seen, x, y);
    MergeStands(s, e.state, PointsOf(seen), x, PointsOf(e.seen), y);
  }

  /** A compacted log is one entry, which stands for every write of the log. */
  lemma CompactHolds(log: seq<Entry>)
    requires Entries(log) && Unique(SeenOf(log))
    ensures Entries(Compact(log)) && SeenOf(Compact(log)) == SeenOf(log)
    ensures log != [] ==> Compact(log) != [] && Compact(log) == [Entry(Compact(log)[0].state, SeenOf(log))]
  {
    hide SeenOf, FoldStates;
    if log != [] {
      FoldHolds(log);
      SeenOne(Compact(log)[0]);
    }
  }

  lemma UniqueWithin(a: set<Write>, b: set<Write>)
    requires a <= b && Unique(b)
    ensures Unique(a)
  {
  }

  // --- what a replica does ---------------------------------------------------------------------------

  /** `put_local` and `delete_local`: the clock ticks, and what changes the state is logged. */
  function Own(n: Node, w: Write): Node {
    var state, m := Apply(n.state, StateOf(w)), n.(clock := n.clock + 1);
    if state == n.state then m
    else m.(state := state, log := n.log + [Entry(StateOf(w), {w})], seen := n.seen + {w})
  }

  function ApplyAll(state: Option<State>, entries: seq<Entry>): Option<State> {
    if entries == [] then state else Apply(ApplyAll(state, entries[..|entries| - 1]), entries[|entries| - 1].state)
  }

  /** `LamportClock::update` with every timestamp in turn. */
  function Observe(clock: nat, entries: seq<Entry>): (r: nat)
    ensures clock <= r && forall e | e in entries :: IdOf(e.state).timestamp < r
  {
    if entries == [] then clock
    else
      var n := |entries| - 1;
      assert entries == entries[..n] + [entries[n]];
      var c, t := Observe(clock, entries[..n]), IdOf(entries[n].state).timestamp;
      (if c < t then t else c) + 1
  }

  /** A clock moves once for every entry it observes, and past the later of it and itself by no more. */
  lemma {:induction false} ObserveExact(clock: nat, entries: seq<Entry>, top: nat)
    requires clock <= top && forall e | e in entries :: IdOf(e.state).timestamp <= top
    ensures clock + |entries| <= Observe(clock, entries) <= top + |entries|
  {
    if entries != [] {
      ObserveExact(clock, entries[..|entries| - 1], top);
      assert entries[|entries| - 1] in entries;
    }
  }

  /** `apply_remote_ops`: the batch joins the log, which is compacted, and is merged into the state. */
  function Receive(n: Node, entries: seq<Entry>): Node {
    if entries == [] then n
    else
      n.(clock := Observe(n.clock, entries), state := ApplyAll(n.state, entries),
         log := Compact(n.log + entries), seen := n.seen + SeenOf(entries))
  }

  function AckedBy(n: Node, peer: nat): Option<Version> {
    if peer in n.acked then Some(n.acked[peer]) else None
  }

  /** `from_ops` of a batch for one key. */
  function NewestId(entries: seq<Entry>): Option<Version> {
    if entries == [] then None
    else Newest(NewestId(entries[..|entries| - 1]), Some(IdOf(entries[|entries| - 1].state)))
  }

  /** A tick is a write to another key. A batch is any part of what the filter lets through, in any order: more
      than a sender does, so that what holds of every run holds however frames are cut, dropped and repeated. */
  datatype Step =
    | DoWrite(w: Write)
    | DoTick(r: nat)
    | DoCompact(r: nat)
    | DoCollect(r: nat)
    | DoSend(r: nat, to: nat, entries: seq<Entry>)
    | DoReceive(batch: Message)
    | DoAck(ack: Message)
    | DoReopen(r: nat, peer: nat)

  ghost predicate Enabled(sys: System, step: Step) {
    match step
    case DoWrite(w) => var r := w.version.replica; r < |sys.nodes| && w.version.timestamp == sys.nodes[r].clock + 1
    case DoTick(r) => r < |sys.nodes|
    case DoCompact(r) => r < |sys.nodes|
    case DoCollect(r) => r < |sys.nodes|
    case DoSend(r, to, entries) =>
      && r < |sys.nodes| && to < |sys.nodes|
      && forall e | e in entries :: e in sys.nodes[r].round && Passes(AckedBy(sys.nodes[r], to), IdOf(e.state))
    case DoReceive(b) => b in sys.wire && b.Batch? && b.to < |sys.nodes| && b.entries != []
    case DoAck(a) => a in sys.wire && a.Ack? && a.to < |sys.nodes|
    case DoReopen(r, _) => r < |sys.nodes|
  }

  ghost function Next(sys: System, step: Step): System
    requires Enabled(sys, step)
  {
    match step
    case DoWrite(w) =>
      var r := w.version.replica;
      sys.(nodes := sys.nodes[r := Own(sys.nodes[r], w)], issued := sys.issued + {w})
    case DoTick(r) => sys.(nodes := sys.nodes[r := sys.nodes[r].(clock := sys.nodes[r].clock + 1)])
    case DoCompact(r) => sys.(nodes := sys.nodes[r := sys.nodes[r].(log := Compact(sys.nodes[r].log))])
    case DoCollect(r) => sys.(nodes := sys.nodes[r := sys.nodes[r].(round := sys.nodes[r].log)])
    case DoSend(r, to, entries) => sys.(wire := sys.wire + {Batch(r, to, entries)})
    case DoReceive(b) =>
      var id := NewestId(b.entries);
      sys.(nodes := sys.nodes[b.to := Receive(sys.nodes[b.to], b.entries)],
           wire := sys.wire + if id.Some? then {Ack(b.to, b.sender, id.value)} else {})
    case DoAck(a) =>
      var n := sys.nodes[a.to];
      var acked := Newest(AckedBy(n, a.sender), Some(a.version)).value;
      sys.(nodes := sys.nodes[a.to := n.(acked := n.acked[a.sender := acked])])
    case DoReopen(r, peer) =>
      sys.(nodes := sys.nodes[r := sys.nodes[r].(acked := sys.nodes[r].acked - {peer})])
  }

  // --- what every step keeps ------------------------------------------------------------------------------

  /** The replica's state is what its writes come to, and so is its log. */
  ghost predicate NodeInv(n: Node, issued: set<Write>) {
    && (n.state.None? <==> n.seen == {}) && (n.state.Some? ==> Holds(n.state.value, n.seen))
    && n.seen <= issued && (forall w | w in n.seen :: w.version.timestamp <= n.clock)
    && Entries(n.log) && SeenOf(n.log) == n.seen && Entries(n.round) && SeenOf(n.round) <= n.seen
  }

  /** The writes have the version. */
  ghost predicate Has(ws: set<Write>, v: Version) {
    exists w :: w in ws && w.version == v
  }

  /** What was acknowledged was merged. */
  ghost predicate AcksInv(nodes: seq<Node>, n: Node) {
    forall p | p in n.acked :: p < |nodes| && Has(nodes[p].seen, n.acked[p])
  }

  ghost predicate MessageInv(nodes: seq<Node>, issued: set<Write>, m: Message) {
    && m.sender < |nodes| && m.to < |nodes|
    && (m.Batch? ==> Entries(m.entries) && SeenOf(m.entries) <= issued)
    && (m.Ack? ==> Has(nodes[m.sender].seen, m.version))
  }

  /** A version names one write, and is no later than its replica's clock. */
  ghost predicate IssuedInv(nodes: seq<Node>, issued: set<Write>) {
    && Unique(issued)
    && forall w | w in issued :: w.version.replica < |nodes| && w.version.timestamp <= nodes[w.version.replica].clock
  }

  ghost predicate Inv(sys: System) {
    && IssuedInv(sys.nodes, sys.issued)
    && (forall r | 0 <= r < |sys.nodes| :: NodeInv(sys.nodes[r], sys.issued) && AcksInv(sys.nodes, sys.nodes[r]))
    && (forall m | m in sys.wire :: MessageInv(sys.nodes, sys.issued, m))
  }

  lemma HasMore(a: set<Write>, b: set<Write>, v: Version)
    requires Has(a, v) && a <= b
    ensures Has(b, v)
  {
  }

  lemma AcksStay(before: seq<Node>, after: seq<Node>, n: Node)
    requires |before| == |after| && AcksInv(before, n)
    requires forall p | 0 <= p < |before| :: before[p].seen <= after[p].seen
    ensures AcksInv(after, n)
  {
    hide Has;
    forall p | p in n.acked ensures p < |after| && Has(after[p].seen, n.acked[p]) {
      HasMore(before[p].seen, after[p].seen, n.acked[p]);
    }
  }

  lemma NodeStays(n: Node, a: set<Write>, b: set<Write>)
    requires NodeInv(n, a) && a <= b
    ensures NodeInv(n, b)
  {
  }

  /** A replica that loses no write disturbs no acknowledgement and no message. */
  lemma ReplacedKeeps(sys: System, r: nat, n: Node, issued: set<Write>)
    requires Inv(sys) && r < |sys.nodes| && sys.issued <= issued && IssuedInv(sys.nodes[r := n], issued)
    requires sys.nodes[r].seen <= n.seen && NodeInv(n, issued) && AcksInv(sys.nodes, n)
    ensures Inv(System(sys.nodes[r := n], sys.wire, issued))
  {
    hide NodeInv, AcksInv, Has, IssuedInv, Entries, SeenOf;
    var nodes := sys.nodes[r := n];
    forall k | 0 <= k < |nodes| ensures NodeInv(nodes[k], issued) && AcksInv(nodes, nodes[k]) {
      AcksStay(sys.nodes, nodes, nodes[k]);
      if k != r {
        NodeStays(nodes[k], sys.issued, issued);
      }
    }
    forall m | m in sys.wire ensures MessageInv(nodes, issued, m) {
      assert MessageInv(sys.nodes, sys.issued, m);
      if m.Ack? {
        HasMore(sys.nodes[m.sender].seen, nodes[m.sender].seen, m.version);
      }
    }
  }

  lemma SameAcks(nodes: seq<Node>, a: Node, b: Node)
    requires AcksInv(nodes, a) && a.acked == b.acked
    ensures AcksInv(nodes, b)
  {
  }

  lemma LaterClock(nodes: seq<Node>, r: nat, n: Node, issued: set<Write>)
    requires IssuedInv(nodes, issued) && r < |nodes| && n.clock >= nodes[r].clock
    ensures IssuedInv(nodes[r := n], issued)
  {
    hide Unique;
  }

  /** A replica that keeps its writes and its acknowledgements. */
  lemma QuietKeeps(sys: System, r: nat, n: Node)
    requires Inv(sys) && r < |sys.nodes| && n.seen == sys.nodes[r].seen && n.acked == sys.nodes[r].acked
    requires n.clock >= sys.nodes[r].clock && NodeInv(n, sys.issued)
    ensures Inv(sys.(nodes := sys.nodes[r := n]))
  {
    hide NodeInv, AcksInv, IssuedInv, MessageInv;
    SameAcks(sys.nodes, sys.nodes[r], n);
    LaterClock(sys.nodes, r, n, sys.issued);
    ReplacedKeeps(sys, r, n, sys.issued);
  }

  /** Stamped past its replica's clock, a write has a version of its own. */
  lemma FreshVersion(nodes: seq<Node>, w: Write, n: Node, issued: set<Write>)
    requires IssuedInv(nodes, issued) && w.version.replica < |nodes|
    requires w.version.timestamp == nodes[w.version.replica].clock + 1 == n.clock
    ensures IssuedInv(nodes[w.version.replica := n], issued + {w}) && forall v | v in issued :: v.version != w.version
  {
  }

  /** A replica's own write changes its state, and so is logged. */
  lemma OwnExact(sys: System, w: Write)
    requires Inv(sys) && Enabled(sys, DoWrite(w))
    ensures var n := sys.nodes[w.version.replica];
            && Own(n, w) == n.(clock := n.clock + 1, state := Apply(n.state, StateOf(w)),
                               log := n.log + [Entry(StateOf(w), {w})], seen := n.seen + {w})
            && Own(n, w).state.Some? && Holds(Own(n, w).state.value, n.seen + {w})
  {
    hide Holds, Apply, AcksInv, MessageInv, SeenOf, Entries;
    var r := w.version.replica;
    var n := sys.nodes[r];
    assert NodeInv(n, sys.issued);
    FreshVersion(sys.nodes, w, n.(clock := n.clock + 1), sys.issued);
    UniqueWithin(n.seen + {w}, sys.issued + {w});
    WriteHolds(w);
    ApplyHolds(n.state, n.seen, StateOf(w), {w});
    var after := Apply(n.state, StateOf(w));
    if n.state.Some? {
      IdIsOne(n.state.value, n.seen);
      IdIsNewest(after.value, n.seen + {w}, w);
      IdIsOne(after.value, n.seen + {w});
      assert forall v | v in n.seen :: Older(v.version, w.version);
    }
  }

  lemma OwnNode(sys: System, w: Write)
    requires Inv(sys) && Enabled(sys, DoWrite(w))
    ensures NodeInv(Own(sys.nodes[w.version.replica], w), sys.issued + {w})
  {
    hide Holds, Own, AcksInv, MessageInv, IssuedInv;
    var n := sys.nodes[w.version.replica];
    assert NodeInv(n, sys.issued);
    OwnExact(sys, w);
    WriteHolds(w);
    SeenJoin(n.log, [Entry(StateOf(w), {w})]);
    SeenOne(Entry(StateOf(w), {w}));
  }

  lemma WriteKeeps(sys: System, w: Write)
    requires Inv(sys) && Enabled(sys, DoWrite(w))
    ensures Inv(Next(sys, DoWrite(w)))
  {
    hide NodeInv, AcksInv, MessageInv, IssuedInv, Own, Holds, Apply;
    var r := w.version.replica;
    var m := Own(sys.nodes[r], w);
    OwnExact(sys, w);
    OwnNode(sys, w);
    SameAcks(sys.nodes, sys.nodes[r], m);
    FreshVersion(sys.nodes, w, m, sys.issued);
    ReplacedKeeps(sys, r, m, sys.issued + {w});
  }

  lemma {:induction false} ApplyAllHolds(state: Option<State>, seen: set<Write>, entries: seq<Entry>)
    requires Entries(entries) && Unique(seen + SeenOf(entries)) && (state.None? <==> seen == {})
    requires state.Some? ==> Holds(state.value, seen)
    ensures var s := ApplyAll(state, entries);
            && (s.None? <==> seen + SeenOf(entries) == {}) && (s.Some? ==> Holds(s.value, seen + SeenOf(entries)))
  {
    hide Holds, SeenOf, Apply;
    if entries == [] {
      NothingSeen();
      assert seen + {} == seen;
    } else {
      var n := |entries| - 1;
      var front, e := entries[..n], entries[n];
      assert EntryInv(e);
      SeenLast(entries);
      assert seen + SeenOf(front) + e.seen == seen + SeenOf(entries);
      UniqueWithin(seen + SeenOf(front), seen + SeenOf(entries));
      ApplyAllHolds(state, seen, front);
      ApplyHolds(ApplyAll(state, front), seen + SeenOf(front), e.state, e.seen);
      var w :| w in e.seen;
      assert w in seen + SeenOf(entries);
    }
  }

  lemma NothingSeen()
    ensures SeenOf([]) == {}
  {
  }

  lemma ReceiveNode(nodes: seq<Node>, n: Node, entries: seq<Entry>, issued: set<Write>)
    requires IssuedInv(nodes, issued) && NodeInv(n, issued) && Entries(entries) && SeenOf(entries) <= issued &&
             entries != []
    ensures NodeInv(Receive(n, entries), issued)
    ensures var m := Receive(n, entries); m.state.Some? && m.log == [Entry(m.state.value, m.seen)]
  {
    hide Holds, SeenOf, Compact, ApplyAll;
    var all := n.log + entries;
    SeenJoin(n.log, entries);
    UniqueWithin(n.seen + SeenOf(entries), issued);
    ApplyAllHolds(n.state, n.seen, entries);
    CompactHolds(all);
    var e := Compact(all)[0];
    assert e in Compact(all) && EntryInv(e);
    HoldsAlone(ApplyAll(n.state, entries).value, e.state, n.seen + SeenOf(entries));
    assert e == Entry(ApplyAll(n.state, entries).value, n.seen + SeenOf(entries));
    forall w | w in SeenOf(entries) ensures w.version.timestamp <= Observe(n.clock, entries) {
      SeenStamped(entries, w);
    }
  }

  lemma SeenStamped(entries: seq<Entry>, w: Write)
    requires Entries(entries) && w in SeenOf(entries)
    ensures exists e :: e in entries && w.version.timestamp <= IdOf(e.state).timestamp
  {
    hide Holds;
    var e :| e in entries && w in e.seen;
    assert EntryInv(e);
    IdIsNewest(e.state, e.seen, w);
  }

  lemma {:induction false} NewestIdIsOne(entries: seq<Entry>)
    requires Entries(entries) && entries != []
    ensures NewestId(entries).Some? && Has(SeenOf(entries), NewestId(entries).value)
  {
    hide Holds, Has, SeenOf;
    var n := |entries| - 1;
    var e := entries[n];
    assert EntryInv(e);
    IdIsOneHere(e);
    SeenLast(entries);
    HasMore(e.seen, SeenOf(entries), IdOf(e.state));
    if n > 0 {
      NewestIdIsOne(entries[..n]);
      HasMore(SeenOf(entries[..n]), SeenOf(entries), NewestId(entries[..n]).value);
    }
  }

  lemma IdIsOneHere(e: Entry)
    requires EntryInv(e)
    ensures Has(e.seen, IdOf(e.state))
  {
    hide Holds;
    IdIsOne(e.state, e.seen);
  }

  lemma DeliverKeeps(sys: System, b: Message)
    requires Inv(sys) && Enabled(sys, DoReceive(b))
    ensures Inv(Next(sys, DoReceive(b)))
  {
    hide NodeInv, AcksInv, IssuedInv, Has, Receive, NewestId, SeenOf, Entries;
    assert MessageInv(sys.nodes, sys.issued, b);
    var n := sys.nodes[b.to];
    var m := Receive(n, b.entries);
    ReceiveNode(sys.nodes, n, b.entries, sys.issued);
    ReceiveFrame(n, b.entries);
    SameAcks(sys.nodes, n, m);
    LaterClock(sys.nodes, b.to, m, sys.issued);
    ReplacedKeeps(sys, b.to, m, sys.issued);
    NewestIdIsOne(b.entries);
    HasMore(SeenOf(b.entries), m.seen, NewestId(b.entries).value);
  }

  lemma ReceiveFrame(n: Node, entries: seq<Entry>)
    requires entries != []
    ensures var m := Receive(n, entries);
            m.acked == n.acked && m.round == n.round && m.clock >= n.clock && m.seen == n.seen + SeenOf(entries)
  {
  }

  lemma AckKeeps(sys: System, a: Message)
    requires Inv(sys) && Enabled(sys, DoAck(a))
    ensures Inv(Next(sys, DoAck(a)))
  {
    hide NodeInv, IssuedInv, Has;
    assert MessageInv(sys.nodes, sys.issued, a);
    var n := sys.nodes[a.to];
    var m := n.(acked := n.acked[a.sender := Newest(AckedBy(n, a.sender), Some(a.version)).value]);
    assert AcksInv(sys.nodes, n);
    SameNode(n, m, sys.issued);
    LaterClock(sys.nodes, a.to, m, sys.issued);
    ReplacedKeeps(sys, a.to, m, sys.issued);
  }

  lemma SameNode(a: Node, b: Node, issued: set<Write>)
    requires NodeInv(a, issued) && a.state == b.state && a.log == b.log && a.round == b.round && a.seen == b.seen &&
             a.clock <= b.clock
    ensures NodeInv(b, issued)
  {
  }

  lemma ReopenKeeps(sys: System, r: nat, peer: nat)
    requires Inv(sys) && Enabled(sys, DoReopen(r, peer))
    ensures Inv(Next(sys, DoReopen(r, peer)))
  {
    hide NodeInv, IssuedInv, Has;
    var n := sys.nodes[r];
    var m := n.(acked := n.acked - {peer});
    assert AcksInv(sys.nodes, n);
    SameNode(n, m, sys.issued);
    LaterClock(sys.nodes, r, m, sys.issued);
    ReplacedKeeps(sys, r, m, sys.issued);
  }

  lemma SendKeeps(sys: System, r: nat, to: nat, entries: seq<Entry>)
    requires Inv(sys) && Enabled(sys, DoSend(r, to, entries))
    ensures Inv(Next(sys, DoSend(r, to, entries)))
  {
    hide AcksInv, IssuedInv, EntryInv, Holds;
    var n := sys.nodes[r];
    assert NodeInv(n, sys.issued);
    assert forall e | e in entries :: e in n.round;
    assert SeenOf(entries) <= SeenOf(n.round);
    assert MessageInv(sys.nodes, sys.issued, Batch(r, to, entries));
  }

  lemma CompactedNode(nodes: seq<Node>, n: Node, issued: set<Write>)
    requires IssuedInv(nodes, issued) && NodeInv(n, issued)
    ensures NodeInv(n.(log := Compact(n.log)), issued)
  {
    hide Holds, SeenOf, Compact;
    UniqueWithin(n.seen, issued);
    CompactHolds(n.log);
  }

  lemma CollectedNode(n: Node, issued: set<Write>)
    requires NodeInv(n, issued)
    ensures NodeInv(n.(round := n.log), issued)
  {
  }

  lemma StepKeeps(sys: System, step: Step)
    requires Inv(sys) && Enabled(sys, step)
    ensures Inv(Next(sys, step)) && |Next(sys, step).nodes| == |sys.nodes|
  {
    hide NodeInv, AcksInv, IssuedInv, MessageInv, Receive, Own, Compact;
    match step
    case DoWrite(w) => WriteKeeps(sys, w);
    case DoTick(r) =>
      SameNode(sys.nodes[r], sys.nodes[r].(clock := sys.nodes[r].clock + 1), sys.issued);
      QuietKeeps(sys, r, sys.nodes[r].(clock := sys.nodes[r].clock + 1));
    case DoCompact(r) =>
      CompactedNode(sys.nodes, sys.nodes[r], sys.issued);
      QuietKeeps(sys, r, sys.nodes[r].(log := Compact(sys.nodes[r].log)));
    case DoCollect(r) =>
      CollectedNode(sys.nodes[r], sys.issued);
      QuietKeeps(sys, r, sys.nodes[r].(round := sys.nodes[r].log));
    case DoSend(r, to, entries) => SendKeeps(sys, r, to, entries);
    case DoReceive(b) => DeliverKeeps(sys, b);
    case DoAck(a) => AckKeeps(sys, a);
    case DoReopen(r, peer) => ReopenKeeps(sys, r, peer);
  }

  // --- every run --------------------------------------------------------------------------------------------

  const NEW := Node(0, None, [], [], map[], {})

  ghost predicate Fresh(sys: System) {
    sys.wire == {} && sys.issued == {} && forall r | 0 <= r < |sys.nodes| :: sys.nodes[r] == NEW
  }

  ghost predicate Follows(a: System, b: System) {
    exists step :: Enabled(a, step) && b == Next(a, step)
  }

  ghost predicate Run(trace: seq<System>) {
    && trace != [] && Fresh(trace[0])
    && forall i | 0 < i < |trace| :: Follows(trace[i - 1], trace[i])
  }

  lemma FreshKeeps(sys: System)
    requires Fresh(sys)
    ensures Inv(sys)
  {
  }

  lemma {:induction false} EveryRunKeeps(trace: seq<System>, i: nat)
    requires Run(trace) && i < |trace|
    ensures Inv(trace[i]) && |trace[i].nodes| == |trace[0].nodes|
  {
    hide Next, Enabled, Inv;
    if i == 0 {
      FreshKeeps(trace[0]);
    } else {
      EveryRunKeeps(trace, i - 1);
      assert Follows(trace[i - 1], trace[i]);
      var step :| Enabled(trace[i - 1], step) && trace[i] == Next(trace[i - 1], step);
      StepKeeps(trace[i - 1], step);
    }
  }

  /** A replica at some time of a run, with what every step keeps of it. */
  lemma AtAnyTime(trace: seq<System>, i: nat, r: nat)
    requires Run(trace) && i < |trace| && r < |trace[i].nodes|
    ensures NodeInv(trace[i].nodes[r], trace[i].issued) && Unique(trace[i].issued) && Inv(trace[i])
  {
    hide Run, NodeInv, AcksInv, MessageInv;
    EveryRunKeeps(trace, i);
  }

  /** Replicas that have the same writes have the same state, whatever way the writes came. */
  lemma SameWritesSameState(trace: seq<System>, i: nat, j: nat, a: nat, b: nat)
    requires Run(trace) && i < |trace| && j < |trace| && a < |trace[i].nodes| && b < |trace[j].nodes|
    requires trace[i].nodes[a].seen == trace[j].nodes[b].seen
    ensures trace[i].nodes[a].state == trace[j].nodes[b].state
  {
    hide Run, Holds, Inv;
    AtAnyTime(trace, i, a);
    AtAnyTime(trace, j, b);
    var m, n := trace[i].nodes[a], trace[j].nodes[b];
    if m.state.Some? {
      HoldsAlone(m.state.value, n.state.value, m.seen);
    }
  }

  /** An insert with no delete after it. */
  ghost predicate Standing(seen: set<Write>, w: Write) {
    w in seen && w.Insert? && forall d | d in seen && d.Remove? :: Older(d.version, w.version)
  }

  /** The value is a standing insert's; its epoch is the latest of theirs, its count the largest in that epoch. */
  ghost predicate IsRead(seen: set<Write>, v: EpochCount) {
    && (exists w :: Standing(seen, w) && w.value == v)
    && (forall w | Standing(seen, w) :: w.value.epoch <= v.epoch)
    && (forall w | Standing(seen, w) && w.value.epoch == v.epoch :: w.value.count <= v.count)
  }

  lemma StandingIff(seen: set<Write>, tomb: Option<Version>, w: Write)
    requires Unique(seen) && IsTomb(seen, tomb) && w in seen && w.Insert?
    ensures Standing(seen, w) <==> After(Point(w.value, w.version), tomb)
  {
    if tomb.Some? && Older(tomb.value, w.version) {
      forall d | d in seen && d.Remove? ensures Older(d.version, w.version) {
      }
    }
  }

  lemma StateReads(s: State, seen: set<Write>)
    requires Holds(s, seen) && Unique(seen)
    ensures s.Live? ==> s.points != [] && IsRead(seen, Largest(s.points))
    ensures s.Tombstone? ==> forall w :: !Standing(seen, w)
  {
    hide Stands, Standing;
    var tomb :| IsTomb(seen, tomb) && Stands(s, PointsOf(seen), tomb);
    StandsCanonical(s, PointsOf(seen), tomb);
    ReadIsLargest(s, PointsOf(seen), tomb);
    forall w | w in seen && w.Insert?
      ensures var p := Point(w.value, w.version); Standing(seen, w) <==> p in PointsOf(seen) && After(p, tomb)
    {
      StandingIff(seen, tomb, w);
    }
    OnlySeenStand(seen);
    if s.Live? {
      var p :| p in PointsOf(seen) && After(p, tomb) && p.value == Largest(s.points);
      assert Standing(seen, RateLimitWrites.Insert(p.value, p.version));
    }
  }

  lemma StandsCanonical(s: State, points: set<Point>, tomb: Option<Version>)
    requires Stands(s, points, tomb)
    ensures s.Live? ==> s.points != []
  {
  }

  lemma OnlySeenStand(seen: set<Write>)
    ensures forall w | Standing(seen, w) :: w in seen && w.Insert?
  {
  }

  /** A replica reads the latest epoch inserted after the newest delete, with the largest count inserted in it, of
      the writes it has; and nothing exactly when no insert stands. */
  lemma ReadsLargest(trace: seq<System>, i: nat, r: nat)
    requires Run(trace) && i < |trace| && r < |trace[i].nodes|
    ensures var n := trace[i].nodes[r];
            if n.state.Some? && n.state.value.Live?
            then n.state.value.points != [] && IsRead(n.seen, Largest(n.state.value.points))
            else forall w :: !Standing(n.seen, w)
  {
    hide Run, Inv, Holds, Standing;
    AtAnyTime(trace, i, r);
    var n := trace[i].nodes[r];
    OnlySeenStand(n.seen);
    if n.state.Some? {
      UniqueWithin(n.seen, trace[i].issued);
      StateReads(n.state.value, n.seen);
    }
  }

  /** What a read gives: the value of a live state. */
  function Read(state: Option<State>): Option<EpochCount> {
    if state.Some? && state.value.Live? && state.value.points != [] then Some(Largest(state.value.points)) else None
  }

  /** After a put a replica reads the put where nothing stood, its epoch is later than what was read, or its count is
      larger in the same epoch; and otherwise what it read before. */
  lemma PutReads(trace: seq<System>, i: nat, r: nat, value: EpochCount)
    requires Run(trace) && i < |trace| && r < |trace[i].nodes|
    ensures var n := trace[i].nodes[r];
            var before := Read(n.state);
            Read(Own(n, RateLimitWrites.Insert(value, Version(n.clock + 1, r))).state) ==
            if || before.None? || before.value.epoch < value.epoch
               || (before.value.epoch == value.epoch && before.value.count < value.count)
            then Some(value)
            else before
  {
    hide Run, Inv, Holds, Own, Apply, SeenOf, Entries, Largest, Standing;
    AtAnyTime(trace, i, r);
    ReadsLargest(trace, i, r);
    var n := trace[i].nodes[r];
    var w := RateLimitWrites.Insert(value, Version(n.clock + 1, r));
    OwnExact(trace[i], w);
    FreshUnique(trace[i], w);
    var after := Own(n, w).state.value;
    StateReads(after, n.seen + {w});
    StandingWith(n.seen, w);
    assert Standing(n.seen + {w}, w);
    var before := Read(n.state);
    var read := if before.None? || !Within(value, before.value) then value else before.value;
    if before.Some? {
      OnlySeenStand(n.seen);
      var x :| Standing(n.seen, x) && x.value == before.value;
      assert Standing(n.seen + {w}, x);
    }
    assert IsRead(n.seen + {w}, read);
    OneRead(n.seen + {w}, read, Largest(after.points));
  }

  lemma OneRead(seen: set<Write>, a: EpochCount, b: EpochCount)
    requires IsRead(seen, a) && IsRead(seen, b)
    ensures a == b
  {
    hide Standing;
    OnlySeenStand(seen);
    var x :| Standing(seen, x) && x.value == a;
    var y :| Standing(seen, y) && y.value == b;
  }

  /** A put later than every delete stands, and the others stand as before. */
  lemma StandingWith(seen: set<Write>, w: Write)
    requires w.Insert? && forall d | d in seen :: Older(d.version, w.version)
    ensures forall x :: Standing(seen + {w}, x) <==> x == w || Standing(seen, x)
  {
  }

  lemma FreshUnique(sys: System, w: Write)
    requires Inv(sys) && Enabled(sys, DoWrite(w))
    ensures var n := sys.nodes[w.version.replica];
            Unique(n.seen + {w}) && forall d | d in n.seen :: Older(d.version, w.version)
  {
    hide AcksInv, MessageInv, Holds, SeenOf, Entries;
    var n := sys.nodes[w.version.replica];
    assert NodeInv(n, sys.issued);
    FreshVersion(sys.nodes, w, n.(clock := n.clock + 1), sys.issued);
    UniqueWithin(n.seen + {w}, sys.issued + {w});
  }

  /** A put of a later epoch than every insert that stands resets the counter: it is all that is kept. */
  lemma LaterEpochResets(trace: seq<System>, i: nat, r: nat, value: EpochCount)
    requires Run(trace) && i < |trace| && r < |trace[i].nodes|
    requires forall w | Standing(trace[i].nodes[r].seen, w) :: w.value.epoch < value.epoch
    ensures var n := trace[i].nodes[r];
            var v := Version(n.clock + 1, r);
            var after := Own(n, RateLimitWrites.Insert(value, v)).state;
            after.Some? && after.value.Live? && after.value.points == [Point(value, v)] && Read(after) == Some(value)
  {
    hide Run, Inv, Holds, Own, Apply, SeenOf, Entries, Standing;
    AtAnyTime(trace, i, r);
    var n := trace[i].nodes[r];
    var w := RateLimitWrites.Insert(value, Version(n.clock + 1, r));
    OwnExact(trace[i], w);
    FreshUnique(trace[i], w);
    StandingWith(n.seen, w);
    LatestAlone(Own(n, w).state.value, n.seen + {w}, w);
  }

  lemma LatestAlone(s: State, seen: set<Write>, w: Write)
    requires Holds(s, seen) && Unique(seen) && Standing(seen, w) && forall d | d in seen :: !Older(w.version, d.version)
    requires forall x | Standing(seen, x) && x != w :: x.value.epoch < w.value.epoch
    ensures s.Live? && s.points == [Point(w.value, w.version)]
  {
    hide Standing;
    var tomb :| IsTomb(seen, tomb) && Stands(s, PointsOf(seen), tomb);
    OnlySeenStand(seen);
    var p := Point(w.value, w.version);
    StandingIff(seen, tomb, w);
    var all := Alive(PointsOf(seen), tomb);
    FrontIs(all, p);
    forall q | q in all && q != p ensures BeatenBy(q, p) {
      var x := RateLimitWrites.Insert(q.value, q.version);
      StandingIff(seen, tomb, x);
    }
    forall q ensures q in Front(all) <==> q == p {
      FrontIs(all, q);
    }
    OnlyPoint(s, p);
  }

  lemma OnlyPoint(s: State, p: Point)
    requires Canonical(s) && Points(s) == {p}
    ensures s.Live? && s.points == [p]
  {
    if s.Live? {
      forall i | 0 <= i < |s.points| ensures s.points[i] == p {
        assert s.points[i] in Points(s);
      }
      assert |s.points| > 1 ==> Older(s.points[0].version, s.points[1].version);
    }
  }

  /** No live point is older than a delete the replica has: a late insert cannot bring it back. */
  lemma NothingResurrects(trace: seq<System>, i: nat, r: nat, v: Version, p: Point)
    requires Run(trace) && i < |trace| && r < |trace[i].nodes| && Remove(v) in trace[i].nodes[r].seen
    requires trace[i].nodes[r].state.Some? && p in Points(trace[i].nodes[r].state.value)
    ensures Older(v, p.version)
  {
    hide Run, Inv;
    AtAnyTime(trace, i, r);
    var n := trace[i].nodes[r];
    var tomb :| IsTomb(n.seen, tomb) && Stands(n.state.value, PointsOf(n.seen), tomb);
    FrontIs(Alive(PointsOf(n.seen), tomb), p);
  }

  /** A delete wins over everything its replica has seen. */
  lemma DeleteEmpties(trace: seq<System>, i: nat, r: nat)
    requires Run(trace) && i < |trace| && r < |trace[i].nodes|
    ensures var n := trace[i].nodes[r];
            var v := Version(n.clock + 1, r);
            Own(n, Remove(v)).state == Some(Tombstone(v))
  {
    hide Run, Inv, Holds, Own;
    AtAnyTime(trace, i, r);
    var n := trace[i].nodes[r];
    var v := Version(n.clock + 1, r);
    OwnExact(trace[i], Remove(v));
    NoneAfter(Own(n, Remove(v)).state.value, n.seen + {Remove(v)}, v);
  }

  /** The point is live, and a read gives no less. */
  ghost predicate Shows(state: Option<State>, p: Point) {
    && state.Some? && state.value.Live? && p in Points(state.value)
    && state.value.points != [] && Within(p.value, Largest(state.value.points))
  }

  /** An insert shows at once, in a state that reads no smaller. */
  lemma PutShows(trace: seq<System>, i: nat, r: nat, value: EpochCount)
    requires Run(trace) && i < |trace| && r < |trace[i].nodes|
    ensures var n := trace[i].nodes[r];
            var v := Version(n.clock + 1, r);
            Shows(Own(n, RateLimitWrites.Insert(value, v)).state, Point(value, v))
  {
    hide Run, Inv, Holds, Own, Apply, SeenOf, Entries, Shows;
    AtAnyTime(trace, i, r);
    var n := trace[i].nodes[r];
    var p := Point(value, Version(n.clock + 1, r));
    var w := RateLimitWrites.Insert(value, p.version);
    OwnExact(trace[i], w);
    assert forall v | v in n.seen :: v.version.timestamp < p.version.timestamp;
    NewestStays(Own(n, w).state.value, n.seen + {w}, p);
    ReadsAtLeast(Own(n, w).state.value, p);
  }

  lemma ReadsAtLeast(s: State, p: Point)
    requires s.Live? && p in Points(s)
    ensures Shows(Some(s), p)
  {
    var top := LargestIs(s.points);
  }
}
