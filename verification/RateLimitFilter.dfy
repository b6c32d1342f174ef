/**
 What the send filter loses for rate-limit keys. It goes by an entry's version, which is that of the newest
 write in it; whether the peer has the rest depends on whose writes the rest are.
 */
module RateLimitFilter {
  import opened Text
  import opened RateLimitShard
  import opened RateLimitWrites
  import opened SendWatermark
  import opened RateLimitMesh
  import opened RateLimitStreams

  ghost predicate Reachable(net: Net) {
    exists trace :: NetRun(trace) && trace[|trace| - 1] == net
  }

  lemma ReachMove(net: Net, move: Move)
    requires Reachable(net) && Can(net, move)
    ensures Reachable(Moved(net, move))
  {
    hide Can, Moved;
    var trace :| NetRun(trace) && trace[|trace| - 1] == net;
    var more := trace + [Moved(net, move)];
    assert Leads(net, Moved(net, move));
    assert forall i | 0 < i < |more| :: Leads(more[i - 1], more[i]);
    assert NetRun(more) && more[|more| - 1] == Moved(net, move);
  }

  lemma ReachKeeps(net: Net)
    requires Reachable(net)
    ensures NetInv(net)
  {
    hide Leads, Start, NetInv;
    var trace :| NetRun(trace) && trace[|trace| - 1] == net;
    EveryNetKeeps(trace, |trace| - 1);
  }

  // --- the writes behind a state -----------------------------------------------------------------------

  /** The writes behind a state, oldest first. */
  function WritesOf(s: State): seq<Write> {
    if s.Tombstone? then [Remove(s.version)]
    else
      (if s.tomb.Some? then [Remove(s.tomb.value)] else []) +
      seq(|s.points|, i requires 0 <= i < |s.points| => RateLimitWrites.Insert(s.points[i].value, s.points[i].version))
  }

  function All(ws: seq<Write>): set<Write> {
    set w | w in ws
  }

  ghost predicate Ascending(ws: seq<Write>) {
    forall i, j | 0 <= i < j < |ws| :: Older(ws[i].version, ws[j].version)
  }

  /** Timestamps a clock gives. */
  ghost predicate Stamped(ws: seq<Write>) {
    forall w | w in ws :: w.version.timestamp > 0
  }

  lemma WritesOfExact(s: State)
    requires Canonical(s)
    ensures var ws := WritesOf(s);
            ws != [] && Ascending(ws) && ws[|ws| - 1].version == IdOf(s) && Holds(s, All(ws))
  {
    hide Front, Canonical, WritesOf;
    WritesOrdered(s);
    WritesPoints(s);
    CanonicalIsFront(s);
    assert Stands(s, PointsOf(All(WritesOf(s))), Tomb(s));
  }

  /** The place of a point's write. */
  lemma WriteAt(s: State, i: nat)
    requires s.Live? && i < |s.points|
    ensures var k := if s.tomb.Some? then 1 else 0;
            && |WritesOf(s)| == |s.points| + k
            && WritesOf(s)[i + k] == RateLimitWrites.Insert(s.points[i].value, s.points[i].version)
            && (k == 1 ==> WritesOf(s)[0] == Remove(s.tomb.value))
  {
  }

  lemma WritesOrdered(s: State)
    requires Canonical(s)
    ensures var ws := WritesOf(s); ws != [] && Ascending(ws) && ws[|ws| - 1].version == IdOf(s)
  {
    var ws := WritesOf(s);
    if s.Live? {
      hide WritesOf;
      var k := if s.tomb.Some? then 1 else 0;
      forall i | 0 <= i < |s.points| ensures |ws| == |s.points| + k && ws[i + k].version == s.points[i].version {
        WriteAt(s, i);
      }
      WriteAt(s, 0);
      forall i, j | 0 <= i < j < |ws| ensures Older(ws[i].version, ws[j].version) {
        assert ws[j].version == s.points[j - k].version;
        if i >= k {
          assert ws[i].version == s.points[i - k].version;
        }
      }
    }
  }

  lemma WritesPoints(s: State)
    requires Canonical(s)
    ensures PointsOf(All(WritesOf(s))) == Points(s) && IsTomb(All(WritesOf(s)), Tomb(s))
  {
    var ws := WritesOf(s);
    if s.Live? {
      hide WritesOf, Canonical;
      var k := if s.tomb.Some? then 1 else 0;
      WriteAt(s, 0);
      forall w | w in ws
        ensures (w.Insert? ==> Point(w.value, w.version) in s.points) && (w.Remove? ==> s.tomb == Some(w.version))
      {
        var j :| 0 <= j < |ws| && ws[j] == w;
        if j >= k {
          WriteAt(s, j - k);
        }
      }
      forall p | p in s.points ensures RateLimitWrites.Insert(p.value, p.version) in ws {
        var i :| 0 <= i < |s.points| && s.points[i] == p;
        WriteAt(s, i);
      }
      assert s.tomb.Some? ==> ws[0] in ws;
      forall p | p in Points(s) ensures p in PointsOf(All(ws)) {
        assert RateLimitWrites.Insert(p.value, p.version) in All(ws);
      }
    }
  }

  /** Every write the state shows is of the replica of its version. */
  predicate OneWriter(s: State) {
    forall w | w in WritesOf(s) :: w.version.replica == IdOf(s).replica
  }

  /** What a state shows is among the writes it stands for. */
  lemma ShownAreSeen(s: State, ws: set<Write>, w: Write)
    requires Holds(s, ws) && w in WritesOf(s)
    ensures w in ws
  {
    var tomb :| IsTomb(ws, tomb) && Stands(s, PointsOf(ws), tomb);
    if w.Insert? {
      var p := Point(w.value, w.version);
      assert p in Points(s);
      FrontIs(Alive(PointsOf(ws), tomb), p);
    }
  }

  lemma ShownNoNewer(s: State, w: Write)
    requires Canonical(s) && w in WritesOf(s)
    ensures w.version == IdOf(s) || Older(w.version, IdOf(s))
  {
    hide WritesOf, Canonical, IdOf;
    WritesOrdered(s);
    var ws := WritesOf(s);
    var i :| 0 <= i < |ws| && ws[i] == w;
    assert i < |ws| - 1 ==> Older(ws[i].version, ws[|ws| - 1].version);
  }

  // --- what is not lost --------------------------------------------------------------------------------

  /** The sender of the stream has the entry to send and leaves it out. */
  ghost predicate LeftOut(net: Net, i: nat, s: State) {
    && i < |net.streams| && net.streams[i].sender < |net.nodes| && net.streams[i].to < |net.nodes|
    && (exists e :: e in net.nodes[net.streams[i].sender].round && e.state == s)
    && !Passes(net.streams[i].acked, IdOf(s))
  }

  /** Merging the entry would change nothing. */
  ghost predicate Holding(n: Node, s: State) {
    n.state.Some? && Apply(n.state, s) == n.state
  }

  lemma RoundEntry(n: Node, issued: set<Write>, e: Entry)
    requires NodeInv(n, issued) && e in n.round
    ensures EntryInv(e) && e.seen <= issued
  {
    hide Holds;
    assert forall w | w in e.seen :: w in SeenOf(n.round);
  }

  /** The peer has the newest write of what is left out. */
  lemma NewestIsKnown(net: Net, i: nat, s: State)
    requires NetInv(net) && LeftOut(net, i, s)
    ensures Has(net.nodes[net.streams[i].to].seen, IdOf(s))
  {
    hide Inv, NodeOrder, Closed, OwnUpTo, Has, Known;
    var t := net.streams[i];
    assert StreamInv(net.nodes, net.issued, t);
    var e :| e in net.nodes[t.sender].round && e.state == s;
  }

  /** A replica that has the newest write of a one-writer entry has all that the entry shows. */
  lemma ShownIsKnown(n: Node, issued: set<Write>, e: Entry, w: Write)
    requires Closed(n.seen, issued) && n.seen <= issued && Unique(issued) && EntryInv(e) && e.seen <= issued
    requires Has(n.seen, IdOf(e.state)) && OneWriter(e.state) && w in WritesOf(e.state)
    ensures w in n.seen
  {
    hide WritesOf, IdOf;
    ShownAreSeen(e.state, e.seen, w);
    ShownNoNewer(e.state, w);
    var x :| x in n.seen && x.version == IdOf(e.state);
  }

  /** An entry of one writer is left out only where the peer holds it. */
  lemma LeftOutIsHeld(net: Net, i: nat, s: State)
    requires Reachable(net) && LeftOut(net, i, s) && OneWriter(s)
    ensures Holding(net.nodes[net.streams[i].to], s)
  {
    hide Reachable, StreamInv, Chain, LogAfter, OwnAll, AcksInv, Closed, Has, Holds, SeenOf, Entries, WritesOf, IdOf,
         Apply;
    ReachKeeps(net);
    NewestIsKnown(net, i, s);
    var sender, p := net.nodes[net.streams[i].sender], net.nodes[net.streams[i].to];
    var e :| e in sender.round && e.state == s;
    RoundEntry(sender, net.issued, e);
    HoldsCanonical(s, e.seen);
    forall w | w in All(WritesOf(s)) ensures w in p.seen {
      ShownIsKnown(p, net.issued, e, w);
    }
    WritesOfExact(s);
    HasAny(p.seen, IdOf(s));
    UniqueWithin(p.seen, net.issued);
    HeldAlready(p.state.value, p.seen, s, All(WritesOf(s)));
  }

  lemma HasAny(ws: set<Write>, v: Version)
    requires Has(ws, v)
    ensures ws != {}
  {
  }

  lemma HoldsCanonical(s: State, ws: set<Write>)
    requires Holds(s, ws)
    ensures Canonical(s)
  {
  }

  // --- runs that lose something ------------------------------------------------------------------------

  /** The writes of one replica. */
  function By(ws: seq<Write>, q: nat): set<Write> {
    set w | w in ws && w.version.replica == q
  }

  ghost predicate Reached(clock: nat, ws: seq<Write>, q: nat) {
    clock == 0 || exists w :: w in ws && w.version.replica == q && w.version.timestamp == clock
  }

  lemma {:induction false} TickTo(net: Net, q: nat, clock: nat) returns (t: Net)
    requires Reachable(net) && q < |net.nodes| && net.nodes[q].clock <= clock
    ensures Reachable(t) && t == net.(nodes := net.nodes[q := net.nodes[q].(clock := clock)])
    decreases clock - net.nodes[q].clock
  {
    hide Reachable;
    if net.nodes[q].clock == clock {
      t := net;
      assert net.nodes[q := net.nodes[q].(clock := clock)] == net.nodes;
    } else {
      ReachMove(net, Local(DoTick(q)));
      var next := Moved(net, Local(DoTick(q)));
      t := TickTo(next, q, clock);
      assert t.nodes == net.nodes[q := net.nodes[q].(clock := clock)];
    }
  }

  /** The writes are made, each by its replica; replica m and the one after it are new. */
  ghost predicate Written(net: Net, ws: seq<Write>, m: nat) {
    && Reachable(net) && |net.nodes| == m + 2 && net.nodes[m] == net.nodes[m + 1] == NEW && net.streams == []
    && forall q | 0 <= q < m :: net.nodes[q].seen == By(ws, q) && Reached(net.nodes[q].clock, ws, q)
  }

  lemma {:induction false} WriteAll(ws: seq<Write>, m: nat) returns (net: Net)
    requires Ascending(ws) && Stamped(ws) && forall w | w in ws :: w.version.replica < m
    ensures Written(net, ws, m)
  {
    hide Reachable;
    if ws == [] {
      net := Net(seq(m + 2, i => NEW), [], {});
      ReachStart(net);
    } else {
      var n := |ws| - 1;
      net := WriteAll(ws[..n], m);
      net := WriteOne(net, ws[..n], ws[n], m);
      assert ws == ws[..n] + [ws[n]];
    }
  }

  lemma ReachStart(net: Net)
    requires Start(net)
    ensures Reachable(net)
  {
    assert NetRun([net]);
  }

  lemma WriteOne(net: Net, ws: seq<Write>, w: Write, m: nat) returns (t: Net)
    requires Written(net, ws, m) && w.version.replica < m && w.version.timestamp > 0
    requires forall x | x in ws :: Older(x.version, w.version)
    ensures Written(t, ws + [w], m)
  {
    hide Reachable, Own, NetInv, Inv, By, Holds, Apply;
    var q := w.version.replica;
    assert Reached(net.nodes[q].clock, ws, q);
    var one := TickTo(net, q, w.version.timestamp - 1);
    ReachKeeps(one);
    MeshKeeps(one);
    OwnExact(Mesh(one), w);
    ReachMove(one, Local(DoWrite(w)));
    t := Moved(one, Local(DoWrite(w)));
    forall k | 0 <= k < m ensures t.nodes[k].seen == By(ws + [w], k) && Reached(t.nodes[k].clock, ws + [w], k) {
      ByLast(ws, w, k);
      if k == q {
        assert w in ws + [w];
      } else {
        ReachedMore(net.nodes[k].clock, ws, w, k);
      }
    }
  }

  lemma MeshKeeps(net: Net)
    requires NetInv(net)
    ensures Inv(Mesh(net))
  {
  }

  lemma ByLast(ws: seq<Write>, w: Write, q: nat)
    ensures By(ws + [w], q) == By(ws, q) + if w.version.replica == q then {w} else {}
  {
  }

  lemma ReachedMore(clock: nat, ws: seq<Write>, w: Write, q: nat)
    requires Reached(clock, ws, q)
    ensures Reached(clock, ws + [w], q)
  {
    if clock != 0 {
      var x :| x in ws && x.version.replica == q && x.version.timestamp == clock;
      assert x in ws + [w];
    }
  }

  /** A replica opens a stream to another and sends it all it has. */
  ghost predicate Told(net: Net, t: Net, q: nat, to: nat) {
    && Reachable(t) && |t.nodes| == |net.nodes| && q < |net.nodes| && to < |net.nodes|
    && NewestId(net.nodes[q].log).Some?
    && t.streams == net.streams + [Stream(q, to, [], {NewestId(net.nodes[q].log).value}, None)]
    && t.nodes[q] == net.nodes[q].(round := net.nodes[q].log)
    && (forall k | 0 <= k < |t.nodes| && k != q && k != to :: t.nodes[k] == net.nodes[k])
    && t.nodes[to].seen == net.nodes[to].seen + net.nodes[q].seen
    && Folded(t.nodes[to])
  }

  /** The log is one entry, which is the state. */
  ghost predicate Folded(n: Node) {
    n.state.Some? && n.log == [Entry(n.state.value, n.seen)] && Holds(n.state.value, n.seen)
  }

  lemma Tell(net: Net, q: nat, to: nat) returns (t: Net)
    requires Reachable(net) && q < |net.nodes| && to < |net.nodes| && q != to && net.nodes[q].seen != {}
    ensures Told(net, t, q, to)
  {
    hide Reachable, Receive, Allowed, NewestId, Holds, NetInv, SeenOf;
    var log, i := net.nodes[q].log, |net.streams|;
    LogIsWhole(net, q);
    ReachMove(net, Local(DoCollect(q)));
    var one := Moved(net, Local(DoCollect(q)));
    ReachMove(one, Open(q, to));
    var two := Moved(one, Open(q, to));
    ReachMove(two, Push(i));
    var three := Moved(two, Push(i));
    assert three.streams[i].line == log && log[..|log|] == log;
    ReachMove(three, Pull(i, |log|));
    t := Moved(three, Pull(i, |log|));
    NewestIdOfOne(log);
    PulledWhole(three, i);
    assert log[|log|..] == [] && t.streams[i] == Stream(q, to, [], {NewestId(log).value}, None);
    assert t.streams == net.streams + [Stream(q, to, [], {NewestId(log).value}, None)];
  }

  lemma LogIsWhole(net: Net, q: nat)
    requires Reachable(net) && q < |net.nodes| && net.nodes[q].seen != {}
    ensures var log := net.nodes[q].log;
            log != [] && SeenOf(log) == net.nodes[q].seen && Allowed(log, None) == log
  {
    hide Reachable, Holds, StreamInv, Closed, OwnUpTo, AcksInv, IssuedInv;
    ReachKeeps(net);
    var n := net.nodes[q];
    assert NodeInv(n, net.issued) && NodeOrder(n, q, net.issued);
    NothingSeen();
    AllAllowed(n.log, None);
  }

  lemma PulledWhole(net: Net, i: nat)
    requires Reachable(net) && i < |net.streams| && net.streams[i].line != [] && net.streams[i].to < |net.nodes|
    ensures var s := net.streams[i];
            var n, m := net.nodes[s.to], Receive(net.nodes[s.to], s.line);
            && m.seen == n.seen + SeenOf(s.line) && m.round == n.round && Folded(m)
  {
    hide Reachable, Receive, Holds, SeenOf, StreamInv, NodeOrder, AcksInv, IssuedInv, Closed;
    ReachKeeps(net);
    var s := net.streams[i];
    assert s.line[..|s.line|] == s.line;
    FrameFits(net, i, |s.line|);
    ReceiveNode(net.nodes, net.nodes[s.to], s.line, net.issued);
    ReceiveFrame(net.nodes[s.to], s.line);
  }

  /** The writes of replicas numbered below n. */
  function Under(ws: seq<Write>, n: nat): set<Write> {
    set w | w in ws && w.version.replica < n
  }

  /** Replicas 0 to n tell replica m what they wrote. */
  lemma {:induction false} TellAll(net: Net, ws: seq<Write>, m: nat, n: nat) returns (t: Net)
    requires Reachable(net) && n <= m < |net.nodes| && Folded(net.nodes[m])
    requires forall q | 0 <= q < n :: net.nodes[q].seen == By(ws, q)
    ensures Reachable(t) && |t.nodes| == |net.nodes| && Folded(t.nodes[m])
    ensures t.nodes[m].seen == net.nodes[m].seen + Under(ws, n)
    ensures forall k | m < k < |t.nodes| :: t.nodes[k] == net.nodes[k]
    ensures forall q | n <= q < m :: t.nodes[q].seen == net.nodes[q].seen
    ensures |net.streams| <= |t.streams| && t.streams[..|net.streams|] == net.streams
    decreases n
  {
    hide Reachable, Folded, By, Under;
    if n == 0 {
      t := net;
      UnderNone(ws);
    } else {
      var one := TellAll(net, ws, m, n - 1);
      UnderNext(ws, n - 1);
      if By(ws, n - 1) == {} {
        t := one;
      } else {
        t := Tell(one, n - 1, m);
      }
    }
  }

  lemma UnderNone(ws: seq<Write>)
    ensures Under(ws, 0) == {}
  {
  }

  lemma UnderNext(ws: seq<Write>, n: nat)
    ensures Under(ws, n + 1) == Under(ws, n) + By(ws, n)
  {
  }

  function Above(ws: seq<Write>): (m: nat)
    ensures forall w | w in ws :: w.version.replica < m
  {
    if ws == [] then 0
    else
      var n := |ws| - 1;
      assert ws == ws[..n] + [ws[n]];
      var m := Above(ws[..n]);
      if m <= ws[n].version.replica then ws[n].version.replica + 1 else m
  }

  /** Of a state's writes, those of the replica of its version travel under its version too. */
  lemma PartId(s: State, part: State)
    requires Canonical(s) && Holds(part, By(WritesOf(s), IdOf(s).replica))
    ensures IdOf(part) == IdOf(s)
  {
    hide Holds, Canonical, WritesOf, IdOf;
    WritesOrdered(s);
    var ws := WritesOf(s);
    var last := ws[|ws| - 1];
    assert last in ws;
    IdIsNewest(part, By(ws, IdOf(s).replica), last);
    IdIsOne(part, By(ws, IdOf(s).replica));
    var x :| x in By(ws, IdOf(s).replica) && x.version == IdOf(part);
    ShownNoNewer(s, x);
  }

  /** The writes of one replica get through first, and what joins them in the log later stays behind: the sender
      has nothing left to send on that stream. */
  lemma OthersLost(s: State) returns (net: Net, i: nat)
    requires Canonical(s) && Stamped(WritesOf(s))
    ensures Reachable(net) && LeftOut(net, i, s)
    ensures var sender, peer := net.nodes[net.streams[i].sender], net.nodes[net.streams[i].to];
            && sender.state == Some(s) && sender.log == sender.round == [Entry(s, All(WritesOf(s)))]
            && peer.seen == By(WritesOf(s), IdOf(s).replica) && Folded(peer)
  {
    hide Reachable, Holds, WritesOf, Canonical, NewestId, By, Under, All;
    WritesOfExact(s);
    var ws, q := WritesOf(s), IdOf(s).replica;
    var m := Above(ws);
    assert ws[|ws| - 1] in ws;
    ByOwn(ws, ws[|ws| - 1]);
    net := WriteAll(ws, m);
    net := Tell(net, q, m);
    assert net.nodes[m].seen == By(ws, q);
    var e := net.nodes[m].log[0];
    PartId(s, e.state);
    NewestOfOne(e);
    i := |net.streams|;
    net := Tell(net, m, m + 1);
    var v := IdOf(s);
    ReachMove(net, Hear(i, v));
    net := Moved(net, Hear(i, v));
    net := TellAll(net, ws, m, m);
    WholeIsUnder(ws, m, q);
    HoldsAlone(net.nodes[m].state.value, s, All(ws));
    ReachMove(net, Local(DoCollect(m)));
    var streams := net.streams;
    net := Moved(net, Local(DoCollect(m)));
    assert net.streams[i] == streams[..i + 1][i];
    assert Entry(s, All(ws)) in net.nodes[m].round;
  }

  lemma ByOwn(ws: seq<Write>, w: Write)
    requires w in ws
    ensures w in By(ws, w.version.replica)
  {
  }

  lemma NewestOfOne(e: Entry)
    ensures NewestId([e]) == Some(IdOf(e.state))
  {
    assert [e][..0] == [];
    assert NewestId([e][..0]) == None;
  }

  lemma WholeIsUnder(ws: seq<Write>, m: nat, q: nat)
    requires forall w | w in ws :: w.version.replica < m
    ensures By(ws, q) + Under(ws, m) == All(ws)
  {
  }

  /** A state of one replica's writes lacks what another replica wrote. */
  lemma OthersNotHeld(s: State, n: Node)
    requires Canonical(s) && !OneWriter(s) && Folded(n) && n.seen == By(WritesOf(s), IdOf(s).replica)
    ensures !Holding(n, s)
  {
    hide WritesOf, Holds, Apply, Canonical, IdOf;
    WritesOfExact(s);
    var ws := WritesOf(s);
    assert ws[|ws| - 1] in By(ws, IdOf(s).replica);
    AscendingUnique(ws);
    assert n.seen + All(ws) == All(ws);
    ApplyHolds(n.state, n.seen, s, All(ws));
    HoldsAlone(Apply(n.state, s).value, s, All(ws));
    if Holding(n, s) {
      var w :| w in ws && w.version.replica != IdOf(s).replica;
      ShownAreSeen(s, n.seen, w);
    }
  }

  lemma AscendingUnique(ws: seq<Write>)
    requires Ascending(ws)
    ensures Unique(All(ws))
  {
    forall v, w | v in All(ws) && w in All(ws) && v.version == w.version ensures v == w {
      var i :| 0 <= i < |ws| && ws[i] == v;
      var j :| 0 <= j < |ws| && ws[j] == w;
    }
  }

  /** In every run, leaving an entry out loses nothing exactly when all it shows was written by one replica. */
  lemma LeftOutSafelyIff(s: State)
    requires Canonical(s) && Stamped(WritesOf(s))
    ensures (forall net, i: nat | Reachable(net) && LeftOut(net, i, s) :: Holding(net.nodes[net.streams[i].to], s)) <==>
            OneWriter(s)
  {
    hide Reachable, Canonical, OneWriter, WritesOf, Apply, Stamped, Folded, By;
    if OneWriter(s) {
      forall net, i: nat | Reachable(net) && LeftOut(net, i, s) ensures Holding(net.nodes[net.streams[i].to], s) {
        LeftOutIsHeld(net, i, s);
      }
    } else {
      var net, i := OthersLost(s);
      OthersNotHeld(s, net.nodes[net.streams[i].to]);
    }
  }

  /** A run at whose end a sender has nothing left to send and reads a larger value than its peer: an older, larger
      insert of another replica joined its entry after the version was acknowledged. */
  lemma OlderLargerLost(v: Version, w: Version, low: EpochCount, high: EpochCount) returns (net: Net, i: nat)
    requires Older(v, w) && v.replica != w.replica && v.timestamp > 0
    requires low.epoch < high.epoch || (low.epoch == high.epoch && low.count < high.count)
    ensures Reachable(net) && i < |net.streams|
    ensures net.streams[i].sender < |net.nodes| && net.streams[i].to < |net.nodes|
    ensures var sender, peer := net.nodes[net.streams[i].sender], net.nodes[net.streams[i].to];
            && Allowed(sender.log, net.streams[i].acked) == []
            && sender.state == Some(Live([Point(high, v), Point(low, w)], None))
            && Largest([Point(high, v), Point(low, w)]) == high
            && peer.state == Some(Live([Point(low, w)], None)) && Largest([Point(low, w)]) == low
  {
    hide Reachable, Largest, Holds;
    var a, b := Point(high, v), Point(low, w);
    var s := Live([a, b], None);
    var x, y := RateLimitWrites.Insert(high, v), RateLimitWrites.Insert(low, w);
    assert WritesOf(s) == [x, y];
    assert Canonical(s);
    net, i := OthersLost(s);
    assert By([x, y], w.replica) == {y};
    WriteHolds(y);
    HoldsAlone(net.nodes[net.streams[i].to].state.value, StateOf(y), {y});
    LargestOfTwo(a, b);
    NoneAllowed(Entry(s, All(WritesOf(s))), net.streams[i].acked);
  }

  lemma NoneAllowed(e: Entry, acked: Option<Version>)
    requires !Passes(acked, IdOf(e.state))
    ensures Allowed([e], acked) == []
  {
    assert [e][1..] == [];
  }

  lemma LargestOfTwo(p: Point, q: Point)
    ensures Largest([q]) == q.value && Largest([p, q]) == if Below(p.value, q.value) then q.value else p.value
  {
    assert [p, q][..1] == [p];
    assert Largest([p]) == p.value;
  }
}
