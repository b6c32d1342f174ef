/**
 The replicas of a rate-limit key as their streams connect them. A stream carries entries in order, has a
 watermark of its own, and each round is given the entries of the log that the watermark lets through, in log
 order and as far as the channel takes them.
 */
module RateLimitStreams {
  import opened Text
  import opened RateLimitShard
  import opened RateLimitWrites
  import opened SendWatermark
  import opened RateLimitMesh

  /** `line` is what is on its way, `acks` the acknowledgements that went back, `acked` what the sender made of them. */
  datatype Stream = Stream(sender: nat, to: nat, line: seq<Entry>, acks: set<Version>, acked: Option<Version>)

  datatype Net = Net(nodes: seq<Node>, streams: seq<Stream>, issued: set<Write>)

  /** The replicas, as the mesh has them. */
  function Mesh(net: Net): System {
    System(net.nodes, {}, net.issued)
  }

  /** `filter(|op| acked.allows(op))` */
  function Allowed(log: seq<Entry>, acked: Option<Version>): seq<Entry> {
    if log == [] then []
    else (if Passes(acked, IdOf(log[0].state)) then [log[0]] else []) + Allowed(log[1..], acked)
  }

  /** A local step is a write, a tick, a compaction or a collection. A round pushes what the filter lets through; a
      cut is a full channel, or the end of the stream. A pull is a frame. */
  datatype Move =
    | Local(step: Step)
    | Open(sender: nat, to: nat)
    | Push(i: nat)
    | Cut(i: nat, n: nat)
    | Pull(i: nat, n: nat)
    | Hear(i: nat, version: Version)

  ghost predicate Can(net: Net, move: Move) {
    match move
    case Local(step) =>
      Enabled(Mesh(net), step) && (step.DoWrite? || step.DoTick? || step.DoCompact? || step.DoCollect?)
    case Open(sender, to) => sender < |net.nodes| && to < |net.nodes| && sender != to
    case Push(i) => i < |net.streams| && net.streams[i].sender < |net.nodes|
    case Cut(i, n) => i < |net.streams| && n <= |net.streams[i].line|
    case Pull(i, n) => i < |net.streams| && 0 < n <= |net.streams[i].line| && net.streams[i].to < |net.nodes|
    case Hear(i, v) => i < |net.streams| && v in net.streams[i].acks
  }

  ghost function Moved(net: Net, move: Move): Net
    requires Can(net, move)
  {
    match move
    case Local(step) => var sys := Next(Mesh(net), step); net.(nodes := sys.nodes, issued := sys.issued)
    case Open(sender, to) => net.(streams := net.streams + [Stream(sender, to, [], {}, None)])
    case Push(i) =>
      var s := net.streams[i];
      net.(streams := net.streams[i := s.(line := s.line + Allowed(net.nodes[s.sender].round, s.acked))])
    case Cut(i, n) => net.(streams := net.streams[i := net.streams[i].(line := net.streams[i].line[..n])])
    case Pull(i, n) =>
      var s := net.streams[i];
      var id := NewestId(s.line[..n]);
      net.(nodes := net.nodes[s.to := Receive(net.nodes[s.to], s.line[..n])],
           streams := net.streams[i := s.(line := s.line[n..], acks := s.acks + if id.Some? then {id.value} else {})])
    case Hear(i, v) =>
      var s := net.streams[i];
      net.(streams := net.streams[i := s.(acked := Newest(s.acked, Some(v)))])
  }

  // --- what a replica knows of a writer ----------------------------------------------------------------

  /** With a write of a replica comes every earlier one of it. */
  ghost predicate Closed(known: set<Write>, issued: set<Write>) {
    forall x, y | x in known && y in issued && y.version.replica == x.version.replica && Older(y.version, x.version) ::
      y in known
  }

  /** Every write of the replica up to the version. */
  ghost predicate OwnUpTo(known: set<Write>, r: nat, v: Version, issued: set<Write>) {
    forall y | y in issued && y.version.replica == r && !Older(v, y.version) :: y in known
  }

  /** The versions of entries ascend, behind the first one all writes are the replica's own, and no beginning of the
      log has a gap in what it knows of a writer. */
  ghost predicate Chain(log: seq<Entry>, r: nat, issued: set<Write>) {
    && (forall i, j | 0 <= i < j < |log| :: Older(IdOf(log[i].state), IdOf(log[j].state)))
    && (forall i | 1 <= i < |log| :: forall w | w in log[i].seen :: w.version.replica == r)
    && (forall k | 0 <= k <= |log| :: Closed(SeenOf(log[..k]), issued))
    && (forall k | 0 <= k < |log| :: OwnUpTo(SeenOf(log[..k + 1]), r, IdOf(log[k].state), issued))
  }

  /** What was logged after the round was collected is no older than anything in it. */
  ghost predicate LogAfter(n: Node) {
    forall f, e | f in n.log && e in n.round :: f in n.round || !Older(IdOf(f.state), IdOf(e.state))
  }

  ghost predicate OwnAll(n: Node, r: nat, issued: set<Write>) {
    forall y | y in issued && y.version.replica == r :: y in n.seen
  }

  ghost predicate NodeOrder(n: Node, r: nat, issued: set<Write>) {
    && Closed(n.seen, issued) && OwnAll(n, r, issued) && n.acked == map[]
    && Chain(n.log, r, issued) && Chain(n.round, r, issued) && LogAfter(n)
  }

  /** The newest write of every entry the sender has, up to the version, is known. */
  ghost predicate Kept(n: Node, known: set<Write>, v: Version) {
    forall e | (e in n.log || e in n.round) && !Older(v, IdOf(e.state)) :: Has(known, IdOf(e.state))
  }

  /** What an acknowledgement of the version means. */
  ghost predicate Means(known: set<Write>, n: Node, r: nat, v: Version, issued: set<Write>) {
    OwnUpTo(known, r, v, issued) && Kept(n, known, v) && Has(n.seen, v) && Has(known, v)
  }

  /** What the receiver will know once the first entries of the line arrived. */
  ghost function Known(nodes: seq<Node>, s: Stream, k: nat): set<Write>
    requires s.to < |nodes| && k <= |s.line|
  {
    nodes[s.to].seen + SeenOf(s.line[..k])
  }

  ghost predicate StreamInv(nodes: seq<Node>, issued: set<Write>, s: Stream) {
    && s.sender < |nodes| && s.to < |nodes| && s.sender != s.to
    && Entries(s.line) && SeenOf(s.line) <= nodes[s.sender].seen
    && (forall k | 0 <= k <= |s.line| :: Closed(Known(nodes, s, k), issued))
    && (forall k | 0 <= k < |s.line| ::
       Means(Known(nodes, s, k + 1), nodes[s.sender], s.sender, IdOf(s.line[k].state), issued))
    && (forall v | v in s.acks :: Means(nodes[s.to].seen, nodes[s.sender], s.sender, v, issued))
    && (s.acked.Some? ==> Means(nodes[s.to].seen, nodes[s.sender], s.sender, s.acked.value, issued))
  }

  ghost predicate NetInv(net: Net) {
    && Inv(Mesh(net))
    && (forall r | 0 <= r < |net.nodes| :: NodeOrder(net.nodes[r], r, net.issued))
    && (forall i | 0 <= i < |net.streams| :: StreamInv(net.nodes, net.issued, net.streams[i]))
  }

  // --- small facts -----------------------------------------------------------------------------------------

  lemma ClosedJoin(a: set<Write>, b: set<Write>, issued: set<Write>)
    requires Closed(a, issued) && Closed(b, issued)
    ensures Closed(a + b, issued)
  {
  }

  lemma MeansMore(a: set<Write>, b: set<Write>, n: Node, r: nat, v: Version, issued: set<Write>)
    requires Means(a, n, r, v, issued) && a <= b
    ensures Means(b, n, r, v, issued)
  {
  }

  /** The sender's log may be compacted, or collected: an entry then has a version no older than any it has seen. */
  ghost predicate Renewed(a: Node, b: Node) {
    && a.seen <= b.seen
    && forall e | e in b.log || e in b.round ::
         e in a.log || e in a.round || forall x | x in a.seen :: !Older(IdOf(e.state), x.version)
  }

  lemma MeansRenewed(known: set<Write>, a: Node, b: Node, r: nat, v: Version, issued: set<Write>)
    requires Means(known, a, r, v, issued) && Renewed(a, b)
    ensures Means(known, b, r, v, issued)
  {
    forall e | (e in b.log || e in b.round) && !Older(v, IdOf(e.state)) ensures Has(known, IdOf(e.state)) {
      if e !in a.log && e !in a.round {
        var x :| x in a.seen && x.version == v;
        assert IdOf(e.state) == v;
      }
    }
  }

  lemma SeenUpTo(log: seq<Entry>, w: Write, k: nat)
    requires k <= |log| && w in SeenOf(log[..k])
    ensures exists i :: 0 <= i < k && w in log[i].seen
  {
    var e :| e in log[..k] && w in e.seen;
    var i :| 0 <= i < k && log[..k][i] == e;
    assert w in log[i].seen;
  }

  lemma SeenAt(log: seq<Entry>, i: nat, w: Write)
    requires i < |log| && w in log[i].seen
    ensures w in SeenOf(log)
  {
    assert log[i] in log;
  }

  // --- a stream whose ends change ---------------------------------------------------------------------------

  /** The sender's log is renewed, and the receiver learns what is closed with what it knew. */
  lemma EndsChange(before: seq<Node>, after: seq<Node>, issued: set<Write>, s: Stream)
    requires StreamInv(before, issued, s) && |after| == |before| && Renewed(before[s.sender], after[s.sender])
    requires before[s.to].seen <= after[s.to].seen && Closed(after[s.to].seen, issued)
    ensures StreamInv(after, issued, s)
  {
    hide Closed, Means, Renewed, Entries, SeenOf;
    RenewedSeen(before[s.sender], after[s.sender]);
    forall k | 0 <= k <= |s.line| ensures Closed(Known(after, s, k), issued) {
      ClosedJoin(Known(before, s, k), after[s.to].seen, issued);
      assert Known(before, s, k) + after[s.to].seen == Known(after, s, k);
    }
    forall k | 0 <= k < |s.line|
      ensures Means(Known(after, s, k + 1), after[s.sender], s.sender, IdOf(s.line[k].state), issued)
    {
      var v := IdOf(s.line[k].state);
      MeansMore(Known(before, s, k + 1), Known(after, s, k + 1), before[s.sender], s.sender, v, issued);
      MeansRenewed(Known(after, s, k + 1), before[s.sender], after[s.sender], s.sender, v, issued);
    }
    forall v | v in s.acks || s.acked == Some(v) ensures Means(after[s.to].seen, after[s.sender], s.sender, v, issued) {
      MeansMore(before[s.to].seen, after[s.to].seen, before[s.sender], s.sender, v, issued);
      MeansRenewed(after[s.to].seen, before[s.sender], after[s.sender], s.sender, v, issued);
    }
  }

  lemma RenewedSeen(a: Node, b: Node)
    requires Renewed(a, b)
    ensures a.seen <= b.seen
  {
  }

  lemma RenewedItself(n: Node)
    ensures Renewed(n, n)
  {
  }

  // --- a write ---------------------------------------------------------------------------------------------

  lemma ClosedStays(known: set<Write>, issued: set<Write>, w: Write)
    requires Closed(known, issued) && known <= issued
    requires forall x | x in issued && x.version.replica == w.version.replica :: Older(x.version, w.version)
    ensures Closed(known, issued + {w})
  {
  }

  lemma ClosedWith(known: set<Write>, issued: set<Write>, w: Write)
    requires Closed(known, issued) && known <= issued
    requires forall x | x in issued && x.version.replica == w.version.replica ::
             Older(x.version, w.version) && x in known
    ensures Closed(known + {w}, issued + {w})
  {
  }

  /** A new write changes what no acknowledgement means. */
  lemma MeansStays(known: set<Write>, n: Node, r: nat, v: Version, issued: set<Write>, w: Write)
    requires Means(known, n, r, v, issued)
    requires w.version.replica == r ==> forall x | x in n.seen :: Older(x.version, w.version)
    ensures Means(known, n, r, v, issued + {w})
  {
    var x :| x in n.seen && x.version == v;
  }

  lemma ChainStays(log: seq<Entry>, r: nat, issued: set<Write>, w: Write)
    requires Chain(log, r, issued) && SeenOf(log) <= issued && Entries(log)
    requires forall x | x in issued && x.version.replica == w.version.replica :: Older(x.version, w.version)
    requires w.version.replica == r ==> forall x | x in SeenOf(log) :: Older(x.version, w.version)
    ensures Chain(log, r, issued + {w})
  {
    hide Closed, Entries, SeenOf, OwnUpTo;
    forall k | 0 <= k <= |log| ensures Closed(SeenOf(log[..k]), issued + {w}) {
      SeenPrefix(log, k);
      ClosedStays(SeenOf(log[..k]), issued, w);
    }
    forall k | 0 <= k < |log| ensures OwnUpTo(SeenOf(log[..k + 1]), r, IdOf(log[k].state), issued + {w}) {
      OwnStays(log, r, issued, w, k);
    }
  }

  lemma SeenPrefix(log: seq<Entry>, k: nat)
    requires k <= |log|
    ensures SeenOf(log[..k]) <= SeenOf(log)
  {
  }

  lemma OwnStays(log: seq<Entry>, r: nat, issued: set<Write>, w: Write, k: nat)
    requires k < |log| && Entries(log) && OwnUpTo(SeenOf(log[..k + 1]), r, IdOf(log[k].state), issued)
    requires w.version.replica == r ==> forall x | x in SeenOf(log) :: Older(x.version, w.version)
    ensures OwnUpTo(SeenOf(log[..k + 1]), r, IdOf(log[k].state), issued + {w})
  {
    hide Holds;
    assert log[k] in log && EntryInv(log[k]);
    IdIsOne(log[k].state, log[k].seen);
    var x :| x in log[k].seen && x.version == IdOf(log[k].state);
    SeenAt(log, k, x);
  }

  /** A replica's own write goes to the end of its log. */
  lemma ChainGrows(log: seq<Entry>, r: nat, issued: set<Write>, w: Write)
    requires Chain(log, r, issued + {w}) && Entries(log) && SeenOf(log) <= issued && w.version.replica == r
    requires Closed(SeenOf(log) + {w}, issued + {w}) &&
             (forall y | y in issued && y.version.replica == r :: y in SeenOf(log))
    requires forall x | x in SeenOf(log) :: Older(x.version, w.version)
    ensures Chain(log + [Entry(StateOf(w), {w})], r, issued + {w})
  {
    hide Closed, Entries, SeenOf, Holds, StateOf;
    var e := Entry(StateOf(w), {w});
    var all := log + [e];
    StateOfVersion(w);
    SeenJoin(log, [e]);
    SeenOne(e);
    forall k | 0 <= k <= |all| ensures Closed(SeenOf(all[..k]), issued + {w}) {
      if k <= |log| {
        assert all[..k] == log[..k];
      } else {
        assert all[..k] == all;
      }
    }
    forall k | 0 <= k < |all| ensures OwnUpTo(SeenOf(all[..k + 1]), r, IdOf(all[k].state), issued + {w}) {
      if k < |log| {
        assert all[..k + 1] == log[..k + 1];
      } else {
        assert all[..k + 1] == all;
      }
    }
    forall i | 0 <= i < |log| ensures Older(IdOf(log[i].state), w.version) {
      EntryOlder(log, i, w);
    }
  }

  lemma StateOfVersion(w: Write)
    ensures IdOf(StateOf(w)) == w.version
  {
  }

  lemma EntryOlder(log: seq<Entry>, i: nat, w: Write)
    requires i < |log| && Entries(log) && forall x | x in SeenOf(log) :: Older(x.version, w.version)
    ensures Older(IdOf(log[i].state), w.version)
  {
    hide Holds;
    assert log[i] in log && EntryInv(log[i]);
    IdIsOne(log[i].state, log[i].seen);
    var x :| x in log[i].seen && x.version == IdOf(log[i].state);
    SeenAt(log, i, x);
  }

  // --- pushing a round -------------------------------------------------------------------------------------

  ghost predicate Ascends(log: seq<Entry>) {
    forall i, j | 0 <= i < j < |log| :: Older(IdOf(log[i].state), IdOf(log[j].state))
  }

  lemma {:induction false} AllAllowed(log: seq<Entry>, acked: Option<Version>)
    requires forall i | 0 <= i < |log| :: Passes(acked, IdOf(log[i].state))
    ensures Allowed(log, acked) == log
  {
    if log != [] {
      AllAllowed(log[1..], acked);
    }
  }

  /** In ascending order, what the filter lets through is the end of the log. */
  lemma {:induction false} AllowedIsEnd(log: seq<Entry>, acked: Option<Version>) returns (j: nat)
    requires Ascends(log)
    ensures j <= |log| && Allowed(log, acked) == log[j..]
    ensures forall i | 0 <= i < j :: !Passes(acked, IdOf(log[i].state))
  {
    hide IdOf;
    if log == [] {
      j := 0;
    } else if Passes(acked, IdOf(log[0].state)) {
      AllAllowed(log, acked);
      j := 0;
    } else {
      j := AllowedIsEnd(log[1..], acked);
      j := j + 1;
      assert forall i | 1 <= i < j :: log[i] == log[1..][i - 1];
    }
  }

  /** An own write in what is left out was acknowledged. */
  lemma LeftOutKnown(log: seq<Entry>, j: nat, y: Write, base: set<Write>, r: nat, v: Version, issued: set<Write>)
    requires Entries(log) && j <= |log| && OwnUpTo(base, r, v, issued)
    requires forall i | 0 <= i < j :: !Older(v, IdOf(log[i].state))
    requires y in issued && y.version.replica == r && y in SeenOf(log[..j])
    ensures y in base
  {
    hide Holds, SeenOf;
    SeenUpTo(log, y, j);
    var i :| 0 <= i < j && y in log[i].seen;
    assert log[i] in log && EntryInv(log[i]);
    IdIsNewest(log[i].state, log[i].seen, y);
  }

  /** What the watermark stands for, when it leaves something out. */
  ghost predicate Covered(log: seq<Entry>, j: nat, base: set<Write>, n: Node, r: nat, acked: Option<Version>,
                          issued: set<Write>)
  {
    && j <= |log| && (j > 0 ==> acked.Some? && Means(base, n, r, acked.value, issued))
    && forall i | 0 <= i < j :: acked.Some? && !Older(acked.value, IdOf(log[i].state))
  }

  lemma SplitSeen(log: seq<Entry>, j: nat, k: nat)
    requires j <= k <= |log|
    ensures SeenOf(log[..k]) == SeenOf(log[..j]) + SeenOf(log[j..k])
  {
    assert log[..k] == log[..j] + log[j..k];
    SeenJoin(log[..j], log[j..k]);
  }

  lemma TailClosed(n: Node, j: nat, k: nat, base: set<Write>, r: nat, acked: Option<Version>, issued: set<Write>)
    requires Chain(n.round, r, issued) && Entries(n.round) && Closed(base, issued)
    requires Covered(n.round, j, base, n, r, acked, issued) && j <= k <= |n.round|
    ensures Closed(base + SeenOf(n.round[j..k]), issued)
  {
    hide Entries, SeenOf;
    var tail := SeenOf(n.round[j..k]);
    SplitSeen(n.round, j, k);
    assert Closed(SeenOf(n.round[..k]), issued);
    if j == 0 {
      NothingBefore(n.round);
      assert SeenOf(n.round[..k]) == tail;
    } else {
      forall x, y | x in tail && y in issued && y.version.replica == x.version.replica && Older(y.version, x.version)
        ensures y in base + tail
      {
        TailOwn(n.round, j, k, x, r, issued);
        if y !in tail {
          LeftOutKnown(n.round, j, y, base, r, acked.value, issued);
        }
      }
    }
  }

  lemma NothingBefore(log: seq<Entry>)
    ensures SeenOf(log[..0]) == {}
  {
  }

  lemma TailOwn(log: seq<Entry>, j: nat, k: nat, x: Write, r: nat, issued: set<Write>)
    requires Chain(log, r, issued) && 0 < j <= k <= |log| && x in SeenOf(log[j..k])
    ensures x.version.replica == r
  {
    hide Closed, OwnUpTo;
    var e :| e in log[j..k] && x in e.seen;
    var i :| 0 <= i < k - j && log[j..k][i] == e;
    assert log[i + j] == e;
  }

  lemma TailOwnUpTo(n: Node, j: nat, k: nat, base: set<Write>, r: nat, acked: Option<Version>, issued: set<Write>)
    requires Chain(n.round, r, issued) && Entries(n.round) && Covered(n.round, j, base, n, r, acked, issued)
    requires j <= k < |n.round|
    ensures OwnUpTo(base + SeenOf(n.round[j..k + 1]), r, IdOf(n.round[k].state), issued)
  {
    hide Entries, SeenOf, Closed, Kept;
    var v := IdOf(n.round[k].state);
    SplitSeen(n.round, j, k + 1);
    assert OwnUpTo(SeenOf(n.round[..k + 1]), r, v, issued);
    if j == 0 {
      NothingBefore(n.round);
    }
    forall y | y in issued && y.version.replica == r && !Older(v, y.version)
      ensures y in base + SeenOf(n.round[j..k + 1])
    {
      if y !in SeenOf(n.round[j..k + 1]) {
        LeftOutKnown(n.round, j, y, base, r, acked.value, issued);
      }
    }
  }

  lemma TailKept(n: Node, j: nat, k: nat, base: set<Write>, r: nat, acked: Option<Version>, issued: set<Write>)
    requires Ascends(n.round) && Entries(n.round) && Covered(n.round, j, base, n, r, acked, issued) && LogAfter(n)
    requires j <= k < |n.round|
    ensures Kept(n, base + SeenOf(n.round[j..k + 1]), IdOf(n.round[k].state))
  {
    hide OwnUpTo, Holds, SeenOf;
    var v := IdOf(n.round[k].state);
    var known := base + SeenOf(n.round[j..k + 1]);
    forall e | (e in n.log || e in n.round) && !Older(v, IdOf(e.state)) ensures Has(known, IdOf(e.state)) {
      if e in n.round {
        var i :| 0 <= i < |n.round| && n.round[i] == e;
        assert i <= k;
        if i < j {
          HasMore(base, known, IdOf(e.state));
        } else {
          PartHas(n.round, j, k + 1, i, known);
        }
      } else {
        assert n.round[k] in n.round && IdOf(e.state) == v;
        PartHas(n.round, j, k + 1, k, known);
      }
    }
  }

  lemma PartHas(log: seq<Entry>, j: nat, k: nat, i: nat, known: set<Write>)
    requires Entries(log) && j <= i < k <= |log| && SeenOf(log[j..k]) <= known
    ensures Has(known, IdOf(log[i].state))
  {
    hide Holds, SeenOf, Has;
    assert log[i] in log && EntryInv(log[i]);
    IdIsOneHere(log[i]);
    assert log[j..k][i - j] == log[i];
    PartSeen(log[j..k], i - j);
    HasMore(log[i].seen, known, IdOf(log[i].state));
  }

  lemma PartSeen(log: seq<Entry>, i: nat)
    requires i < |log|
    ensures log[i].seen <= SeenOf(log)
  {
    assert log[i] in log;
  }

  lemma TailMeans(n: Node, j: nat, k: nat, base: set<Write>, r: nat, acked: Option<Version>, issued: set<Write>)
    requires NodeOrder(n, r, issued) && NodeInv(n, issued) && Covered(n.round, j, base, n, r, acked, issued)
    requires j <= k < |n.round|
    ensures Means(base + SeenOf(n.round[j..k + 1]), n, r, IdOf(n.round[k].state), issued)
  {
    hide Closed, OwnUpTo, Kept, Has, Holds, SeenOf, Covered, Entries, LogAfter;
    TailOwnUpTo(n, j, k, base, r, acked, issued);
    TailKept(n, j, k, base, r, acked, issued);
    PartHas(n.round, j, k + 1, k, base + SeenOf(n.round[j..k + 1]));
    assert n.round[0..|n.round|] == n.round;
    PartHas(n.round, 0, |n.round|, k, n.seen);
  }

  /** What the line of a stream comes to when more is put behind it. */
  lemma KnownPast(nodes: seq<Node>, s: Stream, more: seq<Entry>, k: nat)
    requires s.to < |nodes| && k <= |s.line + more|
    ensures var t := s.(line := s.line + more);
            && (k <= |s.line| ==> Known(nodes, t, k) == Known(nodes, s, k))
            && (k > |s.line| ==> Known(nodes, t, k) == Known(nodes, s, |s.line|) + SeenOf(more[..k - |s.line|]))
  {
    hide SeenOf;
    var all := s.line + more;
    assert s.line[..|s.line|] == s.line;
    if k <= |s.line| {
      assert all[..k] == s.line[..k];
    } else {
      assert all[..k] == s.line + more[..k - |s.line|];
      SeenJoin(s.line, more[..k - |s.line|]);
    }
  }

  lemma PushedClosed(nodes: seq<Node>, issued: set<Write>, s: Stream, j: nat, k: nat)
    requires StreamInv(nodes, issued, s)
    requires NodeOrder(nodes[s.sender], s.sender, issued) && NodeInv(nodes[s.sender], issued)
    requires j <= |nodes[s.sender].round|
    requires Covered(nodes[s.sender].round, j, Known(nodes, s, |s.line|), nodes[s.sender], s.sender, s.acked, issued)
    requires k <= |s.line + nodes[s.sender].round[j..]|
    ensures Closed(Known(nodes, s.(line := s.line + nodes[s.sender].round[j..]), k), issued)
  {
    hide Closed, Means, Chain, LogAfter, Holds, SeenOf, Known, Covered, Entries, OwnAll;
    var n, m := nodes[s.sender], |s.line|;
    KnownPast(nodes, s, n.round[j..], k);
    if k > m {
      assert n.round[j..][..k - m] == n.round[j..j + (k - m)];
      TailClosed(n, j, j + (k - m), Known(nodes, s, m), s.sender, s.acked, issued);
    }
  }

  lemma PushedMeans(nodes: seq<Node>, issued: set<Write>, s: Stream, j: nat, k: nat)
    requires StreamInv(nodes, issued, s)
    requires NodeOrder(nodes[s.sender], s.sender, issued) && NodeInv(nodes[s.sender], issued)
    requires j <= |nodes[s.sender].round|
    requires Covered(nodes[s.sender].round, j, Known(nodes, s, |s.line|), nodes[s.sender], s.sender, s.acked, issued)
    requires k < |s.line + nodes[s.sender].round[j..]|
    ensures var t := s.(line := s.line + nodes[s.sender].round[j..]);
            Means(Known(nodes, t, k + 1), nodes[s.sender], s.sender, IdOf(t.line[k].state), issued)
  {
    hide Closed, Means, NodeOrder, NodeInv, Holds, SeenOf, Known, Covered, Entries, IdOf;
    var n, m := nodes[s.sender], |s.line|;
    KnownPast(nodes, s, n.round[j..], k + 1);
    if k >= m {
      assert n.round[j..][..k + 1 - m] == n.round[j..j + (k - m) + 1];
      TailMeans(n, j, j + (k - m), Known(nodes, s, m), s.sender, s.acked, issued);
    }
  }

  lemma PushCovered(nodes: seq<Node>, issued: set<Write>, s: Stream) returns (j: nat)
    requires StreamInv(nodes, issued, s) && NodeOrder(nodes[s.sender], s.sender, issued)
    ensures Covered(nodes[s.sender].round, j, Known(nodes, s, |s.line|), nodes[s.sender], s.sender, s.acked, issued)
    ensures j <= |nodes[s.sender].round| && Allowed(nodes[s.sender].round, s.acked) == nodes[s.sender].round[j..]
  {
    hide Closed, Means, Chain, LogAfter, SeenOf, Known, Entries, OwnAll, Allowed;
    var n := nodes[s.sender];
    ChainAscends(n.round, s.sender, issued);
    j := AllowedIsEnd(n.round, s.acked);
    if j > 0 {
      assert !Passes(s.acked, IdOf(n.round[0].state));
      KnownAll(nodes, s);
      MeansMore(nodes[s.to].seen, Known(nodes, s, |s.line|), n, s.sender, s.acked.value, issued);
    }
  }

  lemma PushKeepsStream(nodes: seq<Node>, issued: set<Write>, s: Stream)
    requires StreamInv(nodes, issued, s)
    requires NodeOrder(nodes[s.sender], s.sender, issued) && NodeInv(nodes[s.sender], issued)
    ensures StreamInv(nodes, issued, s.(line := s.line + Allowed(nodes[s.sender].round, s.acked)))
  {
    hide Closed, Means, NodeOrder, NodeInv, SeenOf, Known, Entries, Covered, Allowed;
    var n := nodes[s.sender];
    var j := PushCovered(nodes, issued, s);
    var t := s.(line := s.line + n.round[j..]);
    forall k | 0 <= k <= |t.line| ensures Closed(Known(nodes, t, k), issued) {
      PushedClosed(nodes, issued, s, j, k);
    }
    forall k | 0 <= k < |t.line| ensures Means(Known(nodes, t, k + 1), n, s.sender, IdOf(t.line[k].state), issued) {
      PushedMeans(nodes, issued, s, j, k);
    }
    PushedWithin(n, s.line, j, issued);
  }

  lemma ChainAscends(log: seq<Entry>, r: nat, issued: set<Write>)
    requires Chain(log, r, issued)
    ensures Ascends(log)
  {
  }

  lemma KnownAll(nodes: seq<Node>, s: Stream)
    requires s.to < |nodes|
    ensures nodes[s.to].seen <= Known(nodes, s, |s.line|)
  {
  }

  lemma PushedWithin(n: Node, line: seq<Entry>, j: nat, issued: set<Write>)
    requires Entries(line) && SeenOf(line) <= n.seen && NodeInv(n, issued) && j <= |n.round|
    ensures Entries(line + n.round[j..]) && SeenOf(line + n.round[j..]) <= n.seen
  {
    hide EntryInv, Holds;
    SeenJoin(line, n.round[j..]);
    assert forall e | e in n.round[j..] :: e in n.round;
  }

  // --- a line that is cut, pulled and heard ------------------------------------------------------------------

  lemma CutKeepsStream(nodes: seq<Node>, issued: set<Write>, s: Stream, n: nat)
    requires StreamInv(nodes, issued, s) && n <= |s.line|
    ensures StreamInv(nodes, issued, s.(line := s.line[..n]))
  {
    hide Closed, Means, EntryInv;
    var t := s.(line := s.line[..n]);
    forall k | 0 <= k <= n ensures Known(nodes, t, k) == Known(nodes, s, k) {
      assert s.line[..n][..k] == s.line[..k];
    }
    SeenPrefix(s.line, n);
  }

  lemma HearKeepsStream(nodes: seq<Node>, issued: set<Write>, s: Stream, v: Version)
    requires StreamInv(nodes, issued, s) && v in s.acks
    ensures StreamInv(nodes, issued, s.(acked := Newest(s.acked, Some(v))))
  {
    hide Closed, Means, Entries, SeenOf;
    var t := s.(acked := Newest(s.acked, Some(v)));
    assert forall k | 0 <= k <= |s.line| :: Known(nodes, t, k) == Known(nodes, s, k);
  }

  /** The receiver with the first entries merged. */
  lemma KnownAfter(nodes: seq<Node>, after: seq<Node>, s: Stream, t: Stream, n: nat, k: nat)
    requires s.to == t.to < |nodes| == |after| && n <= |s.line| && t.line == s.line[n..] && k <= |t.line|
    requires after[s.to].seen == nodes[s.to].seen + SeenOf(s.line[..n])
    ensures Known(after, t, k) == Known(nodes, s, n + k)
  {
    hide SeenOf;
    assert s.line[n..][..k] == s.line[n..n + k];
    SplitSeen(s.line, n, n + k);
  }

  /** What a frame acknowledges was said of one of its entries. */
  lemma {:induction false} NewestIdOfOne(entries: seq<Entry>)
    requires entries != []
    ensures NewestId(entries).Some?
    ensures exists i :: 0 <= i < |entries| && IdOf(entries[i].state) == NewestId(entries).value
  {
    var n := |entries| - 1;
    if n > 0 {
      NewestIdOfOne(entries[..n]);
      var i :| 0 <= i < n && IdOf(entries[..n][i].state) == NewestId(entries[..n]).value;
      assert IdOf(entries[i].state) == NewestId(entries[..n]).value;
    }
    assert IdOf(entries[n].state) == IdOf(entries[n].state);
  }

  /** The stream that was pulled, before the receiver's own log is looked at. */
  lemma PullKeepsStream(nodes: seq<Node>, after: seq<Node>, issued: set<Write>, s: Stream, n: nat)
    requires StreamInv(nodes, issued, s) && 0 < n <= |s.line| && |after| == |nodes|
    requires after[s.sender] == nodes[s.sender] && after[s.to].seen == nodes[s.to].seen + SeenOf(s.line[..n])
    ensures NewestId(s.line[..n]).Some?
    ensures StreamInv(after, issued, s.(line := s.line[n..], acks := s.acks + {NewestId(s.line[..n]).value}))
  {
    hide Closed, Means, EntryInv, Known;
    var id := NewestId(s.line[..n]);
    NewestIdOfOne(s.line[..n]);
    var t := s.(line := s.line[n..], acks := s.acks + {id.value});
    forall k | 0 <= k <= |t.line| ensures Known(after, t, k) == Known(nodes, s, n + k) {
      KnownAfter(nodes, after, s, t, n, k);
    }
    KnownNow(after, t);
    forall k | 0 <= k < |t.line|
      ensures Means(Known(after, t, k + 1), after[t.sender], t.sender, IdOf(t.line[k].state), issued)
    {
      assert t.line[k] == s.line[n + k];
    }
    forall v | v in t.acks || t.acked == Some(v) ensures Means(after[t.to].seen, after[t.sender], t.sender, v, issued) {
      PulledMeans(nodes, after, issued, s, n, v);
    }
  }

  lemma KnownNow(nodes: seq<Node>, s: Stream)
    requires s.to < |nodes|
    ensures Known(nodes, s, 0) == nodes[s.to].seen
  {
  }

  lemma PulledMeans(nodes: seq<Node>, after: seq<Node>, issued: set<Write>, s: Stream, n: nat, v: Version)
    requires StreamInv(nodes, issued, s) && 0 < n <= |s.line| && |after| == |nodes|
    requires after[s.sender] == nodes[s.sender] && after[s.to].seen == nodes[s.to].seen + SeenOf(s.line[..n])
    requires v in s.acks || s.acked == Some(v) || NewestId(s.line[..n]) == Some(v)
    ensures Means(after[s.to].seen, after[s.sender], s.sender, v, issued)
  {
    hide Closed, Means, EntryInv, SeenOf;
    var sender := nodes[s.sender];
    if v in s.acks || s.acked == Some(v) {
      MeansMore(nodes[s.to].seen, after[s.to].seen, sender, s.sender, v, issued);
    } else {
      NewestIdOfOne(s.line[..n]);
      var i :| 0 <= i < n && IdOf(s.line[..n][i].state) == v;
      assert s.line[..i + 1] == s.line[..n][..i + 1];
      SeenPrefix(s.line[..n], i + 1);
      MeansMore(Known(nodes, s, i + 1), after[s.to].seen, sender, s.sender, v, issued);
    }
  }

  // --- what every move keeps -----------------------------------------------------------------------------------

  /** A replica whose entries are renewed and that knows as much as before. */
  lemma RenewedKeeps(net: Net, r: nat, n: Node)
    requires NetInv(net) && r < |net.nodes| && n.seen == net.nodes[r].seen && Renewed(net.nodes[r], n)
    requires NodeOrder(n, r, net.issued) && Inv(Mesh(net.(nodes := net.nodes[r := n])))
    ensures NetInv(net.(nodes := net.nodes[r := n]))
  {
    hide Inv, StreamInv, Renewed, Chain, LogAfter, Closed, OwnAll;
    var nodes := net.nodes[r := n];
    forall i | 0 <= i < |net.streams| ensures StreamInv(nodes, net.issued, net.streams[i]) {
      var s := net.streams[i];
      StreamEnds(net.nodes, net.issued, s);
      RenewedItself(net.nodes[s.sender]);
      EndsChange(net.nodes, nodes, net.issued, s);
    }
  }

  lemma StreamEnds(nodes: seq<Node>, issued: set<Write>, s: Stream)
    requires StreamInv(nodes, issued, s)
    ensures s.sender < |nodes| && s.to < |nodes| && s.sender != s.to
  {
  }

  /** A log of one entry, with all the replica knows. */
  lemma OneEntryOrder(n: Node, r: nat, issued: set<Write>)
    requires Closed(n.seen, issued) && OwnAll(n, r, issued) && |n.log| == 1 && n.log[0].seen == n.seen
    ensures Chain(n.log, r, issued)
  {
    hide Closed;
    assert n.log == [n.log[0]] && n.log[..1] == n.log;
    SeenOne(n.log[0]);
    NothingBefore(n.log);
    NothingClosed(issued);
  }

  lemma NothingClosed(issued: set<Write>)
    ensures Closed({}, issued)
  {
  }

  lemma OneEntryAfter(a: Node, n: Node)
    requires |n.log| == 1 && EntryInv(n.log[0]) && n.log[0].seen == n.seen && a.seen <= n.seen && n.round == a.round
    requires Entries(n.round) && SeenOf(n.round) <= n.seen
    ensures Renewed(a, n) && LogAfter(n)
  {
    hide Holds;
    var f := n.log[0];
    forall x | x in n.seen ensures !Older(IdOf(f.state), x.version) {
      IdIsNewest(f.state, f.seen, x);
    }
    forall e | e in n.round ensures !Older(IdOf(f.state), IdOf(e.state)) {
      IdIsOneHere(e);
      var x :| x in e.seen && x.version == IdOf(e.state);
      assert x in SeenOf(n.round);
    }
  }

  lemma CompactKeeps(net: Net, r: nat)
    requires NetInv(net) && r < |net.nodes|
    ensures NetInv(Moved(net, Local(DoCompact(r))))
  {
    hide Closed, OwnAll, Chain, LogAfter, Renewed, StreamInv, AcksInv, IssuedInv, MessageInv, Compact, SeenOf, Entries,
         Holds;
    StepKeeps(Mesh(net), DoCompact(r));
    var a := net.nodes[r];
    var n := a.(log := Compact(a.log));
    CompactOrder(net.nodes, a, r, net.issued);
    RenewedKeeps(net, r, n);
  }

  lemma CompactOrder(nodes: seq<Node>, a: Node, r: nat, issued: set<Write>)
    requires IssuedInv(nodes, issued) && NodeInv(a, issued) && NodeOrder(a, r, issued)
    ensures var n := a.(log := Compact(a.log)); NodeOrder(n, r, issued) && Renewed(a, n)
  {
    hide Closed, OwnAll, Chain, LogAfter, Renewed, FoldStates, SeenOf, Holds;
    var n := a.(log := Compact(a.log));
    if a.log == [] {
      RenewedItself(a);
      assert n == a;
    } else {
      UniqueWithin(a.seen, issued);
      CompactHolds(a.log);
      assert n.log[0] in n.log;
      SameKnown(a, n, r, issued);
      OneEntryOrder(n, r, issued);
      OneEntryAfter(a, n);
    }
  }

  lemma SameKnown(a: Node, b: Node, r: nat, issued: set<Write>)
    requires OwnAll(a, r, issued) && a.seen <= b.seen
    ensures OwnAll(b, r, issued)
  {
  }

  lemma CollectKeeps(net: Net, r: nat)
    requires NetInv(net) && r < |net.nodes|
    ensures NetInv(Moved(net, Local(DoCollect(r))))
  {
    hide Closed, Chain, StreamInv, AcksInv, IssuedInv, MessageInv, NodeInv, SeenOf, Entries;
    StepKeeps(Mesh(net), DoCollect(r));
    RenewedKeeps(net, r, net.nodes[r].(round := net.nodes[r].log));
  }

  lemma TickKeeps(net: Net, r: nat)
    requires NetInv(net) && r < |net.nodes|
    ensures NetInv(Moved(net, Local(DoTick(r))))
  {
    hide Closed, Chain, StreamInv, AcksInv, IssuedInv, MessageInv, NodeInv, SeenOf, Entries;
    StepKeeps(Mesh(net), DoTick(r));
    RenewedKeeps(net, r, net.nodes[r].(clock := net.nodes[r].clock + 1));
  }

  // --- a write, and a frame ------------------------------------------------------------------------------------

  /** The write is its replica's newest. */
  ghost predicate Latest(w: Write, issued: set<Write>) {
    forall x | x in issued && x.version.replica == w.version.replica :: Older(x.version, w.version)
  }

  lemma IssueKeepsStream(nodes: seq<Node>, issued: set<Write>, s: Stream, w: Write)
    requires StreamInv(nodes, issued, s) && Latest(w, issued)
    requires nodes[s.to].seen <= issued && nodes[s.sender].seen <= issued
    requires w.version.replica == s.sender ==> forall x | x in nodes[s.sender].seen :: Older(x.version, w.version)
    ensures StreamInv(nodes, issued + {w}, s)
  {
    hide Closed, Means, EntryInv;
    var more := issued + {w};
    forall k | 0 <= k <= |s.line| ensures Closed(Known(nodes, s, k), more) {
      SeenPrefix(s.line, k);
      ClosedStays(Known(nodes, s, k), issued, w);
    }
    forall k | 0 <= k < |s.line|
      ensures Means(Known(nodes, s, k + 1), nodes[s.sender], s.sender, IdOf(s.line[k].state), more)
    {
      MeansStays(Known(nodes, s, k + 1), nodes[s.sender], s.sender, IdOf(s.line[k].state), issued, w);
    }
    forall v | v in s.acks || s.acked == Some(v) ensures Means(nodes[s.to].seen, nodes[s.sender], s.sender, v, more) {
      MeansStays(nodes[s.to].seen, nodes[s.sender], s.sender, v, issued, w);
    }
  }

  lemma OtherOrder(n: Node, r: nat, issued: set<Write>, w: Write)
    requires NodeOrder(n, r, issued) && NodeInv(n, issued) && Latest(w, issued) && w.version.replica != r
    ensures NodeOrder(n, r, issued + {w})
  {
    hide Closed, Chain, Holds, EntryInv;
    ClosedStays(n.seen, issued, w);
    ChainStays(n.log, r, issued, w);
    ChainStays(n.round, r, issued, w);
  }

  /** The replica after its own write. */
  lemma OwnOrder(n: Node, m: Node, r: nat, issued: set<Write>, w: Write)
    requires NodeOrder(n, r, issued) && NodeInv(n, issued) && Latest(w, issued) && w.version.replica == r
    requires forall x | x in n.seen :: Older(x.version, w.version)
    requires m.log == n.log + [Entry(StateOf(w), {w})] && m.seen == n.seen + {w} && m.round == n.round &&
             m.acked == n.acked
    ensures NodeOrder(m, r, issued + {w}) && Renewed(n, m)
  {
    hide Closed, Chain, Holds, EntryInv;
    ClosedWith(n.seen, issued, w);
    ChainStays(n.log, r, issued, w);
    ChainStays(n.round, r, issued, w);
    ChainGrows(n.log, r, issued, w);
    OwnLater(n, w);
  }

  lemma OwnLater(n: Node, w: Write)
    requires Entries(n.round) && SeenOf(n.round) <= n.seen && forall x | x in n.seen :: Older(x.version, w.version)
    ensures IdOf(StateOf(w)) == w.version && forall e | e in n.round :: Older(IdOf(e.state), w.version)
  {
    hide Entries, SeenOf;
    StateOfVersion(w);
    forall e | e in n.round ensures Older(IdOf(e.state), w.version) {
      var i :| 0 <= i < |n.round| && n.round[i] == e;
      EntryOlder(n.round, i, w);
    }
  }

  /** Stamped with a clock past everything the replica knows. */
  lemma WriteIsLatest(net: Net, w: Write)
    requires NetInv(net) && Enabled(Mesh(net), DoWrite(w))
    ensures Latest(w, net.issued) && forall x | x in net.nodes[w.version.replica].seen :: Older(x.version, w.version)
  {
    hide NodeOrder, StreamInv, AcksInv, MessageInv, Holds, SeenOf, Entries, Unique;
    assert NodeInv(net.nodes[w.version.replica], net.issued);
  }

  lemma WriteMoveKeeps(net: Net, w: Write)
    requires NetInv(net) && Enabled(Mesh(net), DoWrite(w))
    ensures NetInv(Moved(net, Local(DoWrite(w))))
  {
    hide NodeOrder, StreamInv, AcksInv, IssuedInv, MessageInv, NodeInv, Own, Renewed, Latest, Holds, Apply;
    var q, more := w.version.replica, net.issued + {w};
    var n := net.nodes[q];
    var m := Own(n, w);
    StepKeeps(Mesh(net), DoWrite(w));
    WriteIsLatest(net, w);
    OwnExact(Mesh(net), w);
    OwnOrder(n, m, q, net.issued, w);
    var nodes := net.nodes[q := m];
    forall r | 0 <= r < |nodes| ensures NodeOrder(nodes[r], r, more) {
      if r != q {
        OtherOrder(nodes[r], r, net.issued, w);
      }
    }
    forall i | 0 <= i < |net.streams| ensures StreamInv(nodes, more, net.streams[i]) {
      WriteKeepsStream(net, w, m, net.streams[i]);
    }
  }

  lemma WriteKeepsStream(net: Net, w: Write, m: Node, s: Stream)
    requires NetInv(net) && w.version.replica < |net.nodes| && Latest(w, net.issued)
    requires forall x | x in net.nodes[w.version.replica].seen :: Older(x.version, w.version)
    requires Renewed(net.nodes[w.version.replica], m) && NodeOrder(m, w.version.replica, net.issued + {w})
    requires StreamInv(net.nodes, net.issued, s)
    ensures StreamInv(net.nodes[w.version.replica := m], net.issued + {w}, s)
  {
    hide StreamInv, AcksInv, IssuedInv, MessageInv, Renewed, Latest, Holds, Closed, Chain, LogAfter, OwnAll, SeenOf,
         Entries;
    StreamEnds(net.nodes, net.issued, s);
    var nodes := net.nodes[w.version.replica := m];
    RenewedSeen(net.nodes[w.version.replica], m);
    IssueKeepsStream(net.nodes, net.issued, s, w);
    RenewedItself(net.nodes[s.sender]);
    if s.to != w.version.replica {
      OtherOrder(net.nodes[s.to], s.to, net.issued, w);
    }
    EndsChange(net.nodes, nodes, net.issued + {w}, s);
  }

  /** The receiver of a frame. */
  lemma ReceivedOrder(nodes: seq<Node>, n: Node, r: nat, entries: seq<Entry>, issued: set<Write>)
    requires IssuedInv(nodes, issued) && NodeInv(n, issued) && NodeOrder(n, r, issued)
    requires Entries(entries) && SeenOf(entries) <= issued && entries != [] && Closed(n.seen + SeenOf(entries), issued)
    ensures var m := Receive(n, entries);
            NodeOrder(m, r, issued) && NodeInv(m, issued) && Renewed(n, m) && m.seen == n.seen + SeenOf(entries)
  {
    hide Closed, Chain, OwnAll, LogAfter, Renewed, Holds, SeenOf, Receive, IssuedInv;
    var m := Receive(n, entries);
    ReceiveNode(nodes, n, entries, issued);
    ReceiveFrame(n, entries);
    SameKnown(n, m, r, issued);
    OneEntryOrder(m, r, issued);
    assert m.log[0] in m.log;
    OneEntryAfter(n, m);
  }

  /** The frame is from the sender, and closes up with what the receiver knows. */
  lemma FrameFits(net: Net, i: nat, n: nat)
    requires NetInv(net) && Can(net, Pull(i, n))
    ensures var s := net.streams[i];
            && s.to < |net.nodes| && s.sender < |net.nodes| && s.sender != s.to
            && Entries(s.line[..n]) && SeenOf(s.line[..n]) <= net.issued
            && Closed(net.nodes[s.to].seen + SeenOf(s.line[..n]), net.issued)
  {
    hide Closed, Means, NodeOrder, AcksInv, IssuedInv, MessageInv, Holds, EntryInv;
    var s := net.streams[i];
    assert StreamInv(net.nodes, net.issued, s);
    SeenPrefix(s.line, n);
    assert Known(net.nodes, s, n) == net.nodes[s.to].seen + SeenOf(s.line[..n]);
    assert NodeInv(net.nodes[s.sender], net.issued);
  }

  lemma PullMoveKeeps(net: Net, i: nat, n: nat)
    requires NetInv(net) && Can(net, Pull(i, n))
    ensures NetInv(Moved(net, Pull(i, n)))
  {
    hide NodeOrder, StreamInv, AcksInv, IssuedInv, MessageInv, NodeInv, Receive, Renewed, Closed, Entries, SeenOf;
    var s := net.streams[i];
    FrameFits(net, i, n);
    var m := Receive(net.nodes[s.to], s.line[..n]);
    ReceivedOrder(net.nodes, net.nodes[s.to], s.to, s.line[..n], net.issued);
    ReceiveFrame(net.nodes[s.to], s.line[..n]);
    SameAcks(net.nodes, net.nodes[s.to], m);
    LaterClock(net.nodes, s.to, m, net.issued);
    ReplacedKeeps(Mesh(net), s.to, m, net.issued);
    var nodes := net.nodes[s.to := m];
    PullKeepsStream(net.nodes, nodes, net.issued, s, n);
    forall j | 0 <= j < |net.streams| && j != i ensures StreamInv(nodes, net.issued, net.streams[j]) {
      PullKeepsOther(net, s.to, m, net.streams[j]);
    }
  }

  lemma PullKeepsOther(net: Net, r: nat, m: Node, s: Stream)
    requires NetInv(net) && r < |net.nodes| && StreamInv(net.nodes, net.issued, s)
    requires Renewed(net.nodes[r], m) && NodeOrder(m, r, net.issued)
    ensures StreamInv(net.nodes[r := m], net.issued, s)
  {
    hide StreamInv, Inv, Renewed, Closed, Chain, LogAfter, OwnAll;
    StreamEnds(net.nodes, net.issued, s);
    RenewedSeen(net.nodes[r], m);
    RenewedItself(net.nodes[s.sender]);
    EndsChange(net.nodes, net.nodes[r := m], net.issued, s);
  }

  lemma OpenKeeps(net: Net, sender: nat, to: nat)
    requires NetInv(net) && Can(net, Open(sender, to))
    ensures NetInv(Moved(net, Open(sender, to)))
  {
    hide Inv, Closed, Means, Chain, LogAfter, OwnAll;
    var s := Stream(sender, to, [], {}, None);
    KnownNow(net.nodes, s);
    assert NodeOrder(net.nodes[to], to, net.issued);
    assert StreamInv(net.nodes, net.issued, s);
  }

  lemma MoveKeeps(net: Net, move: Move)
    requires NetInv(net) && Can(net, move)
    ensures NetInv(Moved(net, move)) && |Moved(net, move).nodes| == |net.nodes|
  {
    hide NodeOrder, StreamInv, Inv, Receive, Own, Compact, Allowed;
    match move
    case Local(step) =>
      match step {
        case DoWrite(w) => WriteMoveKeeps(net, w);
        case DoTick(r) => TickKeeps(net, r);
        case DoCompact(r) => CompactKeeps(net, r);
        case DoCollect(r) => CollectKeeps(net, r);
        case _ =>
      }
    case Open(sender, to) => OpenKeeps(net, sender, to);
    case Push(i) => PushMoveKeeps(net, i);
    case Cut(i, n) => CutKeepsStream(net.nodes, net.issued, net.streams[i], n);
    case Pull(i, n) => PullMoveKeeps(net, i, n);
    case Hear(i, v) => HearKeepsStream(net.nodes, net.issued, net.streams[i], v);
  }

  lemma PushMoveKeeps(net: Net, i: nat)
    requires NetInv(net) && Can(net, Push(i))
    ensures NetInv(Moved(net, Push(i)))
  {
    hide NodeOrder, StreamInv, NodeInv, AcksInv, IssuedInv, MessageInv, Allowed;
    PushKeepsStream(net.nodes, net.issued, net.streams[i]);
  }

  // --- every run -----------------------------------------------------------------------------------------------

  ghost predicate Start(net: Net) {
    net.streams == [] && net.issued == {} && forall r | 0 <= r < |net.nodes| :: net.nodes[r] == NEW
  }

  ghost predicate Leads(a: Net, b: Net) {
    exists move :: Can(a, move) && b == Moved(a, move)
  }

  ghost predicate NetRun(trace: seq<Net>) {
    && trace != [] && Start(trace[0])
    && forall i | 0 < i < |trace| :: Leads(trace[i - 1], trace[i])
  }

  lemma StartKeeps(net: Net)
    requires Start(net)
    ensures NetInv(net)
  {
    assert Fresh(Mesh(net));
    FreshKeeps(Mesh(net));
    forall r | 0 <= r < |net.nodes| ensures NodeOrder(net.nodes[r], r, net.issued) {
      NothingSeen();
    }
  }

  lemma {:induction false} EveryNetKeeps(trace: seq<Net>, i: nat)
    requires NetRun(trace) && i < |trace|
    ensures NetInv(trace[i]) && |trace[i].nodes| == |trace[0].nodes|
  {
    hide Moved, Can, NetInv;
    if i == 0 {
      StartKeeps(trace[0]);
    } else {
      EveryNetKeeps(trace, i - 1);
      assert Leads(trace[i - 1], trace[i]);
      var move :| Can(trace[i - 1], move) && trace[i] == Moved(trace[i - 1], move);
      MoveKeeps(trace[i - 1], move);
    }
  }

  /** At any time, what a replica has of a writer is all that writer wrote up to some point. */
  lemma KnownInOrder(trace: seq<Net>, i: nat, r: nat, x: Write, y: Write)
    requires NetRun(trace) && i < |trace| && r < |trace[i].nodes|
    requires x in trace[i].nodes[r].seen && y in trace[i].issued
    requires y.version.replica == x.version.replica && Older(y.version, x.version)
    ensures y in trace[i].nodes[r].seen
  {
    hide NetRun, Inv, StreamInv, Chain, LogAfter, OwnAll;
    EveryNetKeeps(trace, i);
  }
}
