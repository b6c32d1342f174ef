/**
 What the worker pool keeps. A set or a pair once given out stays in the slot, and the pool as it is, until a call
 evicts it; while it stays, what another call gets is decided by what it asks for and by what is alive.
 */
module PoolReuse {
  import opened Text
  import opened WorkerPool

  // --- the record only grows -----------------------------------------------------------------------------

  lemma {:induction false} StopGrows(p: Pool, ws: seq<Worker>, stuck: set<Worker>)
    ensures p.log <= StopSome(p, ws, stuck).log
  {
    if ws != [] {
      StopGrows(p, ws[..|ws| - 1], stuck);
    }
  }

  lemma StopAllGrows(p: Pool, ws: seq<Worker>, stuck: set<Worker>, cut: Option<nat>)
    ensures p.log <= StopAll(p, ws, stuck, cut).0.log
  {
    StopGrows(p, ws, stuck);
    if cut.Some? && cut.value < |ws| {
      StopGrows(p, ws[..cut.value], stuck);
    }
  }

  lemma {:induction false} SpawnGrows(p: Pool, launch: nat, n: nat)
    ensures var q := Spawn(p, launch, n); p.log <= q.log && q == p.(log := q.log)
  {
    if n > 0 {
      SpawnGrows(p, launch, n - 1);
    }
  }

  lemma GiveUpGrows(p: Pool, launch: nat, n: nat, w: World)
    ensures p.log <= GiveUp(p, launch, n, w).log
  {
    hide StopAll, Launch;
    StopAllGrows(p, Launch(launch, n), w.stuck, w.rollbackCut);
  }

  lemma StartGrows(p: Pool, key: Key, w: World)
    ensures var (q, up) := Start(p, key, w); p.log <= q.log && (up ==> q == p.(next := q.next, log := q.log))
  {
    hide GiveUp, Spawn;
    var begun := Note(p.(next := p.next + 1), Started(p.next, key));
    SpawnGrows(begun, p.next, Reach(w.start, key.count));
    GiveUpGrows(Spawn(begun, p.next, Reach(w.start, key.count)), p.next, Reach(w.start, key.count), w);
  }

  lemma AbortGrows(p: Pool, launch: nat, count: nat, config: string, w: World)
    ensures p.log <= Abort(p, launch, count, config, w).log
  {
    hide GiveUp;
    var up := Note(p, GatewayUp(launch, config));
    GiveUpGrows(p, launch, count, w);
    GiveUpGrows(Note(up, ShutDown(launch, w.abortFails)), launch, count, w);
  }

  /** An eviction begins with the gateway, where there is one. */
  lemma EvictGrows(p: Pool, w: World)
    ensures var q := Evict(p, w).0;
            p.log <= q.log && (p.gateway.Some? ==> p.log + [ShutDown(p.gateway.value, w.shutdownFails)] <= q.log)
  {
    hide StopAll;
    var r := if p.gateway.Some? then Note(p, ShutDown(p.gateway.value, w.shutdownFails)) else p;
    StopAllGrows(r, p.workers, w.stuck, w.evictCut);
  }

  // --- a pair stays until it is evicted ----------------------------------------------------------------------

  /** The slot holds a pair, and none of its workers was stopped. */
  ghost predicate HasPair(p: Pool, key: Key, config: string, gateway: nat) {
    && !p.closed && p.key == Some(key) && p.config == Some(config) && p.gateway == Some(gateway)
    && p.workers == Launch(gateway, key.count) && forall x | x in p.workers :: x !in p.gone
  }

  /** A shutdown of the gateway is the first that happened between. */
  ghost predicate Evicted(p: Pool, q: Pool, gateway: nat) {
    p.log + [GatewayDown(gateway)] <= q.log || p.log + [ShutdownRaised(gateway)] <= q.log
  }

  lemma EvictEvicts(p: Pool, w: World)
    requires p.gateway.Some?
    ensures Evicted(p, Evict(p, w).0, p.gateway.value)
  {
    hide Evict;
    EvictGrows(p, w);
  }

  lemma EvictedStays(p: Pool, q: Pool, r: Pool, gateway: nat)
    requires Evicted(p, q, gateway) && q.log <= r.log
    ensures Evicted(p, r, gateway)
  {
  }

  /** A call leaves the pair alone and the pool as it is, or evicts the pair. */
  lemma StepKeepsPair(p: Pool, op: Op, key: Key, config: string, gateway: nat)
    requires HasPair(p, key, config, gateway)
    ensures var q := Step(p, op).0; q == p || Evicted(p, q, gateway)
  {
    hide Evict, Start, Abort, Launch, Alive, Evicted;
    EvictEvicts(p, op.world);
    var q := Evict(p, op.world).0;
    match op
    case OpAcquire(k, own, w) =>
      StartGrows(q, k, w);
      LaterStays(p, q, Start(q, k, w).0, gateway);
    case OpAcquireZmq(asked, c, w) =>
      StartGrows(q, PairKey(asked), w);
      LaterStays(p, q, Start(q, PairKey(asked), w).0, gateway);
      AbortGrows(Start(q, PairKey(asked), w).0, q.next, asked.count, c, w);
      LaterStays(p, q, Abort(Start(q, PairKey(asked), w).0, q.next, asked.count, c, w), gateway);
    case OpDiscard(_, w) =>
    case OpCleanup(w) =>
      EvictedStays(p, q, q.(closed := true), gateway);
  }

  /** What is noted after it does not undo an eviction. */
  lemma LaterStays(p: Pool, q: Pool, r: Pool, gateway: nat)
    requires Evicted(p, q, gateway) && q.log <= r.log
    ensures forall s: Pool | r.log <= s.log :: Evicted(p, s, gateway)
  {
  }

  /** A pair that was given out is in the slot. */
  lemma GivenIsHeld(ops: seq<Op>, asked: Key, config: string, w: World)
    requires AcquireZmq(Run(ops), asked, config, w).1.Paired?
    ensures var (q, r) := AcquireZmq(Run(ops), asked, config, w); HasPair(q, PairKey(asked), config, r.gateway)
  {
    hide Run, Core, Accounted, Settled, Launch, Evict, Start, Abort;
    EveryRunKeeps(ops);
    var p, key := Run(ops), PairKey(asked);
    if !Matches(p, key, config, w) || !w.health.Answers? {
      var q := Evict(p, w).0;
      EvictKeeps(p, w);
      StartGrows(q, key, w);
      NewNotGone(q);
      LaunchIs(q.next, key.count);
    }
  }

  lemma LaunchIs(id: nat, count: nat)
    ensures forall x | x in Launch(id, count) :: x.launch == id
  {
  }

  lemma RunMore(ops: seq<Op>, op: Op)
    ensures Run(ops + [op]) == Step(Run(ops), op).0
  {
    assert (ops + [op])[..|ops|] == ops;
  }

  lemma {:induction false} PairStays(ops: seq<Op>, more: seq<Op>, key: Key, config: string, gateway: nat)
    requires HasPair(Run(ops), key, config, gateway)
    ensures Run(ops + more) == Run(ops) || Evicted(Run(ops), Run(ops + more), gateway)
  {
    hide Run, Step, HasPair, Evicted;
    if more == [] {
      assert ops + more == ops;
    } else {
      var front, op := more[..|more| - 1], more[|more| - 1];
      PairStays(ops, front, key, config, gateway);
      assert ops + more == (ops + front) + [op];
      RunMore(ops + front, op);
      if Run(ops + front) == Run(ops) {
        StepKeepsPair(Run(ops), op, key, config, gateway);
      } else {
        StepGrows(Run(ops + front), op);
        EvictedStays(Run(ops), Run(ops + front), Run(ops + more), gateway);
      }
    }
  }

  lemma StepGrows(p: Pool, op: Op)
    ensures p.log <= Step(p, op).0.log
  {
    hide Evict, Start, Abort, Launch, Alive;
    EvictGrows(p, op.world);
    var q := Evict(p, op.world).0;
    match op
    case OpAcquire(k, own, w) =>
      StartGrows(q, k, w);
      StartGrows(p, k, w);
    case OpAcquireZmq(asked, c, w) =>
      StartGrows(q, PairKey(asked), w);
      AbortGrows(Start(q, PairKey(asked), w).0, q.next, asked.count, c, w);
    case OpDiscard(_, w) =>
    case OpCleanup(w) =>
  }

  /** The answer to a call for a pair while the slot holds one: the pair itself, with the pool as it was, for the same
      key and configuration with every worker alive and a gateway that runs and answers; an error, with the pool as it
      was, where asking it breaks; and in every other case the pair is evicted. */
  ghost predicate Answered(p: Pool, q: Pool, r: Outcome, same: bool, alive: bool, w: World, gateway: nat) {
    if same && alive && w.running && w.health.Answers? then q == p && r == Paired(gateway)
    else if same && alive && w.running && w.health.Breaks? then q == p && r == Raised
    else Evicted(p, q, gateway) && r != Paired(gateway)
  }

  lemma PairAnswers(p: Pool, key: Key, config: string, gateway: nat, again: Key, wanted: string, w: World)
    requires Inv(p) && HasPair(p, key, config, gateway)
    ensures var (q, r) := AcquireZmq(p, again, wanted, w);
            Answered(p, q, r, PairKey(again) == key && wanted == config,
                     forall x | x in Launch(gateway, key.count) :: x !in w.dead, w, gateway)
  {
    hide Evict, Start, Abort, Core, Accounted, Evicted;
    LaunchSize(gateway, key.count);
    if !Matches(p, PairKey(again), wanted, w) || w.health.TimesOut? {
      var q := Evict(p, w).0;
      EvictEvicts(p, w);
      EvictKeeps(p, w);
      var started := Start(q, PairKey(again), w).0;
      StartGrows(q, PairKey(again), w);
      LaterStays(p, q, started, gateway);
      AbortGrows(started, q.next, again.count, wanted, w);
      LaterStays(p, q, Abort(started, q.next, again.count, wanted, w), gateway);
    }
  }

  lemma LaunchSize(id: nat, count: nat)
    ensures |Launch(id, count)| == count
  {
  }

  /** Over every run, once a pair was given out and no shutdown of its gateway was noted since, the pool is as it was
      then, and another call is answered by what it asks for and what is alive. */
  lemma PairIsReused(ops: seq<Op>, asked: Key, config: string, before: World, more: seq<Op>,
                     again: Key, wanted: string, w: World)
    requires AcquireZmq(Run(ops), asked, config, before).1.Paired?
    requires var (p, r) := AcquireZmq(Run(ops), asked, config, before);
             !Evicted(p, Run(ops + [OpAcquireZmq(asked, config, before)] + more), r.gateway)
    ensures var (p, r) := AcquireZmq(Run(ops), asked, config, before);
            var now := Run(ops + [OpAcquireZmq(asked, config, before)] + more);
            && now == p
            && Answered(now, AcquireZmq(now, again, wanted, w).0, AcquireZmq(now, again, wanted, w).1,
                        PairKey(again) == PairKey(asked) && wanted == config,
                        forall x | x in Launch(r.gateway, asked.count) :: x !in w.dead, w, r.gateway)
  {
    hide Run, AcquireZmq, HasPair, Evicted, Inv, Answered, Launch;
    var op := OpAcquireZmq(asked, config, before);
    RunMore(ops, op);
    GivenIsHeld(ops, asked, config, before);
    var g := AcquireZmq(Run(ops), asked, config, before).1.gateway;
    PairStays(ops + [op], more, PairKey(asked), config, g);
    EveryRunKeeps(ops + [op]);
    PairAnswers(Run(ops + [op]), PairKey(asked), config, g, again, wanted, w);
  }

  // --- and so does a set --------------------------------------------------------------------------------------

  /** The slot holds a set without a gateway, and none of it was stopped. */
  ghost predicate HasSet(p: Pool, key: Key, workers: seq<Worker>) {
    && !p.closed && p.key == Some(key) && p.gateway.None? && p.workers == workers && !Uncached(key)
    && forall x | x in workers :: x !in p.gone
  }

  /** The answer to a call for a set: workers with settings of their own are never cached and so refused; the set
      itself, with the pool as it was, for the same key with every worker alive; and otherwise never that set. */
  lemma SetAnswers(p: Pool, key: Key, workers: seq<Worker>, again: Key, own: bool, w: World)
    requires Inv(p) && HasSet(p, key, workers)
    ensures var (q, r) := Acquire(p, again, own, w);
            if !Uncached(again) && own then q == p && r == Raised
            else if again == key && forall x | x in workers :: x !in w.dead then q == p && r == Given(workers)
            else r == Given(workers) ==> workers == []
  {
    hide Start, Core, Accounted, Evict, Launch;
    if again != key || !Alive(p, w) {
      EvictKeeps(p, w);
      LaunchIs(Evict(p, w).0.next, again.count);
      LaunchIs(p.held, key.count);
      if workers != [] {
        assert workers[0] in workers;
      }
    }
  }

  /** Over every run, a set given out for a cached key is held, and the next call for the same key gets it back with
      the pool as it is while its workers are alive. */
  lemma SetIsReused(ops: seq<Op>, key: Key, own: bool, before: World, w: World)
    requires !Uncached(key) && Acquire(Run(ops), key, own, before).1.Given?
    ensures var (p, r) := Acquire(Run(ops), key, own, before);
            && HasSet(p, key, r.workers)
            && ((forall x | x in r.workers :: x !in w.dead) ==> Acquire(p, key, false, w) == (p, r))
  {
    hide Run, Core, Accounted, Settled, Launch, Evict, Start;
    EveryRunKeeps(ops);
    var p := Run(ops);
    if p.key != Some(key) || !Alive(p, before) {
      var q := if p.key.Some? then Evict(p, before).0 else p;
      EvictKeeps(p, before);
      StartGrows(q, key, before);
      NewNotGone(q);
      LaunchIs(q.next, key.count);
    }
  }

  // --- what a call starts, and how it ends ---------------------------------------------------------------------

  /** Nothing was spawned between. */
  ghost predicate NoSpawn(p: Pool, q: Pool) {
    p.log <= q.log && forall x | Spawned(x) in q.log :: Spawned(x) in p.log
  }

  lemma {:induction false} StopSpawnsNone(p: Pool, ws: seq<Worker>, stuck: set<Worker>)
    ensures NoSpawn(p, StopSome(p, ws, stuck))
  {
    if ws != [] {
      StopSpawnsNone(p, ws[..|ws| - 1], stuck);
    }
  }

  lemma StopAllSpawnsNone(p: Pool, ws: seq<Worker>, stuck: set<Worker>, cut: Option<nat>)
    ensures NoSpawn(p, StopAll(p, ws, stuck, cut).0)
  {
    StopSpawnsNone(p, ws, stuck);
    if cut.Some? && cut.value < |ws| {
      StopSpawnsNone(p, ws[..cut.value], stuck);
    }
  }

  lemma GiveUpSpawnsNone(p: Pool, launch: nat, n: nat, w: World)
    ensures NoSpawn(p, GiveUp(p, launch, n, w))
  {
    hide StopAll, Launch;
    StopAllSpawnsNone(p, Launch(launch, n), w.stuck, w.rollbackCut);
  }

  lemma {:induction false} SpawnIsExact(p: Pool, launch: nat, n: nat)
    ensures forall x ::
              Spawned(x) in Spawn(p, launch, n).log <==> Spawned(x) in p.log || (x.launch == launch && x.index < n)
  {
    if n > 0 {
      SpawnIsExact(p, launch, n - 1);
    }
  }

  /** A start spawns exactly the workers asked for, or as many of them as it got to before it ended. */
  lemma StartIsExact(p: Pool, key: Key, w: World, x: Worker)
    ensures Spawned(x) in Start(p, key, w).0.log <==>
              || Spawned(x) in p.log
              || (x.launch == p.next && x.index < key.count && (w.start.Up? || x.index < w.start.spawned))
  {
    hide GiveUp, Spawn;
    var begun, n := Note(p.(next := p.next + 1), Started(p.next, key)), Reach(w.start, key.count);
    SpawnIsExact(begun, p.next, n);
    GiveUpSpawnsNone(Spawn(begun, p.next, n), p.next, n, w);
    SpawnGrows(begun, p.next, n);
  }

  /** An eviction raises exactly when the gateway's shutdown did, or the stop was cut off; it keeps the slot in the
      second case alone, and empties it otherwise. */
  lemma EvictIff(p: Pool, w: World)
    ensures var (q, raised) := Evict(p, w);
            var cut := w.evictCut.Some? && w.evictCut.value < |p.workers|;
            && (raised <==> (p.gateway.Some? && w.shutdownFails) || cut)
            && (if cut then q.key == p.key && q.workers == p.workers && q.gateway == p.gateway
                else q.key.None? && q.workers == [] && q.gateway.None?)
  {
    hide StopSome;
    StopKeepsSlot(p, w);
  }

  lemma StopKeepsSlot(p: Pool, w: World)
    ensures forall r: Pool, n: nat | n <= |p.workers| :: SameSlot(r, StopSome(r, p.workers[..n], w.stuck))
    ensures forall r: Pool :: SameSlot(r, StopSome(r, p.workers, w.stuck))
  {
    hide StopSome, SameSlot;
    forall r: Pool, n: nat | n <= |p.workers| ensures SameSlot(r, StopSome(r, p.workers[..n], w.stuck)) {
      StopSlot(r, p.workers[..n], w.stuck);
    }
    forall r: Pool ensures SameSlot(r, StopSome(r, p.workers, w.stuck)) {
      StopSlot(r, p.workers, w.stuck);
    }
  }

  ghost predicate SameSlot(p: Pool, q: Pool) {
    q.key == p.key && q.workers == p.workers && q.gateway == p.gateway && q.config == p.config && q.closed == p.closed
  }

  lemma {:induction false} StopSlot(p: Pool, ws: seq<Worker>, stuck: set<Worker>)
    ensures SameSlot(p, StopSome(p, ws, stuck))
  {
    if ws != [] {
      StopSlot(p, ws[..|ws| - 1], stuck);
    }
  }

  /** A discard of another gateway does nothing; one of the gateway held evicts the pair, and raises exactly when that
      does. A cleanup closes the pool exactly when its eviction does not raise. */
  lemma EndsExact(p: Pool, gateway: nat, w: World)
    requires !p.closed
    ensures var bad := (p.gateway.Some? && w.shutdownFails) || (w.evictCut.Some? && w.evictCut.value < |p.workers|);
            var (q, r) := DiscardZmq(p, gateway, w);
            var (c, s) := Cleanup(p, w);
            && (if p.gateway != Some(gateway) then q == p && r == Done
                else Evicted(p, q, gateway) && r == (if bad then Raised else Done) && (!bad ==> q.key.None?))
            && s == (if bad then Raised else Done) && (c.closed <==> !bad) && (!bad ==> c.key.None? && c.workers == [])
  {
    hide Evict, Evicted;
    EvictIff(p, w);
    if p.gateway.Some? {
      EvictEvicts(p, w);
    }
    EvictOpen(p, w);
  }

  lemma EvictOpen(p: Pool, w: World)
    ensures Evict(p, w).0.closed == p.closed
  {
    hide StopSome;
    StopKeepsSlot(p, w);
  }
}
