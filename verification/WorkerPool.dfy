/**
 The one-slot worker pool of a test session: workers, and for ZMQ the gateway they dial, are kept for
 the next class that asks for exactly the same, and stopped before anything else is started. A stop that
 raises is logged and passed over, and an interrupt can end a start or a stop anywhere.
 */
module WorkerPool {
  import opened Text

  datatype Mode = Http | Grpc | Zmq
  datatype Kind = Regular | Prefill | Decode | Encode

  datatype Key = Key(engine: string, model: string, mode: Mode, kind: Kind, count: nat, gpus: Option<nat>,
                     args: Option<seq<string>>)

  /** One worker of a launched set. */
  datatype Worker = Worker(launch: nat, index: nat)

  /** What happened to launches and gateways, in order. A launch handed out is its caller's to stop. One is lost
      where an interrupt left workers of it that nobody holds. A stop failed when it raised, was interrupted, or
      left processes running. */
  datatype Event =
    | Started(launch: nat, key: Key) | Spawned(worker: Worker) | Stopped(worker: Worker) | StopFailed(worker: Worker)
    | Handed(launch: nat) | Cached(launch: nat) | Lost(launch: nat)
    | GatewayUp(launch: nat, config: string) | GatewayDown(launch: nat) | ShutdownRaised(launch: nat)

  function LaunchOf(e: Event): nat {
    match e
    case Spawned(w) => w.launch
    case Stopped(w) => w.launch
    case StopFailed(w) => w.launch
    case _ => e.launch
  }

  datatype Health = Answers | TimesOut | Breaks

  /** How a start ends: up, in an exception or in an interrupt after so many workers were spawned. */
  datatype StartEnd = Up | Raises(spawned: nat) | Interrupted(spawned: nat)

  /** How a gateway's start ends; it may raise before or after its process is there. */
  datatype GatewayEnd = Serves | NeverSpawned | Dies

  /** How the world behaves during one call. `dead`: workers that died on their own. `stuck`: workers whose stop
      fails. A cut is an interrupt while the worker of that number is being stopped, in the eviction or in giving
      up a start. */
  datatype World = World(dead: set<Worker>, running: bool, health: Health, shutdownFails: bool, stuck: set<Worker>,
                         evictCut: Option<nat>, start: StartEnd, gatewayEnd: GatewayEnd, abortFails: bool,
                         rollbackCut: Option<nat>)

  datatype Outcome = Raised | Given(workers: seq<Worker>) | Paired(gateway: nat) | Done

  /** The pool's fields, the workers whose stop was tried and those that are gone, and the record of what happened. */
  datatype Pool = Pool(key: Option<Key>, workers: seq<Worker>, gateway: Option<nat>, config: Option<string>,
                       closed: bool, held: nat, next: nat, torn: set<Worker>, gone: set<Worker>, log: seq<Event>)

  function Launch(id: nat, count: nat): (r: seq<Worker>)
    ensures |r| == count
    ensures forall w :: w in r <==> w.launch == id && w.index < count
  {
    var r := seq(count, i requires 0 <= i < count => Worker(id, i));
    assert forall w: Worker | w.launch == id && w.index < count :: r[w.index] == w;
    r
  }

  function Min(a: nat, b: nat): nat {
    if a < b then a else b
  }

  // --- starting and stopping ---------------------------------------------------------------------------

  function Note(p: Pool, e: Event): Pool {
    p.(log := p.log + [e])
  }

  /** `Worker.stop`: tried once, whatever comes of it. */
  function StopOne(p: Pool, w: Worker, stuck: set<Worker>): Pool {
    if w in p.torn then p
    else if w in stuck then p.(torn := p.torn + {w}, log := p.log + [StopFailed(w)])
    else p.(torn := p.torn + {w}, gone := p.gone + {w}, log := p.log + [Stopped(w)])
  }

  function StopSome(p: Pool, ws: seq<Worker>, stuck: set<Worker>): Pool {
    if ws == [] then p else StopOne(StopSome(p, ws[..|ws| - 1], stuck), ws[|ws| - 1], stuck)
  }

  /** `stop_workers`; true when it was interrupted. */
  function StopAll(p: Pool, ws: seq<Worker>, stuck: set<Worker>, cut: Option<nat>): (Pool, bool) {
    if cut.Some? && cut.value < |ws|
    then (StopOne(StopSome(p, ws[..cut.value], stuck), ws[cut.value], stuck + {ws[cut.value]}), true)
    else (StopSome(p, ws, stuck), false)
  }

  function Spawn(p: Pool, launch: nat, n: nat): Pool {
    if n == 0 then p else Note(Spawn(p, launch, n - 1), Spawned(Worker(launch, n - 1)))
  }

  /** `stop_workers` on workers nobody else holds. */
  function GiveUp(p: Pool, launch: nat, n: nat, w: World): Pool {
    var (q, cut) := StopAll(p, Launch(launch, n), w.stuck, w.rollbackCut);
    if cut then Note(q, Lost(launch)) else q
  }

  /** `start_workers`: stops what it spawned before it raises; an interrupt is not caught. */
  function Start(p: Pool, key: Key, w: World): (Pool, bool) {
    var launch, n := p.next, Reach(w.start, key.count);
    var q := Spawn(Note(p.(next := launch + 1), Started(launch, key)), launch, n);
    match w.start
    case Up => (q, true)
    case Raises(_) => (GiveUp(q, launch, n, w), false)
    case Interrupted(_) => (Note(q, Lost(launch)), false)
  }

  /** How many workers a start spawned before it ended. */
  function Reach(end: StartEnd, count: nat): nat {
    if end.Up? then count else Min(end.spawned, count)
  }

  // --- the calls -------------------------------------------------------------------------------------

  function ShutDown(gateway: nat, fails: bool): Event {
    if fails then ShutdownRaised(gateway) else GatewayDown(gateway)
  }

  /** `_evict_locked`: the slot is emptied unless the stop itself was interrupted; true when it raises. */
  function Evict(p: Pool, w: World): (Pool, bool) {
    var fails := p.gateway.Some? && w.shutdownFails;
    var r := if p.gateway.Some? then Note(p, ShutDown(p.gateway.value, fails)) else p;
    var (q, cut) := StopAll(r, p.workers, w.stuck, w.evictCut);
    if cut then (q, true) else (q.(key := None, workers := [], gateway := None, config := None), fails)
  }

  function Uncached(key: Key): bool {
    !key.kind.Regular? || key.mode.Zmq?
  }

  /** Every worker in the slot is alive. */
  predicate Alive(p: Pool, w: World) {
    forall x | x in p.workers :: x !in p.gone && x !in w.dead
  }

  /** `acquire`; `own` is a tensor-parallel size, a KV backend or an environment of the workers' own. */
  function Acquire(p: Pool, key: Key, own: bool, w: World): (Pool, Outcome) {
    if p.closed then (p, Raised)
    else if !Uncached(key) && own then (p, Raised)
    else if !Uncached(key) && p.key == Some(key) && Alive(p, w) then (p, Given(p.workers))
    else
      var (q, raised) := if p.key.Some? then Evict(p, w) else (p, false);
      if raised then (q, Raised)
      else
        var (r, up) := Start(q, key, w);
        var workers := Launch(q.next, key.count);
        if !up then (r, Raised)
        else if Uncached(key) then (Note(r, Handed(q.next)), Given(workers))
        else (Note(r.(key := Some(key), workers := workers, held := q.next), Cached(q.next)), Given(workers))
  }

  /** `_zmq_ready` up to the question it puts to the gateway. */
  predicate Matches(p: Pool, key: Key, config: string, w: World) {
    p.key == Some(key) && p.config == Some(config) && p.gateway.Some? && |p.workers| == key.count && Alive(p, w) &&
      w.running
  }

  /** The key of a pair: of the ZMQ mode and the regular kind, whatever else is asked for. */
  function PairKey(asked: Key): Key {
    asked.(mode := Zmq, kind := Regular)
  }

  /** A pair given up: its gateway, if that was spawned, then its workers in any case. */
  function Abort(p: Pool, launch: nat, count: nat, config: string, w: World): Pool {
    var q := if w.gatewayEnd.Dies? then Note(Note(p, GatewayUp(launch, config)), ShutDown(launch, w.abortFails)) else p;
    GiveUp(q, launch, count, w)
  }

  /** `acquire_zmq` */
  function AcquireZmq(p: Pool, asked: Key, config: string, w: World): (Pool, Outcome) {
    var key := PairKey(asked);
    if p.closed then (p, Raised)
    else if Matches(p, key, config, w) && w.health.Answers? then (p, Paired(p.gateway.value))
    else if Matches(p, key, config, w) && w.health.Breaks? then (p, Raised)
    else
      var (q, raised) := Evict(p, w);
      if raised then (q, Raised)
      else
        var (r, up) := Start(q, key, w);
        if !up then (r, Raised)
        else if !w.gatewayEnd.Serves? then (Abort(r, q.next, key.count, config, w), Raised)
        else
          var s := Note(r, GatewayUp(q.next, config));
          (Note(s.(key := Some(key), workers := Launch(q.next, key.count), gateway := Some(q.next),
                   config := Some(config), held := q.next), Cached(q.next)),
           Paired(q.next))
  }

  function DiscardZmq(p: Pool, gateway: nat, w: World): (Pool, Outcome) {
    if p.gateway == Some(gateway) then
      var (q, raised) := Evict(p, w);
      (q, if raised then Raised else Done)
    else (p, Done)
  }

  function Cleanup(p: Pool, w: World): (Pool, Outcome) {
    var (q, raised) := Evict(p, w);
    if raised then (q, Raised) else (q.(closed := true), Done)
  }

  datatype Op =
    | OpAcquire(key: Key, own: bool, world: World)
    | OpAcquireZmq(asked: Key, config: string, world: World)
    | OpDiscard(gateway: nat, world: World)
    | OpCleanup(world: World)

  function Step(p: Pool, op: Op): (Pool, Outcome) {
    match op
    case OpAcquire(key, own, w) => Acquire(p, key, own, w)
    case OpAcquireZmq(key, config, w) => AcquireZmq(p, key, config, w)
    case OpDiscard(gateway, w) => DiscardZmq(p, gateway, w)
    case OpCleanup(w) => Cleanup(p, w)
  }

  const EMPTY := Pool(None, [], None, None, false, 0, 0, {}, {}, [])

  function Run(ops: seq<Op>): Pool {
    if ops == [] then EMPTY else Step(Run(ops[..|ops| - 1]), ops[|ops| - 1]).0
  }

  // --- what every call keeps ---------------------------------------------------------------------------

  /** Its stop was tried, or it is a caller's, or nobody's. */
  ghost predicate Settled(log: seq<Event>, w: Worker) {
    Stopped(w) in log || StopFailed(w) in log || Handed(w.launch) in log || Lost(w.launch) in log
  }

  /** Whenever a set starts, every worker spawned before is settled. */
  ghost predicate Exclusive(log: seq<Event>) {
    forall i, w | 0 <= i < |log| && log[i].Started? && Spawned(w) in log[..i] :: Settled(log[..i], w)
  }

  /** A launch the pool held was neither handed out nor lost. */
  ghost predicate HeldIsKept(log: seq<Event>) {
    forall s: nat | Cached(s) in log :: Handed(s) !in log && Lost(s) !in log
  }

  /** A shutdown of the gateway was tried. */
  ghost predicate Tried(log: seq<Event>, gateway: nat) {
    GatewayDown(gateway) in log || ShutdownRaised(gateway) in log
  }

  /** Whenever a gateway comes up, a shutdown of every earlier one was tried. */
  ghost predicate Traced(log: seq<Event>) {
    forall i, j | 0 <= j < i < |log| && log[i].GatewayUp? && log[j].GatewayUp? :: Tried(log[..i], log[j].launch)
  }

  /** A stop is tried once, and worked or failed. */
  ghost predicate StopsNoted(p: Pool) {
    && (forall w :: w in p.torn <==> Stopped(w) in p.log || StopFailed(w) in p.log)
    && (forall w :: w in p.gone <==> Stopped(w) in p.log)
    && (forall w :: !(Stopped(w) in p.log && StopFailed(w) in p.log))
  }

  ghost predicate Numbered(p: Pool) {
    forall e | e in p.log :: LaunchOf(e) < p.next
  }

  /** What the record says at any time, within a call as between calls. */
  ghost predicate Core(p: Pool) {
    Exclusive(p.log) && HeldIsKept(p.log) && Traced(p.log) && StopsNoted(p) && Numbered(p)
  }

  /** The slot: empty, or a launch with exactly the key, its gateway for a ZMQ key and for no other. */
  ghost predicate Slot(p: Pool) {
    && (p.key.None? ==> p.workers == [] && p.gateway.None? && p.config.None?)
    && (p.closed ==> p.key.None?)
    && (p.key.Some? ==>
          && p.key.value.kind.Regular? && p.held < p.next && p.workers == Launch(p.held, p.key.value.count)
          && Started(p.held, p.key.value) in p.log && Cached(p.held) in p.log && Listed(p.log, p.workers)
          && AllOf(p.log, p.held, p.workers)
          && (p.key.value.mode.Zmq? <==> p.gateway.Some?))
    && (p.gateway.Some? ==> p.gateway == Some(p.held) && p.config.Some? && GatewayUp(p.held, p.config.value) in p.log)
  }

  /** The workers were spawned. */
  ghost predicate Listed(log: seq<Event>, ws: seq<Worker>) {
    forall w | w in ws :: Spawned(w) in log
  }

  /** No other of the launch was. */
  ghost predicate AllOf(log: seq<Event>, launch: nat, ws: seq<Worker>) {
    forall w | Spawned(w) in log && w.launch == launch :: w in ws
  }

  /** Every worker is settled, or in the slot, or of the launch under way; and so is every gateway. */
  ghost predicate Accounted(p: Pool, but: Option<nat>) {
    && (forall w | Spawned(w) in p.log ::
       Settled(p.log, w) || (p.key.Some? && w.launch == p.held) || but == Some(w.launch))
    && (forall e | e in p.log && e.GatewayUp? ::
       Tried(p.log, e.launch) || p.gateway == Some(e.launch) || but == Some(e.launch))
  }

  ghost predicate Inv(p: Pool) {
    Core(p) && Slot(p) && Accounted(p, None)
  }

  // --- the record grows ----------------------------------------------------------------------------------

  lemma InLonger(log: seq<Event>, e: Event)
    ensures forall x :: x in log + [e] <==> x in log || x == e
  {
  }

  lemma ExclusiveGrows(log: seq<Event>, e: Event)
    requires Exclusive(log) && (e.Started? ==> forall w | Spawned(w) in log :: Settled(log, w))
    ensures Exclusive(log + [e])
  {
    hide Settled;
    var all := log + [e];
    forall i, w | 0 <= i < |all| && all[i].Started? && Spawned(w) in all[..i] ensures Settled(all[..i], w) {
      if i < |log| {
        assert all[..i] == log[..i];
      } else {
        assert all[..i] == log;
      }
    }
  }

  lemma TracedGrows(log: seq<Event>, e: Event)
    requires Traced(log) && (e.GatewayUp? ==> forall x | x in log && x.GatewayUp? :: Tried(log, x.launch))
    ensures Traced(log + [e])
  {
    hide Tried;
    var all := log + [e];
    forall i, j | 0 <= j < i < |all| && all[i].GatewayUp? && all[j].GatewayUp? ensures Tried(all[..i], all[j].launch) {
      assert all[j] in log;
      if i < |log| {
        assert all[..i] == log[..i];
      } else {
        assert all[..i] == log;
      }
    }
  }

  /** The event can be noted: nothing is started beside an unsettled worker, and nothing held is given away. */
  ghost predicate Noteable(p: Pool, e: Event) {
    && LaunchOf(e) < p.next && !e.Stopped? && !e.StopFailed?
    && (e.Started? ==> forall w | Spawned(w) in p.log :: Settled(p.log, w))
    && (e.GatewayUp? ==> forall x | x in p.log && x.GatewayUp? :: Tried(p.log, x.launch))
    && (e.Cached? ==> Handed(e.launch) !in p.log && Lost(e.launch) !in p.log)
    && (e.Handed? || e.Lost? ==> Cached(e.launch) !in p.log)
  }

  lemma NoteKeeps(p: Pool, e: Event)
    requires Core(p) && Noteable(p, e)
    ensures Core(Note(p, e))
  {
    hide Exclusive, Traced, Settled, Tried;
    InLonger(p.log, e);
    ExclusiveGrows(p.log, e);
    TracedGrows(p.log, e);
  }

  lemma StopOneKeeps(p: Pool, w: Worker, stuck: set<Worker>)
    requires Core(p) && w.launch < p.next
    ensures Core(StopOne(p, w, stuck)) && Later(p, StopOne(p, w, stuck)) && w in StopOne(p, w, stuck).torn
  {
    hide Exclusive, Traced;
    var e := if w in stuck then StopFailed(w) else Stopped(w);
    InLonger(p.log, e);
    ExclusiveGrows(p.log, e);
    TracedGrows(p.log, e);
  }

  /** The same slot, later on: the record only grew, by stops. */
  ghost predicate Later(p: Pool, q: Pool) {
    && q.key == p.key && q.workers == p.workers && q.gateway == p.gateway && q.config == p.config &&
       q.closed == p.closed
    && q.held == p.held && q.next == p.next && p.torn <= q.torn
    && (forall e | e in p.log :: e in q.log) && (forall e | e in q.log :: e in p.log || e.Stopped? || e.StopFailed?)
  }

  lemma {:induction false} StopSomeKeeps(p: Pool, ws: seq<Worker>, stuck: set<Worker>)
    requires Core(p) && forall w | w in ws :: w.launch < p.next
    ensures var q := StopSome(p, ws, stuck); Core(q) && Later(p, q) && forall w | w in ws :: w in q.torn
  {
    hide Core, StopOne;
    if ws != [] {
      var n := |ws| - 1;
      assert ws == ws[..n] + [ws[n]];
      StopSomeKeeps(p, ws[..n], stuck);
      StopOneKeeps(StopSome(p, ws[..n], stuck), ws[n], stuck);
    }
  }

  lemma StopAllKeeps(p: Pool, ws: seq<Worker>, stuck: set<Worker>, cut: Option<nat>)
    requires Core(p) && forall w | w in ws :: w.launch < p.next
    ensures var (q, interrupted) := StopAll(p, ws, stuck, cut);
            Core(q) && Later(p, q) && (!interrupted ==> forall w | w in ws :: w in q.torn)
  {
    hide Core, StopOne, StopSome;
    if cut.Some? && cut.value < |ws| {
      var m := cut.value;
      assert forall w | w in ws[..m] :: w in ws;
      StopSomeKeeps(p, ws[..m], stuck);
      StopOneKeeps(StopSome(p, ws[..m], stuck), ws[m], stuck + {ws[m]});
    } else {
      StopSomeKeeps(p, ws, stuck);
    }
  }

  lemma TornIsSettled(p: Pool, w: Worker)
    requires Core(p) && w in p.torn
    ensures Settled(p.log, w)
  {
  }

  /** Stops settle workers and unsettle none. */
  lemma LaterAccounted(p: Pool, q: Pool, but: Option<nat>)
    requires Accounted(p, but) && Later(p, q)
    ensures Accounted(q, but)
  {
  }

  lemma LaterSlot(p: Pool, q: Pool)
    requires Slot(p) && Later(p, q)
    ensures Slot(q)
  {
  }

  /** The launch under way: none of it is held, handed out or lost. */
  ghost predicate Fresh(log: seq<Event>, launch: nat) {
    Cached(launch) !in log && Handed(launch) !in log && Lost(launch) !in log
  }

  lemma {:induction false} SpawnKeeps(p: Pool, launch: nat, n: nat)
    requires Core(p) && launch < p.next
    ensures var q := Spawn(p, launch, n);
            && Core(q) && q == p.(log := q.log) && (forall e | e in p.log :: e in q.log)
            && (forall e | e in q.log :: e in p.log || (e.Spawned? && e.worker.launch == launch && e.worker.index < n))
            && forall i | 0 <= i < n :: Spawned(Worker(launch, i)) in q.log
  {
    hide Core;
    if n > 0 {
      SpawnKeeps(p, launch, n - 1);
      var q, e := Spawn(p, launch, n - 1), Spawned(Worker(launch, n - 1));
      NoteKeeps(q, e);
      InLonger(q.log, e);
    }
  }

  /** A set under way, in an empty slot. */
  ghost predicate UnderWay(p: Pool, launch: nat, n: nat) {
    && Core(p) && Slot(p) && p.key.None? && launch < p.next && Accounted(p, Some(launch)) && Fresh(p.log, launch)
    && (forall w | Spawned(w) in p.log && w.launch == launch :: w.index < n)
    && (forall e | e in p.log && e.GatewayUp? && e.launch == launch :: Tried(p.log, launch))
  }

  /** Given up, it is settled. */
  lemma GiveUpKeeps(p: Pool, launch: nat, n: nat, w: World)
    requires UnderWay(p, launch, n)
    ensures var q := GiveUp(p, launch, n, w); Inv(q) && q.key.None? && q.next == p.next && q.closed == p.closed
  {
    hide Core, Slot, StopAll;
    var (q, cut) := StopAll(p, Launch(launch, n), w.stuck, w.rollbackCut);
    StopAllKeeps(p, Launch(launch, n), w.stuck, w.rollbackCut);
    LaterAccounted(p, q, Some(launch));
    LaterSlot(p, q);
    LaterFresh(p, q, launch);
    if cut {
      LostKeeps(q, launch);
    } else {
      forall x | Spawned(x) in q.log && x.launch == launch ensures Settled(q.log, x) {
        assert Spawned(x) in p.log && x in Launch(launch, n);
        TornIsSettled(q, x);
      }
    }
  }

  lemma LaterFresh(p: Pool, q: Pool, launch: nat)
    requires Fresh(p.log, launch) && Later(p, q)
    ensures Fresh(q.log, launch)
  {
  }

  /** A launch is lost. */
  lemma LostKeeps(p: Pool, launch: nat)
    requires Core(p) && Slot(p) && p.key.None? && launch < p.next && Accounted(p, Some(launch)) && Fresh(p.log, launch)
    requires forall e | e in p.log && e.GatewayUp? && e.launch == launch :: Tried(p.log, launch)
    ensures Inv(Note(p, Lost(launch)))
  {
    hide Core;
    NoteKeeps(p, Lost(launch));
    InLonger(p.log, Lost(launch));
  }

  /** A start with an empty slot: up, it is under way; otherwise settled. */
  lemma StartKeeps(p: Pool, key: Key, w: World)
    requires Inv(p) && p.key.None? && !p.closed
    ensures var (q, up) := Start(p, key, w);
            && q.next == p.next + 1 && q.key.None? && !q.closed && q.held == p.held
            && (if up
                then UnderWay(q, p.next, key.count) && Started(p.next, key) in q.log &&
                     Listed(q.log, Launch(p.next, key.count)) &&
                     (forall e | e in q.log && e.GatewayUp? :: e.launch != p.next)
                else Inv(q))
  {
    hide Core, Spawn, GiveUp, Listed;
    var launch := p.next;
    var q := Note(p.(next := launch + 1), Started(launch, key));
    BegunKeeps(p, key);
    var n := Reach(w.start, key.count);
    SpawnKeeps(q, launch, n);
    var r := Spawn(q, launch, n);
    SpawnedUnderWay(q, r, launch, n);
    if w.start.Raises? {
      GiveUpKeeps(r, launch, n, w);
      GiveUpFrame(r, launch, n, w);
    } else if w.start.Interrupted? {
      LostKeeps(r, launch);
    } else {
      AllListed(r.log, launch, n);
    }
  }

  lemma AllListed(log: seq<Event>, launch: nat, n: nat)
    requires forall i | 0 <= i < n :: Spawned(Worker(launch, i)) in log
    ensures Listed(log, Launch(launch, n))
  {
    forall w | w in Launch(launch, n) ensures Spawned(w) in log {
      assert w == Worker(launch, w.index);
    }
  }

  lemma GiveUpFrame(p: Pool, launch: nat, n: nat, w: World)
    requires Core(p) && launch < p.next
    ensures GiveUp(p, launch, n, w).held == p.held
  {
    hide Core, StopAll;
    StopAllKeeps(p, Launch(launch, n), w.stuck, w.rollbackCut);
  }

  lemma BegunKeeps(p: Pool, key: Key)
    requires Inv(p) && p.key.None?
    ensures var q := Note(p.(next := p.next + 1), Started(p.next, key));
            UnderWay(q, p.next, 0) && (forall e | e in q.log && LaunchOf(e) == p.next :: e == Started(p.next, key))
  {
    hide Exclusive, Traced, Settled, Tried;
    var r, e := p.(next := p.next + 1), Started(p.next, key);
    assert Core(r);
    NoteKeeps(r, e);
    InLonger(p.log, e);
    StillSettled(p.log, e);
    StillTried(p.log, e);
  }

  lemma StillSettled(log: seq<Event>, e: Event)
    ensures forall w | Settled(log, w) :: Settled(log + [e], w)
  {
    InLonger(log, e);
  }

  lemma StillTried(log: seq<Event>, e: Event)
    ensures forall g: nat | Tried(log, g) :: Tried(log + [e], g)
  {
    InLonger(log, e);
  }

  lemma SpawnedUnderWay(p: Pool, q: Pool, launch: nat, n: nat)
    requires UnderWay(p, launch, 0) && Core(q) && q == p.(log := q.log) && (forall e | e in p.log :: e in q.log)
    requires forall e | e in q.log :: e in p.log || (e.Spawned? && e.worker.launch == launch)
    requires forall w | Spawned(w) in q.log && w.launch == launch :: w.index < n
    ensures UnderWay(q, launch, n)
  {
    hide Core;
  }

  // --- every call ------------------------------------------------------------------------------------------

  lemma ShutDownKeeps(p: Pool, fails: bool)
    requires Inv(p) && p.gateway.Some?
    ensures var e := ShutDown(p.gateway.value, fails); Inv(Note(p, e)) && Tried(Note(p, e).log, p.gateway.value)
  {
    hide Core, Settled;
    var e := ShutDown(p.gateway.value, fails);
    ShutDownNoteable(p, fails);
    NoteKeeps(p, e);
    InLonger(p.log, e);
    StillSettled(p.log, e);
  }

  lemma ShutDownNoteable(p: Pool, fails: bool)
    requires Slot(p) && Core(p) && p.gateway.Some?
    ensures Noteable(p, ShutDown(p.gateway.value, fails))
  {
  }

  /** After an eviction that did not raise, the slot is empty. */
  lemma EvictKeeps(p: Pool, w: World)
    requires Inv(p)
    ensures var (q, raised) := Evict(p, w);
            Inv(q) && q.next == p.next && q.closed == p.closed && (!raised ==> q.key.None?)
  {
    hide Core, Launch, StopAll, Settled;
    var fails := p.gateway.Some? && w.shutdownFails;
    var r := if p.gateway.Some? then Note(p, ShutDown(p.gateway.value, fails)) else p;
    if p.gateway.Some? {
      ShutDownKeeps(p, fails);
    }
    forall x | x in p.workers ensures x.launch < r.next {
    }
    StopAllKeeps(r, p.workers, w.stuck, w.evictCut);
    var (q, cut) := StopAll(r, p.workers, w.stuck, w.evictCut);
    LaterSlot(r, q);
    LaterAccounted(r, q, None);
    if !cut {
      SlotEmptied(r, q);
    }
  }

  lemma SlotEmptied(p: Pool, q: Pool)
    requires Inv(p) && Core(q) && Accounted(q, None) && Later(p, q) && (forall w | w in p.workers :: w in q.torn)
    requires p.gateway.Some? ==> Tried(p.log, p.gateway.value)
    ensures Inv(q.(key := None, workers := [], gateway := None, config := None))
  {
    hide Exclusive, Traced, HeldIsKept;
    var r := q.(key := None, workers := [], gateway := None, config := None);
    forall w | Spawned(w) in q.log ensures Settled(q.log, w) {
      if p.key.Some? && w.launch == p.held {
        TornIsSettled(q, w);
      }
    }
  }

  lemma HandedKeeps(p: Pool, launch: nat, n: nat)
    requires UnderWay(p, launch, n) && (forall e | e in p.log && e.GatewayUp? :: e.launch != launch)
    ensures Inv(Note(p, Handed(launch)))
  {
    hide Core;
    NoteKeeps(p, Handed(launch));
    InLonger(p.log, Handed(launch));
  }

  /** A set fills the slot. */
  lemma CacheKeeps(p: Pool, launch: nat, key: Key)
    requires UnderWay(p, launch, key.count) && !p.closed && key.kind.Regular? && !key.mode.Zmq?
    requires Started(launch, key) in p.log && Listed(p.log, Launch(launch, key.count))
    requires forall e | e in p.log && e.GatewayUp? :: e.launch != launch
    ensures Inv(Note(p.(key := Some(key), workers := Launch(launch, key.count), held := launch), Cached(launch)))
  {
    hide Exclusive, Traced, Settled, Tried;
    var q := p.(key := Some(key), workers := Launch(launch, key.count), held := launch);
    assert Core(q);
    NoteKeeps(q, Cached(launch));
    InLonger(p.log, Cached(launch));
    StillSettled(p.log, Cached(launch));
    StillTried(p.log, Cached(launch));
  }

  lemma GatewayNoted(p: Pool, launch: nat, n: nat, config: string)
    requires UnderWay(p, launch, n) && (forall e | e in p.log && e.GatewayUp? :: e.launch != launch)
    ensures var q := Note(p, GatewayUp(launch, config)); Core(q) && Accounted(q, Some(launch)) && Fresh(q.log, launch)
  {
    hide Core, Settled;
    NoteKeeps(p, GatewayUp(launch, config));
    InLonger(p.log, GatewayUp(launch, config));
    StillSettled(p.log, GatewayUp(launch, config));
    StillTried(p.log, GatewayUp(launch, config));
  }

  /** A pair fills the slot. */
  lemma PairKeeps(p: Pool, launch: nat, key: Key, config: string)
    requires UnderWay(p, launch, key.count) && !p.closed && key.kind.Regular? && key.mode.Zmq?
    requires Started(launch, key) in p.log && Listed(p.log, Launch(launch, key.count))
    requires forall e | e in p.log && e.GatewayUp? :: e.launch != launch
    ensures var s := Note(p, GatewayUp(launch, config));
            Inv(Note(s.(key := Some(key), workers := Launch(launch, key.count), gateway := Some(launch),
                        config := Some(config), held := launch), Cached(launch)))
  {
    hide Exclusive, Traced, Settled, Tried;
    GatewayNoted(p, launch, key.count, config);
    var s := Note(p, GatewayUp(launch, config));
    var q := s.(key := Some(key), workers := Launch(launch, key.count), gateway := Some(launch),
                config := Some(config), held := launch);
    assert Core(q);
    NoteKeeps(q, Cached(launch));
    InLonger(p.log, GatewayUp(launch, config));
    InLonger(s.log, Cached(launch));
    StillSettled(s.log, Cached(launch));
    StillTried(s.log, Cached(launch));
  }

  /** A pair that is given up leaves the slot empty. */
  lemma AbortKeeps(p: Pool, launch: nat, count: nat, config: string, w: World)
    requires UnderWay(p, launch, count) && (forall e | e in p.log && e.GatewayUp? :: e.launch != launch)
    ensures Inv(Abort(p, launch, count, config, w))
  {
    hide Core, Slot, GiveUp, Settled;
    if w.gatewayEnd.Dies? {
      var u, e := GatewayUp(launch, config), ShutDown(launch, w.abortFails);
      var q := Note(p, u);
      GatewayNoted(p, launch, count, config);
      NoteKeeps(q, e);
      InLonger(p.log, u);
      InLonger(q.log, e);
      StillSettled(q.log, e);
      StillTried(q.log, e);
      SlotQuiet(p, Note(q, e));
      GiveUpKeeps(Note(q, e), launch, count, w);
    } else {
      GiveUpKeeps(p, launch, count, w);
    }
  }

  lemma SlotQuiet(p: Pool, q: Pool)
    requires Slot(p) && p.key.None? && q == p.(log := q.log)
    ensures Slot(q)
  {
  }

  lemma AcquireKeeps(p: Pool, key: Key, own: bool, w: World)
    requires Inv(p)
    ensures Inv(Acquire(p, key, own, w).0)
  {
    hide Inv, Launch, Evict, Start, UnderWay;
    var (q, raised) := if p.key.Some? then Evict(p, w) else (p, false);
    EvictKeeps(p, w);
    if !p.closed && !raised {
      StartKeeps(q, key, w);
      var (r, up) := Start(q, key, w);
      if up {
        HandedKeeps(r, q.next, key.count);
        if !Uncached(key) {
          CacheKeeps(r, q.next, key);
        }
      }
    }
  }

  lemma AcquireZmqKeeps(p: Pool, asked: Key, config: string, w: World)
    requires Inv(p)
    ensures Inv(AcquireZmq(p, asked, config, w).0)
  {
    hide Inv, Launch, Evict, Start, UnderWay, Abort;
    var key := PairKey(asked);
    var (q, raised) := Evict(p, w);
    EvictKeeps(p, w);
    if !p.closed && !raised {
      StartKeeps(q, key, w);
      var (r, up) := Start(q, key, w);
      if up {
        AbortKeeps(r, q.next, key.count, config, w);
        PairKeeps(r, q.next, key, config);
      }
    }
  }

  lemma ClosedKeeps(p: Pool)
    requires Inv(p) && p.key.None?
    ensures Inv(p.(closed := true))
  {
    hide Exclusive, Traced, HeldIsKept, Settled, Launch;
  }

  lemma StepKeeps(p: Pool, op: Op)
    requires Inv(p)
    ensures Inv(Step(p, op).0)
  {
    hide Inv, Evict, Acquire, AcquireZmq;
    match op
    case OpAcquire(key, own, w) => AcquireKeeps(p, key, own, w);
    case OpAcquireZmq(key, config, w) => AcquireZmqKeeps(p, key, config, w);
    case OpDiscard(gateway, w) => EvictKeeps(p, w);
    case OpCleanup(w) =>
      EvictKeeps(p, w);
      if !Evict(p, w).1 {
        ClosedKeeps(Evict(p, w).0);
      }
  }

  /** Every run of calls, whatever fails in them, keeps the pool's promises. */
  lemma {:induction false} EveryRunKeeps(ops: seq<Op>)
    ensures Inv(Run(ops))
  {
    hide Step;
    if ops != [] {
      EveryRunKeeps(ops[..|ops| - 1]);
      StepKeeps(Run(ops[..|ops| - 1]), ops[|ops| - 1]);
    }
  }

  // --- who runs beside whom ------------------------------------------------------------------------------

  ghost predicate Runs(log: seq<Event>, w: Worker) {
    Spawned(w) in log && Stopped(w) !in log
  }

  /** A caller's or nobody's, and never stopped by the pool. */
  ghost predicate Unattended(log: seq<Event>, w: Worker) {
    (Handed(w.launch) in log || Lost(w.launch) in log) && Stopped(w) !in log && StopFailed(w) !in log
  }

  /** Over every run, when a set starts a worker spawned before runs exactly when its stop failed, or it was handed to
      a caller, or an interrupt left it to nobody. */
  lemma StartsBeside(ops: seq<Op>, i: nat, w: Worker)
    requires i < |Run(ops).log| && Run(ops).log[i].Started? && Spawned(w) in Run(ops).log[..i]
    ensures var before := Run(ops).log[..i]; Runs(before, w) <==> StopFailed(w) in before || Unattended(before, w)
  {
    hide Run, Slot, Accounted, Traced;
    EveryRunKeeps(ops);
    var log := Run(ops).log;
    assert Settled(log[..i], w);
    assert forall x | x in log[..i] :: x in log;
  }

  /** So a worker of a set the pool held runs on beside the next set exactly when its stop failed. */
  lemma HeldRunsOnIff(ops: seq<Op>, i: nat, w: Worker)
    requires i < |Run(ops).log| && Run(ops).log[i].Started? && Spawned(w) in Run(ops).log[..i]
    requires Cached(w.launch) in Run(ops).log[..i]
    ensures Runs(Run(ops).log[..i], w) <==> StopFailed(w) in Run(ops).log[..i]
  {
    hide Run, Slot, Accounted, Traced, Exclusive;
    StartsBeside(ops, i, w);
    EveryRunKeeps(ops);
    var log := Run(ops).log;
    assert forall x | x in log[..i] :: x in log;
  }

  /** A worker of a set the pool held. */
  ghost predicate OfHeld(log: seq<Event>, w: Worker) {
    Spawned(w) in log && Cached(w.launch) in log
  }

  /** A set starts while a worker of one the pool held is running exactly when a stop of one failed. */
  lemma NoStartWhileHeld(ops: seq<Op>, i: nat)
    requires i < |Run(ops).log| && Run(ops).log[i].Started?
    ensures var before := Run(ops).log[..i];
            (exists w :: OfHeld(before, w) && Runs(before, w)) <==>
              (exists w :: OfHeld(before, w) && StopFailed(w) in before)
  {
    hide Run, Runs;
    var before := Run(ops).log[..i];
    if w :| OfHeld(before, w) && Runs(before, w) {
      HeldRunsOnIff(ops, i, w);
    }
    if w :| OfHeld(before, w) && StopFailed(w) in before {
      HeldRunsOnIff(ops, i, w);
    }
  }

  /** An empty key means no workers and no gateway; a worker that still runs is one whose stop failed, a caller's, or
      one an interrupt left to nobody. */
  lemma EmptyKeyHoldsNothing(ops: seq<Op>)
    requires Run(ops).key.None?
    ensures Run(ops).workers == [] && Run(ops).gateway.None?
    ensures var log := Run(ops).log;
            forall w | Spawned(w) in log :: Runs(log, w) <==> StopFailed(w) in log || Unattended(log, w)
  {
    hide Run, Exclusive, Traced;
    EveryRunKeeps(ops);
  }

  /** A launch given out again was started with exactly the key asked for, and all of it is alive. */
  lemma ReusedIsExact(ops: seq<Op>, key: Key, own: bool, w: World)
    requires var (q, r) := Acquire(Run(ops), key, own, w); r.Given? && q.log == Run(ops).log
    ensures var p, r := Run(ops), Acquire(Run(ops), key, own, w).1;
            && r.workers == p.workers == Launch(p.held, key.count) && p.key == Some(key) && p.gateway.None?
            && Started(p.held, key) in p.log && forall x | x in r.workers :: Runs(p.log, x) && x !in w.dead
  {
    hide Run, Exclusive, Traced, Settled, Launch, Evict, Start;
    EveryRunKeeps(ops);
    var p := Run(ops);
    if Uncached(key) || p.key != Some(key) || !Alive(p, w) {
      StartShows(p, key, w);
      EvictKeeps(p, w);
    }
  }

  /** A set that comes up leaves its start in the record. */
  lemma StartShows(p: Pool, key: Key, w: World)
    requires Inv(p) && !p.closed
    ensures var q := if p.key.Some? then Evict(p, w).0 else p;
            q.key.None? && Start(q, key, w).1 ==>
              Started(p.next, key) in Start(q, key, w).0.log && Started(p.next, key) !in p.log
    ensures var q := Evict(p, w).0;
            q.key.None? && Start(q, key, w).1 ==>
              Started(p.next, key) in Start(q, key, w).0.log && Started(p.next, key) !in p.log
  {
    hide Evict, Start, Core, Slot, Accounted, UnderWay;
    EvictKeeps(p, w);
    NewIsNew(p, key);
    if Evict(p, w).0.key.None? {
      StartKeeps(Evict(p, w).0, key, w);
    }
    if p.key.None? {
      StartKeeps(p, key, w);
    }
  }

  lemma NewIsNew(p: Pool, key: Key)
    requires Core(p)
    ensures Started(p.next, key) !in p.log
  {
  }

  lemma NewNotGone(p: Pool)
    requires Inv(p)
    ensures forall x: Worker | x.launch == p.next :: x !in p.gone
  {
    forall x: Worker | x.launch == p.next ensures x !in p.gone {
      assert LaunchOf(Stopped(x)) == p.next;
    }
  }

  /** A pair given out again was started with exactly this key and this configuration, runs and answers. */
  lemma ReusedPairIsExact(ops: seq<Op>, asked: Key, config: string, w: World)
    requires var (q, r) := AcquireZmq(Run(ops), asked, config, w); r.Paired? && q.log == Run(ops).log
    ensures var p, key := Run(ops), PairKey(asked);
            && AcquireZmq(p, asked, config, w).1 == Paired(p.held) && p.key == Some(key) && w.running &&
               w.health.Answers?
            && Started(p.held, key) in p.log && GatewayUp(p.held, config) in p.log
            && forall x | x in p.workers :: Runs(p.log, x) && x !in w.dead
  {
    hide Run, Exclusive, Traced, Settled, Launch, Evict, Start, Abort;
    EveryRunKeeps(ops);
    var p := Run(ops);
    if !Matches(p, PairKey(asked), config, w) || !w.health.Answers? {
      StartShows(p, PairKey(asked), w);
      EvictKeeps(p, w);
    }
  }

  /** A closed pool stays closed and empty, starts nothing and gives nothing out. */
  lemma ClosedForever(ops: seq<Op>, op: Op)
    requires Run(ops).closed
    ensures var (q, r) := Step(Run(ops), op); q == Run(ops) && !r.Given? && !r.Paired?
  {
    hide Run, Exclusive, Traced, Settled;
    EveryRunKeeps(ops);
  }

  // --- gateways -----------------------------------------------------------------------------------------

  /** Whenever a gateway comes up, every earlier one is down. */
  ghost predicate GatewaysApart(log: seq<Event>) {
    forall i, j | 0 <= j < i < |log| && log[i].GatewayUp? && log[j].GatewayUp? :: GatewayDown(log[j].launch) in log[..i]
  }

  /** A shutdown was tried, and raised every time. */
  ghost predicate Forgotten(log: seq<Event>, gateway: nat) {
    ShutdownRaised(gateway) in log && GatewayDown(gateway) !in log
  }

  /** No gateway comes up after one that was forgotten. */
  ghost predicate NoneForgotten(log: seq<Event>) {
    forall i, j | 0 <= j < i < |log| && log[i].GatewayUp? && log[j].GatewayUp? :: !Forgotten(log[..i], log[j].launch)
  }

  /** Over every run, no gateway comes up before every earlier one is down exactly when none comes up after one
      whose every shutdown raised. */
  lemma GatewaysApartIff(ops: seq<Op>)
    ensures GatewaysApart(Run(ops).log) <==> NoneForgotten(Run(ops).log)
  {
    hide Run, Slot, Accounted, Exclusive;
    EveryRunKeeps(ops);
    var log := Run(ops).log;
    if NoneForgotten(log) {
      forall i, j | 0 <= j < i < |log| && log[i].GatewayUp? && log[j].GatewayUp?
        ensures GatewayDown(log[j].launch) in log[..i]
      {
        assert Tried(log[..i], log[j].launch) && !Forgotten(log[..i], log[j].launch);
      }
    }
  }

  /** No shutdown raises. */
  ghost predicate Polite(w: World) {
    !w.shutdownFails && !w.abortFails
  }

  ghost predicate OfGateway(e: Event) {
    e.GatewayUp? || e.GatewayDown? || e.ShutdownRaised?
  }

  /** The record grew, by nothing that concerns a gateway. */
  ghost predicate Quietly(p: Pool, q: Pool) {
    (forall e | e in p.log :: e in q.log) && forall e | e in q.log && OfGateway(e) :: e in p.log
  }

  lemma GiveUpQuiet(p: Pool, launch: nat, n: nat, w: World)
    requires Core(p) && launch < p.next
    ensures Quietly(p, GiveUp(p, launch, n, w))
  {
    hide Core, StopAll;
    StopAllKeeps(p, Launch(launch, n), w.stuck, w.rollbackCut);
  }

  lemma StartQuiet(p: Pool, key: Key, w: World)
    requires Inv(p) && p.key.None?
    ensures Quietly(p, Start(p, key, w).0)
  {
    hide Core, Spawn, GiveUp;
    var q := Note(p.(next := p.next + 1), Started(p.next, key));
    BegunKeeps(p, key);
    var n := Reach(w.start, key.count);
    SpawnKeeps(q, p.next, n);
    GiveUpQuiet(Spawn(q, p.next, n), p.next, n, w);
  }

  /** An eviction notes the shutdown of the gateway it finds, and no other. */
  lemma EvictNotes(p: Pool, w: World)
    requires Inv(p)
    ensures var q := Evict(p, w).0;
            if p.gateway.None? then Quietly(p, q) else Quietly(Note(p, ShutDown(p.gateway.value, w.shutdownFails)), q)
  {
    hide Core, StopAll, Launch;
    var r := if p.gateway.Some? then Note(p, ShutDown(p.gateway.value, w.shutdownFails)) else p;
    if p.gateway.Some? {
      ShutDownKeeps(p, w.shutdownFails);
    }
    assert forall x | x in p.workers :: x.launch < r.next;
    StopAllKeeps(r, p.workers, w.stuck, w.evictCut);
  }

  lemma StepPolite(p: Pool, op: Op, g: nat)
    requires Inv(p) && Polite(op.world) && ShutdownRaised(g) !in p.log
    ensures ShutdownRaised(g) !in Step(p, op).0.log
  {
    hide Inv, Evict, Start, Launch, GiveUp, UnderWay;
    var w := op.world;
    EvictKeeps(p, w);
    EvictNotes(p, w);
    assert ShutdownRaised(g) !in Evict(p, w).0.log;
    match op
    case OpAcquire(key, _, _) =>
      var q := if p.key.Some? then Evict(p, w).0 else p;
      if q.key.None? && !q.closed {
        StartQuiet(q, key, w);
      }
    case OpAcquireZmq(asked, config, _) =>
      var q, key := Evict(p, w).0, PairKey(asked);
      if q.key.None? && !q.closed {
        StartQuiet(q, key, w);
        StartKeeps(q, key, w);
        var (r, up) := Start(q, key, w);
        if up {
          AbortPolite(r, q.next, key.count, config, w, g);
        }
      }
    case OpDiscard(_, _) =>
    case OpCleanup(_) =>
  }

  lemma AbortPolite(p: Pool, launch: nat, count: nat, config: string, w: World, g: nat)
    requires UnderWay(p, launch, count) && (forall e | e in p.log && e.GatewayUp? :: e.launch != launch)
    requires Polite(w) && ShutdownRaised(g) !in p.log
    ensures ShutdownRaised(g) !in Abort(p, launch, count, config, w).log
  {
    hide Core, GiveUp;
    if w.gatewayEnd.Dies? {
      var q := Note(p, GatewayUp(launch, config));
      GatewayNoted(p, launch, count, config);
      NoteKeeps(q, GatewayDown(launch));
      GiveUpQuiet(Note(q, GatewayDown(launch)), launch, count, w);
    } else {
      GiveUpQuiet(p, launch, count, w);
    }
  }

  lemma {:induction false} NothingRaised(ops: seq<Op>, g: nat)
    requires forall op | op in ops :: Polite(op.world)
    ensures ShutdownRaised(g) !in Run(ops).log
  {
    hide Step, Inv;
    if ops != [] {
      var n := |ops| - 1;
      NothingRaised(ops[..n], g);
      EveryRunKeeps(ops[..n]);
      StepPolite(Run(ops[..n]), ops[n], g);
    }
  }

  /** So while no shutdown raises, they take turns. */
  lemma GatewaysTakeTurns(ops: seq<Op>)
    requires forall op | op in ops :: Polite(op.world)
    ensures GatewaysApart(Run(ops).log)
  {
    hide Run;
    GatewaysApartIff(ops);
    var log := Run(ops).log;
    forall i, j | 0 <= j < i < |log| && log[i].GatewayUp? && log[j].GatewayUp?
      ensures !Forgotten(log[..i], log[j].launch)
    {
      NothingRaised(ops, log[j].launch);
    }
  }

  lemma RunOne(ops: seq<Op>, op: Op)
    ensures Run(ops + [op]) == Step(Run(ops), op).0
  {
    assert (ops + [op])[..|ops|] == ops;
  }

  lemma OneWorker(launch: nat)
    ensures Launch(launch, 1) == [Worker(launch, 0)]
  {
  }

  lemma SpawnOne(p: Pool, launch: nat)
    ensures Spawn(p, launch, 1) == Note(p, Spawned(Worker(launch, 0)))
  {
    assert Spawn(p, launch, 0) == p;
  }

  lemma StopOnly(p: Pool, x: Worker, stuck: set<Worker>)
    ensures StopSome(p, [x], stuck) == StopOne(p, x, stuck)
  {
    assert [x][..0] == [];
    assert StopSome(p, [x][..0], stuck) == p;
  }

  /** A worker whose stop fails: the pool forgets it, and the next set starts while it runs. */
  lemma StuckRunsOn(a: Key, b: Key, w: World) returns (i: nat)
    requires !Uncached(a) && !Uncached(b) && a != b && a.count == b.count == 1
    requires w.start == Up && w.stuck == {Worker(0, 0)} && w.evictCut == None
    ensures var log := Run([OpAcquire(a, false, w), OpAcquire(b, false, w)]).log;
            i < |log| && log[i] == Started(1, b) && Cached(0) in log[..i] && Runs(log[..i], Worker(0, 0))
  {
    hide StopSome, Spawn, Launch;
    var x, y := Worker(0, 0), Worker(1, 0);
    OneWorker(0);
    OneWorker(1);
    var one, two := OpAcquire(a, false, w), OpAcquire(b, false, w);
    RunOne([], one);
    RunOne([one], two);
    assert [] + [one] == [one] && [one] + [two] == [one, two];
    var started := Note(EMPTY.(next := 1), Started(0, a));
    SpawnOne(started, 0);
    var p := Step(EMPTY, one).0;
    assert p.log == [Started(0, a), Spawned(x), Cached(0)] && p.workers == [x] && p.torn == {};
    StopOnly(p, x, w.stuck);
    var q := Evict(p, w).0;
    assert q.log == p.log + [StopFailed(x)] && !Evict(p, w).1 && q.next == 1;
    SpawnOne(Note(q.(next := 2), Started(1, b)), 1);
    i := 4;
    var r := Step(p, two).0;
    assert r.log == q.log + [Started(1, b)] + [Spawned(y)] + [Cached(1)];
    assert r.log[..4] == q.log;
  }

  /** A start that is interrupted: its workers run under an empty key. */
  lemma InterruptedRunsOn(a: Key, w: World)
    requires !Uncached(a) && a.count == 1 && w.start == Interrupted(1)
    ensures var p := Run([OpAcquire(a, false, w)]); p.key.None? && Runs(p.log, Worker(0, 0)) && Lost(0) in p.log
  {
    hide Spawn;
    var one := OpAcquire(a, false, w);
    RunOne([], one);
    assert [] + [one] == [one];
    SpawnOne(Note(EMPTY.(next := 1), Started(0, a)), 0);
    assert Step(EMPTY, one).0.log == [Started(0, a), Spawned(Worker(0, 0)), Lost(0)];
  }

  /** A pair that comes up in an empty pool. */
  lemma PairComesUp(p: Pool, asked: Key, config: string, w: World)
    requires Inv(p) && p.key.None? && !p.closed && w.start == Up && w.gatewayEnd == Serves
    ensures var q := AcquireZmq(p, asked, config, w).0;
            && Inv(q) && q.gateway == Some(p.next) && q.next == p.next + 1 && !q.closed
            && |q.log| >= 2 && q.log[|q.log| - 2] == GatewayUp(p.next, config)
            && (forall e | e in p.log :: e in q.log[..|q.log| - 2])
            && (forall e | e in q.log && OfGateway(e) :: e in p.log || e == GatewayUp(p.next, config))
  {
    hide Core, Start, Launch, StopSome, UnderWay;
    SlotEmpty(p);
    var key := PairKey(asked);
    AcquireZmqKeeps(p, asked, config, w);
    StopSomeNone(p);
    assert Evict(p, w) == (p, false);
    StartKeeps(p, key, w);
    StartQuiet(p, key, w);
    StartUp(p, key, w);
    var r := Start(p, key, w).0;
    var q := AcquireZmq(p, asked, config, w).0;
    assert q.log == r.log + [GatewayUp(p.next, config)] + [Cached(p.next)];
    assert q.log[..|r.log|] == r.log;
  }

  lemma StartUp(p: Pool, key: Key, w: World)
    requires w.start == Up
    ensures Start(p, key, w).1
  {
  }

  lemma SlotEmpty(p: Pool)
    requires Slot(p) && p.key.None?
    ensures p.workers == [] && p.gateway.None? && p.config.None?
  {
  }

  /** A shutdown that raises and is not tried again: the pool forgets its gateway, and the next pair brings up another
      beside it. */
  lemma GatewayForgotten(asked: Key, w: World)
    requires w.start == Up && w.gatewayEnd == Serves && w.shutdownFails && w.evictCut == None
    ensures var p := Run([OpAcquireZmq(asked, "a", w), OpDiscard(0, w), OpAcquireZmq(asked, "b", w)]);
            && !GatewaysApart(p.log) && GatewayUp(0, "a") in p.log && GatewayDown(0) !in p.log && p.gateway == Some(1)
  {
    hide Core, Slot, Accounted, AcquireZmq, Evict, Forgotten;
    var a, b, c := OpAcquireZmq(asked, "a", w), OpDiscard(0, w), OpAcquireZmq(asked, "b", w);
    RunOne([], a);
    RunOne([a], b);
    RunOne([a, b], c);
    assert [] + [a] == [a] && [a] + [b] == [a, b] && [a, b] + [c] == [a, b, c];
    EveryRunKeeps([]);
    PairComesUp(EMPTY, asked, "a", w);
    var p := Step(EMPTY, a).0;
    assert GatewayUp(0, "a") in p.log && GatewayDown(0) !in p.log;
    EvictKeeps(p, w);
    EvictNotes(p, w);
    EvictUncut(p, w);
    var q := Step(p, b).0;
    assert GatewayUp(0, "a") in q.log && GatewayDown(0) !in q.log;
    PairComesUp(q, asked, "b", w);
    var log := Step(q, c).0.log;
    var i := |log| - 2;
    var j :| 0 <= j < |log[..i]| && log[..i][j] == GatewayUp(0, "a");
    assert log[i].GatewayUp? && log[j].GatewayUp? && GatewayDown(0) !in log[..i];
  }

  lemma EvictUncut(p: Pool, w: World)
    requires w.evictCut == None
    ensures Evict(p, w).0.key.None?
  {
    hide StopSome;
  }

  lemma StopSomeNone(p: Pool)
    ensures forall stuck :: StopSome(p, [], stuck) == p
  {
  }

  // --- the pool ---------------------------------------------------------------------------------------------

  class SessionPool {
    var key: Option<Key>
    var workers: seq<Worker>
    var gateway: Option<nat>
    var config: Option<string>
    var closed: bool
    var next: nat
    var torn: set<Worker>
    var gone: set<Worker>
    ghost var held: nat
    ghost var log: seq<Event>

    ghost function State(): Pool
      reads this
    {
      Pool(key, workers, gateway, config, closed, held, next, torn, gone, log)
    }

    constructor ()
      ensures State() == EMPTY
    {
      key, workers, gateway, config, closed, next, torn, gone := None, [], None, None, false, 0, {}, {};
      held, log := 0, [];
    }

    /** `Worker.stop` of one worker; nothing where it was tried before. */
    method StopWorker(x: Worker, fails: bool)
      modifies `torn, `gone, `log
      ensures State() == StopOne(old(State()), x, if fails then {x} else {})
    {
      if x in torn {
        return;
      }
      torn := torn + {x};
      if fails {
        log := log + [StopFailed(x)];
      } else {
        gone, log := gone + {x}, log + [Stopped(x)];
      }
    }

    /** `stop_workers`: one after the other; a stop that fails is passed over, an interrupt is not. */
    method StopWorkers(ws: seq<Worker>, stuck: set<Worker>, cut: Option<nat>) returns (interrupted: bool)
      modifies `torn, `gone, `log
      ensures (State(), interrupted) == StopAll(old(State()), ws, stuck, cut)
    {
      for i := 0 to |ws|
        invariant State() == StopSome(old(State()), ws[..i], stuck)
        invariant cut.Some? ==> i <= cut.value || |ws| <= cut.value
      {
        if cut == Some(i) {
          SameStop(State(), ws[i], stuck + {ws[i]}, {ws[i]});
          StopWorker(ws[i], true);
          return true;
        }
        assert ws[..i + 1][..i] == ws[..i];
        SameStop(State(), ws[i], stuck, if ws[i] in stuck then {ws[i]} else {});
        StopWorker(ws[i], ws[i] in stuck);
      }
      assert ws[..|ws|] == ws;
      return false;
    }

    /** `_evict_locked`: the gateway first, the workers in any case. */
    method EvictLocked(w: World) returns (raised: bool)
      modifies this
      ensures (State(), raised) == Evict(old(State()), w)
    {
      hide StopAll;
      raised := false;
      if gateway.Some? {
        raised := w.shutdownFails;
        log := log + [ShutDown(gateway.value, raised)];
      }
      var interrupted := StopWorkers(workers, w.stuck, w.evictCut);
      if interrupted {
        return true;
      }
      workers, key, gateway, config := [], None, None, None;
    }

    /** Workers nobody else holds are stopped. */
    method GiveUpWorkers(ws: seq<Worker>, ghost launch: nat, w: World)
      requires ws == Launch(launch, |ws|)
      modifies `torn, `gone, `log
      ensures State() == GiveUp(old(State()), launch, |ws|, w)
    {
      hide StopAll, Launch;
      var interrupted := StopWorkers(ws, w.stuck, w.rollbackCut);
      if interrupted {
        log := log + [Lost(launch)];
      }
    }

    /** `start_workers`, which stops what it spawned before it raises; an interrupt is not caught. */
    method StartWorkers(k: Key, w: World) returns (r: Option<(nat, seq<Worker>)>)
      modifies `next, `torn, `gone, `log
      ensures (State(), r.Some?) == Start(old(State()), k, w)
      ensures r.Some? ==> r.value == (old(next), Launch(old(next), k.count))
    {
      hide GiveUp;
      var launch := next;
      ghost var begun := Note(State().(next := launch + 1), Started(launch, k));
      next, log := next + 1, log + [Started(launch, k)];
      var n := Reach(w.start, k.count);
      var ws := [];
      for i := 0 to n
        invariant ws == Launch(launch, i) && State() == Spawn(begun, launch, i)
      {
        ws, log := ws + [Worker(launch, i)], log + [Spawned(Worker(launch, i))];
      }
      match w.start {
        case Up => return Some((launch, ws));
        case Raises(_) => GiveUpWorkers(ws, launch, w);
        case Interrupted(_) => log := log + [Lost(launch)];
      }
      return None;
    }

    method AllAlive(dead: set<Worker>) returns (r: bool)
      ensures r <==> forall x | x in workers :: x !in gone && x !in dead
    {
      for i := 0 to |workers|
        invariant forall j | 0 <= j < i :: workers[j] !in gone && workers[j] !in dead
      {
        if workers[i] in gone || workers[i] in dead {
          return false;
        }
      }
      return true;
    }

    /** `acquire` */
    method AcquireWorkers(k: Key, own: bool, w: World) returns (r: Outcome)
      modifies this
      ensures (State(), r) == Acquire(old(State()), k, own, w)
    {
      hide Evict, Launch, Start;
      if closed {
        return Raised;
      }
      if Uncached(k) {
        if key.Some? {
          var raised := EvictLocked(w);
          if raised {
            return Raised;
          }
        }
        var launched := StartWorkers(k, w);
        if launched.None? {
          return Raised;
        }
        log := log + [Handed(launched.value.0)];
        return Given(launched.value.1);
      }
      if own {
        return Raised;
      }
      var alive := AllAlive(w.dead);
      if key == Some(k) && alive {
        return Given(workers);
      }
      if key.Some? {
        var raised := EvictLocked(w);
        if raised {
          return Raised;
        }
      }
      var launched := StartWorkers(k, w);
      if launched.None? {
        return Raised;
      }
      key, workers := Some(k), launched.value.1;
      held, log := launched.value.0, log + [Cached(launched.value.0)];
      return Given(workers);
    }

    /** `acquire_zmq` */
    method AcquirePair(asked: Key, wanted: string, w: World) returns (r: Outcome)
      modifies this
      ensures (State(), r) == AcquireZmq(old(State()), asked, wanted, w)
    {
      hide Evict, Launch, Start, GiveUp, Abort, PairKey;
      var k := PairKey(asked);
      if closed {
        return Raised;
      }
      var alive := AllAlive(w.dead);
      if key == Some(k) && config == Some(wanted) && gateway.Some? && |workers| == k.count && alive && w.running {
        match w.health {
          case Answers => return Paired(gateway.value);
          case Breaks => return Raised;
          case TimesOut =>
        }
      }
      var raised := EvictLocked(w);
      if raised {
        return Raised;
      }
      var launched := StartWorkers(k, w);
      if launched.None? {
        return Raised;
      }
      if !w.gatewayEnd.Serves? {
        AbortPair(launched.value.1, launched.value.0, wanted, w);
        return Raised;
      }
      log := log + [GatewayUp(launched.value.0, wanted)];
      key, workers, gateway, config := Some(k), launched.value.1, Some(launched.value.0), Some(wanted);
      held, log := launched.value.0, log + [Cached(launched.value.0)];
      return Paired(launched.value.0);
    }

    /** The gateway of a pair that is given up, then its workers in any case. */
    method AbortPair(ws: seq<Worker>, launch: nat, wanted: string, w: World)
      requires ws == Launch(launch, |ws|)
      modifies `torn, `gone, `log
      ensures State() == Abort(old(State()), launch, |ws|, wanted, w)
    {
      hide Launch, GiveUp;
      if w.gatewayEnd.Dies? {
        log := log + [GatewayUp(launch, wanted)];
        log := log + [ShutDown(launch, w.abortFails)];
      }
      GiveUpWorkers(ws, launch, w);
    }

    /** `discard_zmq` */
    method Discard(g: nat, w: World) returns (r: Outcome)
      modifies this
      ensures (State(), r) == DiscardZmq(old(State()), g, w)
    {
      hide Evict;
      r := Done;
      if gateway == Some(g) {
        var raised := EvictLocked(w);
        if raised {
          r := Raised;
        }
      }
    }

    /** `cleanup` */
    method CleanUp(w: World) returns (r: Outcome)
      modifies this
      ensures (State(), r) == Cleanup(old(State()), w)
    {
      hide Evict;
      var raised := EvictLocked(w);
      if raised {
        return Raised;
      }
      closed := true;
      return Done;
    }
  }

  lemma SameStop(p: Pool, x: Worker, a: set<Worker>, b: set<Worker>)
    requires x in a <==> x in b
    ensures StopOne(p, x, a) == StopOne(p, x, b)
  {
  }
}
