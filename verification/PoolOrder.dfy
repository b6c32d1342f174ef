/**
 The order tests are run in: sorted so that tests sharing a pool entry follow one another. Then the pool
 starts every entry once, and no other order makes do with fewer starts.
 */
module PoolOrder {
  import opened Text
  import opened WorkerPool

  /** A collected test, as far as its place in the order goes. */
  datatype Item = Item(backend: string, model: string, workers: string, gateway: string, node: string)

  // --- the sort key -----------------------------------------------------------------------------

  /** Python's order of tuples of strings. */
  predicate TupleLess(a: seq<string>, b: seq<string>) {
    if b == [] then false
    else if a == [] then true
    else if a[0] != b[0] then Less(a[0], b[0])
    else TupleLess(a[1..], b[1..])
  }

  /** `_pool_sort_key` */
  function SortKey(t: Item): seq<string> {
    [t.backend, t.model, t.workers, t.gateway, t.node]
  }

  ghost predicate Sorted(items: seq<Item>) {
    forall i, j | 0 <= i < j < |items| :: !TupleLess(SortKey(items[j]), SortKey(items[i]))
  }

  function Entry(t: Item): (string, string) {
    (t.backend, t.model)
  }

  /** What is between two tests of one entry is of that entry. */
  lemma BetweenIsSame(a: Item, b: Item, c: Item)
    requires !TupleLess(SortKey(b), SortKey(a)) && !TupleLess(SortKey(c), SortKey(b)) && Entry(a) == Entry(c)
    ensures Entry(b) == Entry(a)
  {
    FirstFields(a, b);
    FirstFields(b, c);
    LessTotal(a.backend, b.backend);
    LessTotal(a.model, b.model);
  }

  lemma FirstFields(a: Item, b: Item)
    ensures a.backend != b.backend ==> (TupleLess(SortKey(b), SortKey(a)) <==> Less(b.backend, a.backend))
    ensures a.backend == b.backend && a.model != b.model ==>
            (TupleLess(SortKey(b), SortKey(a)) <==> Less(b.model, a.model))
  {
    var x, y := SortKey(a), SortKey(b);
    assert x[1..][0] == a.model && y[1..][0] == b.model;
  }

  // --- how often a sequence of keys changes ---------------------------------------------------------

  function Changes<T(==)>(ks: seq<T>): nat {
    if ks == [] then 0
    else
      var n := |ks| - 1;
      Changes(ks[..n]) + if n > 0 && ks[n - 1] == ks[n] then 0 else 1
  }

  function Distinct<T(==)>(ks: seq<T>): set<T> {
    set k | k in ks
  }

  ghost predicate Clustered<T>(ks: seq<T>) {
    forall i, j, k | 0 <= i < j < k < |ks| && ks[i] == ks[k] :: ks[j] == ks[i]
  }

  lemma DistinctGrows<T>(ks: seq<T>)
    requires ks != []
    ensures Distinct(ks) == Distinct(ks[..|ks| - 1]) + {ks[|ks| - 1]}
  {
    assert ks == ks[..|ks| - 1] + [ks[|ks| - 1]];
  }

  /** Every distinct key takes a change to get to; where equal keys stand together, no more. */
  lemma {:induction false} ChangesCount<T>(ks: seq<T>)
    ensures |Distinct(ks)| <= Changes(ks)
    ensures Clustered(ks) ==> Changes(ks) == |Distinct(ks)|
  {
    if ks != [] {
      var n := |ks| - 1;
      var front, last := ks[..n], ks[n];
      ChangesCount(front);
      DistinctGrows(ks);
      if last in front {
        assert Distinct(ks) == Distinct(front);
        if Clustered(ks) {
          var i :| 0 <= i < n && front[i] == last;
          assert i < n - 1 ==> ks[n - 1] == ks[i];
        }
      } else {
        assert n > 0 ==> ks[n - 1] in front;
      }
    }
  }

  /** How often a sequence changes to one key. */
  function ChangesTo<T(==)>(ks: seq<T>, k: T): nat {
    if ks == [] then 0
    else
      var n := |ks| - 1;
      ChangesTo(ks[..n], k) + if ks[n] != k || (n > 0 && ks[n - 1] == k) then 0 else 1
  }

  /** Where equal keys stand together, each is changed to once. */
  lemma {:induction false} OneChangeEach<T>(ks: seq<T>, k: T)
    requires Clustered(ks)
    ensures ChangesTo(ks, k) == if k in ks then 1 else 0
  {
    if ks != [] {
      var n := |ks| - 1;
      var front := ks[..n];
      OneChangeEach(front, k);
      assert ks == front + [ks[n]];
      if k in front {
        var i :| 0 <= i < n && front[i] == k;
        assert ks[n] == k && i < n - 1 ==> ks[n - 1] == ks[i];
      } else {
        assert n > 0 ==> ks[n - 1] in front;
      }
    }
  }

  // --- the pool on such an order ---------------------------------------------------------------------

  function Starts(log: seq<Event>): nat {
    if log == [] then 0 else Starts(log[..|log| - 1]) + if log[|log| - 1].Started? then 1 else 0
  }

  function StartsFor(log: seq<Event>, key: Key): nat {
    if log == [] then 0
    else
      var e := log[|log| - 1];
      StartsFor(log[..|log| - 1], key) + if e.Started? && e.key == key then 1 else 0
  }

  lemma StartsStep(log: seq<Event>, e: Event)
    ensures Starts(log + [e]) == Starts(log) + if e.Started? then 1 else 0
    ensures forall key :: StartsFor(log + [e], key) == StartsFor(log, key) + if e.Started? && e.key == key then 1 else 0
  {
    assert (log + [e])[..|log|] == log;
  }

  lemma {:induction false} SpawnStartsNone(p: Pool, launch: nat, n: nat)
    ensures Starts(Spawn(p, launch, n).log) == Starts(p.log)
    ensures forall key :: StartsFor(Spawn(p, launch, n).log, key) == StartsFor(p.log, key)
  {
    hide Starts, StartsFor;
    if n > 0 {
      SpawnStartsNone(p, launch, n - 1);
      StartsStep(Spawn(p, launch, n - 1).log, Spawned(Worker(launch, n - 1)));
    }
  }

  lemma {:induction false} StopStartsNone(p: Pool, ws: seq<Worker>, stuck: set<Worker>)
    ensures var q := StopSome(p, ws, stuck);
            Starts(q.log) == Starts(p.log) && forall key :: StartsFor(q.log, key) == StartsFor(p.log, key)
  {
    hide Starts, StartsFor;
    if ws != [] {
      var n := |ws| - 1;
      StopStartsNone(p, ws[..n], stuck);
      var q := StopSome(p, ws[..n], stuck);
      StartsStep(q.log, StopFailed(ws[n]));
      StartsStep(q.log, Stopped(ws[n]));
    }
  }

  /** A world in which nothing dies and nothing fails. */
  ghost predicate Healthy(w: World) {
    w.dead == {} && !w.shutdownFails && w.evictCut == None && w.start == Up
  }

  function Visits(keys: seq<Key>, w: World): seq<Op> {
    seq(|keys|, i requires 0 <= i < |keys| => OpAcquire(keys[i], false, w))
  }

  ghost predicate Poolable(keys: seq<Key>) {
    forall k | k in keys :: !Uncached(k)
  }

  /** The pool is open, has no gateway, and nothing in its slot is gone. */
  ghost predicate InShape(p: Pool) {
    !p.closed && p.gateway.None? && (p.key.None? ==> p.workers == []) && forall x | x in p.workers :: x !in p.gone
  }

  /** One visit starts a set exactly when the pool holds another key. */
  lemma VisitStarts(p: Pool, key: Key, w: World)
    requires Healthy(w) && !Uncached(key) && InShape(p) && Inv(p)
    ensures var q := Acquire(p, key, false, w).0;
            && q.key == Some(key) && InShape(q)
            && Starts(q.log) == Starts(p.log) + (if p.key == Some(key) then 0 else 1)
            && forall k ::
                 StartsFor(q.log, k) ==
                 StartsFor(p.log, k) + (if p.key == Some(key) || k != key then 0 else 1)
  {
    hide Inv, Launch, Starts, StartsFor, Spawn, StopSome;
    if p.key != Some(key) {
      EvictKeeps(p, w);
      var q := if p.key.Some? then Evict(p, w).0 else p;
      StopStartsNone(p, p.workers, w.stuck);
      var begun := Note(q.(next := q.next + 1), Started(q.next, key));
      StartsStep(q.log, Started(q.next, key));
      SpawnStartsNone(begun, q.next, key.count);
      SpawnFrame(begun, q.next, key.count);
      StartsStep(Spawn(begun, q.next, key.count).log, Cached(q.next));
      NewNotGone(q);
    }
  }

  lemma {:induction false} SpawnFrame(p: Pool, launch: nat, n: nat)
    ensures Spawn(p, launch, n) == p.(log := Spawn(p, launch, n).log)
  {
    if n > 0 {
      SpawnFrame(p, launch, n - 1);
    }
  }

  /** The pool starts a set exactly when the key changes. */
  lemma {:induction false} StartsAreChanges(keys: seq<Key>, w: World)
    requires Healthy(w) && Poolable(keys)
    ensures var p := Run(Visits(keys, w));
            && Starts(p.log) == Changes(keys) && (forall k :: StartsFor(p.log, k) == ChangesTo(keys, k))
            && InShape(p) && p.key == if keys == [] then None else Some(keys[|keys| - 1])
  {
    hide Acquire, Starts, StartsFor, Inv;
    if keys == [] {
      NothingStarted();
    } else {
      var n := |keys| - 1;
      var front, key := keys[..n], keys[n];
      StartsAreChanges(front, w);
      assert Visits(keys, w)[..n] == Visits(front, w);
      assert Visits(keys, w)[n] == OpAcquire(key, false, w);
      assert n > 0 ==> front[n - 1] == keys[n - 1];
      EveryRunKeeps(Visits(front, w));
      VisitStarts(Run(Visits(front, w)), key, w);
    }
  }

  lemma NothingStarted()
    ensures Starts([]) == 0 && forall k :: StartsFor([], k) == 0
  {
  }

  function KeysOf(items: seq<Item>, pool: map<(string, string), Key>): seq<Key>
    requires forall t | t in items :: Entry(t) in pool
  {
    seq(|items|, i requires 0 <= i < |items| => assert items[i] in items; pool[Entry(items[i])])
  }

  /** The pool key is a one-to-one function of backend and model, and such sets are kept. */
  ghost predicate OneToOne(items: seq<Item>, pool: map<(string, string), Key>) {
    && (forall t | t in items :: Entry(t) in pool && !Uncached(pool[Entry(t)]))
    && (forall t, u | t in items && u in items && pool[Entry(t)] == pool[Entry(u)] :: Entry(t) == Entry(u))
  }

  lemma SortedIsClustered(items: seq<Item>, pool: map<(string, string), Key>)
    requires OneToOne(items, pool) && Sorted(items)
    ensures Clustered(KeysOf(items, pool))
  {
    var ks := KeysOf(items, pool);
    forall i, j, k | 0 <= i < j < k < |ks| && ks[i] == ks[k] ensures ks[j] == ks[i] {
      assert items[i] in items && items[k] in items;
      BetweenIsSame(items[i], items[j], items[k]);
    }
  }

  lemma SameKeys(xs: seq<Item>, ys: seq<Item>, pool: map<(string, string), Key>)
    requires multiset(xs) == multiset(ys) && (forall t | t in xs :: Entry(t) in pool)
    ensures (forall t :: t in xs <==> t in ys)
    ensures (forall t | t in ys :: Entry(t) in pool) && Distinct(KeysOf(xs, pool)) == Distinct(KeysOf(ys, pool))
  {
    assert forall t :: t in xs <==> t in multiset(xs);
    assert forall t :: t in ys <==> t in multiset(ys);
    KeysWithin(xs, ys, pool);
    KeysWithin(ys, xs, pool);
  }

  lemma KeysWithin(xs: seq<Item>, ys: seq<Item>, pool: map<(string, string), Key>)
    requires forall t :: t in xs <==> t in ys
    requires forall t | t in xs :: Entry(t) in pool
    ensures Distinct(KeysOf(xs, pool)) <= Distinct(KeysOf(ys, pool))
  {
    forall k | k in KeysOf(xs, pool) ensures k in KeysOf(ys, pool) {
      var i :| 0 <= i < |xs| && KeysOf(xs, pool)[i] == k;
      assert xs[i] in ys;
      var j :| 0 <= j < |ys| && ys[j] == xs[i];
      assert KeysOf(ys, pool)[j] == k;
    }
  }

  /** In sorted order the pool starts each key once, and no order of the same tests starts fewer sets. */
  lemma SortedStartsLeast(items: seq<Item>, other: seq<Item>, pool: map<(string, string), Key>, w: World)
    requires OneToOne(items, pool) && Sorted(items) && multiset(other) == multiset(items) && Healthy(w)
    ensures Starts(Run(Visits(KeysOf(items, pool), w)).log) == |Distinct(KeysOf(items, pool))|
    ensures forall k | k in KeysOf(items, pool) :: StartsFor(Run(Visits(KeysOf(items, pool), w)).log, k) == 1
    ensures forall t | t in other :: Entry(t) in pool
    ensures Starts(Run(Visits(KeysOf(items, pool), w)).log) <= Starts(Run(Visits(KeysOf(other, pool), w)).log)
  {
    hide Run, Starts, StartsFor, Visits, Changes, ChangesTo, Sorted;
    var ks := KeysOf(items, pool);
    SortedIsClustered(items, pool);
    SameKeys(items, other, pool);
    var os := KeysOf(other, pool);
    assert Poolable(ks) by {
      forall k | k in ks ensures !Uncached(k) {
        var i :| 0 <= i < |ks| && ks[i] == k;
        assert items[i] in items;
      }
    }
    assert Poolable(os) by {
      forall k | k in os ensures !Uncached(k) {
        assert k in Distinct(os);
        assert k in Distinct(ks);
      }
    }
    StartsAreChanges(ks, w);
    StartsAreChanges(os, w);
    ChangesCount(ks);
    ChangesCount(os);
    forall k | k in ks ensures ChangesTo(ks, k) == 1 {
      OneChangeEach(ks, k);
    }
  }
}
