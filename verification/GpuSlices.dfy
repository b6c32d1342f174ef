/** The GPUs of a fleet: every worker gets its own slice, pool after pool. */
module GpuSlices {
  import opened Text

  /** The GPUs `from`, ..., `to - 1`. */
  datatype Slice = Slice(from: int, to: int)

  // --- sizing ---------------------------------------------------------------------------------------

  /** Python's `a or b` on a size. */
  function OrElse(a: Option<nat>, b: nat): nat {
    if a.Some? && a.value != 0 then a.value else b
  }

  /** GPUs per worker: what is asked for, else the tensor-parallel size, else the model's; a grouped ZMQ
      worker launches `engines` of that width unless its GPUs were named. */
  function Width(gpus: Option<nat>, tp: Option<nat>, specTp: nat, engines: nat): nat {
    OrElse(gpus, OrElse(tp, specTp)) * if gpus.None? then engines else 1
  }

  /** A pool's own tensor-parallel size, by which the fixtures step. */
  function Size(tp: Option<nat>, specTp: nat): nat {
    OrElse(tp, specTp)
  }

  /** `count` slices of one width, `step` apart. */
  function Spread(offset: int, step: int, width: int, count: nat): (r: seq<Slice>)
    ensures |r| == count
  {
    seq(count, i requires 0 <= i < count => Slice(offset + i * step, offset + i * step + width))
  }

  /** `_start_pd_pool`: in one go each worker follows the one before; one by one they are a tensor-parallel size
      apart. */
  function PoolSlices(batch: bool, offset: int, tp: Option<nat>, specTp: nat, engines: nat, count: nat): seq<Slice> {
    var width := Width(None, tp, specTp, engines);
    Spread(offset, if batch then width else Size(tp, specTp), width, count)
  }

  /** The step is the width exactly when nothing is grouped. */
  lemma StepIsWidth(tp: Option<nat>, specTp: nat, engines: nat)
    requires specTp > 0
    ensures Size(tp, specTp) == Width(None, tp, specTp, engines) <==> engines == 1
  {
    var n := Size(tp, specTp);
    assert n * engines - n == n * (engines - 1);
    if engines != 1 {
      ProductNotZero(n, engines - 1);
    }
  }

  lemma ProductNotZero(a: int, b: int)
    requires a != 0 && b != 0
    ensures a * b != 0
  {
  }

  /** One by one the workers get the slices of a batch exactly when nothing is grouped or there is one worker. */
  lemma OneByOneIsBatch(offset: int, tp: Option<nat>, specTp: nat, engines: nat, count: nat)
    requires specTp > 0
    ensures PoolSlices(false, offset, tp, specTp, engines, count) ==
            PoolSlices(true, offset, tp, specTp, engines, count) <==>
            engines == 1 || count <= 1
  {
    StepIsWidth(tp, specTp, engines);
    var step, width := Size(tp, specTp), Width(None, tp, specTp, engines);
    if count > 1 {
      assert Spread(offset, step, width, count)[1].from == offset + step;
      assert Spread(offset, width, width, count)[1].from == offset + width;
    }
  }

  // --- starting and stopping workers -------------------------------------------------------------------

  /** What may go wrong while a set starts: one worker's launch, or the wait for their health. */
  datatype Trouble = Trouble(launch: Option<nat>, health: bool)

  predicate Fails(t: Trouble, count: nat) {
    t.health || (t.launch.Some? && t.launch.value < count)
  }

  /** A worker that was launched, by number, and its GPUs. */
  datatype Started = Started(id: nat, gpus: Slice)

  function Numbers(from: nat, to: nat): (r: set<nat>)
    ensures forall id: nat :: id in r <==> from <= id < to
  {
    if to <= from then {} else Numbers(from, to - 1) + {to - 1}
  }

  ghost function Ids(ws: seq<Started>): set<nat> {
    set w | w in ws :: w.id
  }

  /** The workers have these slices and are numbered from `from` on. */
  ghost predicate Launched(ws: seq<Started>, slices: seq<Slice>, from: nat) {
    |ws| == |slices| && forall k | 0 <= k < |ws| :: ws[k] == Started(from + k, slices[k])
  }

  lemma LaunchedIds(ws: seq<Started>, slices: seq<Slice>, from: nat)
    requires Launched(ws, slices, from)
    ensures Ids(ws) == Numbers(from, from + |ws|)
  {
    forall id | id in Numbers(from, from + |ws|) ensures id in Ids(ws) {
      assert ws[id - from] in ws && ws[id - from].id == id;
    }
  }

  /** The machine the workers run on. */
  class Host {
    var running: set<nat>
    var next: nat

    ghost predicate Valid()
      reads this
    {
      forall id | id in running :: id < next
    }

    constructor ()
      ensures Valid() && running == {} && next == 0
    {
      running, next := {}, 0;
    }

    method Launch(gpus: Slice) returns (w: Started)
      requires Valid()
      modifies this
      ensures Valid() && w == Started(old(next), gpus) && next == old(next) + 1 && running == old(running) + {old(next)}
    {
      w := Started(next, gpus);
      running, next := running + {next}, next + 1;
    }

    /** `stop_workers`: every one of them in turn; a stop that raises is logged and passed over. */
    method StopWorkers(ws: seq<Started>, stubborn: set<nat>)
      requires Valid()
      modifies `running
      ensures Valid() && running == old(running) - (Ids(ws) - stubborn)
    {
      for i := 0 to |ws|
        invariant running == old(running) - (Ids(ws[..i]) - stubborn)
      {
        IdsGrow(ws, i);
        if ws[i].id !in stubborn {
          running := running - {ws[i].id};
        }
      }
      assert ws[..|ws|] == ws;
    }

    /** `start_workers`: one slice after the other. When a launch or the wait fails every worker launched so far is
        stopped, and only those run on whose stop raised. */
    method StartWorkers(offset: int, width: int, count: nat, t: Trouble, stubborn: set<nat>)
      returns (r: Option<seq<Started>>)
      requires Valid()
      modifies this
      ensures Valid() && next >= old(next)
      ensures r.None? <==> Fails(t, count)
      ensures r.Some? ==> Launched(r.value, Spread(offset, width, width, count), old(next)) && next == old(next) + count
      ensures running == old(running) +
              if r.Some? then Numbers(old(next), next) else Numbers(old(next), next) * stubborn
    {
      var gpuOffset, workers := offset, [];
      for i := 0 to count
        invariant gpuOffset == offset + i * width && |workers| == i && next == old(next) + i
        invariant Launched(workers, Spread(offset, width, width, i), old(next))
        invariant Valid() && running == old(running) + Numbers(old(next), next)
        invariant t.launch.Some? ==> i <= t.launch.value || count <= t.launch.value
      {
        var worker := Launch(Slice(gpuOffset, gpuOffset + width));
        gpuOffset := gpuOffset + width;
        workers := workers + [worker];
        assert Launched(workers, Spread(offset, width, width, i + 1), old(next));
        if t.launch == Some(i) {
          LaunchedIds(workers, Spread(offset, width, width, i + 1), old(next));
          StopWorkers(workers, stubborn);
          return None;
        }
      }
      if t.health {
        LaunchedIds(workers, Spread(offset, width, width, count), old(next));
        StopWorkers(workers, stubborn);
        return None;
      }
      return Some(workers);
    }

    /** `_start_pd_pool`: as above for the whole pool, in one go or one by one. */
    method StartPool(batch: bool, offset: int, tp: Option<nat>, specTp: nat, engines: nat, count: nat,
                     troubles: seq<Trouble>, stubborn: set<nat>)
      returns (r: Option<seq<Started>>)
      requires Valid() && |troubles| == if batch then 1 else count
      modifies this
      ensures Valid() && next >= old(next)
      ensures r.None? <==>
              if batch then Fails(troubles[0], count) else exists i :: 0 <= i < count && Fails(troubles[i], 1)
      ensures r.Some? ==> next == old(next) + count
      ensures r.Some? ==> Launched(r.value, PoolSlices(batch, offset, tp, specTp, engines, count), old(next))
      ensures running == old(running) +
              if r.Some? then Numbers(old(next), next) else Numbers(old(next), next) * stubborn
    {
      hide Width, Size;
      var width := Width(None, tp, specTp, engines);
      if batch {
        r := StartWorkers(offset, width, count, troubles[0], stubborn);
        return;
      }
      var step := Size(tp, specTp);
      var workers := [];
      for i := 0 to count
        invariant |workers| == i && next == old(next) + i
        invariant Launched(workers, Spread(offset, step, width, i), old(next))
        invariant Valid() && running == old(running) + Numbers(old(next), next)
        invariant forall k | 0 <= k < i :: !Fails(troubles[k], 1)
      {
        ghost var before := next;
        var one := StartWorkers(offset + i * step, width, 1, troubles[i], stubborn);
        if one.None? {
          LaunchedIds(workers, Spread(offset, step, width, i), old(next));
          StopWorkers(workers, stubborn);
          assert Numbers(old(next), next) == Numbers(old(next), before) + Numbers(before, next);
          return None;
        }
        workers := workers + one.value;
        assert Launched(workers, Spread(offset, step, width, i + 1), old(next));
      }
      return Some(workers);
    }
  }

  lemma IdsGrow(ws: seq<Started>, i: nat)
    requires i < |ws|
    ensures Ids(ws[..i + 1]) == Ids(ws[..i]) + {ws[i].id}
  {
    assert ws[..i + 1] == ws[..i] + [ws[i]];
  }

  // --- tiling ----------------------------------------------------------------------------------------

  /** The slices follow one another from `from` to `to` without a gap. */
  ghost predicate Tile(slices: seq<Slice>, from: int, to: int) {
    && (forall i | 0 <= i < |slices| :: slices[i].from <= slices[i].to)
    && (forall i | 0 < i < |slices| :: slices[i - 1].to == slices[i].from)
    && (if slices == [] then from == to else slices[0].from == from && slices[|slices| - 1].to == to)
  }

  ghost predicate Has(s: Slice, g: int) {
    s.from <= g < s.to
  }

  ghost predicate Disjoint(slices: seq<Slice>) {
    forall i, j, g | 0 <= i < j < |slices| && Has(slices[i], g) :: !Has(slices[j], g)
  }

  ghost predicate Covers(slices: seq<Slice>, g: int) {
    exists i | 0 <= i < |slices| :: Has(slices[i], g)
  }

  lemma {:induction false} TileOrder(slices: seq<Slice>, from: int, to: int, i: nat, j: nat)
    requires Tile(slices, from, to) && i < j < |slices|
    ensures slices[i].to <= slices[j].from
    decreases j
  {
    if i + 1 < j {
      TileOrder(slices, from, to, i, j - 1);
    }
  }

  /** No two slices of a tiling share a GPU. */
  lemma TileDisjoint(slices: seq<Slice>, from: int, to: int)
    requires Tile(slices, from, to)
    ensures Disjoint(slices)
  {
    forall i, j | 0 <= i < j < |slices| ensures slices[i].to <= slices[j].from {
      TileOrder(slices, from, to, i, j);
    }
  }

  /** And together they are exactly the range. */
  lemma {:induction false} TileCovers(slices: seq<Slice>, from: int, to: int, g: int)
    requires Tile(slices, from, to)
    ensures Covers(slices, g) <==> from <= g < to
  {
    if slices != [] {
      var n := |slices| - 1;
      var last := slices[n];
      var front := slices[..n];
      assert Tile(front, from, last.from);
      TileCovers(front, from, last.from, g);
      TileEnds(front, from, last.from);
      if Covers(front, g) {
        var i :| 0 <= i < |front| && Has(front[i], g);
        assert slices[i] == front[i];
      }
      if Covers(slices, g) {
        var i :| 0 <= i < |slices| && Has(slices[i], g);
        assert i < n ==> front[i] == slices[i];
      }
    }
  }

  lemma {:induction false} TileEnds(slices: seq<Slice>, from: int, to: int)
    requires Tile(slices, from, to)
    ensures from <= to
  {
    if |slices| > 1 {
      TileOrder(slices, from, to, 0, |slices| - 1);
    }
  }

  lemma SpreadTiles(offset: int, width: nat, count: nat)
    ensures Tile(Spread(offset, width, width, count), offset, offset + count * width)
  {
    var s := Spread(offset, width, width, count);
    forall i | 0 < i < |s| ensures s[i - 1].to == s[i].from {
      assert (i - 1) * width + width == i * width;
    }
    if count > 0 {
      assert (count - 1) * width + width == count * width;
    }
  }

  lemma TilesJoin(a: seq<Slice>, b: seq<Slice>, from: int, mid: int, to: int)
    requires Tile(a, from, mid) && Tile(b, mid, to)
    ensures Tile(a + b, from, to)
  {
  }

  // --- fleets ------------------------------------------------------------------------------------------

  /** One pool of a fleet: how many workers, their own tensor-parallel size if any, and whether they start in one go. */
  datatype Side = Side(count: nat, tp: Option<nat>, batch: bool)

  /** `_setup_pd`: the decode pool starts where the prefill pool's tensor-parallel sizes end. */
  function PdFleet(lane: int, prefill: Side, decode: Side, specTp: nat, engines: nat): seq<Slice> {
    PoolSlices(prefill.batch, lane, prefill.tp, specTp, engines, prefill.count) +
    PoolSlices(decode.batch, lane + prefill.count * Size(prefill.tp, specTp), decode.tp, specTp, engines, decode.count)
  }

  /** `_setup_epd`: an encoder takes one GPU whatever the model's tensor-parallel size. */
  function EpdFleet(lane: int, encode: nat, prefill: nat, decode: nat, tp: nat): seq<Slice> {
    Spread(lane, Width(Some(1), None, tp, 1), Width(Some(1), None, tp, 1), encode) +
    PoolSlices(true, lane + encode, None, tp, 1, prefill) +
      PoolSlices(true, lane + (encode + prefill * tp), None, tp, 1, decode)
  }

  /** An ungrouped pool tiles its GPUs, however it is started. */
  lemma PoolTiles(batch: bool, offset: int, tp: Option<nat>, specTp: nat, count: nat)
    ensures Tile(PoolSlices(batch, offset, tp, specTp, 1, count), offset, offset + count * Size(tp, specTp))
  {
    hide Tile, Spread;
    var n := Size(tp, specTp);
    assert Width(None, tp, specTp, 1) == n;
    SpreadTiles(offset, n, count);
  }

  /** A prefill/decode fleet tiles the lane's GPUs, whichever way either pool is started. */
  lemma PdFleetTiles(lane: int, prefill: Side, decode: Side, specTp: nat)
    ensures var fleet := PdFleet(lane, prefill, decode, specTp, 1);
            && Tile(fleet, lane,
                    lane + prefill.count * Size(prefill.tp, specTp) + decode.count * Size(decode.tp, specTp))
            && Disjoint(fleet)
  {
    hide PoolSlices, Tile, Disjoint, Size;
    var mid := lane + prefill.count * Size(prefill.tp, specTp);
    var end := mid + decode.count * Size(decode.tp, specTp);
    PoolTiles(prefill.batch, lane, prefill.tp, specTp, prefill.count);
    PoolTiles(decode.batch, mid, decode.tp, specTp, decode.count);
    TilesJoin(PoolSlices(prefill.batch, lane, prefill.tp, specTp, 1, prefill.count),
              PoolSlices(decode.batch, mid, decode.tp, specTp, 1, decode.count), lane, mid, end);
    TileDisjoint(PdFleet(lane, prefill, decode, specTp, 1), lane, end);
  }

  lemma EpdFleetTiles(lane: int, encode: nat, prefill: nat, decode: nat, tp: nat)
    ensures var fleet := EpdFleet(lane, encode, prefill, decode, tp);
            Tile(fleet, lane, lane + encode + prefill * tp + decode * tp) && Disjoint(fleet)
  {
    hide PoolSlices, Spread, Tile, Disjoint;
    var a, b, c := lane + encode, lane + (encode + prefill * tp), lane + encode + prefill * tp + decode * tp;
    var e, p, d := Spread(lane, 1, 1, encode), PoolSlices(true, a, None, tp, 1, prefill),
        PoolSlices(true, b, None, tp, 1, decode);
    SpreadTiles(lane, 1, encode);
    PoolTiles(true, a, None, tp, prefill);
    PoolTiles(true, b, None, tp, decode);
    TilesJoin(e, p, lane, a, b);
    TilesJoin(e + p, d, lane, b, c);
    TileDisjoint(e + p + d, lane, c);
  }

  /** With workers on both sides, their slices are apart exactly when nothing is grouped: a worker of several engines
      is wider than the step to the next, and wider than the decode offset allows for. */
  lemma GroupedFleetDisjointIff(lane: int, prefill: Side, decode: Side, specTp: nat, engines: nat)
    requires specTp > 0 && engines > 0 && prefill.count > 0 && decode.count > 0
    ensures Disjoint(PdFleet(lane, prefill, decode, specTp, engines)) <==> engines == 1
  {
    hide PdFleet, Disjoint, Tile;
    if engines == 1 {
      PdFleetTiles(lane, prefill, decode, specTp);
    } else {
      GroupedOverlap(lane, prefill, decode, specTp, engines);
    }
  }

  /** The last prefill worker reaches past the decode offset, where the first decode worker begins. */
  lemma GroupedOverlap(lane: int, prefill: Side, decode: Side, specTp: nat, engines: nat)
    requires specTp > 0 && engines > 1 && prefill.count > 0 && decode.count > 0
    ensures !Disjoint(PdFleet(lane, prefill, decode, specTp, engines))
  {
    hide Spread, Disjoint;
    var n, g := Size(prefill.tp, specTp), lane + prefill.count * Size(prefill.tp, specTp);
    var p, d := PoolSlices(prefill.batch, lane, prefill.tp, specTp, engines, prefill.count),
        PoolSlices(decode.batch, g, decode.tp, specTp, engines, decode.count);
    LastReaches(lane, n, n * engines, prefill.count, prefill.batch, engines);
    FirstBegins(g, Size(decode.tp, specTp), engines, decode.count, decode.batch);
    SharedGpu(p, d, g);
  }

  /** A worker wider than the step reaches past `count` steps. */
  lemma LastReaches(offset: int, n: nat, width: nat, count: nat, batch: bool, engines: nat)
    requires n > 0 && engines > 1 && count > 0 && width == n * engines
    ensures Covers(Spread(offset, if batch then width else n, width, count), offset + count * n)
  {
    hide Spread, Covers, Tile;
    Grouped(1, n, engines);
    Grouped(count, n, engines);
    if batch {
      SpreadTiles(offset, width, count);
      TileCovers(Spread(offset, width, width, count), offset, offset + count * width, offset + count * n);
    } else {
      StepsReach(offset, n, width, count);
    }
  }

  lemma StepsReach(offset: int, n: nat, width: nat, count: nat)
    requires 0 < n < width && count > 0
    ensures Covers(Spread(offset, n, width, count), offset + count * n)
  {
    var s, k := Spread(offset, n, width, count), count - 1;
    assert k * n + n == count * n;
    assert s[k] == Slice(offset + k * n, offset + k * n + width);
    assert Has(s[k], offset + count * n);
  }

  lemma FirstBegins(offset: int, n: nat, engines: nat, count: nat, batch: bool)
    requires n > 0 && engines > 1 && count > 0
    ensures Covers(Spread(offset, if batch then n * engines else n, n * engines, count), offset)
  {
    Grouped(1, n, engines);
    var s := Spread(offset, if batch then n * engines else n, n * engines, count);
    assert s[0].from == offset;
    assert Has(s[0], offset);
  }

  lemma SharedGpu(a: seq<Slice>, b: seq<Slice>, g: int)
    requires Covers(a, g) && Covers(b, g)
    ensures !Disjoint(a + b)
  {
    var i :| 0 <= i < |a| && Has(a[i], g);
    var j :| 0 <= j < |b| && Has(b[j], g);
    assert (a + b)[i] == a[i] && (a + b)[|a| + j] == b[j];
  }

  lemma Grouped(count: nat, tp: nat, engines: nat)
    requires count > 0 && tp > 0 && engines > 1
    ensures 0 < count * tp < count * (tp * engines)
  {
    assert tp * engines == tp + tp * (engines - 1);
    assert tp * (engines - 1) > 0;
    assert count * (tp * engines) == count * tp + count * (tp * (engines - 1));
    assert count * (tp * (engines - 1)) > 0;
    assert count * tp > 0;
  }
}
