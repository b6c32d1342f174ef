/**
 The mesh's rate-limit counters: a replicated value per key that keeps the largest `(epoch, count)` written
 after the newest delete. A state holds the live points that still matter and the newest tombstone; merging
 states is how replicas apply writes, remote logs and compacted logs alike.
 */
module RateLimitShard {
  import opened Text
  import opened Collections

  // --- versions and values -------------------------------------------------------------------------

  /** A write's Lamport timestamp and replica, in that order. */
  datatype Version = Version(timestamp: nat, replica: nat)

  predicate Older(a: Version, b: Version) {
    a.timestamp < b.timestamp || (a.timestamp == b.timestamp && a.replica < b.replica)
  }

  datatype EpochCount = EpochCount(epoch: nat, count: int)

  /** `compare_epoch_count`: a later epoch wins, then a larger count. */
  predicate Below(a: EpochCount, b: EpochCount) {
    a.epoch < b.epoch || (a.epoch == b.epoch && a.count < b.count)
  }

  datatype Point = Point(value: EpochCount, version: Version)

  predicate After(p: Point, tomb: Option<Version>) {
    tomb.None? || Older(tomb.value, p.version)
  }

  function Newest(a: Option<Version>, b: Option<Version>): Option<Version> {
    if a.None? then b else if b.None? then a else if Older(a.value, b.value) then b else a
  }

  // --- what a set of writes means ------------------------------------------------------------------

  /** The points written after the tombstone. */
  ghost function Alive(points: set<Point>, tomb: Option<Version>): set<Point> {
    set p | p in points && After(p, tomb)
  }

  /** A newer write is at least as large. */
  ghost predicate BeatenBy(p: Point, q: Point) {
    Older(p.version, q.version) && !Below(q.value, p.value)
  }

  ghost predicate Beaten(points: set<Point>, p: Point) {
    exists q :: q in points && BeatenBy(p, q)
  }

  /** The points no newer one makes redundant. */
  ghost function Front(points: set<Point>): set<Point> {
    set p | p in points && !Beaten(points, p)
  }

  ghost function Newer(points: set<Point>, p: Point): set<Point> {
    set q | q in points && Older(p.version, q.version)
  }

  /** A redundant point is beaten by one that is not. */
  lemma {:induction false} BeatenFromFront(points: set<Point>, p: Point) returns (q: Point)
    requires Beaten(points, p)
    ensures q in Front(points) && BeatenBy(p, q)
    decreases |Newer(points, p)|
  {
    q :| q in points && BeatenBy(p, q);
    if Beaten(points, q) {
      ProperIsSmaller(Newer(points, q), Newer(points, p), q);
      q := BeatenFromFront(points, q);
    }
  }

  /** What is left out never matters again, whatever comes later and however far the tombstone moves. */
  lemma FrontAbsorbs(a: set<Point>, b: set<Point>, before: Option<Version>, after: Option<Version>)
    requires Newest(before, after) == after
    ensures Front(Alive(Front(Alive(a, before)) + b, after)) == Front(Alive(a + b, after))
  {
    hide Front;
    var kept := Front(Alive(a, before));
    var small, all := Alive(kept + b, after), Alive(a + b, after);
    FrontWithin(Alive(a, before));
    forall p ensures p in Front(small) <==> p in Front(all) {
      FrontIs(small, p);
      FrontIs(all, p);
      if p in all && !Beaten(all, p) {
        StillThere(a, b, before, after, p);
      }
      if p in small && Beaten(all, p) {
        StillBeaten(a, b, before, after, p);
      }
    }
  }

  lemma FrontIs(points: set<Point>, p: Point)
    ensures p in Front(points) <==> p in points && !Beaten(points, p)
  {
  }

  lemma FrontWithin(points: set<Point>)
    ensures Front(points) <= points
  {
  }

  lemma StillThere(a: set<Point>, b: set<Point>, before: Option<Version>, after: Option<Version>, p: Point)
    requires Newest(before, after) == after && p in Alive(a + b, after) && !Beaten(Alive(a + b, after), p)
    ensures p in Alive(Front(Alive(a, before)) + b, after)
  {
    if p !in b {
      assert p in Alive(a, before);
      forall q | q in Alive(a, before) && BeatenBy(p, q) ensures q in Alive(a + b, after) {
      }
    }
  }

  lemma StillBeaten(a: set<Point>, b: set<Point>, before: Option<Version>, after: Option<Version>, p: Point)
    requires Newest(before, after) == after && p in Alive(a + b, after) && Beaten(Alive(a + b, after), p)
    ensures Beaten(Alive(Front(Alive(a, before)) + b, after), p)
  {
    var q :| q in Alive(a + b, after) && BeatenBy(p, q);
    if q in b {
      assert q in Alive(Front(Alive(a, before)) + b, after);
    } else {
      assert q in Alive(a, before);
      if Beaten(Alive(a, before), q) {
        var r := BeatenFromFront(Alive(a, before), q);
        assert r in Alive(Front(Alive(a, before)) + b, after) && BeatenBy(p, r);
      } else {
        assert q in Alive(Front(Alive(a, before)) + b, after);
      }
    }
  }

  /** What is read, the largest value, is the largest ever written after the tombstone. */
  lemma FrontKeepsLargest(points: set<Point>, tomb: Option<Version>, top: Point)
    requires top in Front(Alive(points, tomb))
    requires forall p | p in Front(Alive(points, tomb)) :: !Below(top.value, p.value)
    ensures forall p | p in points && After(p, tomb) :: !Below(top.value, p.value)
  {
    forall p | p in points && After(p, tomb) ensures !Below(top.value, p.value) {
      if Beaten(Alive(points, tomb), p) {
        var q := BeatenFromFront(Alive(points, tomb), p);
      } else {
        assert p in Front(Alive(points, tomb));
      }
    }
  }

  // --- states ----------------------------------------------------------------------------------------

  datatype State = Live(points: seq<Point>, tomb: Option<Version>) | Tombstone(version: Version)

  function Elems(ps: seq<Point>): (r: set<Point>)
    ensures forall p :: p in r <==> p in ps
  {
    set p | p in ps
  }

  function Points(s: State): set<Point> {
    if s.Live? then Elems(s.points) else {}
  }

  function Tomb(s: State): Option<Version> {
    if s.Live? then s.tomb else Some(s.version)
  }

  /** Live points by version, each newer one smaller, all of them after the tombstone. */
  ghost predicate Canonical(s: State) {
    s.Live? ==>
      && s.points != [] && (forall i | 0 <= i < |s.points| :: After(s.points[i], s.tomb))
      && (forall i, j | 0 <= i < j < |s.points| :: Older(s.points[i].version, s.points[j].version))
      && (forall i, j | 0 <= i < j < |s.points| :: Below(s.points[j].value, s.points[i].value))
  }

  /** A state is the front of the points and the tombstone of the writes it stands for. */
  ghost predicate Stands(s: State, points: set<Point>, tomb: Option<Version>) {
    Canonical(s) && Points(s) == Front(Alive(points, tomb)) && Tomb(s) == tomb
  }

  ghost predicate Ordered(points: seq<Point>) {
    forall i, j | 0 <= i < j < |points| :: Older(points[i].version, points[j].version)
  }

  lemma {:induction false} OneOrder(a: seq<Point>, b: seq<Point>)
    requires Ordered(a) && Ordered(b) && Elems(a) == Elems(b)
    ensures a == b
  {
    if a != [] && b != [] {
      assert a[0] in Elems(b) && b[0] in Elems(a);
      assert a[0] == b[0];
      RestOf(a);
      RestOf(b);
      OneOrder(a[1..], b[1..]);
      assert a == [a[0]] + a[1..] && b == [b[0]] + b[1..];
    } else {
      FirstInSet(a);
      FirstInSet(b);
    }
  }

  lemma RestOf(a: seq<Point>)
    requires Ordered(a) && a != []
    ensures Elems(a[1..]) == Elems(a) - {a[0]}
  {
    assert a == [a[0]] + a[1..];
    forall i | 0 <= i < |a[1..]| ensures a[1..][i] != a[0] {
      assert Older(a[0].version, a[i + 1].version);
    }
  }

  lemma FirstInSet(a: seq<Point>)
    ensures a == [] || a[0] in Elems(a)
  {
  }

  /** The same writes make the same state. */
  lemma StandsAlone(s: State, t: State, points: set<Point>, tomb: Option<Version>)
    requires Stands(s, points, tomb) && Stands(t, points, tomb)
    ensures s == t
  {
    hide Front;
    if s.Live? && t.Live? {
      OneOrder(s.points, t.points);
    } else if s.Live? {
      FirstInSet(s.points);
    } else if t.Live? {
      FirstInSet(t.points);
    }
  }

  /** A version names one write. */
  ghost predicate VersionsFix(points: set<Point>) {
    forall p, q | p in points && q in points && p.version == q.version :: p == q
  }

  /** The points of a canonical state are their own front. */
  lemma CanonicalIsFront(s: State)
    requires Canonical(s)
    ensures Points(s) == Front(Alive(Points(s), Tomb(s)))
  {
    var all := Alive(Points(s), Tomb(s));
    forall p | p in Points(s) ensures p in Front(all) {
      forall q | q in all ensures !BeatenBy(p, q) {
        var i :| 0 <= i < |s.points| && s.points[i] == p;
        var j :| 0 <= j < |s.points| && s.points[j] == q;
      }
    }
  }

  // --- merging -------------------------------------------------------------------------------------------

  /** A stable place among points with the newest first. */
  function PlaceDown(p: Point, ps: seq<Point>): (r: seq<Point>)
    ensures forall q :: q in r <==> q == p || q in ps
  {
    if ps == [] then [p]
    else if Older(ps[0].version, p.version) then [p] + ps
    else
      assert ps == [ps[0]] + ps[1..];
      [ps[0]] + PlaceDown(p, ps[1..])
  }

  /** `sort_by_key(Reverse(version))` */
  function SortDown(ps: seq<Point>): (r: seq<Point>)
    ensures forall q :: q in r <==> q in ps
  {
    if ps == [] then []
    else
      assert ps == ps[..|ps| - 1] + [ps[|ps| - 1]];
      PlaceDown(ps[|ps| - 1], SortDown(ps[..|ps| - 1]))
  }

  function PlaceUp(p: Point, ps: seq<Point>): (r: seq<Point>)
    ensures forall q :: q in r <==> q == p || q in ps
  {
    if ps == [] then [p]
    else if Older(p.version, ps[0].version) then [p] + ps
    else
      assert ps == [ps[0]] + ps[1..];
      [ps[0]] + PlaceUp(p, ps[1..])
  }

  /** `sort_by_key(version)` */
  function SortUp(ps: seq<Point>): (r: seq<Point>)
    ensures forall q :: q in r <==> q in ps
  {
    if ps == [] then []
    else
      assert ps == ps[..|ps| - 1] + [ps[|ps| - 1]];
      PlaceUp(ps[|ps| - 1], SortUp(ps[..|ps| - 1]))
  }

  /** From the newest down, the points larger than all before them. */
  function Scan(ps: seq<Point>, best: Option<EpochCount>): seq<Point> {
    if ps == [] then []
    else if best.None? || Below(best.value, ps[0].value) then [ps[0]] + Scan(ps[1..], Some(ps[0].value))
    else Scan(ps[1..], best)
  }

  /** `retain` of the points after the tombstone. */
  function Retain(ps: seq<Point>, tomb: Option<Version>): (r: seq<Point>)
    ensures forall q :: q in r <==> q in ps && After(q, tomb)
  {
    if ps == [] then []
    else
      assert ps == [ps[0]] + ps[1..];
      if After(ps[0], tomb) then [ps[0]] + Retain(ps[1..], tomb) else Retain(ps[1..], tomb)
  }

  function LivePoints(s: State, tomb: Option<Version>): seq<Point> {
    if s.Live? then Retain(s.points, tomb) else []
  }

  /** `RateLimitState::merge`; None only where neither side holds anything. */
  function Merge(a: State, b: State): Option<State> {
    var tomb := Newest(Tomb(a), Tomb(b));
    var points := Retain(LivePoints(a, tomb) + LivePoints(b, tomb), tomb);
    if points != [] then Some(Live(Kept(points), tomb))
    else if tomb.Some? then Some(Tombstone(tomb.value))
    else None
  }

  ghost predicate Descending(ps: seq<Point>) {
    forall i, j | 0 <= i < j < |ps| :: !Older(ps[i].version, ps[j].version)
  }

  lemma {:induction false} PlaceDownKeeps(p: Point, ps: seq<Point>)
    requires Descending(ps)
    ensures Descending(PlaceDown(p, ps))
  {
    if ps != [] && !Older(ps[0].version, p.version) {
      PlaceDownKeeps(p, ps[1..]);
      var rest := PlaceDown(p, ps[1..]);
      forall j | 0 <= j < |rest| ensures !Older(ps[0].version, rest[j].version) {
        assert rest[j] in rest;
        if rest[j] != p {
          var k :| 0 <= k < |ps[1..]| && ps[1..][k] == rest[j];
          assert ps[1..][k] == ps[k + 1];
        }
      }
    }
  }

  lemma {:induction false} SortDownKeeps(ps: seq<Point>)
    ensures Descending(SortDown(ps))
  {
    if ps != [] {
      SortDownKeeps(ps[..|ps| - 1]);
      PlaceDownKeeps(ps[|ps| - 1], SortDown(ps[..|ps| - 1]));
    }
  }

  /** What the scan has passed: nothing older than what is to come, and the largest value among it. */
  ghost predicate Passed(seen: set<Point>, ps: seq<Point>, best: Option<EpochCount>) {
    && (forall q, i | q in seen && 0 <= i < |ps| :: !Older(q.version, ps[i].version))
    && (forall q | q in seen :: best.Some? && !Below(best.value, q.value))
    && (best.Some? ==> exists q :: q in seen && q.value == best.value)
    && VersionsFix(seen + Elems(ps))
  }

  /** The scan keeps exactly the points no newer one beats. */
  lemma {:induction false} ScanIsFront(ps: seq<Point>, seen: set<Point>, best: Option<EpochCount>)
    requires Descending(ps) && Passed(seen, ps, best)
    ensures forall p :: p in Scan(ps, best) <==> p in ps && p !in seen && !Beaten(seen + Elems(ps), p)
  {
    if ps != [] {
      var h, t := ps[0], ps[1..];
      assert ps == [h] + t;
      var next := if best.None? || Below(best.value, h.value) then Some(h.value) else best;
      var all := seen + Elems(ps);
      assert seen + {h} + Elems(t) == all;
      ScanPasses(ps, seen, best);
      ScanIsFront(t, seen + {h}, next);
      HeadKept(ps, seen, best);
    }
  }

  lemma ScanPasses(ps: seq<Point>, seen: set<Point>, best: Option<EpochCount>)
    requires Descending(ps) && Passed(seen, ps, best) && ps != []
    ensures Descending(ps[1..])
    ensures Passed(seen + {ps[0]}, ps[1..],
                   if best.None? || Below(best.value, ps[0].value) then Some(ps[0].value) else best)
  {
    hide VersionsFix, Elems, Older, Below;
    var h, t := ps[0], ps[1..];
    assert forall i | 0 <= i < |t| :: t[i] == ps[i + 1];
    SplitHead(ps, seen);
    BelowOrder();
    assert h in seen + {h};
  }

  lemma SplitHead(ps: seq<Point>, seen: set<Point>)
    requires ps != []
    ensures seen + {ps[0]} + Elems(ps[1..]) == seen + Elems(ps)
  {
    assert ps == [ps[0]] + ps[1..];
  }

  lemma BelowOrder()
    ensures forall a, b, c :: !Below(a, b) && Below(a, c) ==> !Below(c, b)
    ensures forall a :: !Below(a, a)
  {
  }

  /** The head is kept exactly when it is new and no newer point beats it. */
  lemma HeadKept(ps: seq<Point>, seen: set<Point>, best: Option<EpochCount>)
    requires Descending(ps) && Passed(seen, ps, best) && ps != []
    ensures best.None? || Below(best.value, ps[0].value) <==> ps[0] !in seen && !Beaten(seen + Elems(ps), ps[0])
  {
    var h, all := ps[0], seen + Elems(ps);
    assert h in Elems(ps);
    forall q | q in ps ensures !Older(h.version, q.version) {
      var i :| 0 <= i < |ps| && ps[i] == q;
    }
    if best.Some? && !Below(best.value, h.value) && h !in seen {
      var q :| q in seen && q.value == best.value;
      assert q in all && BeatenBy(h, q);
    }
  }

  /** Newest first, each older one larger. */
  ghost predicate Rising(ps: seq<Point>) {
    forall i, j | 0 <= i < j < |ps| :: Older(ps[j].version, ps[i].version) && Below(ps[i].value, ps[j].value)
  }

  lemma {:induction false} ScanRises(ps: seq<Point>, seen: set<Point>, best: Option<EpochCount>)
    requires Descending(ps) && Passed(seen, ps, best)
    ensures Rising(Scan(ps, best))
    ensures forall p | p in Scan(ps, best) :: p in ps && (best.Some? ==> Below(best.value, p.value))
  {
    hide Passed, Descending, Older, Elems;
    if ps != [] {
      var h, t := ps[0], ps[1..];
      assert ps == [h] + t;
      var next := if best.None? || Below(best.value, h.value) then Some(h.value) else best;
      ScanPasses(ps, seen, best);
      ScanRises(t, seen + {h}, next);
      if best.None? || Below(best.value, h.value) {
        ScanIsFront(t, seen + {h}, next);
        var rest := Scan(t, next);
        forall j | 0 <= j < |rest| ensures Older(rest[j].version, h.version) && Below(h.value, rest[j].value) {
          assert rest[j] in rest;
          OlderThanHead(ps, seen, best, rest[j]);
        }
      }
    }
  }

  lemma OlderThanHead(ps: seq<Point>, seen: set<Point>, best: Option<EpochCount>, x: Point)
    requires Descending(ps) && Passed(seen, ps, best) && ps != [] && x in ps[1..] && x != ps[0]
    ensures Older(x.version, ps[0].version)
  {
    var i :| 0 <= i < |ps[1..]| && ps[1..][i] == x;
    assert ps[i + 1] == x && x in Elems(ps) && ps[0] in Elems(ps);
  }

  ghost predicate Falling(ps: seq<Point>) {
    forall i, j | 0 <= i < j < |ps| :: Older(ps[i].version, ps[j].version) && Below(ps[j].value, ps[i].value)
  }

  /** Sorting by version turns the scan's result round. */
  lemma {:induction false} SortUpFalls(ps: seq<Point>)
    requires Rising(ps)
    ensures Falling(SortUp(ps))
  {
    if ps != [] {
      var n := |ps| - 1;
      var front, last := ps[..n], ps[n];
      SortUpFalls(front);
      var up := SortUp(front);
      forall j | 0 <= j < |up| ensures Older(last.version, up[j].version) && Below(up[j].value, last.value) {
        assert up[j] in up && up[j] in front;
        var i :| 0 <= i < n && front[i] == up[j];
        assert ps[i] == up[j];
      }
      assert up == [] || Older(last.version, up[0].version);
    }
  }

  /** The points a merge keeps of those it was given. */
  function Kept(points: seq<Point>): seq<Point> {
    SortUp(Scan(SortDown(points), None))
  }

  lemma KeptIsFront(points: seq<Point>)
    requires VersionsFix(Elems(points))
    ensures Falling(Kept(points)) && Elems(Kept(points)) == Front(Elems(points))
  {
    hide Front, Scan, SortDown, SortUp;
    var down := SortDown(points);
    assert Elems(down) == Elems(points);
    assert {} + Elems(down) == Elems(points);
    SortDownKeeps(points);
    ScanIsFront(down, {}, None);
    ScanRises(down, {}, None);
    var kept := Scan(down, None);
    SortUpFalls(kept);
    forall p ensures p in Elems(Kept(points)) <==> p in Front(Elems(points)) {
      FrontIs(Elems(points), p);
    }
  }

  lemma GivenPoints(a: State, b: State, tomb: Option<Version>)
    ensures Elems(Retain(LivePoints(a, tomb) + LivePoints(b, tomb), tomb)) == Alive(Points(a) + Points(b), tomb)
  {
  }

  /** Merging two states is the front of all their points after the newer tombstone. */
  lemma MergeMeans(a: State, b: State)
    requires Canonical(a) && Canonical(b) && VersionsFix(Points(a) + Points(b))
    ensures Merge(a, b).Some?
    ensures Stands(Merge(a, b).value, Points(a) + Points(b), Newest(Tomb(a), Tomb(b)))
  {
    hide Front, Scan, SortDown, SortUp, Retain;
    var tomb := Newest(Tomb(a), Tomb(b));
    var points := Retain(LivePoints(a, tomb) + LivePoints(b, tomb), tomb);
    var all := Alive(Points(a) + Points(b), tomb);
    GivenPoints(a, b, tomb);
    KeptIsFront(points);
    var up := Kept(points);
    if points != [] {
      FrontNotEmpty(all, points);
      ElemsNotEmpty(up);
      forall i | 0 <= i < |up| ensures After(up[i], tomb) {
        assert up[i] in Elems(up);
        FrontIs(all, up[i]);
      }
      assert Canonical(Live(up, tomb));
    } else {
      if tomb.None? {
        SomethingAlive(a, b);
      }
      NothingLeft(a, b, all, points);
    }
  }

  lemma ElemsNotEmpty(ps: seq<Point>)
    ensures ps == [] <==> Elems(ps) == {}
  {
    FirstInSet(ps);
  }

  lemma FrontNotEmpty(all: set<Point>, points: seq<Point>)
    requires Elems(points) == all && points != []
    ensures Front(all) != {}
  {
    var p := points[0];
    assert p in Elems(points);
    if Beaten(all, p) {
      var q := BeatenFromFront(all, p);
    } else {
      assert p in Front(all);
    }
  }

  lemma NothingLeft(a: State, b: State, all: set<Point>, points: seq<Point>)
    requires Newest(Tomb(a), Tomb(b)).None? ==> Alive(Points(a) + Points(b), None) != {}
    requires all == Alive(Points(a) + Points(b), Newest(Tomb(a), Tomb(b))) && Elems(points) == all && points == []
    ensures Newest(Tomb(a), Tomb(b)).Some? && Front(all) == {}
  {
    assert all == {};
  }

  lemma SomethingAlive(a: State, b: State)
    requires Canonical(a) && Newest(Tomb(a), Tomb(b)).None?
    ensures Alive(Points(a) + Points(b), None) != {}
  {
    assert a.points[0] in Alive(Points(a) + Points(b), None);
  }

  // --- reading -------------------------------------------------------------------------------------------

  /** `current_value`: the largest of the live points. */
  function Largest(ps: seq<Point>): (v: EpochCount)
    requires ps != []
  {
    if |ps| == 1 then ps[0].value
    else
      var v := Largest(ps[..|ps| - 1]);
      if Below(v, ps[|ps| - 1].value) then ps[|ps| - 1].value else v
  }

  lemma {:induction false} LargestIs(ps: seq<Point>) returns (top: Point)
    requires ps != []
    ensures top in ps && top.value == Largest(ps) && forall p | p in ps :: !Below(Largest(ps), p.value)
  {
    var n := |ps| - 1;
    assert ps == ps[..n] + [ps[n]];
    if n == 0 {
      top := ps[0];
    } else {
      top := LargestIs(ps[..n]);
      if Below(Largest(ps[..n]), ps[n].value) {
        top := ps[n];
      }
    }
  }

  /** No later epoch, and no larger count in the same one. */
  predicate Within(a: EpochCount, b: EpochCount) {
    a.epoch <= b.epoch && (a.epoch == b.epoch ==> a.count <= b.count)
  }

  /** A live state reads the latest epoch written after the newest delete, with the largest count written in it; a
      tombstone stands for writes of which none is newer. */
  lemma ReadIsLargest(s: State, points: set<Point>, tomb: Option<Version>)
    requires Stands(s, points, tomb)
    ensures s.Live? ==>
              && (exists p :: p in points && After(p, tomb) && p.value == Largest(s.points))
              && forall p | p in points && After(p, tomb) :: Within(p.value, Largest(s.points))
    ensures s.Tombstone? ==> forall p | p in points :: !After(p, tomb)
  {
    if s.Live? {
      var top := LargestIs(s.points);
      assert top in Elems(s.points);
      forall p | p in Front(Alive(points, tomb)) ensures !Below(top.value, p.value) {
        assert p in Elems(s.points);
      }
      FrontKeepsLargest(points, tomb, top);
    } else {
      forall p | p in points ensures !After(p, tomb) {
        NoneInFront(Alive(points, tomb), p);
      }
    }
  }

  lemma NoneInFront(points: set<Point>, p: Point)
    requires Front(points) == {}
    ensures p !in points
  {
    if Beaten(points, p) {
      var q := BeatenFromFront(points, p);
    } else {
      assert p in Front(points) <==> p in points;
    }
  }

  /** Merging a state into itself changes nothing, and the order of two states does not matter. */
  lemma MergeLaws(a: State, b: State)
    requires Canonical(a) && Canonical(b) && VersionsFix(Points(a) + Points(b))
    ensures Merge(a, a) == Some(a)
    ensures Merge(a, b).Some? && Merge(b, a) == Merge(a, b)
  {
    hide Front, Merge, Canonical;
    MergeMeans(a, a);
    CanonicalIsFront(a);
    assert Points(a) + Points(a) == Points(a);
    StandsAlone(Merge(a, a).value, a, Points(a), Tomb(a));
    MergeMeans(a, b);
    MergeMeans(b, a);
    assert Points(a) + Points(b) == Points(b) + Points(a);
    NewestCommutes(Tomb(a), Tomb(b));
    StandsAlone(Merge(a, b).value, Merge(b, a).value, Points(a) + Points(b), Newest(Tomb(a), Tomb(b)));
  }

  lemma NewestCommutes(a: Option<Version>, b: Option<Version>)
    ensures Newest(a, b) == Newest(b, a)
  {
  }

  /** Merging what two states stand for is what their merge stands for. */
  lemma MergeStands(a: State, b: State, pa: set<Point>, ta: Option<Version>, pb: set<Point>, tb: Option<Version>)
    requires Stands(a, pa, ta) && Stands(b, pb, tb) && VersionsFix(pa + pb)
    ensures Merge(a, b).Some? && Stands(Merge(a, b).value, pa + pb, Newest(ta, tb))
  {
    hide Front, Alive, Merge, Canonical;
    var t := Newest(ta, tb);
    FrontOfAlive(pa, ta);
    FrontOfAlive(pb, tb);
    MergeMeans(a, b);
    FrontAbsorbs(pa, Points(b), ta, t);
    FrontAbsorbs(pb, pa, tb, t);
    assert Points(b) + pa == pa + Points(b) && pb + pa == pa + pb;
  }

  lemma FrontOfAlive(points: set<Point>, tomb: Option<Version>)
    ensures Front(Alive(points, tomb)) <= points
  {
  }

  /** So merging is associative. */
  lemma MergeAssociates(a: State, b: State, c: State)
    requires Canonical(a) && Canonical(b) && Canonical(c) && VersionsFix(Points(a) + Points(b) + Points(c))
    ensures Merge(a, b).Some? && Merge(b, c).Some?
    ensures Merge(Merge(a, b).value, c).Some? && Merge(Merge(a, b).value, c) == Merge(a, Merge(b, c).value)
  {
    hide Front, Merge, Canonical;
    CanonicalIsFront(a);
    CanonicalIsFront(b);
    CanonicalIsFront(c);
    var pa, pb, pc := Points(a), Points(b), Points(c);
    MergeStands(a, b, pa, Tomb(a), pb, Tomb(b));
    MergeStands(b, c, pb, Tomb(b), pc, Tomb(c));
    MergeStands(Merge(a, b).value, c, pa + pb, Newest(Tomb(a), Tomb(b)), pc, Tomb(c));
    MergeStands(a, Merge(b, c).value, pa, Tomb(a), pb + pc, Newest(Tomb(b), Tomb(c)));
    assert pa + pb + pc == pa + (pb + pc);
    StandsAlone(Merge(Merge(a, b).value, c).value, Merge(a, Merge(b, c).value).value, pa + pb + pc,
                Newest(Newest(Tomb(a), Tomb(b)), Tomb(c)));
  }

  lemma ScanOne(p: Point, best: EpochCount)
    ensures Scan([p], Some(best)) == if Below(best, p.value) then [p] else []
  {
    assert [p][1..] == [];
    assert Scan([p][1..], Some(best)) == [] && Scan([p][1..], Some(p.value)) == [];
  }

  /** Without one value to a version, merging depends on the order: an insert meets another of its version. */
  lemma OrderMattersOtherwise(v: Version, low: EpochCount, high: EpochCount)
    requires Below(low, high)
    ensures var a, b := Live([Point(low, v)], None), Live([Point(high, v)], None);
            Merge(a, b) == Some(Live([Point(low, v)] + [Point(high, v)], None)) && Merge(b, a) == Some(b)
  {
    hide SortDown, SortUp, Scan, Retain;
    var p, q := Point(low, v), Point(high, v);
    RetainAll([p]);
    RetainAll([q]);
    RetainAll([p] + [q]);
    RetainAll([q] + [p]);
    SortTwo(p, q);
    SortTwo(q, p);
    ScanTwo(p, q);
    ScanTwo(q, p);
    assert [q] + [] == [q];
    SortOne(q);
    var a, b := Live([p], None), Live([q], None);
    assert LivePoints(a, None) == [p] && LivePoints(b, None) == [q];
    assert Kept([p] + [q]) == [p] + [q] && Kept([q] + [p]) == [q];
  }

  lemma {:induction false} RetainAll(ps: seq<Point>)
    ensures Retain(ps, None) == ps
  {
    if ps != [] {
      RetainAll(ps[1..]);
    }
  }

  lemma SortOne(p: Point)
    ensures SortDown([p]) == [p] && SortUp([p]) == [p]
  {
    assert [p][..0] == [];
    assert SortDown([p][..0]) == [] && SortUp([p][..0]) == [];
  }

  lemma SortTwo(p: Point, q: Point)
    requires p.version == q.version
    ensures SortDown([p] + [q]) == [p] + [q] && SortUp([p] + [q]) == [p] + [q]
  {
    SortOne(p);
    assert ([p] + [q])[..1] == [p];
    assert [p][1..] == [];
    assert PlaceDown(q, [p]) == [p] + [q] && PlaceUp(q, [p]) == [p] + [q];
  }

  lemma ScanTwo(p: Point, q: Point)
    ensures Scan([p] + [q], None) == [p] + if Below(p.value, q.value) then [q] else []
  {
    ScanOne(q, p.value);
    assert ([p] + [q])[1..] == [q];
  }
}
