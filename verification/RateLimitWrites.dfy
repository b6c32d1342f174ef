/**
 What writes to a rate-limit key come to. A replica's state, a log entry and a compacted log are all states;
 each stands for a set of writes, and merging them joins the sets.
 */
module RateLimitWrites {
  import opened Text
  import opened RateLimitShard

  /** What a caller asked for, with the version it was given. */
  datatype Write = Insert(value: EpochCount, version: Version) | Remove(version: Version)

  /** The state a write is before it meets any other. */
  function StateOf(w: Write): State {
    if w.Insert? then Live([Point(w.value, w.version)], None) else Tombstone(w.version)
  }

  ghost function PointsOf(ws: set<Write>): set<Point> {
    set w | w in ws && w.Insert? :: Point(w.value, w.version)
  }

  /** The newest delete among the writes. */
  ghost predicate IsTomb(ws: set<Write>, tomb: Option<Version>) {
    && (tomb.None? ==> forall w | w in ws :: !w.Remove?)
    && (tomb.Some? ==> Remove(tomb.value) in ws && forall w | w in ws && w.Remove? :: !Older(tomb.value, w.version))
  }

  /** The state is what the writes come to. */
  ghost predicate Holds(s: State, ws: set<Write>) {
    exists tomb :: IsTomb(ws, tomb) && Stands(s, PointsOf(ws), tomb)
  }

  ghost predicate Unique(ws: set<Write>) {
    forall v, w | v in ws && w in ws && v.version == w.version :: v == w
  }

  function Apply(state: Option<State>, incoming: State): Option<State> {
    if state.None? then Some(incoming)
    else
      var merged := Merge(state.value, incoming);
      if merged.None? then state else merged
  }

  /** The version an entry travels under: its newest live point's, or its tombstone's. */
  function IdOf(s: State): Version {
    if s.Tombstone? then s.version
    else if s.points == [] then Version(0, 0)
    else s.points[|s.points| - 1].version
  }

  lemma UniquePoints(ws: set<Write>)
    requires Unique(ws)
    ensures VersionsFix(PointsOf(ws))
  {
  }

  lemma PointsJoin(a: set<Write>, b: set<Write>)
    ensures PointsOf(a + b) == PointsOf(a) + PointsOf(b)
  {
  }

  lemma TombJoin(a: set<Write>, b: set<Write>, s: Option<Version>, t: Option<Version>)
    requires IsTomb(a, s) && IsTomb(b, t)
    ensures IsTomb(a + b, Newest(s, t))
  {
  }

  /** Applying what some writes come to gives what all of them come to. */
  lemma ApplyHolds(state: Option<State>, seen: set<Write>, incoming: State, more: set<Write>)
    requires Unique(seen + more) && Holds(incoming, more)
    requires state.None? <==> seen == {}
    requires state.Some? ==> Holds(state.value, seen)
    ensures Apply(state, incoming).Some? && Holds(Apply(state, incoming).value, seen + more)
  {
    hide Stands, IsTomb, PointsOf, Merge;
    if state.None? {
      assert seen + more == more;
    } else {
      var s :| IsTomb(seen, s) && Stands(state.value, PointsOf(seen), s);
      var t :| IsTomb(more, t) && Stands(incoming, PointsOf(more), t);
      UniquePoints(seen + more);
      PointsJoin(seen, more);
      TombJoin(seen, more, s, t);
      MergeStands(state.value, incoming, PointsOf(seen), s, PointsOf(more), t);
    }
  }

  lemma WriteHolds(w: Write)
    ensures Holds(StateOf(w), {w})
  {
    var s := StateOf(w);
    if w.Insert? {
      var p := Point(w.value, w.version);
      assert PointsOf({w}) == {p} && Points(s) == {p};
      CanonicalIsFront(s);
      assert IsTomb({w}, None) && Stands(s, PointsOf({w}), None);
    } else {
      assert PointsOf({w}) == {};
      CanonicalIsFront(s);
      assert IsTomb({w}, Some(w.version)) && Stands(s, {}, Some(w.version));
    }
  }

  /** An entry travels under the version of its newest write. */
  lemma IdIsNewest(s: State, ws: set<Write>, w: Write)
    requires Holds(s, ws) && w in ws
    ensures !Older(IdOf(s), w.version)
  {
    var tomb :| IsTomb(ws, tomb) && Stands(s, PointsOf(ws), tomb);
    TombBounded(s);
    if w.Insert? {
      var p := Point(w.value, w.version);
      assert p in PointsOf(ws);
      if After(p, tomb) {
        var all := Alive(PointsOf(ws), tomb);
        if Beaten(all, p) {
          var q := BeatenFromFront(all, p);
          LiveBounded(s, q);
        } else {
          FrontIs(all, p);
          LiveBounded(s, p);
        }
      }
    }
  }

  lemma TombBounded(s: State)
    requires Canonical(s)
    ensures Tomb(s).Some? ==> !Older(IdOf(s), Tomb(s).value)
  {
  }

  lemma LiveBounded(s: State, p: Point)
    requires Canonical(s) && p in Points(s)
    ensures !Older(IdOf(s), p.version)
  {
    var i :| 0 <= i < |s.points| && s.points[i] == p;
  }

  /** And that write is one of its own. */
  lemma IdIsOne(s: State, ws: set<Write>)
    requires Holds(s, ws)
    ensures exists w :: w in ws && w.version == IdOf(s)
  {
    var tomb :| IsTomb(ws, tomb) && Stands(s, PointsOf(ws), tomb);
    if s.Live? {
      var p := s.points[|s.points| - 1];
      assert p in Points(s);
      FrontIs(Alive(PointsOf(ws), tomb), p);
      assert Insert(p.value, p.version) in ws;
    } else {
      assert Remove(s.version) in ws;
    }
  }

  /** The same writes come to one state. */
  lemma HoldsAlone(s: State, t: State, ws: set<Write>)
    requires Holds(s, ws) && Holds(t, ws)
    ensures s == t
  {
    hide Stands, PointsOf;
    var x :| IsTomb(ws, x) && Stands(s, PointsOf(ws), x);
    var y :| IsTomb(ws, y) && Stands(t, PointsOf(ws), y);
    assert x == y;
    StandsAlone(s, t, PointsOf(ws), x);
  }

  /** Applying writes a state already stands for changes nothing. */
  lemma HeldAlready(state: State, seen: set<Write>, s: State, ws: set<Write>)
    requires Holds(state, seen) && Holds(s, ws) && ws <= seen && Unique(seen) && seen != {}
    ensures Apply(Some(state), s) == Some(state)
  {
    hide Holds, Apply;
    assert seen + ws == seen;
    ApplyHolds(Some(state), seen, s, ws);
    HoldsAlone(Apply(Some(state), s).value, state, seen);
  }

  lemma NoneAfter(s: State, ws: set<Write>, v: Version)
    requires Holds(s, ws) && Remove(v) in ws && forall w | w in ws :: !Older(v, w.version)
    ensures s == Tombstone(v)
  {
    hide Front;
    var tomb :| IsTomb(ws, tomb) && Stands(s, PointsOf(ws), tomb);
    assert tomb == Some(v);
    var all := Alive(PointsOf(ws), Some(v));
    assert all == {};
    FrontWithin(all);
    if s.Live? {
      FirstInSet(s.points);
    }
  }

  lemma NewestStays(s: State, ws: set<Write>, p: Point)
    requires Holds(s, ws) && Insert(p.value, p.version) in ws && forall w | w in ws :: !Older(p.version, w.version)
    requires Remove(p.version) !in ws
    ensures s.Live? && p in Points(s)
  {
    var tomb :| IsTomb(ws, tomb) && Stands(s, PointsOf(ws), tomb);
    assert p in PointsOf(ws);
    FrontIs(Alive(PointsOf(ws), tomb), p);
  }
}
