/** Fixing reaches a fixpoint: what a second check finds after the fixes all took. */
module ReleaseFix {
  import opened Text
  import opened Semver
  import opened VersionLines
  import opened Carriers
  import opened Rewrites
  import opened VersionFiles
  import opened ReleaseTags
  import opened ReleaseCheck

  // --- writes to different places --------------------------------------------------------------

  datatype Spot = InFile(path: string) | InRoot(key: string)

  function SpotOf(w: Write): Spot {
    match w
    case ToFile(path, _, _, _) => InFile(path)
    case ToPin(key, _) => InRoot(key)
  }

  ghost function Spots(ws: seq<Write>): set<Spot> {
    set w | w in ws :: SpotOf(w)
  }

  /** A version file, or a key that can be pinned. */
  ghost predicate Proper(s: Spot) {
    match s
    case InFile(path) => path != ROOT
    case InRoot(key) => Solid(key)
  }

  /** No two writes go to one place. */
  ghost predicate NoClash(ws: seq<Write>) {
    ws == [] || (NoClash(ws[..|ws| - 1]) && SpotOf(ws[|ws| - 1]) !in Spots(ws[..|ws| - 1]))
  }

  ghost predicate Ready(tree: Tree, w: Write) {
    match w
    case ToFile(path, spelling, was, now) =>
      && path in tree && path != ROOT && ReadVersion(spelling, tree[path]) == Some(was) && '"' !in now && now != []
    case ToPin(key, now) => ROOT in tree && Solid(key) && '"' !in now
  }

  /** The write will show once it took: a version in a file that is rewritable, a pin read from a plain line. */
  ghost predicate Will(tree: Tree, w: Write) {
    match w
    case ToFile(path, spelling, was, now) => path in tree && Rewritable(spelling, tree[path], was, now)
    case ToPin(key, now) => ROOT in tree && (ReadPin(tree[ROOT], key) == Some(now) || PinSits(tree[ROOT], key))
  }

  /** The write shows. */
  ghost predicate Settled(tree: Tree, w: Write) {
    match w
    case ToFile(path, spelling, _, now) => path in tree && ReadVersion(spelling, tree[path]) == Some(now)
    case ToPin(key, now) => ROOT in tree && ReadPin(tree[ROOT], key) == Some(now)
  }

  ghost predicate SameAt(a: Tree, b: Tree, s: Spot) {
    match s
    case InFile(path) => (path in a <==> path in b) && (path in a ==> a[path] == b[path])
    case InRoot(key) => ROOT in a && ROOT in b && OtherPinKept(a[ROOT], b[ROOT], key)
  }

  lemma OneSettles(tree: Tree, w: Write)
    requires ROOT in tree && Ready(tree, w) && ApplyOne(tree, w).1
    ensures var after := ApplyOne(tree, w).0;
            (Settled(after, w) <==> Will(tree, w)) && forall s | Proper(s) && s != SpotOf(w) :: SameAt(tree, after, s)
  {
    hide ReadVersion, WriteVersion, WritePin, ReadPin, PinSits, Rewritable, Solid;
    match w
    case ToFile(path, spelling, was, now) =>
      VersionReadsBackIff(spelling, tree[path], was, now);
      forall s | Proper(s) && s != SpotOf(w) ensures SameAt(tree, ApplyOne(tree, w).0, s) {
      }
    case ToPin(key, now) =>
      PinReadsBackIff(tree[ROOT], key, now);
      forall s | Proper(s) && s != SpotOf(w) ensures SameAt(tree, ApplyOne(tree, w).0, s) {
        if s.InRoot? {
          OtherPins(tree[ROOT], key, now, s.key);
        }
      }
  }

  lemma SameKeeps(a: Tree, b: Tree, w: Write)
    requires SameAt(a, b, SpotOf(w))
    ensures Ready(a, w) ==> Ready(b, w)
    ensures Settled(a, w) <==> Settled(b, w)
    ensures Will(a, w) <==> Will(b, w)
  {
    hide ReadVersion, ReadPin, PinSits, Rewritable, Solid;
  }

  /** When every write takes, those show that will, and no other place changed. */
  lemma {:induction false} AllSettle(tree: Tree, ws: seq<Write>)
    requires Writeable(tree, ws) && NoClash(ws) && (forall w | w in ws :: Ready(tree, w)) && ApplyAll(tree, ws).1 == 0
    ensures var after := ApplyAll(tree, ws).0;
            && (forall w | w in ws :: Settled(after, w) <==> Will(tree, w))
            && (forall s | Proper(s) && s !in Spots(ws) :: SameAt(tree, after, s))
  {
    hide Ready, Settled, Will, ApplyOne, Proper, SameAt;
    if ws == [] {
      forall s | Proper(s) ensures SameAt(tree, tree, s) {
        SameItself(tree, s);
      }
    } else {
      var n := |ws| - 1;
      var w, front := ws[n], ws[..n];
      assert ws == front + [w];
      AllSettle(tree, front);
      var before := ApplyAll(tree, front).0;
      ReadyProper(tree, w);
      SameKeeps(tree, before, w);
      OneSettles(before, w);
      var after := ApplyOne(before, w).0;
      forall v | v in front ensures Settled(after, v) <==> Will(tree, v) {
        assert SpotOf(v) in Spots(front);
        ReadyProper(tree, v);
        SameKeeps(before, after, v);
      }
      assert SpotOf(w) in Spots(ws);
      forall s | Proper(s) && s !in Spots(ws) ensures SameAt(tree, after, s) {
        assert s !in Spots(front);
        SameTwice(tree, before, after, s);
      }
    }
  }

  lemma SameItself(a: Tree, s: Spot)
    requires ROOT in a
    ensures SameAt(a, a, s)
  {
  }

  lemma SameTwice(a: Tree, b: Tree, c: Tree, s: Spot)
    requires SameAt(a, b, s) && SameAt(b, c, s)
    ensures SameAt(a, c, s)
  {
    hide ReadPin, PinSits;
  }

  lemma ReadyProper(tree: Tree, w: Write)
    requires Ready(tree, w)
    ensures Proper(SpotOf(w))
  {
  }

  lemma {:induction false} NoClashJoin(a: seq<Write>, b: seq<Write>)
    requires NoClash(a) && NoClash(b) && Spots(a) !! Spots(b)
    ensures NoClash(a + b)
  {
    if b == [] {
      assert a + b == a;
    } else {
      var n := |b| - 1;
      var front := b[..n];
      assert forall w | w in front :: SpotOf(w) in Spots(front) && SpotOf(w) in Spots(b);
      NoClashJoin(a, front);
      assert (a + b)[..|a + b| - 1] == a + front && (a + b)[|a + b| - 1] == b[n];
      assert SpotOf(b[n]) in Spots(b);
      assert Spots(a + front) == Spots(a) + Spots(front);
    }
  }

  // --- the table and the tree --------------------------------------------------------------------

  function Components(run: Run): seq<Component> {
    run.crates + run.packages
  }

  ghost predicate Differ(a: Component, b: Component) {
    a.name != b.name && a.file != b.file && (KeyOf(a).Some? && KeyOf(b).Some? ==> KeyOf(a) != KeyOf(b))
  }

  /** A component table with distinct names, files and keys. */
  ghost predicate Distinct(run: Run) {
    var cs, ms := Components(run), run.mirrors;
    && (forall i, j | 0 <= i < j < |cs| :: Differ(cs[i], cs[j]))
    && (forall c | c in cs :: c.file != ROOT && (KeyOf(c).Some? ==> c.crate && Solid(KeyOf(c).value)))
    && (forall c | c in run.crates :: c.crate)
    && FilesApart(ms)
    && (forall m, c | m in ms && c in cs :: m.file != c.file)
    && (forall m | m in ms :: m.file != ROOT)
  }

  lemma {:induction false} JudgeAllExact(run: Run, cs: seq<Component>, tables: Tables, tree: Tree)
    requires ROOT in tree
    ensures JudgeAll(run, cs, tables, tree).Some? <==>
              forall i | 0 <= i < |cs| :: Judge(run, cs[i], TableOf(tables, cs[i]), tree).Some?
    ensures JudgeAll(run, cs, tables, tree).Some? ==>
              var vs := JudgeAll(run, cs, tables, tree).value;
              |vs| == |cs| && forall i | 0 <= i < |cs| :: Judge(run, cs[i], TableOf(tables, cs[i]), tree) == Some(vs[i])
  {
    hide Judge;
    if cs != [] {
      var n := |cs| - 1;
      JudgeAllExact(run, cs[..n], tables, tree);
      assert forall i | 0 <= i < n :: cs[..n][i] == cs[i];
      if JudgeAll(run, cs, tables, tree).Some? {
        var vs := JudgeAll(run, cs, tables, tree).value;
        assert forall i | 0 <= i < n :: Judge(run, cs[i], TableOf(tables, cs[i]), tree) == Some(vs[i]);
      }
    }
  }

  /** A mirror the plan lists carries what the plan says, and not the target. */
  ghost predicate Off(ms: seq<Mirror>, target: string, tree: Tree, p: (Mirror, string)) {
    && p.0 in ms && p.0.file in tree && ReadVersion(p.0.spelling, tree[p.0.file]) == Some(p.1) && p.1 != target
  }

  ghost predicate FilesApart(ms: seq<Mirror>) {
    forall i, j | 0 <= i < j < |ms| :: ms[i].file != ms[j].file
  }

  lemma {:induction false} MirrorsExact(ms: seq<Mirror>, target: string, tree: Tree)
    ensures MirrorsOff(ms, target, tree).Some? <==>
              forall m | m in ms :: m.file in tree && ReadVersion(m.spelling, tree[m.file]).Some?
    ensures MirrorsOff(ms, target, tree).Some? ==>
              var off := MirrorsOff(ms, target, tree).value;
              && (forall p | p in off :: Off(ms, target, tree, p))
              && (forall m | m in ms && ReadVersion(m.spelling, tree[m.file]).value != target ::
                    (m, ReadVersion(m.spelling, tree[m.file]).value) in off)
              && (FilesApart(ms) ==> forall i, j | 0 <= i < j < |off| :: off[i].0.file != off[j].0.file)
  {
    hide ReadVersion;
    if ms != [] {
      var n := |ms| - 1;
      MirrorsExact(ms[..n], target, tree);
      assert ms == ms[..n] + [ms[n]];
      if MirrorsOff(ms, target, tree).Some? {
        var front, off := MirrorsOff(ms[..n], target, tree).value, MirrorsOff(ms, target, tree).value;
        forall p | p in front ensures Off(ms, target, tree, p) && (FilesApart(ms) ==> p.0.file != ms[n].file) {
          assert Off(ms[..n], target, tree, p);
        }
      }
    }
  }

  /** What a verdict says of the tree it was made on. */
  lemma VerdictFacts(run: Run, c: Component, table: map<string, string>, tree: Tree, v: Verdict)
    requires ROOT in tree && Judge(run, c, table, tree) == Some(v)
    ensures v.component == c
    ensures v.unbumped || v.workspace.Some? ==>
            c.file in tree && ReadVersion(Spells(c), tree[c.file]) == Some(v.version)
    ensures v.workspace.Some? ==> KeyOf(c).Some? && !v.unbumped
    ensures v.unbumped ==> v.level.Some?
  {
    hide ReadVersion, ReadPin, TagVersion;
  }

  /** After the fixes an unbumped component reads its new version; its pin is looked at where it changed since the
      tag. */
  lemma BumpedAfter(run: Run, c: Component, table: map<string, string>, tree: Tree, after: Tree, now: string)
    requires ROOT in tree && ROOT in after && Judge(run, c, table, tree).Some? &&
             Judge(run, c, table, tree).value.unbumped
    requires c.file in after && ReadVersion(Spells(c), after[c.file]) == Some(now)
    ensures var r := Judge(run, c, table, after);
            && r.Some? && r.value.version == now && r.value.component == c
            && r.value.unbumped == Unbumped(run, c, table, now)
            && (r.value.workspace.None? <==> r.value.unbumped || PinFine(run, c, after, now))
  {
    hide ReadVersion, ReadPin, TagVersion;
  }

  /** Any other component reads as it did. */
  lemma KeptAfter(run: Run, c: Component, table: map<string, string>, tree: Tree, after: Tree)
    requires ROOT in tree && ROOT in after && Judge(run, c, table, tree).Some? &&
             !Judge(run, c, table, tree).value.unbumped
    requires SameAt(tree, after, InFile(c.file))
    ensures var r := Judge(run, c, table, after);
            && r.Some? && r.value.component == c && !r.value.unbumped
            && r.value.version == Judge(run, c, table, tree).value.version
            && (r.value.workspace.None? <==> c.file !in after || PinFine(run, c, after, r.value.version))
    ensures Judge(run, c, table, tree).value.workspace.None? <==>
            c.file !in tree || PinFine(run, c, tree, Judge(run, c, table, tree).value.version)
  {
    hide ReadVersion, ReadPin, TagVersion;
  }

  /** The component's pin agrees, or is not looked at. */
  ghost predicate PinFine(run: Run, c: Component, tree: Tree, version: string)
    requires ROOT in tree
  {
    KeyOf(c).Some? && ChangedSince(run.git, run.tag, c) > 0 ==> ReadPin(tree[ROOT], KeyOf(c).value) == Some(version)
  }

  // --- no two fixes go to one place ----------------------------------------------------------------

  ghost predicate Apart(vs: seq<Verdict>) {
    forall i, j | 0 <= i < j < |vs| :: Differ(vs[i].component, vs[j].component)
  }

  ghost predicate Sound(v: Verdict) {
    v.workspace.Some? ==> KeyOf(v.component).Some? && !v.unbumped
  }

  /** The places one component's fixes go to. */
  ghost function PlacesOf(c: Component): set<Spot> {
    {InFile(c.file)} + if KeyOf(c).Some? then {InRoot(KeyOf(c).value)} else {}
  }

  lemma OwnPlaces(run: Run, tables: Tables, pass: Pass, v: Verdict)
    requires Sound(v)
    ensures Spots(WritesOf(run, tables, pass, v)) <= PlacesOf(v.component)
    ensures NoClash(WritesOf(run, tables, pass, v))
  {
    hide NewVersion, Spells;
    var ws := WritesOf(run, tables, pass, v);
    if |ws| == 2 {
      NoClashPair(ws[0], ws[1]);
      assert ws == [ws[0], ws[1]];
    } else if |ws| == 1 {
      NoClashOne(ws[0]);
      assert ws == [ws[0]];
    }
  }

  lemma NoClashOne(w: Write)
    ensures NoClash([w])
  {
    assert [w][..0] == [];
  }

  lemma NoClashPair(a: Write, b: Write)
    requires SpotOf(a) != SpotOf(b)
    ensures NoClash([a, b])
  {
    NoClashOne(a);
    assert [a, b][..1] == [a];
  }

  lemma ApartPlaces(a: Component, b: Component)
    requires Differ(a, b)
    ensures PlacesOf(a) !! PlacesOf(b)
  {
  }

  lemma {:induction false} GatherExact(run: Run, tables: Tables, pass: Pass, vs: seq<Verdict>)
    ensures forall w :: w in Gather(run, tables, pass, vs) <==>
            exists v :: v in vs && w in WritesOf(run, tables, pass, v)
  {
    hide WritesOf;
    if vs != [] {
      var n := |vs| - 1;
      GatherExact(run, tables, pass, vs[..n]);
      assert vs == vs[..n] + [vs[n]];
    }
  }

  lemma {:induction false} GatherNoClash(run: Run, tables: Tables, pass: Pass, vs: seq<Verdict>)
    requires Apart(vs) && forall v | v in vs :: Sound(v)
    ensures NoClash(Gather(run, tables, pass, vs))
  {
    hide WritesOf, NoClash, Differ, Sound;
    if vs == [] {
      NoClashEmpty();
    } else {
      var n := |vs| - 1;
      GatherNoClash(run, tables, pass, vs[..n]);
      OwnPlaces(run, tables, pass, vs[n]);
      forall s | s in Spots(Gather(run, tables, pass, vs[..n]))
        ensures s !in Spots(WritesOf(run, tables, pass, vs[n]))
      {
        var i := GatheredFrom(run, tables, pass, vs[..n], s);
        ApartPlaces(vs[i].component, vs[n].component);
      }
      NoClashJoin(Gather(run, tables, pass, vs[..n]), WritesOf(run, tables, pass, vs[n]));
    }
  }

  lemma NoClashEmpty()
    ensures NoClash([])
  {
  }

  /** The verdict a gathered write comes from. */
  lemma GatheredFrom(run: Run, tables: Tables, pass: Pass, vs: seq<Verdict>, s: Spot) returns (i: nat)
    requires s in Spots(Gather(run, tables, pass, vs)) && forall v | v in vs :: Sound(v)
    ensures i < |vs| && s in PlacesOf(vs[i].component) && WritesOf(run, tables, pass, vs[i]) != []
  {
    hide WritesOf, Gather, Sound;
    GatherExact(run, tables, pass, vs);
    var w :| w in Gather(run, tables, pass, vs) && SpotOf(w) == s;
    var v :| v in vs && w in WritesOf(run, tables, pass, v);
    i :| 0 <= i < |vs| && vs[i] == v;
    OwnPlaces(run, tables, pass, v);
    assert SpotOf(w) in Spots(WritesOf(run, tables, pass, v));
  }

  lemma {:induction false} SyncsExact(ms: seq<(Mirror, string)>, target: string)
    requires forall i, j | 0 <= i < j < |ms| :: ms[i].0.file != ms[j].0.file
    ensures forall w :: w in Syncs(ms, target) <==>
              exists p :: p in ms && w == ToFile(p.0.file, p.0.spelling, p.1, target)
    ensures NoClash(Syncs(ms, target))
  {
    if ms != [] {
      var n := |ms| - 1;
      SyncsExact(ms[..n], target);
      assert ms == ms[..n] + [ms[n]];
      var front, w := Syncs(ms[..n], target), ToFile(ms[n].0.file, ms[n].0.spelling, ms[n].1, target);
      forall s | s in Spots(front) ensures s != SpotOf(w) {
        var v :| v in front && SpotOf(v) == s;
        var p :| p in ms[..n] && v == ToFile(p.0.file, p.0.spelling, p.1, target);
        var i :| 0 <= i < n && ms[i] == p;
      }
      assert Syncs(ms, target)[..|front|] == front;
    }
  }

  // --- the fixes of a plan ---------------------------------------------------------------------------

  /** The verdicts are those of the components, in order. */
  ghost predicate Judged(run: Run, tables: Tables, tree: Tree, vs: seq<Verdict>) {
    var cs := Components(run);
    && ROOT in tree && |vs| == |cs|
    && forall i | 0 <= i < |cs| :: Judge(run, cs[i], TableOf(tables, cs[i]), tree) == Some(vs[i])
  }

  /** What a fixing run starts from: a distinct table and a plan that can be carried out. */
  ghost predicate Planned(run: Run, tables: Tables, tree: Tree, plan: Plan) {
    && Distinct(run) && PlanOf(run, tables, tree) == Some(plan) && plan.target != []
    && Bumpable(run, tables, plan.verdicts) && (run.override.Some? ==> ParseTriple(run.override.value).Some?)
  }

  lemma PlanJudged(run: Run, tables: Tables, tree: Tree, plan: Plan)
    requires Distinct(run) && PlanOf(run, tables, tree) == Some(plan)
    ensures Judged(run, tables, tree, plan.verdicts) && Apart(plan.verdicts)
    ensures forall v | v in plan.verdicts :: Sound(v) && v.component in Components(run)
  {
    hide Judge, Differ, Target, MirrorsOff, KeyOf;
    var cs, vs := Components(run), plan.verdicts;
    JudgeAllExact(run, cs, tables, tree);
    forall i | 0 <= i < |cs| ensures Sound(vs[i]) && vs[i].component == cs[i] {
      VerdictFacts(run, cs[i], TableOf(tables, cs[i]), tree, vs[i]);
    }
  }

  lemma WritesNoClash(run: Run, tables: Tables, tree: Tree, plan: Plan)
    requires Distinct(run) && PlanOf(run, tables, tree) == Some(plan)
    ensures NoClash(Writes(run, tables, plan))
  {
    hide PlanOf, NoClash, WritesOf, Gather, Syncs, Judged, Differ, Sound;
    var vs := plan.verdicts;
    PlanJudged(run, tables, tree, plan);
    var bumps, pins, syncs := Gather(run, tables, Bumping, vs), Gather(run, tables, Pinning, vs),
        Syncs(plan.mirrors, plan.target);
    GatherNoClash(run, tables, Bumping, vs);
    GatherNoClash(run, tables, Pinning, vs);
    forall s | s in Spots(bumps) ensures s !in Spots(pins) {
      BumpOrPin(run, tables, vs, s);
    }
    NoClashJoin(bumps, pins);
    MirrorPlan(run, tables, tree, plan);
    SyncsExact(plan.mirrors, plan.target);
    assert Spots(bumps + pins) == Spots(bumps) + Spots(pins);
    forall s | s in Spots(bumps) || s in Spots(pins) ensures s !in Spots(syncs) {
      var pass := if s in Spots(bumps) then Bumping else Pinning;
      var i := GatheredFrom(run, tables, pass, vs, s);
      NoMirrorThere(run, tables, tree, plan, vs[i].component, s);
    }
    NoClashJoin(bumps + pins, syncs);
  }

  /** A component is bumped or has its pin synced, not both. */
  lemma BumpOrPin(run: Run, tables: Tables, vs: seq<Verdict>, s: Spot)
    requires Apart(vs) && (forall v | v in vs :: Sound(v)) && s in Spots(Gather(run, tables, Bumping, vs))
    ensures s !in Spots(Gather(run, tables, Pinning, vs))
  {
    hide Gather, Differ, NewVersion;
    var i := GatheredFrom(run, tables, Bumping, vs, s);
    if s in Spots(Gather(run, tables, Pinning, vs)) {
      var j := GatheredFrom(run, tables, Pinning, vs, s);
      assert vs[i].unbumped && vs[j].workspace.Some? && Sound(vs[j]);
      ApartPlaces(vs[if i < j then i else j].component, vs[if i < j then j else i].component);
    }
  }

  lemma MirrorPlan(run: Run, tables: Tables, tree: Tree, plan: Plan)
    requires Distinct(run) && PlanOf(run, tables, tree) == Some(plan)
    ensures forall i, j | 0 <= i < j < |plan.mirrors| :: plan.mirrors[i].0.file != plan.mirrors[j].0.file
    ensures forall p | p in plan.mirrors :: Off(run.mirrors, plan.target, tree, p)
    ensures forall m | m in run.mirrors :: m.file in tree && ReadVersion(m.spelling, tree[m.file]).Some? &&
              (ReadVersion(m.spelling, tree[m.file]).value != plan.target ==>
                 (m, ReadVersion(m.spelling, tree[m.file]).value) in plan.mirrors)
  {
    hide JudgeAll, Target, ReadVersion;
    MirrorsExact(run.mirrors, plan.target, tree);
  }

  lemma NoMirrorThere(run: Run, tables: Tables, tree: Tree, plan: Plan, c: Component, s: Spot)
    requires Distinct(run) && PlanOf(run, tables, tree) == Some(plan) && c in Components(run) && s in PlacesOf(c)
    ensures s !in Spots(Syncs(plan.mirrors, plan.target))
  {
    hide PlanOf, ReadVersion, Syncs, KeyOf;
    MirrorPlan(run, tables, tree, plan);
    SyncsExact(plan.mirrors, plan.target);
    forall w | w in Syncs(plan.mirrors, plan.target) ensures SpotOf(w) != s {
      var p :| p in plan.mirrors && w == ToFile(p.0.file, p.0.spelling, p.1, plan.target);
      assert Off(run.mirrors, plan.target, tree, p);
    }
  }

  // --- ready to be written ---------------------------------------------------------------------------

  lemma TripleWritable(s: string)
    requires ParseTriple(s).Some?
    ensures Writable(s)
  {
    var (x, rest) := SplitDot(s).value;
    var (y, z) := SplitDot(rest).value;
    assert s == x + "." + (y + "." + z);
    forall i | 0 <= i < |s| ensures s[i] == '.' || IsDigit(s[i]) {
      if i < |x| {
        assert s[i] == x[i];
      } else if |x| < i < |x| + 1 + |y| {
        assert s[i] == y[i - |x| - 1];
      } else if |x| + 1 + |y| < i {
        assert s[i] == z[i - |x| - |y| - 2];
      }
    }
  }

  lemma NewIsTriple(run: Run, tables: Tables, v: Verdict)
    requires NewVersion(run, tables, v).Some? && (run.override.Some? ==> ParseTriple(run.override.value).Some?)
    ensures ParseTriple(NewVersion(run, tables, v).value).Some? && Writable(NewVersion(run, tables, v).value)
  {
    hide ParseTriple, FirstFree, Writable, Render;
    if !(run.override.Some? && v.component.name == GATEWAY) {
      var b := BumpTriple(ParseTriple(v.version).value, if v.level.Some? then v.level.value else Patch);
      RenderRoundTrip(b.(patch := FirstFree(b, TableOf(tables, v.component))));
    }
    TripleWritable(NewVersion(run, tables, v).value);
  }

  /** A manifest's version holds no quote. */
  lemma ReadUnquoted(f: File, v: string)
    requires ReadVersion(Cargo, f) == Some(v)
    ensures '"' !in v
  {
    hide FirstPlace, Assigned;
    var h := Search(Assign("version", true), f).value;
    UnquotedAt(f[h.line], h.place);
  }

  lemma UnquotedAt(s: string, p: nat)
    requires p <= |s| && AssignAt(s, p, "version").Some?
    ensures var m := AssignAt(s, p, "version").value; '"' !in s[m.from..m.to]
  {
    hide Assigned, NextQuote;
  }

  lemma BumpReady(run: Run, tables: Tables, tree: Tree, plan: Plan, v: Verdict, w: Write)
    requires Planned(run, tables, tree, plan) && v in plan.verdicts && w in WritesOf(run, tables, Bumping, v)
    ensures Ready(tree, w)
  {
    hide PlanOf, Judge, ReadVersion, NewVersion, Writable, Differ, MirrorsOff, Solid;
    PlanJudged(run, tables, tree, plan);
    var i :| 0 <= i < |plan.verdicts| && plan.verdicts[i] == v;
    var c := Components(run)[i];
    VerdictFacts(run, c, TableOf(tables, c), tree, v);
    NewIsTriple(run, tables, v);
    WritableUnquoted(NewVersion(run, tables, v).value);
    assert c in Components(run);
  }

  lemma WritableUnquoted(v: string)
    requires Writable(v)
    ensures '"' !in v && v != []
  {
  }

  lemma PinReady(run: Run, tables: Tables, tree: Tree, plan: Plan, v: Verdict, w: Write)
    requires Planned(run, tables, tree, plan) && v in plan.verdicts && w in WritesOf(run, tables, Pinning, v)
    ensures Ready(tree, w)
  {
    hide PlanOf, Judge, ReadVersion, NewVersion, Writable, Differ, MirrorsOff, Solid;
    PlanJudged(run, tables, tree, plan);
    var i :| 0 <= i < |plan.verdicts| && plan.verdicts[i] == v;
    var c := Components(run)[i];
    VerdictFacts(run, c, TableOf(tables, c), tree, v);
    assert c in Components(run);
    ReadUnquoted(tree[c.file], v.version);
  }

  lemma WritesReady(run: Run, tables: Tables, tree: Tree, plan: Plan, w: Write)
    requires Planned(run, tables, tree, plan) && w in Writes(run, tables, plan)
    ensures Ready(tree, w)
  {
    hide PlanOf, Ready, WritesOf, Gather, Syncs, Bumpable;
    GatherExact(run, tables, Bumping, plan.verdicts);
    GatherExact(run, tables, Pinning, plan.verdicts);
    if w in Gather(run, tables, Bumping, plan.verdicts) {
      var v :| v in plan.verdicts && w in WritesOf(run, tables, Bumping, v);
      BumpReady(run, tables, tree, plan, v, w);
    } else if w in Gather(run, tables, Pinning, plan.verdicts) {
      var v :| v in plan.verdicts && w in WritesOf(run, tables, Pinning, v);
      PinReady(run, tables, tree, plan, v, w);
    } else {
      SyncReady(run, tables, tree, plan, w);
    }
  }

  lemma SyncReady(run: Run, tables: Tables, tree: Tree, plan: Plan, w: Write)
    requires Planned(run, tables, tree, plan) && w in Syncs(plan.mirrors, plan.target)
    ensures Ready(tree, w)
  {
    hide PlanOf, Syncs, Bumpable, ReadVersion, Differ;
    MirrorPlan(run, tables, tree, plan);
    TargetUnquoted(run, tables, tree, plan);
    SyncsExact(plan.mirrors, plan.target);
    var p :| p in plan.mirrors && w == ToFile(p.0.file, p.0.spelling, p.1, plan.target);
    assert Off(run.mirrors, plan.target, tree, p);
  }

  /** The target is the gateway's version or its next one. */
  lemma TargetUnquoted(run: Run, tables: Tables, tree: Tree, plan: Plan)
    requires Planned(run, tables, tree, plan)
    ensures '"' !in plan.target
  {
    hide Judge, ReadVersion, NewVersion, Writable, Differ, MirrorsOff, Distinct, JudgeAll;
    var c := GatewayOf(run.crates).value;
    ReadUnquoted(tree[c.file], ReadVersion(Cargo, tree[c.file]).value);
    var gateway := FindNamed(plan.verdicts, GATEWAY);
    if gateway.Some? && gateway.value.unbumped {
      NewIsTriple(run, tables, gateway.value);
      WritableUnquoted(plan.target);
    }
  }

  // --- after the fixes -------------------------------------------------------------------------------

  /** The tree the fixes leave, when every one of them took. */
  ghost predicate Fixed(run: Run, tables: Tables, tree: Tree, plan: Plan, after: Tree) {
    && Planned(run, tables, tree, plan)
    && Writeable(tree, Writes(run, tables, plan)) && ApplyAll(tree, Writes(run, tables, plan)) == (after, 0)
  }

  lemma FixedSettles(run: Run, tables: Tables, tree: Tree, plan: Plan, after: Tree)
    requires Fixed(run, tables, tree, plan, after)
    ensures ROOT in after
    ensures forall w | w in Writes(run, tables, plan) :: Settled(after, w) <==> Will(tree, w)
    ensures forall s | Proper(s) && s !in Spots(Writes(run, tables, plan)) :: SameAt(tree, after, s)
  {
    hide PlanOf, Writes, Bumpable, Distinct, Ready, Settled, Will, SameAt, Proper, NoClash, ApplyOne;
    var ws := Writes(run, tables, plan);
    WritesNoClash(run, tables, tree, plan);
    forall w | w in ws ensures Ready(tree, w) {
      WritesReady(run, tables, tree, plan, w);
    }
    AllSettle(tree, ws);
    assert ROOT in after.Keys;
  }

  /** No fix goes to a place of a component that asked for none there. */
  lemma NotWritten(run: Run, tables: Tables, tree: Tree, plan: Plan, i: nat, s: Spot)
    requires Distinct(run) && PlanOf(run, tables, tree) == Some(plan) && i < |plan.verdicts|
    requires s in PlacesOf(plan.verdicts[i].component) && !plan.verdicts[i].unbumped
    requires s.InFile? || plan.verdicts[i].workspace.None?
    ensures s !in Spots(Writes(run, tables, plan))
  {
    hide PlanOf, Gather, Syncs, Differ, NewVersion, Judged;
    var vs := plan.verdicts;
    PlanJudged(run, tables, tree, plan);
    assert vs[i] in vs;
    NoMirrorThere(run, tables, tree, plan, vs[i].component, s);
    NotGathered(run, tables, Bumping, vs, i, s);
    NotGathered(run, tables, Pinning, vs, i, s);
  }

  lemma NotGathered(run: Run, tables: Tables, pass: Pass, vs: seq<Verdict>, i: nat, s: Spot)
    requires Apart(vs) && (forall v | v in vs :: Sound(v)) && i < |vs| && s in PlacesOf(vs[i].component)
    requires forall w | w in WritesOf(run, tables, pass, vs[i]) :: SpotOf(w) != s
    ensures s !in Spots(Gather(run, tables, pass, vs))
  {
    hide Gather, Differ, Sound, WritesOf;
    GatherExact(run, tables, pass, vs);
    forall w | w in Gather(run, tables, pass, vs) ensures SpotOf(w) != s {
      var v :| v in vs && w in WritesOf(run, tables, pass, v);
      var j :| 0 <= j < |vs| && vs[j] == v;
      OwnPlaces(run, tables, pass, v);
      assert SpotOf(w) in Spots(WritesOf(run, tables, pass, v));
      if i != j {
        ApartPlaces(vs[if i < j then i else j].component, vs[if i < j then j else i].component);
      }
    }
  }

  lemma AskedFor(run: Run, tables: Tables, plan: Plan, pass: Pass, v: Verdict)
    requires v in plan.verdicts
    ensures forall w | w in WritesOf(run, tables, pass, v) :: w in Writes(run, tables, plan)
  {
    hide WritesOf, Syncs, Gather;
    GatherExact(run, tables, pass, plan.verdicts);
  }

  /** What the second check says of one component: its pin is fine if the fix of it shows. */
  ghost predicate Expected(run: Run, tables: Tables, tree: Tree, v: Verdict, r: Option<Verdict>) {
    var c := v.component;
    && r.Some? && r.value.component == c
    && (if v.unbumped then
          var now := NewVersion(run, tables, v);
          now.Some? && r.value.version == now.value &&
            r.value.unbumped == Unbumped(run, c, TableOf(tables, c), now.value)
        else !r.value.unbumped && r.value.version == v.version)
    && (r.value.unbumped || (r.value.workspace.None? <==> PinsWill(run, tables, tree, v)))
  }

  /** The pins a second check looks at will show. */
  ghost predicate PinsWill(run: Run, tables: Tables, tree: Tree, v: Verdict) {
    forall w | w in WritesOf(run, tables, Bumping, v) + WritesOf(run, tables, Pinning, v) && w.ToPin? &&
      ChangedSince(run.git, run.tag, v.component) > 0 ::
      Will(tree, w)
  }

  lemma ComponentAfter(run: Run, tables: Tables, tree: Tree, plan: Plan, after: Tree, i: nat)
    requires Fixed(run, tables, tree, plan, after) && i < |plan.verdicts| && ROOT in after
    requires plan.verdicts[i].component in Components(run)
    requires Judge(run, plan.verdicts[i].component, TableOf(tables, plan.verdicts[i].component), tree) ==
             Some(plan.verdicts[i])
    ensures Expected(run, tables, tree, plan.verdicts[i],
                     Judge(run, plan.verdicts[i].component, TableOf(tables, plan.verdicts[i].component), after))
  {
    hide PlanOf, Writes, Differ, NewVersion, Judge, ReadVersion, ReadPin, ApplyAll, Unbumped, Spells, ChangedSince,
         WritesOf;
    var v := plan.verdicts[i];
    VerdictFacts(run, v.component, TableOf(tables, v.component), tree, v);
    FixedSettles(run, tables, tree, plan, after);
    if v.unbumped {
      BumpedExpected(run, tables, tree, plan, after, v);
    } else {
      KeptExpected(run, tables, tree, plan, after, i);
    }
  }

  lemma BumpedExpected(run: Run, tables: Tables, tree: Tree, plan: Plan, after: Tree, v: Verdict)
    requires Planned(run, tables, tree, plan) && v in plan.verdicts && ROOT in tree && ROOT in after && v.unbumped
    requires v.component in Components(run) && Judge(run, v.component, TableOf(tables, v.component), tree) == Some(v)
    requires forall w | w in Writes(run, tables, plan) :: Settled(after, w) <==> Will(tree, w)
    ensures Expected(run, tables, tree, v, Judge(run, v.component, TableOf(tables, v.component), after))
  {
    hide PlanOf, Writes, Differ, NewVersion, Judge, ReadVersion, ReadPin, Unbumped, ChangedSince, PinSits;
    var c, now := v.component, NewVersion(run, tables, v).value;
    VerdictFacts(run, c, TableOf(tables, c), tree, v);
    AskedFor(run, tables, plan, Bumping, v);
    var w := ToFile(c.file, Spells(c), v.version, now);
    assert w in WritesOf(run, tables, Bumping, v);
    assert Will(tree, w);
    assert Settled(after, w);
    BumpedAfter(run, c, TableOf(tables, c), tree, after, now);
    if KeyOf(c).Some? {
      var p := ToPin(KeyOf(c).value, now);
      assert p in WritesOf(run, tables, Bumping, v);
      assert Settled(after, p) <==> Will(tree, p);
    }
  }

  lemma KeptExpected(run: Run, tables: Tables, tree: Tree, plan: Plan, after: Tree, i: nat)
    requires Planned(run, tables, tree, plan) && i < |plan.verdicts| && ROOT in tree && ROOT in after &&
             !plan.verdicts[i].unbumped
    requires plan.verdicts[i].component in Components(run)
    requires Judge(run, plan.verdicts[i].component, TableOf(tables, plan.verdicts[i].component), tree) ==
             Some(plan.verdicts[i])
    requires forall w | w in Writes(run, tables, plan) :: Settled(after, w) <==> Will(tree, w)
    requires forall s | Proper(s) && s !in Spots(Writes(run, tables, plan)) :: SameAt(tree, after, s)
    ensures Expected(run, tables, tree, plan.verdicts[i],
                     Judge(run, plan.verdicts[i].component, TableOf(tables, plan.verdicts[i].component), after))
  {
    hide PlanOf, Writes, Differ, NewVersion, Judge, ReadVersion, ReadPin, Unbumped, ChangedSince, PinSits;
    var v := plan.verdicts[i];
    var c := v.component;
    VerdictFacts(run, c, TableOf(tables, c), tree, v);
    NotWritten(run, tables, tree, plan, i, InFile(c.file));
    assert SameAt(tree, after, InFile(c.file));
    KeptAfter(run, c, TableOf(tables, c), tree, after);
    if v.workspace.Some? {
      AskedFor(run, tables, plan, Pinning, v);
      var p := ToPin(KeyOf(c).value, v.version);
      assert p in WritesOf(run, tables, Pinning, v);
      assert Settled(after, p) <==> Will(tree, p);
    } else if KeyOf(c).Some? {
      NotWritten(run, tables, tree, plan, i, InRoot(KeyOf(c).value));
      assert SameAt(tree, after, InRoot(KeyOf(c).value));
    }
  }

  /** No component's fix goes to a mirror. */
  lemma MirrorUnwritten(run: Run, tables: Tables, tree: Tree, plan: Plan, m: Mirror)
    requires Distinct(run) && PlanOf(run, tables, tree) == Some(plan) && m in run.mirrors
    requires m.file in tree && ReadVersion(m.spelling, tree[m.file]) == Some(plan.target)
    ensures InFile(m.file) !in Spots(Writes(run, tables, plan))
  {
    hide PlanOf, Gather, Syncs, Differ, Judged, Sound, WritesOf, KeyOf;
    var s, vs := InFile(m.file), plan.verdicts;
    PlanJudged(run, tables, tree, plan);
    MirrorPlan(run, tables, tree, plan);
    SyncsExact(plan.mirrors, plan.target);
    forall w | w in Syncs(plan.mirrors, plan.target) ensures SpotOf(w) != s {
      var p :| p in plan.mirrors && w == ToFile(p.0.file, p.0.spelling, p.1, plan.target);
      assert Off(run.mirrors, plan.target, tree, p);
      SameMirror(run.mirrors, m, p.0);
    }
    forall pass: Pass ensures s !in Spots(Gather(run, tables, pass, vs)) {
      if s in Spots(Gather(run, tables, pass, vs)) {
        var i := GatheredFrom(run, tables, pass, vs, s);
      }
    }
    assert s !in Spots(Gather(run, tables, Bumping, vs)) && s !in Spots(Gather(run, tables, Pinning, vs));
  }

  lemma SameMirror(ms: seq<Mirror>, m: Mirror, n: Mirror)
    requires (forall i, j | 0 <= i < j < |ms| :: ms[i].file != ms[j].file) && m in ms && n in ms
    ensures m.file == n.file ==> m == n
  {
    var i, j :| 0 <= i < |ms| && ms[i] == m && 0 <= j < |ms| && ms[j] == n;
  }

  /** The mirror carries the target, or its fix will show. */
  ghost predicate MirrorWill(tree: Tree, target: string, m: Mirror) {
    m.file in tree && ReadVersion(m.spelling, tree[m.file]).Some? &&
    var carried := ReadVersion(m.spelling, tree[m.file]).value;
    carried == target || Will(tree, ToFile(m.file, m.spelling, carried, target))
  }

  lemma MirrorAfter(run: Run, tables: Tables, tree: Tree, plan: Plan, after: Tree, m: Mirror)
    requires Fixed(run, tables, tree, plan, after) && m in run.mirrors
    ensures m.file in after
    ensures ReadVersion(m.spelling, after[m.file]) == Some(plan.target) <==> MirrorWill(tree, plan.target, m)
  {
    hide PlanOf, Gather, Syncs, Differ, ReadVersion, ApplyAll, Bumpable;
    FixedSettles(run, tables, tree, plan, after);
    MirrorPlan(run, tables, tree, plan);
    assert m.file in after.Keys;
    var carried := ReadVersion(m.spelling, tree[m.file]).value;
    if carried == plan.target {
      MirrorUnwritten(run, tables, tree, plan, m);
      assert SameAt(tree, after, InFile(m.file));
    } else {
      SyncsExact(plan.mirrors, plan.target);
      var w := ToFile(m.file, m.spelling, carried, plan.target);
      assert (m, carried) in plan.mirrors;
      assert (m, carried).0.file == w.path && (m, carried).0.spelling == w.spelling && (m, carried).1 == w.was;
      assert w in Syncs(plan.mirrors, plan.target);
      assert Settled(after, w) <==> Will(tree, w);
    }
  }

  lemma GatewayIndex(run: Run) returns (i: nat)
    requires GatewayOf(run.crates).Some?
    ensures i < |Components(run)| && Components(run)[i] == GatewayOf(run.crates).value
  {
    var c, cs := GatewayOf(run.crates).value, Components(run);
    assert c in cs;
    i :| 0 <= i < |cs| && cs[i] == c;
  }

  /** The verdict of the gateway is that of the crate of its name. */
  lemma {:induction false} GatewayVerdict(run: Run, vs: seq<Verdict>, i: nat)
    requires Distinct(run) && GatewayOf(run.crates).Some? && i < |vs| == |Components(run)|
    requires forall k | 0 <= k < |vs| :: vs[k].component == Components(run)[k]
    requires Components(run)[i] == GatewayOf(run.crates).value
    ensures FindNamed(vs, GATEWAY) == Some(vs[i])
  {
    hide KeyOf;
    assert vs[i] in vs;
    var g := FindNamed(vs, GATEWAY).value;
    var k :| 0 <= k < |vs| && vs[k] == g;
    assert i == k;
  }

  // --- the fixpoint ------------------------------------------------------------------------------------

  lemma {:induction false} NothingCounted(vs: seq<Verdict>)
    ensures Count(vs) == 0 <==> forall i | 0 <= i < |vs| :: !vs[i].unbumped && vs[i].workspace.None?
  {
    if vs != [] {
      NothingCounted(vs[1..]);
      assert forall i | 0 < i < |vs| :: vs[i] == vs[1..][i - 1];
    }
  }

  /** The second check judges every component as expected. */
  lemma JudgedAfter(run: Run, tables: Tables, tree: Tree, plan: Plan, after: Tree)
    requires Fixed(run, tables, tree, plan, after)
    ensures ROOT in after && JudgeAll(run, Components(run), tables, after).Some?
    ensures var rs := JudgeAll(run, Components(run), tables, after).value;
            && Judged(run, tables, after, rs) && |rs| == |plan.verdicts|
            && (forall k | 0 <= k < |rs| :: rs[k].component == Components(run)[k] == plan.verdicts[k].component)
            && (forall k | 0 <= k < |rs| :: Expected(run, tables, tree, plan.verdicts[k], Some(rs[k])))
  {
    hide PlanOf, Writes, Judge, Expected, ApplyAll, Bumpable, Differ, Sound;
    var cs, vs := Components(run), plan.verdicts;
    PlanJudged(run, tables, tree, plan);
    FixedSettles(run, tables, tree, plan, after);
    forall k | 0 <= k < |cs|
      ensures vs[k].component == cs[k] &&
              Expected(run, tables, tree, vs[k], Judge(run, cs[k], TableOf(tables, cs[k]), after))
    {
      VerdictFacts(run, cs[k], TableOf(tables, cs[k]), tree, vs[k]);
      assert cs[k] in cs;
      ComponentAfter(run, tables, tree, plan, after, k);
    }
    forall k | 0 <= k < |cs| ensures Judge(run, cs[k], TableOf(tables, cs[k]), after).Some? {
      ExpectedSome(run, tables, tree, vs[k], Judge(run, cs[k], TableOf(tables, cs[k]), after));
    }
    JudgeAllExact(run, cs, tables, after);
    var rs := JudgeAll(run, cs, tables, after).value;
    forall k | 0 <= k < |rs| ensures rs[k].component == cs[k] {
      ExpectedSome(run, tables, tree, vs[k], Some(rs[k]));
    }
  }

  lemma ExpectedSome(run: Run, tables: Tables, tree: Tree, v: Verdict, r: Option<Verdict>)
    requires Expected(run, tables, tree, v, r)
    ensures r.Some? && r.value.component == v.component
  {
  }

  /** The gateway's target stands, unless the gateway is unbumped again. */
  lemma TargetAfter(run: Run, tables: Tables, tree: Tree, plan: Plan, after: Tree, rs: seq<Verdict>)
    requires Fixed(run, tables, tree, plan, after) && ROOT in after && Judged(run, tables, after, rs)
    requires |rs| == |plan.verdicts|
    requires forall k | 0 <= k < |rs| :: rs[k].component == Components(run)[k] == plan.verdicts[k].component
    requires forall k | 0 <= k < |rs| :: Expected(run, tables, tree, plan.verdicts[k], Some(rs[k]))
    ensures Target(run, tables, rs, after).Some?
    ensures (forall k | 0 <= k < |rs| :: !rs[k].unbumped) ==> Target(run, tables, rs, after) == Some(plan.target)
  {
    hide Writes, ApplyAll, Bumpable, Differ, MirrorsOff, ReadVersion, JudgeAll, Judge, NewVersion, Sound, Unbumped;
    PlanJudged(run, tables, tree, plan);
    var i := GatewayIndex(run);
    GatewayVerdict(run, plan.verdicts, i);
    GatewayVerdict(run, rs, i);
    var c := GatewayOf(run.crates).value;
    assert c in run.crates && Spells(c) == Cargo;
    GatewayRead(run, tables, tree, plan.verdicts[i], i);
    GatewayRead(run, tables, after, rs[i], i);
    if rs[i].unbumped {
      NewIsTriple(run, tables, plan.verdicts[i]);
      NewAgain(run, tables, rs[i]);
    }
  }

  lemma NewAgain(run: Run, tables: Tables, r: Verdict)
    requires ParseTriple(r.version).Some?
    ensures NewVersion(run, tables, r).Some?
  {
    hide ParseTriple, FirstFree;
  }

  lemma GatewayRead(run: Run, tables: Tables, tree: Tree, v: Verdict, i: nat)
    requires ROOT in tree && i < |Components(run)|
    requires Judge(run, Components(run)[i], TableOf(tables, Components(run)[i]), tree) == Some(v)
    ensures Components(run)[i].file in tree ==>
              ReadVersion(Spells(Components(run)[i]), tree[Components(run)[i].file]) == Some(v.version)
    ensures Components(run)[i].file !in tree ==> v.version == []
  {
    hide ReadVersion, ReadPin, TagVersion;
  }

  /** Every new version is one that no tag carries with other code. */
  ghost predicate AllFresh(run: Run, tables: Tables, plan: Plan) {
    forall v | v in plan.verdicts && v.unbumped && NewVersion(run, tables, v).Some? ::
      !Unbumped(run, v.component, TableOf(tables, v.component), NewVersion(run, tables, v).value)
  }

  /** Every fix a second check looks at will show. */
  ghost predicate AllWill(run: Run, tables: Tables, tree: Tree, plan: Plan) {
    && (forall v | v in plan.verdicts :: PinsWill(run, tables, tree, v))
    && forall m | m in run.mirrors :: MirrorWill(tree, plan.target, m)
  }

  ghost predicate NothingFound(run: Run, tables: Tables, tree: Tree) {
    PlanOf(run, tables, tree).Some? && Issues(PlanOf(run, tables, tree).value) == 0
  }

  /** Fixing reaches a fixpoint. Once every fix took, a second check over the same history goes through and finds
      nothing exactly when no new version is one that a tag carries with other code, and every fix it looks at went
      to a rewritable file or a pin read from a plain line. */
  lemma FixReachesFixpoint(run: Run, tables: Tables, tree: Tree, plan: Plan, after: Tree)
    requires Fixed(run, tables, tree, plan, after)
    ensures NothingFound(run, tables, after) <==> AllFresh(run, tables, plan) && AllWill(run, tables, tree, plan)
  {
    hide Fixed, JudgeAll, Target, Expected, AllFresh, PinsWill, MirrorWill, MirrorsOff, NothingFound, Judged;
    JudgedAfter(run, tables, tree, plan, after);
    var vs, rs := plan.verdicts, JudgeAll(run, Components(run), tables, after).value;
    TargetAfter(run, tables, tree, plan, after, rs);
    var target := Target(run, tables, rs, after).value;
    FoundIff(run, tables, after, rs, target);
    AllFreshIff(run, tables, tree, plan, rs);
    AllPinsIff(run, tables, tree, vs, rs);
    MirrorsAfter(run, tables, tree, plan, after, target);
  }

  /** A check finds nothing exactly when no component is unbumped, no pin disagrees and no mirror is off. */
  lemma FoundIff(run: Run, tables: Tables, tree: Tree, rs: seq<Verdict>, target: string)
    requires ROOT in tree && JudgeAll(run, Components(run), tables, tree) == Some(rs) &&
             Target(run, tables, rs, tree) == Some(target)
    ensures NothingFound(run, tables, tree) <==>
              && (forall i | 0 <= i < |rs| :: !rs[i].unbumped) && (forall i | 0 <= i < |rs| :: rs[i].workspace.None?)
              && MirrorsOff(run.mirrors, target, tree) == Some([])
  {
    hide JudgeAll, Target, MirrorsOff, Count;
    NothingCounted(rs);
  }

  /** With the same target, the second check finds no mirror off exactly when every fix of one will show. */
  lemma MirrorsAfter(run: Run, tables: Tables, tree: Tree, plan: Plan, after: Tree, target: string)
    requires Fixed(run, tables, tree, plan, after)
    ensures target == plan.target ==>
              (MirrorsOff(run.mirrors, target, after) == Some([]) <==>
                forall m | m in run.mirrors :: MirrorWill(tree, target, m))
  {
    hide Writes, ApplyAll, Differ, MirrorsOff, ReadVersion, MirrorWill, Distinct, Bumpable, PlanOf;
    if target == plan.target {
      forall m | m in run.mirrors
        ensures m.file in after
        ensures ReadVersion(m.spelling, after[m.file]) == Some(target) <==> MirrorWill(tree, target, m)
      {
        MirrorAfter(run, tables, tree, plan, after, m);
      }
      MirrorsExact(run.mirrors, target, after);
      if MirrorsOff(run.mirrors, target, after).Some? {
        HasMember(MirrorsOff(run.mirrors, target, after).value);
      }
    }
  }

  lemma HasMember(off: seq<(Mirror, string)>)
    ensures off == [] || exists p :: p in off
  {
    if off != [] {
      assert off[0] in off;
    }
  }

  lemma AllFreshIff(run: Run, tables: Tables, tree: Tree, plan: Plan, rs: seq<Verdict>)
    requires |rs| == |plan.verdicts|
    requires forall k | 0 <= k < |rs| :: Expected(run, tables, tree, plan.verdicts[k], Some(rs[k]))
    ensures (forall i | 0 <= i < |rs| :: !rs[i].unbumped) <==> AllFresh(run, tables, plan)
  {
    hide Unbumped, NewVersion, PinsWill;
    var vs := plan.verdicts;
    if forall i | 0 <= i < |rs| :: !rs[i].unbumped {
      forall v | v in vs && v.unbumped && NewVersion(run, tables, v).Some?
        ensures !Unbumped(run, v.component, TableOf(tables, v.component), NewVersion(run, tables, v).value)
      {
        var k :| 0 <= k < |vs| && vs[k] == v;
        assert Expected(run, tables, tree, vs[k], Some(rs[k]));
      }
    }
    if AllFresh(run, tables, plan) {
      forall i | 0 <= i < |rs| ensures !rs[i].unbumped {
        assert Expected(run, tables, tree, vs[i], Some(rs[i])) && vs[i] in vs;
      }
    }
  }

  lemma AllPinsIff(run: Run, tables: Tables, tree: Tree, vs: seq<Verdict>, rs: seq<Verdict>)
    requires |rs| == |vs| && forall k | 0 <= k < |rs| :: Expected(run, tables, tree, vs[k], Some(rs[k]))
    ensures (forall i | 0 <= i < |rs| :: !rs[i].unbumped) ==>
              ((forall i | 0 <= i < |rs| :: rs[i].workspace.None?) <==>
                forall v | v in vs :: PinsWill(run, tables, tree, v))
  {
    hide Unbumped, NewVersion, PinsWill;
    if (forall i | 0 <= i < |rs| :: !rs[i].unbumped) && (forall i | 0 <= i < |rs| :: rs[i].workspace.None?) {
      forall v | v in vs ensures PinsWill(run, tables, tree, v) {
        var k :| 0 <= k < |vs| && vs[k] == v;
        assert Expected(run, tables, tree, vs[k], Some(rs[k]));
      }
    }
    if (forall i | 0 <= i < |rs| :: !rs[i].unbumped) && (forall v | v in vs :: PinsWill(run, tables, tree, v)) {
      forall i | 0 <= i < |rs| ensures rs[i].workspace.None? {
        assert Expected(run, tables, tree, vs[i], Some(rs[i])) && vs[i] in vs;
      }
    }
  }

  /** The tables are the release tags', newest first where several carry a version. */
  ghost predicate TablesOf(run: Run, tables: Tables) {
    forall c | c in Components(run) :: c.name in tables && NewestTags(run.git, c, run.git.tags, tables[c.name])
  }

  /** Against a release tag, and with an override no release tag carries, the second check finds nothing exactly
      when every fix it looks at will show. */
  lemma ReleaseFixIsFinal(run: Run, tables: Tables, tree: Tree, plan: Plan, after: Tree)
    requires Fixed(run, tables, tree, plan, after) && TablesOf(run, tables)
    requires run.tag in run.git.tags && IsReleaseTag(run.tag)
    requires forall c | c in Components(run) && c.name == GATEWAY && run.override.Some? ::
               run.override.value !in TableOf(tables, c)
    ensures NothingFound(run, tables, after) <==> AllWill(run, tables, tree, plan)
  {
    hide NothingFound, AllWill, Writes, ApplyAll, Differ, PlanOf, IsReleaseTag, FirstFree, Judged, Distinct, Sound;
    FixReachesFixpoint(run, tables, tree, plan, after);
    PlanJudged(run, tables, tree, plan);
    forall v | v in plan.verdicts && v.unbumped
      ensures !Unbumped(run, v.component, TableOf(tables, v.component), NewVersion(run, tables, v).value)
    {
      var c, now := v.component, NewVersion(run, tables, v).value;
      assert now !in TableOf(tables, c) by {
        NewIsFree(run, tables, v);
      }
      TagVersionListed(run, tables, c);
    }
  }

  lemma NewIsFree(run: Run, tables: Tables, v: Verdict)
    requires NewVersion(run, tables, v).Some?
    requires v.component.name == GATEWAY && run.override.Some? ==> run.override.value !in TableOf(tables, v.component)
    ensures NewVersion(run, tables, v).value !in TableOf(tables, v.component)
  {
    hide ParseTriple, Render;
  }

  /** A release tag's own version is in the table. */
  lemma TagVersionListed(run: Run, tables: Tables, c: Component)
    requires TablesOf(run, tables) && c in Components(run) && run.tag in run.git.tags && IsReleaseTag(run.tag)
    ensures TagVersion(run, c).Some? && TagVersion(run, c).value.Some? ==>
            TagVersion(run, c).value.value in TableOf(tables, c)
  {
    hide ReadVersion, TextAt, IsReleaseTag;
    if TagVersion(run, c).Some? && TagVersion(run, c).value.Some? {
      assert Carries(run.git, c, run.git.tags, run.tag, TagVersion(run, c).value.value);
    }
  }
}
