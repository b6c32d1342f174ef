/**
 The release checker: one verdict per component, the plan they make with the gateway's mirrors, and
 the fixes. A `None` where a verdict or a plan is asked for is the run ending in a `Fatal`.
 */
module ReleaseCheck {
  import opened Text
  import opened Semver
  import opened Carriers
  import opened Rewrites
  import opened VersionFiles
  import opened ReleaseTags

  type Tree = map<string, File>

  const GATEWAY := "smg"
  const ROOT := "Cargo.toml"

  datatype Mirror = Mirror(file: string, spelling: Spelling)

  datatype Verdict = Verdict(component: Component, changed: nat, version: string, tagVersion: Option<string>,
                             carriedBy: Option<string>, unbumped: bool, level: Option<Level>, workspace: Option<string>)

  /** What a run is given besides the working tree. */
  datatype Run = Run(git: Git, tag: string, crates: seq<Component>, packages: seq<Component>, mirrors: seq<Mirror>,
                     override: Option<string>)

  type Tables = map<string, map<string, string>>

  function TableOf(tables: Tables, c: Component): map<string, string> {
    if c.name in tables then tables[c.name] else map[]
  }

  function ChangedSince(git: Git, ref: string, c: Component): nat {
    if (ref, c.name) in git.changed then git.changed[(ref, c.name)] else 0
  }

  function LevelOf(git: Git, c: Component): Level {
    if c.name in git.levels then git.levels[c.name] else Patch
  }

  /** The key of a component that has one. */
  function KeyOf(c: Component): Option<string> {
    if c.depKey.Some? && c.depKey.value != [] then c.depKey else None
  }

  // --- one component --------------------------------------------------------------------------

  /** The version at the comparison tag: none there, or unreadable. */
  function TagVersion(run: Run, c: Component): Option<Option<string>> {
    match TextAt(run.git, run.tag, c)
    case None => Some(None)
    case Some(text) =>
      match ReadVersion(Spells(c), text)
      case None => None
      case Some(v) => Some(Some(v))
  }

  /** The release tag whose copy carries the version. */
  function Carrier(run: Run, c: Component, table: map<string, string>, version: string): Option<string> {
    if TagVersion(run, c) == Some(Some(version)) then Some(run.tag)
    else if version in table then Some(table[version])
    else None
  }

  /** The version is a release tag's, carried there with other code. */
  predicate Unbumped(run: Run, c: Component, table: map<string, string>, version: string) {
    var carrier := Carrier(run, c, table, version);
    carrier.Some? && ChangedSince(run.git, carrier.value, c) > 0
  }

  /** The root's pin where it disagrees. */
  function PinOff(root: File, key: string, version: string): Option<string> {
    var pinned := ReadPin(root, key);
    if pinned == Some(version) then None else Some(if pinned.Some? then pinned.value else [])
  }

  /** A component whose files changed must have bumped its version, or have it pinned as it is. */
  function Judge(run: Run, c: Component, table: map<string, string>, tree: Tree): Option<Verdict>
    requires ROOT in tree
  {
    var since := ChangedSince(run.git, run.tag, c);
    if c.file !in tree then
      if since > 0 then None else Some(Verdict(c, 0, [], None, None, false, None, None))
    else match (ReadVersion(Spells(c), tree[c.file]), TagVersion(run, c))
      case (Some(version), Some(tagVersion)) =>
        var carrier := Carrier(run, c, table, version);
        var unbumped := Unbumped(run, c, table, version);
        Some(Verdict(
          c, ChangedSince(run.git, if carrier.Some? then carrier.value else run.tag, c), version, tagVersion,
          if carrier == Some(run.tag) then None else carrier, unbumped,
          if unbumped then Some(LevelOf(run.git, c)) else None,
          if KeyOf(c).Some? && since > 0 && !unbumped then PinOff(tree[ROOT], KeyOf(c).value, version) else None))
      case _ => None
  }

  /** `check` */
  method CheckComponent(run: Run, c: Component, root: File, table: map<string, string>, tree: Tree)
    returns (r: Option<Verdict>)
    requires ROOT in tree && root == tree[ROOT]
    ensures r == Judge(run, c, table, tree)
    ensures ListedOnce(run.git.tags) && NewestTags(run.git, c, run.git.tags, table) ==> VerdictSays(run, c, tree, r)
  {
    hide ReadVersion, ReadPin, TextAt, NewestTags, ListedOnce, VerdictSays, IsReleaseTag;
    if ListedOnce(run.git.tags) && NewestTags(run.git, c, run.git.tags, table) {
      VerdictExact(run, c, table, tree);
    }
    var v := Verdict(c, ChangedSince(run.git, run.tag, c), [], None, None, false, None, None);
    if c.file !in tree {
      return if v.changed > 0 then None else Some(v);
    }
    var read := ReadVersion(Spells(c), tree[c.file]);
    if read.None? {
      return None;
    }
    v := v.(version := read.value);
    var text := TextAt(run.git, run.tag, c);
    if text.Some? {
      var at := ReadVersion(Spells(c), text.value);
      if at.None? {
        return None;
      }
      v := v.(tagVersion := at);
    }
    var carrier :=
      if v.tagVersion == Some(v.version) then Some(run.tag)
      else if v.version in table then Some(table[v.version]) else None;
    var changedSinceTag := v.changed;
    if carrier.Some? && carrier.value != run.tag {
      v := v.(carriedBy := carrier, changed := ChangedSince(run.git, carrier.value, c));
    }
    if v.changed == 0 {
      if changedSinceTag > 0 && KeyOf(c).Some? {
        var pinned := ReadPin(root, KeyOf(c).value);
        if pinned != Some(v.version) {
          v := v.(workspace := Some(if pinned.Some? then pinned.value else []));
        }
      }
      return Some(v);
    }
    v := v.(unbumped := carrier.Some?);
    if v.unbumped {
      v := v.(level := Some(LevelOf(run.git, c)));
    } else if KeyOf(c).Some? {
      var pinned := ReadPin(root, KeyOf(c).value);
      if pinned != Some(v.version) {
        v := v.(workspace := Some(if pinned.Some? then pinned.value else []));
      }
    }
    return Some(v);
  }

  // --- what a verdict says -----------------------------------------------------------------------

  /** Git has a number other than zero of files of the component changed since the ref. */
  ghost predicate Reworked(git: Git, ref: string, c: Component) {
    (ref, c.name) in git.changed && git.changed[(ref, c.name)] != 0
  }

  /** The comparison tag's copy carries the version with other code, or does not carry it and the newest release tag
      that does has other code. */
  ghost predicate Clashes(run: Run, c: Component, version: string) {
    if CarriedAt(run.git, run.tag, c) == Some(version) then Reworked(run.git, run.tag, c)
    else exists t :: NewestCarrier(run.git, c, run.git.tags, t, version) && Reworked(run.git, t, c)
  }

  /** The files changed are counted from the release tag that carries the version, which is named unless it is the
      comparison tag; and from the comparison tag where none does. */
  ghost predicate Measured(run: Run, c: Component, version: string, v: Verdict) {
    if CarriedAt(run.git, run.tag, c) == Some(version) || v.carriedBy.None? then
      && v.carriedBy.None? && Numbered(run.git, run.tag, c, v.changed)
      && (CarriedAt(run.git, run.tag, c) != Some(version) ==>
            forall t :: !Carries(run.git, c, run.git.tags, t, version))
    else
      && NewestCarrier(run.git, c, run.git.tags, v.carriedBy.value, version)
      && Numbered(run.git, v.carriedBy.value, c, v.changed)
  }

  ghost predicate Numbered(git: Git, ref: string, c: Component, n: nat) {
    if (ref, c.name) in git.changed then n == git.changed[(ref, c.name)] else n == 0
  }

  ghost predicate ListedOnce(tags: seq<string>) {
    forall i, j | 0 <= i < j < |tags| :: tags[i] != tags[j]
  }

  /** There is one newest carrier. */
  lemma OneCarrier(git: Git, c: Component, tags: seq<string>, a: string, b: string, version: string)
    requires ListedOnce(tags) && NewestCarrier(git, c, tags, a, version) && NewestCarrier(git, c, tags, b, version)
    ensures a == b
  {
    hide CarriedAt, IsReleaseTag, TagRelease;
    assert Carries(git, c, tags, a, version) && Carries(git, c, tags, b, version);
  }

  /** A verdict: none where the file is gone and changed, or where it or the tag's copy cannot be read. Otherwise
      unbumped exactly when the version clashes, with the bump its commits ask for; and the pin is reported exactly
      when the component is pinned, changed since the comparison tag, is not unbumped, and pinned as something else. */
  ghost predicate VerdictSays(run: Run, c: Component, tree: Tree, r: Option<Verdict>)
    requires ROOT in tree
  {
    if c.file !in tree then
      if Reworked(run.git, run.tag, c) then r.None?
      else r.Some? && !r.value.unbumped && r.value.workspace.None?
    else
      var read := ReadVersion(Spells(c), tree[c.file]);
      if read.None? || (TextAt(run.git, run.tag, c).Some? && CarriedAt(run.git, run.tag, c).None?) then r.None?
      else
        && r.Some? && r.value.version == read.value && r.value.tagVersion == CarriedAt(run.git, run.tag, c)
        && Measured(run, c, read.value, r.value)
        && (r.value.unbumped <==> Clashes(run, c, read.value))
        && r.value.level == (if Clashes(run, c, read.value) then Some(LevelOf(run.git, c)) else None)
        && r.value.workspace ==
           if && c.depKey.Some? && c.depKey.value != [] && Reworked(run.git, run.tag, c)
              && !Clashes(run, c, read.value) && ReadPin(tree[ROOT], c.depKey.value) != Some(read.value)
           then Some(match ReadPin(tree[ROOT], c.depKey.value) case Some(pin) => pin case None => [])
           else None
  }

  lemma VerdictExact(run: Run, c: Component, table: map<string, string>, tree: Tree)
    requires ROOT in tree && ListedOnce(run.git.tags) && NewestTags(run.git, c, run.git.tags, table)
    ensures VerdictSays(run, c, tree, Judge(run, c, table, tree))
  {
    hide ReadVersion, ReadPin, TextAt, IsReleaseTag, Spells, ComesBefore;
    if c.file in tree {
      var read := ReadVersion(Spells(c), tree[c.file]);
      if read.Some? {
        UnbumpedIff(run, c, table, read.value);
        CarrierIs(run, c, table, read.value);
      }
    }
  }

  lemma CarrierIs(run: Run, c: Component, table: map<string, string>, version: string)
    requires ListedOnce(run.git.tags) && NewestTags(run.git, c, run.git.tags, table)
    ensures var carrier := Carrier(run, c, table, version);
            if CarriedAt(run.git, run.tag, c) == Some(version) then carrier == Some(run.tag)
            else
              && carrier != Some(run.tag)
              && if carrier.Some? then NewestCarrier(run.git, c, run.git.tags, carrier.value, version)
                 else forall t :: !Carries(run.git, c, run.git.tags, t, version)
  {
    hide CarriedAt, IsReleaseTag, ComesBefore;
    TagCarries(run, c, version);
    assert version in table ==> NewestCarrier(run.git, c, run.git.tags, table[version], version);
  }

  lemma UnbumpedIff(run: Run, c: Component, table: map<string, string>, version: string)
    requires ListedOnce(run.git.tags) && NewestTags(run.git, c, run.git.tags, table)
    ensures Unbumped(run, c, table, version) <==> Clashes(run, c, version)
  {
    hide CarriedAt, IsReleaseTag, ComesBefore;
    TagCarries(run, c, version);
    if CarriedAt(run.git, run.tag, c) != Some(version) && version in table {
      assert NewestCarrier(run.git, c, run.git.tags, table[version], version);
      forall t | NewestCarrier(run.git, c, run.git.tags, t, version) ensures t == table[version] {
        OneCarrier(run.git, c, run.git.tags, t, table[version], version);
      }
    }
  }

  lemma TagCarries(run: Run, c: Component, version: string)
    ensures TagVersion(run, c) == Some(Some(version)) <==> CarriedAt(run.git, run.tag, c) == Some(version)
  {
    hide ReadVersion, TextAt;
  }

  // --- the plan ----------------------------------------------------------------------------------

  datatype Plan = Plan(verdicts: seq<Verdict>, mirrors: seq<(Mirror, string)>, target: string)

  function Count(vs: seq<Verdict>): nat {
    if vs == [] then 0
    else (if vs[0].unbumped then 1 else 0) + (if vs[0].workspace.Some? then 1 else 0) + Count(vs[1..])
  }

  /** `Plan.issues` */
  function Issues(plan: Plan): nat {
    Count(plan.verdicts) + |plan.mirrors|
  }

  /** `Plan.new_version`; None for a version that cannot be bumped. */
  function NewVersion(run: Run, tables: Tables, v: Verdict): Option<string> {
    if run.override.Some? && v.component.name == GATEWAY then run.override
    else Proposal(v.version, if v.level.Some? then v.level.value else Patch, TableOf(tables, v.component))
  }

  function JudgeAll(run: Run, cs: seq<Component>, tables: Tables, tree: Tree): Option<seq<Verdict>>
    requires ROOT in tree
  {
    if cs == [] then Some([])
    else
      var n := |cs| - 1;
      match (JudgeAll(run, cs[..n], tables, tree), Judge(run, cs[n], TableOf(tables, cs[n]), tree))
      case (Some(vs), Some(v)) => Some(vs + [v])
      case _ => None
  }

  /** The mirrors that disagree with the target, and what they carry. */
  function MirrorsOff(ms: seq<Mirror>, target: string, tree: Tree): Option<seq<(Mirror, string)>> {
    if ms == [] then Some([])
    else
      var n := |ms| - 1;
      var m := ms[n];
      if m.file !in tree then None
      else match (MirrorsOff(ms[..n], target, tree), ReadVersion(m.spelling, tree[m.file]))
        case (Some(off), Some(carried)) => Some(if carried == target then off else off + [(m, carried)])
        case _ => None
  }

  function FindNamed(vs: seq<Verdict>, name: string): (r: Option<Verdict>)
    ensures r.Some? ==> r.value in vs && r.value.component.name == name
    ensures r.None? ==> forall v | v in vs :: v.component.name != name
  {
    if vs == [] then None else if vs[0].component.name == name then Some(vs[0]) else FindNamed(vs[1..], name)
  }

  function GatewayOf(cs: seq<Component>): (r: Option<Component>)
    ensures r.Some? ==> r.value in cs && r.value.name == GATEWAY
  {
    if cs == [] then None else if cs[0].name == GATEWAY then Some(cs[0]) else GatewayOf(cs[1..])
  }

  /** The version the mirrors must carry: the gateway's, or the one it is about to get. */
  function Target(run: Run, tables: Tables, vs: seq<Verdict>, tree: Tree): Option<string> {
    var gateway := FindNamed(vs, GATEWAY);
    var c := GatewayOf(run.crates);
    if c.None? || c.value.file !in tree then None
    else
      var read := ReadVersion(Cargo, tree[c.value.file]);
      if read.Some? && gateway.Some? && gateway.value.unbumped then NewVersion(run, tables, gateway.value) else read
  }

  function PlanOf(run: Run, tables: Tables, tree: Tree): Option<Plan> {
    if ROOT !in tree then None
    else match JudgeAll(run, run.crates + run.packages, tables, tree)
      case None => None
      case Some(vs) =>
        match Target(run, tables, vs, tree)
        case None => None
        case Some(target) =>
          match MirrorsOff(run.mirrors, target, tree)
          case None => None
          case Some(off) => Some(Plan(vs, off, target))
  }

  // --- the fixes -----------------------------------------------------------------------------------

  datatype Write = ToFile(path: string, spelling: Spelling, was: string, now: string) | ToPin(key: string, now: string)

  /** One rewrite: the tree after it, and whether it took. */
  function ApplyOne(tree: Tree, w: Write): (Tree, bool)
    requires w.ToFile? ==> w.path in tree
    requires w.ToPin? ==> ROOT in tree
  {
    match w
    case ToFile(path, spelling, was, now) =>
      (match WriteVersion(spelling, tree[path], was, now)
       case None => (tree, false)
       case Some(text) => (tree[path := text], true))
    case ToPin(key, now) =>
      var pinned := ReadPin(tree[ROOT], key);
      (match WritePin(tree[ROOT], key, if pinned.Some? then pinned.value else [], now)
       case None => (tree, false)
       case Some(text) => (tree[ROOT := text], true))
  }

  predicate Writeable(tree: Tree, ws: seq<Write>) {
    ROOT in tree && forall w | w in ws && w.ToFile? :: w.path in tree
  }

  function ApplyAll(tree: Tree, ws: seq<Write>): (r: (Tree, nat))
    requires Writeable(tree, ws)
    ensures r.0.Keys == tree.Keys
  {
    if ws == [] then (tree, 0)
    else
      var n := |ws| - 1;
      var (before, failed) := ApplyAll(tree, ws[..n]);
      assert Writeable(before, ws) by {
        assert forall p :: p in before <==> p in before.Keys;
      }
      var (after, took) := ApplyOne(before, ws[n]);
      (after, failed + if took then 0 else 1)
  }

  /** Every unbumped component has a version to go to. */
  predicate Bumpable(run: Run, tables: Tables, vs: seq<Verdict>) {
    forall v | v in vs && v.unbumped :: NewVersion(run, tables, v).Some?
  }

  /** The two walks of `apply` over the verdicts: the bumps, then the pins that disagree. */
  datatype Pass = Bumping | Pinning

  function WritesOf(run: Run, tables: Tables, pass: Pass, v: Verdict): seq<Write> {
    var c := v.component;
    match pass
    case Bumping =>
      var now := NewVersion(run, tables, v);
      if !v.unbumped || now.None? then []
      else [ToFile(c.file, Spells(c), v.version, now.value)] +
           if c.crate && KeyOf(c).Some? then [ToPin(KeyOf(c).value, now.value)] else []
    case Pinning =>
      if v.workspace.None? then [] else [ToPin(if c.depKey.Some? then c.depKey.value else [], v.version)]
  }

  function Gather(run: Run, tables: Tables, pass: Pass, vs: seq<Verdict>): seq<Write> {
    if vs == [] then []
    else Gather(run, tables, pass, vs[..|vs| - 1]) + WritesOf(run, tables, pass, vs[|vs| - 1])
  }

  function Syncs(ms: seq<(Mirror, string)>, target: string): seq<Write> {
    if ms == [] then []
    else
      var (m, carried) := ms[|ms| - 1];
      Syncs(ms[..|ms| - 1], target) + [ToFile(m.file, m.spelling, carried, target)]
  }

  /** Everything `apply` writes, in its order. */
  function Writes(run: Run, tables: Tables, plan: Plan): seq<Write> {
    Gather(run, tables, Bumping, plan.verdicts) + Gather(run, tables, Pinning, plan.verdicts) +
      Syncs(plan.mirrors, plan.target)
  }
}
