/** Which release tag carries which version of a component: the newest, where several do. */
module ReleaseTags {
  import opened Text
  import opened Semver
  import opened Carriers
  import opened VersionFiles

  /** A workspace crate, or a Python package; `depKey` is its key among the workspace dependencies. */
  datatype Component = Component(crate: bool, name: string, dir: string, file: string, depKey: Option<string>)

  /** What git answers: the text at a ref and path, the tags, the files changed since a ref, the bump asked for. */
  datatype Git = Git(files: map<(string, string), File>, tags: seq<string>,
                     changed: map<(string, string), nat>, levels: map<string, Level>)

  /** `manifest_kind` */
  function Spells(c: Component): Spelling {
    if c.crate then Cargo else if EndsWith(c.file, ".toml") then Manifest else Dunder
  }

  /** `with_legacy` */
  function WithLegacy(path: string): seq<string> {
    if StartsAt(path, "crates/", 0) then [path, path[7..]] else [path]
  }

  function FirstText(git: Git, ref: string, paths: seq<string>): Option<File> {
    if paths == [] then None
    else if (ref, paths[0]) in git.files then Some(git.files[(ref, paths[0])])
    else FirstText(git, ref, paths[1..])
  }

  /** A component's version file at a ref. */
  function TextAt(git: Git, ref: string, c: Component): Option<File> {
    FirstText(git, ref, WithLegacy(c.file))
  }

  /** A crate's version file is a manifest that may inherit; a package's is a manifest when named `.toml`, and a
      Python module otherwise. */
  lemma SpellsIff(c: Component)
    ensures Spells(c).Cargo? <==> c.crate
    ensures Spells(c).Manifest? <==> !c.crate && exists base :: c.file == base + ".toml"
    ensures Spells(c).Dunder? <==> !c.crate && !exists base :: c.file == base + ".toml"
  {
    if EndsWith(c.file, ".toml") {
      assert c.file == c.file[..|c.file| - 5] + ".toml";
    }
    forall base | c.file == base + ".toml" ensures EndsWith(c.file, ".toml") {
      assert c.file[|base|..] == ".toml";
    }
  }

  /** The copy under the component's own path, or else, for one under `crates/`, the copy where it was before. */
  lemma TextAtIff(git: Git, ref: string, c: Component)
    ensures TextAt(git, ref, c) ==
            if (ref, c.file) in git.files then Some(git.files[(ref, c.file)])
            else if |c.file| >= 7 && c.file[..7] == "crates/" && (ref, c.file[7..]) in git.files
            then Some(git.files[(ref, c.file[7..])])
            else None
  {
    hide FirstText;
    assert |"crates/"| == 7;
    assert |c.file| >= 7 ==> c.file[0..7] == c.file[..7];
    FirstOfTwo(git, ref, c.file, if |c.file| >= 7 then c.file[7..] else []);
  }

  lemma FirstOfTwo(git: Git, ref: string, a: string, b: string)
    ensures FirstText(git, ref, [a]) == if (ref, a) in git.files then Some(git.files[(ref, a)]) else None
    ensures FirstText(git, ref, [a, b]) ==
            if (ref, a) in git.files then Some(git.files[(ref, a)])
            else if (ref, b) in git.files then Some(git.files[(ref, b)]) else None
  {
    assert [a][1..] == [] && [b][1..] == [] && [a, b][1..] == [b];
    assert FirstText(git, ref, []) == None;
    assert FirstText(git, ref, [b]) == if (ref, b) in git.files then Some(git.files[(ref, b)]) else None;
  }

  /** The version a tag's copy carries; None without a copy or without a readable version. */
  function CarriedAt(git: Git, ref: string, c: Component): Option<string> {
    match TextAt(git, ref, c)
    case None => None
    case Some(text) => ReadVersion(Spells(c), text)
  }

  // --- the release tags in order ----------------------------------------------------------------

  predicate IsReleaseTag(tag: string) {
    tag != [] && tag[0] == 'v' && ParseRelease(tag[1..]).Some?
  }

  /** `v` and a release. */
  lemma ReleaseTagIff(tag: string)
    ensures IsReleaseTag(tag) <==> exists version :: tag == "v" + version && ParseRelease(version).Some?
  {
    hide ParseRelease;
    if IsReleaseTag(tag) {
      assert tag == "v" + tag[1..];
    }
    forall version | tag == "v" + version ensures tag[1..] == version && tag[0] == 'v' {
    }
  }

  function TagRelease(tag: string): Release
    requires IsReleaseTag(tag)
  {
    ParseRelease(tag[1..]).value
  }

  /** `a` may stand before `b`: its key is not above. */
  predicate NotAbove(a: string, b: string)
    requires IsReleaseTag(a) && IsReleaseTag(b)
  {
    !KeyLess(Key(TagRelease(b)), Key(TagRelease(a)))
  }

  ghost predicate InOrder(tags: seq<string>) {
    && (forall i | 0 <= i < |tags| :: IsReleaseTag(tags[i]))
    && forall i, j | 0 <= i < j < |tags| :: NotAbove(tags[i], tags[j])
  }

  /** `a` is of a lower version than `b`, or of the same and listed no later. */
  ghost predicate ComesBefore(tags: seq<string>, a: string, b: string)
    requires IsReleaseTag(a) && IsReleaseTag(b)
  {
    || KeyLess(Key(TagRelease(a)), Key(TagRelease(b)))
    || (NotAbove(a, b) && exists i, j :: 0 <= i <= j < |tags| && tags[i] == a && tags[j] == b)
  }

  /** A stable insertion, as Python's `sorted` orders equal keys. */
  method PlaceTag(tag: string, tags: seq<string>) returns (r: seq<string>)
    requires IsReleaseTag(tag) && InOrder(tags)
    ensures InOrder(r) && multiset(r) == multiset(tags) + multiset{tag}
    ensures exists i | 0 <= i <= |tags| ::
              r == tags[..i] + [tag] + tags[i..] && forall j | i <= j < |tags| :: !NotAbove(tags[j], tag)
  {
    hide ParseRelease, KeyLess;
    var i := |tags|;
    while i > 0 && !NotAbove(tags[i - 1], tag)
      invariant 0 <= i <= |tags|
      invariant forall j | i <= j < |tags| :: !NotAbove(tags[j], tag)
    {
      i := i - 1;
    }
    r := tags[..i] + [tag] + tags[i..];
    assert tags == tags[..i] + tags[i..];
    Placed(tag, tags, i);
  }

  lemma Placed(tag: string, tags: seq<string>, i: nat)
    requires IsReleaseTag(tag) && InOrder(tags) && i <= |tags|
    requires i > 0 ==> NotAbove(tags[i - 1], tag)
    requires forall j | i <= j < |tags| :: !NotAbove(tags[j], tag)
    ensures InOrder(tags[..i] + [tag] + tags[i..])
  {
    hide IsReleaseTag, TagRelease;
    var r := tags[..i] + [tag] + tags[i..];
    forall j | 0 <= j < i ensures NotAbove(tags[j], tag) {
      if j < i - 1 {
        NotAboveTransitive(tags[j], tags[i - 1], tag);
      }
    }
    forall j | i <= j < |tags| ensures NotAbove(tag, tags[j]) {
    }
  }

  lemma NotAboveTransitive(a: string, b: string, c: string)
    requires IsReleaseTag(a) && IsReleaseTag(b) && IsReleaseTag(c) && NotAbove(a, b) && NotAbove(b, c)
    ensures NotAbove(a, c)
  {
    hide IsReleaseTag, TagRelease;
  }

  /** Tags of one version stay in the order they are listed in. */
  ghost predicate Stable(tags: seq<string>, r: seq<string>) {
    && (forall i | 0 <= i < |r| :: IsReleaseTag(r[i]))
    && forall i, j | 0 <= i < j < |r| :: ComesBefore(tags, r[i], r[j])
  }

  lemma BeforeMore(tags: seq<string>, tag: string, a: string, b: string)
    requires IsReleaseTag(a) && IsReleaseTag(b) && ComesBefore(tags, a, b)
    ensures ComesBefore(tags + [tag], a, b)
  {
    hide IsReleaseTag, TagRelease, KeyLess;
    var all := tags + [tag];
    if !KeyLess(Key(TagRelease(a)), Key(TagRelease(b))) {
      var i, j :| 0 <= i <= j < |tags| && tags[i] == a && tags[j] == b;
      assert all[i] == a && all[j] == b;
    }
  }

  lemma PlacedStable(tags: seq<string>, tag: string, r: seq<string>, i: nat)
    requires IsReleaseTag(tag) && InOrder(r) && Stable(tags, r) && i <= |r| && (forall t | t in r :: t in tags)
    requires InOrder(r[..i] + [tag] + r[i..]) && forall j | i <= j < |r| :: !NotAbove(r[j], tag)
    ensures Stable(tags + [tag], r[..i] + [tag] + r[i..])
  {
    hide IsReleaseTag, TagRelease;
    var all, placed := tags + [tag], r[..i] + [tag] + r[i..];
    forall p, q | 0 <= p < q < |placed| ensures IsReleaseTag(placed[p]) && IsReleaseTag(placed[q])
    {
    }
    forall p, q | 0 <= p < q < |placed| ensures ComesBefore(all, placed[p], placed[q]) {
      assert NotAbove(placed[p], placed[q]);
      if q == i {
        assert placed[p] == r[p] && r[p] in tags;
        var k :| 0 <= k < |tags| && tags[k] == r[p];
        assert all[k] == placed[p] && all[|tags|] == placed[q];
      } else if p != i {
        var a, b := if p < i then p else p - 1, if q < i then q else q - 1;
        assert placed[p] == r[a] && placed[q] == r[b];
        BeforeMore(tags, tag, r[a], r[b]);
      } else {
        assert placed[q] == r[q - 1];
      }
    }
  }

  /** `release_tags`, sorted by `version_key`. */
  method SortedTags(tags: seq<string>) returns (r: seq<string>)
    ensures InOrder(r) && Stable(tags, r)
    ensures forall t :: t in r <==> t in tags && IsReleaseTag(t)
  {
    hide ParseRelease, ComesBefore, IsReleaseTag;
    r := [];
    for n := 0 to |tags|
      invariant InOrder(r) && Stable(tags[..n], r)
      invariant forall t :: t in r <==> t in tags[..n] && IsReleaseTag(t)
    {
      assert tags[..n + 1] == tags[..n] + [tags[n]];
      if IsReleaseTag(tags[n]) {
        var placed := PlaceTag(tags[n], r);
        ghost var i :| 0 <= i <= |r| && placed == r[..i] + [tags[n]] + r[i..] &&
                       forall j | i <= j < |r| :: !NotAbove(r[j], tags[n]);
        PlacedStable(tags[..n], tags[n], r, i);
        assert forall t :: t in placed <==> t in multiset(placed);
        r := placed;
      } else {
        StableMore(tags[..n], tags[n], r);
      }
    }
    assert tags[..|tags|] == tags;
  }

  lemma StableMore(tags: seq<string>, tag: string, r: seq<string>)
    requires Stable(tags, r)
    ensures Stable(tags + [tag], r)
  {
    hide IsReleaseTag, ComesBefore;
    forall i, j | 0 <= i < j < |r| ensures ComesBefore(tags + [tag], r[i], r[j]) {
      BeforeMore(tags, tag, r[i], r[j]);
    }
  }

  // --- the table --------------------------------------------------------------------------------

  /** `{found[tag]: tag for tag in tags if tag in found}` */
  function TableUpTo(git: Git, c: Component, tags: seq<string>): map<string, string> {
    if tags == [] then map[]
    else
      var rest := TableUpTo(git, c, tags[..|tags| - 1]);
      var tag := tags[|tags| - 1];
      match CarriedAt(git, tag, c)
      case None => rest
      case Some(v) => rest[v := tag]
  }

  /** A release tag whose copy carries the version. */
  ghost predicate Carries(git: Git, c: Component, tags: seq<string>, t: string, version: string) {
    t in tags && IsReleaseTag(t) && CarriedAt(git, t, c) == Some(version)
  }

  /** The newest of them, and the last listed of several of one version. */
  ghost predicate NewestCarrier(git: Git, c: Component, tags: seq<string>, t: string, version: string) {
    && Carries(git, c, tags, t, version)
    && forall u | Carries(git, c, tags, u, version) && u != t :: ComesBefore(tags, u, t)
  }

  /** A version is in the table exactly when a release tag carries it, under the newest such tag. */
  ghost predicate NewestTags(git: Git, c: Component, tags: seq<string>, table: map<string, string>) {
    forall v ::
      if v in table then NewestCarrier(git, c, tags, table[v], v) else forall t :: !Carries(git, c, tags, t, v)
  }

  lemma {:induction false} TableIsLast(git: Git, c: Component, r: seq<string>, v: string)
    ensures var table := TableUpTo(git, c, r);
            if v in table
            then exists i ::
                   && 0 <= i < |r| && r[i] == table[v] && CarriedAt(git, r[i], c) == Some(v)
                   && forall j | i < j < |r| :: CarriedAt(git, r[j], c) != Some(v)
            else forall i | 0 <= i < |r| :: CarriedAt(git, r[i], c) != Some(v)
  {
    hide CarriedAt;
    if r != [] {
      var n := |r| - 1;
      TableIsLast(git, c, r[..n], v);
      if CarriedAt(git, r[n], c) == Some(v) {
        assert r[n] == TableUpTo(git, c, r)[v];
      } else if v in TableUpTo(git, c, r) {
        var i :|
          && 0 <= i < n && r[..n][i] == TableUpTo(git, c, r[..n])[v] && CarriedAt(git, r[..n][i], c) == Some(v)
          && forall j | i < j < n :: CarriedAt(git, r[..n][j], c) != Some(v);
        assert r[i] == TableUpTo(git, c, r)[v];
        assert forall j | i < j < |r| :: CarriedAt(git, r[j], c) != Some(v) by {
          assert forall j | i < j < n :: r[..n][j] == r[j];
        }
      }
    }
  }

  /** Filling the table in the order of the versions leaves the newest tag of each. */
  lemma TableIsNewest(git: Git, c: Component, tags: seq<string>, r: seq<string>)
    requires Stable(tags, r) && forall t :: t in r <==> t in tags && IsReleaseTag(t)
    ensures NewestTags(git, c, tags, TableUpTo(git, c, r))
  {
    hide CarriedAt, IsReleaseTag, ComesBefore, TableUpTo;
    var table := TableUpTo(git, c, r);
    forall v
      ensures if v in table then NewestCarrier(git, c, tags, table[v], v) else forall t :: !Carries(git, c, tags, t, v)
    {
      TableIsLast(git, c, r, v);
      if v in table {
        var i :|
          && 0 <= i < |r| && r[i] == table[v] && CarriedAt(git, r[i], c) == Some(v)
          && forall j | i < j < |r| :: CarriedAt(git, r[j], c) != Some(v);
        forall u | Carries(git, c, tags, u, v) && u != table[v] ensures ComesBefore(tags, u, table[v]) {
          var j :| 0 <= j < |r| && r[j] == u;
        }
      } else {
        forall t | t in r ensures CarriedAt(git, t, c) != Some(v) {
          var j :| 0 <= j < |r| && r[j] == t;
        }
      }
    }
  }

  /** `tagged_versions`, for one component. */
  method TaggedVersions(git: Git, c: Component) returns (table: map<string, string>)
    ensures NewestTags(git, c, git.tags, table)
  {
    hide CarriedAt, IsReleaseTag, NotAbove;
    var tags := SortedTags(git.tags);
    table := map[];
    for n := 0 to |tags|
      invariant table == TableUpTo(git, c, tags[..n])
    {
      assert tags[..n + 1][..n] == tags[..n];
      var v := CarriedAt(git, tags[n], c);
      if v.Some? {
        table := table[v.value := tags[n]];
      }
    }
    assert tags[..|tags|] == tags;
    TableIsNewest(git, c, git.tags, tags);
  }
}
