/**
 Release versions: `X.Y.Z`, candidates `X.Y.Z-rc.N`, their order, and the search for the next
 version no release tag carries.
 */
module Semver {
  import opened Text

  datatype Triple = Triple(major: nat, minor: nat, patch: nat)
  datatype Level = Major | Minor | Patch

  // --- spelling -----------------------------------------------------------------------------

  /** The text before the first dot and the text after it. */
  function SplitDot(s: string): (r: Option<(string, string)>)
    ensures r.Some? ==> s == r.value.0 + "." + r.value.1 && '.' !in r.value.0
    ensures r.None? ==> '.' !in s
  {
    if s == [] then None
    else if s[0] == '.' then Some(([], s[1..]))
    else match SplitDot(s[1..])
      case None => None
      case Some((a, b)) => Some(([s[0]] + a, b))
  }

  lemma SplitDotJoin(a: string, b: string)
    requires '.' !in a
    ensures SplitDot(a + "." + b) == Some((a, b))
  {
    var s := a + "." + b;
    if a == [] {
      assert s[1..] == b;
    } else {
      assert s[1..] == a[1..] + "." + b && s[0] == a[0] && a[0] in a;
      SplitDotJoin(a[1..], b);
      assert [a[0]] + a[1..] == a;
    }
  }

  /** `X.Y.Z` with any digits; None for any other spelling. */
  function ParseTriple(s: string): Option<Triple> {
    match SplitDot(s)
    case None => None
    case Some((x, rest)) =>
      match SplitDot(rest)
      case None => None
      case Some((y, z)) =>
        match (ParseNat(x), ParseNat(y), ParseNat(z))
        case (Some(a), Some(b), Some(c)) => Some(Triple(a, b, c))
        case _ => None
  }

  /** Three numbers with a dot between, and nothing else. */
  lemma ParseTripleIff(s: string, t: Triple)
    ensures ParseTriple(s) == Some(t) <==>
            exists x, y, z ::
              && s == Dotted(x, y, z)
              && ParseNat(x) == Some(t.major) && ParseNat(y) == Some(t.minor) && ParseNat(z) == Some(t.patch)
  {
    hide ParseNat;
    if ParseTriple(s) == Some(t) {
      var (x, rest) := SplitDot(s).value;
      var (y, z) := SplitDot(rest).value;
      assert s == Dotted(x, y, z);
    }
    forall x, y, z | s == Dotted(x, y, z) && ParseNat(x).Some? && ParseNat(y).Some? && ParseNat(z).Some?
      ensures SplitDot(s) == Some((x, y + "." + z)) && SplitDot(y + "." + z) == Some((y, z))
    {
      NumberHasNoDot(x);
      NumberHasNoDot(y);
      SplitDotJoin(x, y + "." + z);
      SplitDotJoin(y, z);
    }
  }

  function Dotted(x: string, y: string, z: string): string {
    x + "." + (y + "." + z)
  }

  lemma NumberHasNoDot(s: string)
    requires ParseNat(s).Some?
    ensures '.' !in s && '-' !in s
  {
  }

  function Render(t: Triple): string {
    Decimal(t.major) + "." + (Decimal(t.minor) + "." + Decimal(t.patch))
  }

  lemma DigitsHaveNoDot(n: nat)
    ensures '.' !in Decimal(n)
  {
    assert forall c | c in Decimal(n) :: IsDigit(c);
  }

  lemma RenderRoundTrip(t: Triple)
    ensures ParseTriple(Render(t)) == Some(t)
  {
    DigitsHaveNoDot(t.major);
    DigitsHaveNoDot(t.minor);
    SplitDotJoin(Decimal(t.major), Decimal(t.minor) + "." + Decimal(t.patch));
    SplitDotJoin(Decimal(t.minor), Decimal(t.patch));
    DecimalRoundTrip(t.major);
    DecimalRoundTrip(t.minor);
    DecimalRoundTrip(t.patch);
  }

  // --- the order of releases --------------------------------------------------------------------

  /** What a release is named by: a final, or a candidate for it. */
  datatype Release = Release(version: Triple, candidate: Option<nat>)

  /** `RELEASE_VERSION.match` */
  function ParseRelease(s: string): Option<Release> {
    match Find(s, "-rc.", 0)
    case None => (match ParseTriple(s) case Some(t) => Some(Release(t, None)) case None => None)
    case Some(i) =>
      match (ParseTriple(s[..i]), ParseNat(s[i + 4..]))
      case (Some(t), Some(n)) => Some(Release(t, Some(n)))
      case _ => None
  }

  /** A triple, and for a candidate `-rc.` and one more number. */
  lemma ParseReleaseIff(s: string, r: Release)
    ensures ParseRelease(s) == Some(r) <==>
            if r.candidate.None? then ParseTriple(s) == Some(r.version)
            else exists v, n ::
                   s == Tagged(v, n) && ParseTriple(v) == Some(r.version) && ParseNat(n) == Some(r.candidate.value)
  {
    hide ParseTriple, ParseNat;
    if ParseRelease(s) == Some(r) && r.candidate.Some? {
      var i := Find(s, "-rc.", 0).value;
      assert s == Tagged(s[..i], s[i + 4..]);
    }
    if ParseTriple(s).Some? {
      assert s + "" == s;
      NoDash(s, "");
      assert forall i: nat :: !StartsAt(s, "-rc.", i);
    }
    forall v, n | s == Tagged(v, n) && ParseTriple(v).Some? && ParseNat(n).Some?
      ensures Find(s, "-rc.", 0) == Some(|v|) && s[..|v|] == v && s[|v| + 4..] == n
    {
      NoDash(v, "-rc." + n);
      assert s[|v|..|v| + 4] == "-rc.";
      assert StartsAt(s, "-rc.", |v|);
    }
  }

  function Tagged(v: string, n: string): string {
    v + ("-rc." + n)
  }

  lemma DottedHasNoDash(x: string, y: string, z: string)
    requires ParseNat(x).Some? && ParseNat(y).Some? && ParseNat(z).Some?
    ensures '-' !in Dotted(x, y, z)
  {
    hide ParseNat;
    NumberHasNoDot(x);
    NumberHasNoDot(y);
    NumberHasNoDot(z);
    assert '-' !in y + "." + z;
  }

  lemma MarkNotAt(s: string, i: nat)
    requires i < |s| && s[i] != '-'
    ensures !StartsAt(s, "-rc.", i)
  {
    assert i + 4 <= |s| ==> s[i..i + 4][0] == s[i];
  }

  /** A triple has no dash for a candidate's mark to begin at. */
  lemma NoDash(v: string, rest: string)
    requires ParseTriple(v).Some?
    ensures forall i: nat | i < |v| :: v[i] != '-' && !StartsAt(v + rest, "-rc.", i)
  {
    hide ParseTriple, ParseNat, StartsAt, Dotted;
    ParseTripleIff(v, ParseTriple(v).value);
    var x, y, z :| v == Dotted(x, y, z) && ParseNat(x).Some? && ParseNat(y).Some? && ParseNat(z).Some?;
    DottedHasNoDash(x, y, z);
    forall i: nat | i < |v| ensures v[i] != '-' && !StartsAt(v + rest, "-rc.", i) {
      assert v[i] in v && (v + rest)[i] == v[i];
      MarkNotAt(v + rest, i);
    }
  }

  function RenderRelease(r: Release): string {
    if r.candidate.None? then Render(r.version) else Render(r.version) + "-rc." + Decimal(r.candidate.value)
  }

  /** A rendered triple is digits and dots. */
  lemma RenderIsDigitsAndDots(t: Triple)
    ensures forall i | 0 <= i < |Render(t)| :: IsDigit(Render(t)[i]) || Render(t)[i] == '.'
  {
    var x, y, z, s := Decimal(t.major), Decimal(t.minor), Decimal(t.patch), Render(t);
    forall i | 0 <= i < |s| ensures IsDigit(s[i]) || s[i] == '.' {
      if i < |x| {
        assert s[i] == x[i];
      } else if |x| < i < |x| + 1 + |y| {
        assert s[i] == y[i - |x| - 1];
      } else if |x| + 1 + |y| < i {
        assert s[i] == z[i - |x| - |y| - 2];
      }
    }
  }

  /** Every release is read back from its spelling. */
  lemma ReleaseRoundTrip(r: Release)
    ensures ParseRelease(RenderRelease(r)) == Some(r)
  {
    hide Render, ParseTriple, Decimal, ParseNat;
    var v, s := Render(r.version), RenderRelease(r);
    RenderIsDigitsAndDots(r.version);
    RenderRoundTrip(r.version);
    forall i: nat | i < |v| ensures !StartsAt(s, "-rc.", i) {
      assert s[i] == v[i];
      if i + 4 <= |s| {
        assert s[i..i + 4][0] == s[i];
      }
    }
    if r.candidate.Some? {
      var n := |v|;
      assert s[n..n + 4] == "-rc.";
      assert StartsAt(s, "-rc.", n);
      assert Find(s, "-rc.", 0) == Some(n);
      assert s[..n] == v && s[n + 4..] == Decimal(r.candidate.value);
      DecimalRoundTrip(r.candidate.value);
    } else {
      assert Find(s, "-rc.", 0).None?;
    }
  }

  /** `version_key` */
  function Key(r: Release): (nat, nat, nat, nat, nat) {
    (r.version.major, r.version.minor, r.version.patch,
     if r.candidate.Some? then 0 else 1, if r.candidate.Some? then r.candidate.value else 0)
  }

  /** Python's order of such tuples. */
  predicate KeyLess(a: (nat, nat, nat, nat, nat), b: (nat, nat, nat, nat, nat)) {
    if a.0 != b.0 then a.0 < b.0
    else if a.1 != b.1 then a.1 < b.1
    else if a.2 != b.2 then a.2 < b.2
    else if a.3 != b.3 then a.3 < b.3
    else a.4 < b.4
  }

  /** A dot-separated pre-release identifier. */
  datatype Identifier = Numeric(n: nat) | Alphanumeric(s: string)

  function PreRelease(r: Release): seq<Identifier> {
    if r.candidate.None? then [] else [Alphanumeric("rc"), Numeric(r.candidate.value)]
  }

  /** Item 11.4 of Semantic Versioning 2.0.0: field by field; numbers below words; a longer list of
      fields above its own prefix. */
  predicate IdentifierLess(a: Identifier, b: Identifier) {
    match (a, b)
    case (Numeric(m), Numeric(n)) => m < n
    case (Numeric(_), Alphanumeric(_)) => true
    case (Alphanumeric(_), Numeric(_)) => false
    case (Alphanumeric(s), Alphanumeric(t)) => Less(s, t)
  }

  predicate FieldsLess(a: seq<Identifier>, b: seq<Identifier>) {
    if b == [] then false
    else if a == [] then true
    else if a[0] == b[0] then FieldsLess(a[1..], b[1..])
    else IdentifierLess(a[0], b[0])
  }

  /** Items 11.2 and 11.3: the numbers first, then a pre-release below the release. */
  predicate Precedes(a: Release, b: Release) {
    if a.version.major != b.version.major then a.version.major < b.version.major
    else if a.version.minor != b.version.minor then a.version.minor < b.version.minor
    else if a.version.patch != b.version.patch then a.version.patch < b.version.patch
    else if PreRelease(a) == [] || PreRelease(b) == [] then PreRelease(a) != [] && PreRelease(b) == []
    else FieldsLess(PreRelease(a), PreRelease(b))
  }

  /** The sort key orders releases as Semantic Versioning does. */
  lemma KeyOrderIsPrecedence(a: Release, b: Release)
    ensures KeyLess(Key(a), Key(b)) <==> Precedes(a, b)
    ensures a == b || KeyLess(Key(a), Key(b)) || KeyLess(Key(b), Key(a))
  {
    if a.candidate.Some? && b.candidate.Some? {
      var x, y := PreRelease(a), PreRelease(b);
      assert x[1..] == [Numeric(a.candidate.value)] && y[1..] == [Numeric(b.candidate.value)];
      assert FieldsLess(x, y) == FieldsLess(x[1..], y[1..]);
      OneField(a.candidate.value, b.candidate.value);
    }
  }

  lemma OneField(m: nat, n: nat)
    ensures FieldsLess([Numeric(m)], [Numeric(n)]) <==> m < n
  {
    assert [Numeric(m)][1..] == [] && [Numeric(n)][1..] == [];
  }

  // --- the next free version ----------------------------------------------------------------------

  function BumpTriple(t: Triple, level: Level): Triple {
    match level
    case Major => Triple(t.major + 1, 0, 0)
    case Minor => Triple(t.major, t.minor + 1, 0)
    case Patch => Triple(t.major, t.minor, t.patch + 1)
  }

  /** A bump is the least version above with zeros behind the part it raises: 0.3.5 becomes 0.3.6, 0.4.0 or 1.0.0. */
  lemma BumpIsNext(t: Triple, level: Level, other: Triple)
    ensures var b := BumpTriple(t, level);
            && (level.Patch? ==> b.major == t.major && b.minor == t.minor && b.patch == t.patch + 1)
            && (level.Minor? ==> b.major == t.major && b.minor == t.minor + 1 && b.patch == 0)
            && (level.Major? ==> b.major == t.major + 1 && b.minor == 0 && b.patch == 0)
            && KeyLess(Key(Release(t, None)), Key(Release(b, None)))
            && (KeyLess(Key(Release(t, None)), Key(Release(other, None))) &&
                (level.Major? ==> other.major > t.major) &&
                (level.Minor? ==> other.major > t.major || other.minor > t.minor) ==>
                  !KeyLess(Key(Release(other, None)), Key(Release(b, None))))
  {
  }

  /** `bumped`: only `X.Y.Z` can be bumped. */
  function Bumped(version: string, level: Level): Option<string> {
    match ParseTriple(version)
    case None => None
    case Some(t) => Some(Render(BumpTriple(t, level)))
  }

  /** The version with another patch number. */
  function At(t: Triple, patch: nat): string {
    Render(Triple(t.major, t.minor, patch))
  }

  /** The patch number the search ends at. */
  function FirstFree(t: Triple, tagged: map<string, string>): (r: nat)
    ensures t.patch <= r && At(t, r) !in tagged
    ensures forall k | t.patch <= k < r :: At(t, k) in tagged
    decreases |tagged|
  {
    if Render(t) !in tagged then t.patch
    else
      var rest := tagged - {Render(t)};
      assert rest.Keys == tagged.Keys - {Render(t)};
      assert |rest| == |rest.Keys| < |tagged.Keys|;
      var r := FirstFree(t.(patch := t.patch + 1), rest);
      assert forall k: nat :: At(t.(patch := t.patch + 1), k) == At(t, k);
      FreeInAll(t, tagged, r);
      r
  }

  /** Free with the first version set aside is free. */
  lemma FreeInAll(t: Triple, tagged: map<string, string>, r: nat)
    requires Render(t) in tagged && t.patch < r
    requires At(t, r) !in tagged - {Render(t)}
    requires forall k | t.patch + 1 <= k < r :: At(t, k) in tagged - {Render(t)}
    ensures At(t, r) !in tagged
    ensures forall k | t.patch <= k < r :: At(t, k) in tagged
  {
    hide Render;
    RenderRoundTrip(t);
    RenderRoundTrip(t.(patch := r));
    assert At(t, t.patch) == Render(t) && At(t, r) == Render(t.(patch := r));
  }

  function Proposal(version: string, level: Level, tagged: map<string, string>): Option<string> {
    match ParseTriple(version)
    case None => None
    case Some(t) =>
      var b := BumpTriple(t, level);
      Some(At(b, FirstFree(b, tagged)))
  }

  /** What the report says of the versions stepped past. */
  function Stepped(t: Triple, n: nat, tagged: map<string, string>): seq<string>
    requires forall k | t.patch <= k < t.patch + n :: At(t, k) in tagged
  {
    if n == 0 then []
    else
      var version := At(t, t.patch + n - 1);
      Stepped(t, n - 1, tagged) + ["v" + version + " is " + tagged[version] + "'s"]
  }

  lemma PatchOf(t: Triple)
    ensures BumpTriple(t, Patch) == t.(patch := t.patch + 1)
  {
  }

  /** `Plan.proposal`: step the patch number past every version a release tag carries. */
  method Propose(version: string, level: Level, tagged: map<string, string>) returns (r: Option<(string, seq<string>)>)
    ensures r.None? <==> ParseTriple(version).None?
    ensures r.Some? ==> Proposal(version, level, tagged) == Some(r.value.0)
    ensures r.Some? ==> var b := BumpTriple(ParseTriple(version).value, level);
                        r.value.1 == Stepped(b, FirstFree(b, tagged) - b.patch, tagged)
  {
    hide Render, ParseTriple, FirstFree, BumpTriple;
    var first := Bumped(version, level);
    if first.None? {
      return None;
    }
    ghost var b := BumpTriple(ParseTriple(version).value, level);
    ghost var free := FirstFree(b, tagged);
    ghost var n: nat := 0;
    var next, stepped := first.value, [];
    assert b.(patch := b.patch) == b;
    while next in tagged
      invariant b.patch + n <= free && next == At(b, b.patch + n)
      invariant stepped == Stepped(b, n, tagged)
      decreases free - n
    {
      stepped := stepped + ["v" + next + " is " + tagged[next] + "'s"];
      RenderRoundTrip(b.(patch := b.patch + n));
      assert b.patch + n < free;
      PatchOf(b.(patch := b.patch + n));
      next := Bumped(next, Patch).value;
      n := n + 1;
    }
    assert b.patch + n == free;
    return Some((next, stepped));
  }

  /** The proposal is the least version at or above the bumped one, on its major and minor numbers, that
      no release tag carries; and it is above the version it replaces. */
  lemma ProposalIsLeast(version: string, level: Level, tagged: map<string, string>, other: Triple)
    requires ParseTriple(version).Some?
    ensures var t := ParseTriple(version).value;
            var b := BumpTriple(t, level);
            var p := Proposal(version, level, tagged);
            && p.Some? && ParseTriple(p.value).Some? && p.value !in tagged
            && var r := ParseTriple(p.value).value;
               && r.major == b.major && r.minor == b.minor && b.patch <= r.patch
               && KeyLess(Key(Release(t, None)), Key(Release(r, None)))
               && (other.major == b.major && other.minor == b.minor && b.patch <= other.patch &&
                   Render(other) !in tagged ==>
                     r.patch <= other.patch)
  {
    var b := BumpTriple(ParseTriple(version).value, level);
    var r := FirstFree(b, tagged);
    RenderRoundTrip(b.(patch := r));
    assert other.major == b.major && other.minor == b.minor ==> At(b, other.patch) == Render(other);
  }
}
