/** The version a file carries, and the file with its version set to another. */
module VersionFiles {
  import opened Text
  import opened VersionLines
  import opened Carriers
  import opened Rewrites

  /** How a file spells its version: `cargo`, `pyproject` and `toml`, `python`, `helm`, `workflow`. */
  datatype Spelling = Cargo | Manifest | Dunder | HelmChart | ReleaseTag

  function Word(k: Spelling): string {
    if k.Dunder? then "__version__" else "version"
  }

  function Reading(k: Spelling): Pattern {
    match k
    case HelmChart => Chart
    case ReleaseTag => Tag
    case _ => Assign(Word(k), !k.Dunder?)
  }

  /** Past a word, blanks and one character. */
  function After(s: string, i: nat, word: string, sign: char): (r: Option<nat>)
    requires i <= |s|
    ensures r.Some? ==> i + |word| < r.value <= |s|
  {
    if !StartsAt(s, word, i) then None
    else
      var j := SkipBlank(s, i + |word|);
      if j < |s| && s[j] == sign then Some(SkipBlank(s, j + 1)) else None
  }

  /** `version.workspace = true` or `version = { workspace = true`. */
  predicate InheritsAt(s: string) {
    || (var a := After(s, 0, "version.workspace", '='); a.Some? && StartsAt(s, "true", a.value))
    || (var a := After(s, 0, "version", '=');
        a.Some? && var b := After(s, a.value, [], '{');
        b.Some? && var c := After(s, b.value, "workspace", '=');
        c.Some? && StartsAt(s, "true", c.value))
  }

  predicate Inherits(f: File) {
    exists i | 0 <= i < |f| :: InheritsAt(f[i])
  }

  /** A word, blanks, the sign, blanks, and then what is no blank. */
  lemma AfterTakes(front: string, word: string, a: string, sign: char, b: string, tail: string)
    requires Blanks(a) && !IsBlank(sign) && Blanks(b) && tail != [] && !IsBlank(tail[0])
    ensures After(front + (word + a + [sign] + b + tail), |front|, word, sign) ==
            Some(|front| + |word| + |a| + 1 + |b|)
  {
    hide SkipBlank;
    var s := front + (word + a + [sign] + b + tail);
    assert s[|front|..|front| + |word|] == word;
    SkipsOver(front + word, a, [sign] + b + tail);
    assert front + word + a + ([sign] + b + tail) == s;
    SkipsOver(front + word + a + [sign], b, tail);
    assert front + word + a + [sign] + b + tail == s;
    assert s[|front| + |word| + |a|] == sign;
  }

  lemma AfterGives(s: string, i: nat, word: string, sign: char) returns (a: string, b: string)
    requires i <= |s| && After(s, i, word, sign).Some?
    ensures var j := After(s, i, word, sign).value;
            Blanks(a) && Blanks(b) && i <= j && s[i..j] == word + a + [sign] + b
  {
    var k := SkipBlank(s, i + |word|);
    var j := SkipBlank(s, k + 1);
    a, b := s[i + |word|..k], s[k + 1..j];
    assert s[i..j] == s[i..i + |word|] + a + [s[k]] + b;
  }

  /** From one place to another: a word, blanks, a sign and blanks, up to what is no blank. */
  ghost predicate Piece(s: string, i: nat, j: nat, word: string, sign: char) {
    && i <= j < |s| && !IsBlank(s[j])
    && exists a, b :: Blanks(a) && Blanks(b) && s[i..j] == word + a + [sign] + b
  }

  lemma PieceIff(s: string, i: nat, j: nat, word: string, sign: char)
    requires i <= |s| && j < |s| && !IsBlank(sign)
    ensures After(s, i, word, sign) == Some(j) <==> Piece(s, i, j, word, sign)
  {
    hide After;
    if After(s, i, word, sign) == Some(j) {
      var a, b := AfterGives(s, i, word, sign);
      AfterInk(s, i, word, sign);
    }
    if Piece(s, i, j, word, sign) {
      var a, b :| Blanks(a) && Blanks(b) && s[i..j] == word + a + [sign] + b;
      AfterTakes(s[..i], word, a, sign, b, s[j..]);
      assert s == s[..i] + (s[i..j] + s[j..]);
    }
  }

  lemma AfterInk(s: string, i: nat, word: string, sign: char)
    requires i <= |s| && After(s, i, word, sign).Some? && After(s, i, word, sign).value < |s|
    ensures !IsBlank(s[After(s, i, word, sign).value])
  {
  }

  /** `version.workspace = true`, or `version = { workspace = true`, with any blanks around the signs. */
  ghost predicate SaysInherited(s: string) {
    || (exists j: nat :: Piece(s, 0, j, "version.workspace", '=') && StartsAt(s, "true", j))
    || (exists i: nat, j: nat, k: nat ::
          && Piece(s, 0, i, "version", '=') && Piece(s, i, j, "", '{') && Piece(s, j, k, "workspace", '=')
          && StartsAt(s, "true", k))
  }

  lemma InheritsAtIff(s: string)
    ensures InheritsAt(s) <==> SaysInherited(s)
  {
    hide After, Piece;
    forall i: nat, j: nat, word, sign: char | i <= |s| && j < |s| && !IsBlank(sign)
      ensures After(s, i, word, sign) == Some(j) <==> Piece(s, i, j, word, sign)
    {
      PieceIff(s, i, j, word, sign);
    }
    PieceWithin(s);
  }

  lemma PieceWithin(s: string)
    ensures forall i: nat, j: nat, word, sign | Piece(s, i, j, word, sign) :: i <= j < |s|
  {
  }

  /** A manifest inherits its version exactly when one of its lines begins with one of the two spellings. */
  lemma InheritsIff(f: File)
    ensures Inherits(f) <==> exists s :: s in f && SaysInherited(s)
  {
    hide InheritsAt, SaysInherited;
    forall s ensures InheritsAt(s) <==> SaysInherited(s) {
      InheritsAtIff(s);
    }
    if s :| s in f && SaysInherited(s) {
      var i :| 0 <= i < |f| && f[i] == s;
      assert InheritsAt(f[i]);
    }
  }

  /** `read_version`; None is its `Fatal`. */
  function ReadVersion(k: Spelling, f: File): Option<string> {
    if k.Cargo? && Inherits(f) then None else Found(Reading(k), f)
  }

  // --- rewriting ------------------------------------------------------------------------------

  predicate ShowsAssign(s: string, word: string, anchored: bool, now: string) {
    exists p: nat | p <= |s| :: StartsAt(s, Spelled(word, now), p) && (anchored ==> p == 0)
  }

  predicate AnyShows(f: File, word: string, anchored: bool, now: string) {
    exists i | 0 <= i < |f| :: ShowsAssign(f[i], word, anchored, now)
  }

  function WithAssign(f: File, word: string, anchored: bool, now: string): File {
    match Search(Assign(word, anchored), f)
    case None => f
    case Some(h) => Replace(f, h, Spelled(word, now))
  }

  function WriteAssign(f: File, word: string, anchored: bool, now: string): Option<File> {
    var g := WithAssign(f, word, anchored, now);
    if AnyShows(g, word, anchored, now) then Some(g) else None
  }

  const APP_WORD := "appVersion:"

  function AppText(now: string): string {
    APP_WORD + " \"" + now + "\""
  }

  function FirstApp(f: File, i: nat): (r: Option<nat>)
    requires i <= |f|
    ensures r.Some? ==> i <= r.value < |f| && StartsAt(f[r.value], APP_WORD, 0)
    ensures forall k | i <= k < (if r.Some? then r.value else |f|) :: !StartsAt(f[k], APP_WORD, 0)
    decreases |f| - i
  {
    if i == |f| then None else if StartsAt(f[i], APP_WORD, 0) then Some(i) else FirstApp(f, i + 1)
  }

  function WithVersion(f: File, was: string, now: string): File {
    match Search(ChartNamed(was), f)
    case None => f
    case Some(h) => Refill(f, h, now)
  }

  function WithApp(f: File, now: string): File {
    match FirstApp(f, 0)
    case None => f
    case Some(i) => f[i := AppText(now)]
  }

  predicate ShowsApp(f: File, now: string) {
    exists i | 0 <= i < |f| :: StartsAt(f[i], AppText(now), 0)
  }

  function WriteChart(f: File, was: string, now: string): Option<File> {
    var g := WithApp(WithVersion(f, was, now), now);
    if Search(ChartNamed(now), g).Some? && ShowsApp(g, now) then Some(g) else None
  }

  function WriteTag(f: File, was: string, now: string): Option<File> {
    var h := Search(TagNamed(was), f);
    var g := if h.Some? then Refill(f, h.value, now) else f;
    if Search(TagNamed(now), g).Some? then Some(g) else None
  }

  /** `write_version`; None when the rewrite did not take. */
  function WriteVersion(k: Spelling, f: File, was: string, now: string): Option<File> {
    match k
    case HelmChart => WriteChart(f, was, now)
    case ReleaseTag => WriteTag(f, was, now)
    case _ => WriteAssign(f, Word(k), !k.Dunder?, now)
  }

  // --- when a rewrite takes -----------------------------------------------------------------------

  lemma WordIsPlain(k: Spelling)
    ensures PlainWord(Word(k))
  {
  }

  lemma ShownIsAssigned(s: string, word: string, anchored: bool, now: string)
    requires '"' !in now
    ensures ShowsAssign(s, word, anchored, now) ==> FirstPlace(Assign(word, anchored), s, 0).Some?
  {
    hide AssignAt, Spelled, FirstPlace;
    if ShowsAssign(s, word, anchored, now) {
      var p: nat :| p <= |s| && StartsAt(s, Spelled(word, now), p) && (anchored ==> p == 0);
      var e := p + |Spelled(word, now)|;
      assert s == s[..p] + Spelled(word, now) + s[e..];
      SpelledAt(s[..p], word, now, s[e..]);
      assert MatchAt(Assign(word, anchored), s, p).Some?;
    }
  }

  /** An assignment can be rewritten exactly where one can be read. */
  lemma AssignTakes(f: File, word: string, anchored: bool, now: string)
    requires '"' !in now
    ensures WriteAssign(f, word, anchored, now).Some? <==> Search(Assign(word, anchored), f).Some?
  {
    hide FirstPlace, MatchAt, Spelled, ShowsAssign;
    var pat := Assign(word, anchored);
    var found := Search(pat, f);
    if found.Some? {
      var h := found.value;
      var g := Replace(f, h, Spelled(word, now));
      ReplacedShows(f[h.line], h.place, h.span.end, word, anchored, now);
      assert ShowsAssign(g[h.line], word, anchored, now);
    } else {
      forall i | 0 <= i < |f| ensures !ShowsAssign(f[i], word, anchored, now) {
        ShownIsAssigned(f[i], word, anchored, now);
        assert FirstPlace(pat, f[i], 0).None?;
      }
    }
  }

  lemma ReplacedShows(s: string, p: nat, e: nat, word: string, anchored: bool, now: string)
    requires p <= e <= |s| && MatchAt(Assign(word, anchored), s, p).Some?
    ensures ShowsAssign(s[..p] + Spelled(word, now) + s[e..], word, anchored, now)
  {
    hide Spelled, AssignAt;
    var t := s[..p] + Spelled(word, now) + s[e..];
    assert t[p..p + |Spelled(word, now)|] == Spelled(word, now);
    assert StartsAt(t, Spelled(word, now), p);
  }

  /** Whatever the file, a manifest or module that was rewritten reads as the new version. */
  lemma AssignWritten(k: Spelling, f: File, now: string)
    requires !k.HelmChart? && !k.ReleaseTag? && '"' !in now && ReadVersion(k, f).Some?
    ensures var w := WriteVersion(k, f, ReadVersion(k, f).value, now); w.Some? && ReadVersion(k, w.value) == Some(now)
  {
    hide Search, Inherits, PlainWord, Spelled, AnyShows;
    AssignTakes(f, Word(k), !k.Dunder?, now);
    WordIsPlain(k);
    AssignReadsBack(f, Word(k), !k.Dunder?, now);
    if k.Cargo? {
      StillOwn(f, now);
    }
  }

  lemma StillOwn(f: File, now: string)
    requires !Inherits(f) && Search(Assign("version", true), f).Some?
    ensures !Inherits(WithAssign(f, "version", true, now))
  {
    hide Search, InheritsAt, Spelled, MatchAt;
    var h := Search(Assign("version", true), f).value;
    var g := WithAssign(f, "version", true, now);
    AnchoredPlace(f[h.line], h.place);
    assert g[h.line] == Spelled("version", now) + f[h.line][h.span.end..];
    SpelledIsOwn(now, f[h.line][h.span.end..]);
    assert forall i | 0 <= i < |g| && i != h.line :: g[i] == f[i];
  }

  lemma AnchoredPlace(s: string, p: nat)
    requires p <= |s| && MatchAt(Assign("version", true), s, p).Some?
    ensures p == 0
  {
  }

  /** A version spelled out is not inherited. */
  lemma SpelledIsOwn(now: string, tail: string)
    ensures !InheritsAt(Spelled("version", now) + tail)
  {
    hide SkipBlank;
    var t := Spelled("version", now) + tail;
    assert t[7] == ' ' && t[8] == '=' && t[9] == ' ' && t[10] == '"';
    if StartsAt(t, "version.workspace", 0) {
      CharAt(t, "version.workspace", 0, 7);
    }
    assert SkipBlank(t, 7) == 8 && SkipBlank(t, 9) == 10 && SkipBlank(t, 10) == 10;
  }

  // --- the chart ------------------------------------------------------------------------------------

  lemma AppIsNoChart(s: string)
    ensures StartsAt(s, APP_WORD, 0) ==> !StartsAt(s, CHART_WORD, 0)
  {
    if StartsAt(s, APP_WORD, 0) && StartsAt(s, CHART_WORD, 0) {
      CharAt(s, APP_WORD, 0, 0);
      CharAt(s, CHART_WORD, 0, 0);
    }
  }

  lemma AppTextStarts(s: string, now: string)
    ensures StartsAt(s, AppText(now), 0) ==> StartsAt(s, APP_WORD, 0)
    ensures StartsAt(AppText(now), AppText(now), 0)
  {
    if StartsAt(s, AppText(now), 0) {
      assert AppText(now)[..|APP_WORD|] == APP_WORD;
      assert s[0..|APP_WORD|] == s[0..|AppText(now)|][..|APP_WORD|];
    }
    assert AppText(now)[0..|AppText(now)|] == AppText(now);
  }

  lemma ChartStarts(s: string, v: string)
    ensures ChartAt(s).Some? || ChartNamedAt(s, v).Some? ==> StartsAt(s, CHART_WORD, 0)
  {
  }

  lemma ChartHit(s: string, v: string)
    ensures FirstPlace(Chart, s, 0).Some? <==> ChartAt(s).Some?
    ensures FirstPlace(Chart, s, 0).Some? ==> FirstPlace(Chart, s, 0) == Some(0) && StartsAt(s, CHART_WORD, 0)
    ensures FirstPlace(ChartNamed(v), s, 0).Some? <==> ChartNamedAt(s, v).Some?
    ensures FirstPlace(ChartNamed(v), s, 0).Some? ==>
            FirstPlace(ChartNamed(v), s, 0) == Some(0) && StartsAt(s, CHART_WORD, 0)
  {
    hide ChartAt, ChartNamedAt;
    ChartStarts(s, v);
  }

  /** The new `appVersion` leaves the version lines alone. */
  lemma AppLeavesChart(f: File, now: string, v: string)
    ensures var g := WithApp(f, now);
            && |g| == |f| && Search(Chart, g) == Search(Chart, f) &&
               Search(ChartNamed(v), g) == Search(ChartNamed(v), f)
            && Found(Chart, g) == Found(Chart, f)
    ensures ShowsApp(WithApp(f, now), now) <==> FirstApp(f, 0).Some?
  {
    hide StartsAt, AppText, FirstPlace, Search;
    AppTextStarts(AppText(now), now);
    AppIsNoChart(AppText(now));
    ChartHit(AppText(now), v);
    forall k | 0 <= k < |f| ensures StartsAt(f[k], AppText(now), 0) ==> StartsAt(f[k], APP_WORD, 0) {
      AppTextStarts(f[k], now);
    }
    if FirstApp(f, 0).Some? {
      var a, g := FirstApp(f, 0).value, WithApp(f, now);
      assert StartsAt(g[a], AppText(now), 0);
      AppIsNoChart(f[a]);
      ChartHit(f[a], v);
      SameSearch(Chart, f, g, a);
      SameSearch(ChartNamed(v), f, g, a);
    }
  }

  /** The version is read and named on one line. */
  ghost predicate ChartSits(f: File, was: string) {
    Search(Chart, f).Some? && Search(ChartNamed(was), f).Some? &&
      Search(ChartNamed(was), f).value.line == Search(Chart, f).value.line
  }

  lemma ChartValueBare(f: File)
    requires Search(Chart, f).Some?
    ensures var h := Search(Chart, f).value;
            Bare(Group(f, h)) && ChartAt(f[h.line]) == Some(h.span) && h.place == 0 &&
              LineReads(f[h.line]) == Some(Group(f, h))
  {
    hide FirstPlace, SkipBlank, BareEnd;
    var h := Search(Chart, f).value;
    ChartHit(f[h.line], []);
    SearchIsFirst(Chart, f);
  }

  /** The chart after its version line was rewritten, before its `appVersion` is. */
  lemma VersionLineNew(f: File, was: string, now: string)
    requires Found(Chart, f) == Some(was) && Bare(now) && now != []
    ensures var named, g, i := Search(ChartNamed(was), f), WithVersion(f, was, now), Search(Chart, f).value.line;
            && |g| == |f| && (named.None? ==> g == f)
            && (named.Some? ==>
                  var j := named.value.line;
                  && (forall k | 0 <= k < |f| && k != j :: g[k] == f[k])
                  && ChartNamedAt(g[j], now).Some? && StartsAt(f[j], CHART_WORD, 0) && StartsAt(g[j], CHART_WORD, 0)
                  && (LineReads(f[j]).None? ==> LineReads(g[j]).None?)
                  && (j == i ==> LineReads(g[i]) == if Hollow(f[i]) then None else Some(now)))
  {
    hide ChartAt, ChartNamedAt, FirstPlace, StartsAt, Hollow, Bare, LineReads;
    var named := Search(ChartNamed(was), f);
    ChartValueBare(f);
    if named.Some? {
      var j := named.value.line;
      ChartHit(f[j], was);
      SearchIsFirst(ChartNamed(was), f);
      ChartRefilled(f[j], was, now);
    }
  }

  /** Below lines without a match, the search goes on as if they were not there. */
  lemma SearchBelow(pat: Pattern, f: File, n: nat)
    requires n <= |f| && forall k | 0 <= k < n :: FirstPlace(pat, f[k], 0).None?
    ensures Found(pat, f) == Found(pat, f[n..])
  {
    hide MatchAt, FirstPlace;
    var a, b := FirstLine(pat, f, 0), FirstLine(pat, f[n..], 0);
    assert forall k | 0 <= k < |f| - n :: f[n..][k] == f[n + k];
    assert a.Some? ==> a.value >= n && FirstPlace(pat, f[n..][a.value - n], 0).Some?;
    assert b.Some? ==> FirstPlace(pat, f[n + b.value], 0).Some?;
  }

  /** What would be read if the line read now could not be. */
  ghost function NextRead(f: File): Option<string>
    requires Search(Chart, f).Some?
  {
    Found(Chart, f[Search(Chart, f).value.line + 1..])
  }

  /** The first line that can be read is the one read. */
  lemma ReadHere(f: File, i: nat)
    requires i < |f| && LineReads(f[i]).Some? && forall k | 0 <= k < i :: LineReads(f[k]).None?
    ensures Found(Chart, f) == LineReads(f[i])
  {
    hide ChartAt, FirstPlace;
    forall k | 0 <= k < i ensures FirstPlace(Chart, f[k], 0).None? {
      ChartHit(f[k], []);
    }
    SearchIs(Chart, f, i, 0);
  }

  lemma NoneReadAbove(f: File)
    requires Search(Chart, f).Some?
    ensures forall k | 0 <= k < Search(Chart, f).value.line :: LineReads(f[k]).None?
  {
    hide ChartAt, FirstPlace;
    SearchIsFirst(Chart, f);
    forall k | 0 <= k < Search(Chart, f).value.line ensures LineReads(f[k]).None? {
      ChartHit(f[k], []);
    }
  }

  /** Below lines that cannot be read, reading goes on as if they were not there. */
  lemma ReadBelow(f: File, n: nat)
    requires n <= |f| && forall k | 0 <= k < n :: LineReads(f[k]).None?
    ensures Found(Chart, f) == Found(Chart, f[n..])
  {
    hide ChartAt, FirstPlace, Search;
    forall k | 0 <= k < n ensures FirstPlace(Chart, f[k], 0).None? {
      ChartHit(f[k], []);
    }
    SearchBelow(Chart, f, n);
  }

  /** A rewritten chart reads as the new version exactly when its version is read from the line that is rewritten,
      and that line was no empty pair of quotes with another version below. */
  lemma ChartReadsBackIff(f: File, was: string, now: string)
    requires Found(Chart, f) == Some(was) && Bare(now) && now != []
    ensures Found(Chart, WithApp(WithVersion(f, was, now), now)) == Some(now) <==>
              was == now || (ChartSits(f, was) && (Hollow(f[Search(Chart, f).value.line]) ==> NextRead(f) == Some(now)))
  {
    hide Search, StartsAt, Hollow, WithApp, WithVersion, Bare, ShowsApp, LineReads, Found, NextRead, ChartNamedAt;
    FoundLine(f);
    var g, i := WithVersion(f, was, now), Search(Chart, f).value.line;
    AppLeavesChart(g, now, now);
    VersionLineNew(f, was, now);
    NoneReadAbove(f);
    if ChartSits(f, was) && Hollow(f[i]) {
      HollowIsEmpty(f[i]);
      HollowSkipped(f, g);
    } else {
      ReadHere(g, i);
    }
  }

  lemma FoundLine(f: File)
    requires Found(Chart, f).Some?
    ensures Search(Chart, f).Some? && LineReads(f[Search(Chart, f).value.line]) == Found(Chart, f)
  {
    hide Search, LineReads;
    ChartValueBare(f);
  }

  lemma HollowSkipped(f: File, g: File)
    requires Search(Chart, f).Some? && |g| == |f| && LineReads(g[Search(Chart, f).value.line]).None?
    requires forall k | 0 <= k < |f| && k != Search(Chart, f).value.line :: g[k] == f[k]
    ensures Found(Chart, g) == NextRead(f)
  {
    hide Search, LineReads, Found;
    var i := Search(Chart, f).value.line;
    NoneReadAbove(f);
    ReadBelow(g, i + 1);
    assert g[i + 1..] == f[i + 1..];
  }

  lemma HollowIsEmpty(s: string)
    requires Hollow(s) && LineReads(s).Some?
    ensures LineReads(s) == Some([])
  {
    hide SkipBlank;
    var j := SkipBlank(s, |CHART_WORD|);
    CharAt(s, "\"\"", j, 0);
    CharAt(s, "\"\"", j, 1);
    assert BareEnd(s, j + 1) == j + 1;
    assert s[j + 1..j + 1] == [];
  }

  /** Read and rewritten on one line, a chart takes the rewrite exactly when an `appVersion` stands beside it. */
  lemma ChartTakes(f: File, was: string, now: string)
    requires Found(Chart, f) == Some(was) && Bare(now) && now != [] && ChartSits(f, was)
    ensures WriteChart(f, was, now).Some? <==> FirstApp(f, 0).Some?
  {
    hide ChartAt, ChartNamedAt, FirstPlace, StartsAt, Hollow, WithApp, Bare, ShowsApp, FirstApp;
    var g, i := WithVersion(f, was, now), Search(Chart, f).value.line;
    AppLeavesChart(g, now, now);
    VersionLineNew(f, was, now);
    ChartHit(g[i], now);
    assert FirstLine(ChartNamed(now), g, 0).Some?;
    SameApp(f, g, i);
  }

  /** The version line is no `appVersion` line, before or after. */
  lemma SameApp(f: File, g: File, i: nat)
    requires i < |f| == |g| && StartsAt(f[i], CHART_WORD, 0) && StartsAt(g[i], CHART_WORD, 0)
    requires forall k | 0 <= k < |f| && k != i :: f[k] == g[k]
    ensures FirstApp(g, 0) == FirstApp(f, 0)
  {
    hide StartsAt, FirstApp;
    AppIsNoChart(f[i]);
    AppIsNoChart(g[i]);
  }

  /** With one version line, a chart that was rewritten reads back exactly when its version was no empty pair of
      quotes; and it is rewritten exactly when it was not quoted otherwise and has an `appVersion`. */
  lemma OneLineChart(f: File, was: string, now: string)
    requires OneVersionLine(f) && Found(Chart, f) == Some(was) && Bare(now) && now != [] && was != now
    ensures WriteChart(f, was, now).Some? <==> ChartSits(f, was) && FirstApp(f, 0).Some?
    ensures WriteChart(f, was, now).Some? ==>
              (Found(Chart, WriteChart(f, was, now).value) == Some(now) <==> !Hollow(f[Search(Chart, f).value.line]))
  {
    hide ChartAt, ChartNamedAt, FirstPlace, StartsAt, Hollow, WithApp, Bare, ShowsApp, FirstApp, OneVersionLine;
    var i := Search(Chart, f).value.line;
    ChartValueBare(f);
    ChartReadsBackIff(f, was, now);
    NothingBelow(f);
    if Search(ChartNamed(was), f).Some? {
      OneLineSits(f, was);
      ChartTakes(f, was, now);
    } else {
      AppLeavesChart(f, now, now);
      NowUnnamed(f, was, now);
    }
  }

  lemma OneLineSits(f: File, was: string)
    requires OneVersionLine(f) && Search(Chart, f).Some? && Search(ChartNamed(was), f).Some?
    ensures ChartSits(f, was)
  {
    hide ChartAt, ChartNamedAt, FirstPlace, StartsAt;
    ChartHit(f[Search(Chart, f).value.line], was);
    ChartHit(f[Search(ChartNamed(was), f).value.line], was);
  }

  lemma NothingBelow(f: File)
    requires OneVersionLine(f) && Search(Chart, f).Some?
    ensures NextRead(f).None?
  {
    hide ChartAt, FirstPlace, StartsAt;
    var i := Search(Chart, f).value.line;
    ChartHit(f[i], []);
    var rest := f[i + 1..];
    forall k | 0 <= k < |rest| ensures FirstPlace(Chart, rest[k], 0).None? {
      ChartHit(rest[k], []);
      assert rest[k] == f[i + 1 + k];
    }
  }

  /** A version that is read and not named is in quotes, so no other is named there either. */
  lemma NowUnnamed(f: File, was: string, now: string)
    requires OneVersionLine(f) && Found(Chart, f) == Some(was) && Bare(now) && now != [] &&
             Search(ChartNamed(was), f).None?
    ensures Search(ChartNamed(now), f).None?
  {
    hide ChartAt, ChartNamedAt, FirstPlace, StartsAt, Bare;
    var i := Search(Chart, f).value.line;
    ChartValueBare(f);
    forall k | 0 <= k < |f| ensures FirstPlace(ChartNamed(now), f[k], 0).None? {
      ChartHit(f[k], now);
      ChartHit(f[k], was);
      ChartHit(f[i], was);
      if k == i {
        NamedIsRead(f[i], was, now);
      }
    }
  }

  lemma NamedIsRead(s: string, was: string, now: string)
    requires ChartAt(s).Some? && s[ChartAt(s).value.from..ChartAt(s).value.to] == was && Bare(now) && now != []
    ensures ChartNamedAt(s, now).Some? ==> ChartNamedAt(s, was).Some?
  {
    hide SkipBlank, BareEnd;
    if ChartNamedAt(s, now).Some? {
      var j := SkipBlank(s, |CHART_WORD|);
      CharAt(s, now, j, 0);
      assert ChartAt(s).value.from == j;
    }
  }

  /** A release tag that is read and rewritten reads as the new one exactly when that starts with a digit and has
      no blanks; and then it is rewritten. */
  lemma TagReadsBackIff(f: File, was: string, now: string)
    requires Found(Tag, f) == Some(was)
    ensures Inked(now) ==> WriteTag(f, was, now).Some?
    ensures WriteTag(f, was, now).Some? ==> (Found(Tag, WriteTag(f, was, now).value) == Some(now) <==> Inked(now))
  {
    hide Search, Inked;
    if Inked(now) {
      TagReadsBack(f, was, now);
    } else if WriteTag(f, was, now).Some? {
      TagReadInked(WriteTag(f, was, now).value);
    }
  }

  lemma TagReadInked(f: File)
    ensures Found(Tag, f).Some? ==> Inked(Found(Tag, f).value)
  {
    hide FirstPlace, TagAt;
    var h := Search(Tag, f);
    if h.Some? {
      TagShape(f[h.value.line], h.value.place);
    }
  }

  // --- every spelling -------------------------------------------------------------------------------

  /** What a file must be like, and the new version, for a rewrite that took to read back. */
  ghost predicate Rewritable(k: Spelling, f: File, was: string, now: string) {
    match k
    case HelmChart =>
      was == now ||
      (Bare(now) && ChartSits(f, was) && (Hollow(f[Search(Chart, f).value.line]) ==> NextRead(f) == Some(now)))
    case ReleaseTag => Inked(now)
    case _ => true
  }

  /** A rewrite that took reads back exactly when the file is rewritable: always for manifests and modules. */
  lemma VersionReadsBackIff(k: Spelling, f: File, was: string, now: string)
    requires ReadVersion(k, f) == Some(was) && '"' !in now && now != [] && WriteVersion(k, f, was, now).Some?
    ensures ReadVersion(k, WriteVersion(k, f, was, now).value) == Some(now) <==> Rewritable(k, f, was, now)
  {
    hide Found, WriteTag, ChartSits, Inherits, Hollow, NextRead, Bare, Inked, Search;
    match k
    case HelmChart =>
      if Bare(now) {
        ChartReadsBackIff(f, was, now);
      } else {
        FoundBare(f);
        FoundBare(WriteChart(f, was, now).value);
      }
    case ReleaseTag => TagReadsBackIff(f, was, now);
    case _ => AssignWritten(k, f, now);
  }

  lemma FoundBare(f: File)
    ensures Found(Chart, f).Some? ==> Bare(Found(Chart, f).value)
  {
    hide Search, Bare;
    if Search(Chart, f).Some? {
      ChartValueBare(f);
    }
  }

  const EMPTY_QUOTES := "version: \"\""
  const TORN_QUOTES := "version: 2\"\""

  /** A chart with an empty version in quotes is why: the rewrite takes, and no version can be read after. */
  lemma EmptyQuotes(app: string)
    requires StartsAt(app, APP_WORD, 0)
    ensures var f, g := [EMPTY_QUOTES, app], [TORN_QUOTES, AppText("2")];
            && ReadVersion(HelmChart, f) == Some([])
            && WriteVersion(HelmChart, f, [], "2") == Some(g)
            && ReadVersion(HelmChart, g) == None
  {
    hide ChartAt, ChartNamedAt, StartsAt, FirstPlace, AppText, FirstApp;
    var f, g, e := [EMPTY_QUOTES, app], [TORN_QUOTES, app], [TORN_QUOTES, AppText("2")];
    QuotesRead();
    AppIsNoChart(app);
    AppTextStarts(AppText("2"), "2");
    AppIsNoChart(AppText("2"));
    SearchIs(Chart, f, 0, 0);
    SearchIs(ChartNamed([]), f, 0, 0);
    assert WithVersion(f, [], "2") == g by {
      assert EMPTY_QUOTES[..9] + "2" + EMPTY_QUOTES[9..] == TORN_QUOTES;
    }
    AppIsNoChart(TORN_QUOTES);
    assert !StartsAt(g[0], APP_WORD, 0) && StartsAt(g[1], APP_WORD, 0);
    assert FirstApp(g, 0) == Some(1);
    assert WithApp(g, "2") == e;
    SearchIs(ChartNamed("2"), e, 0, 0);
    assert StartsAt(e[1], AppText("2"), 0);
    assert WriteChart(f, [], "2") == Some(e);
    assert f[0][10..10] == [];
    ChartStarts(AppText("2"), "2");
    NoChart(e);
  }

  lemma QuotesRead()
    ensures ChartAt(EMPTY_QUOTES) == Some(Span(10, 10, 11)) && ChartNamedAt(EMPTY_QUOTES, []) == Some(Span(9, 9, 9))
    ensures ChartAt(TORN_QUOTES).None? && ChartNamedAt(TORN_QUOTES, "2") == Some(Span(9, 10, 10))
    ensures StartsAt(TORN_QUOTES, CHART_WORD, 0)
  {
    hide SkipBlank, BareEnd;
    var s, t := EMPTY_QUOTES, TORN_QUOTES;
    assert s[0..8] == CHART_WORD && t[0..8] == CHART_WORD && t[9..10] == "2";
    assert s[8] == ' ' && s[9] == '"' && s[10] == '"' && |s| == 11;
    assert t[8] == ' ' && t[9] == '2' && t[10] == '"' && t[11] == '"' && |t| == 12;
    assert SkipBlank(s, 8) == 9 && SkipBlank(t, 8) == 9;
    assert BareEnd(s, 10) == 10 && BareEnd(t, 9) == 10 && SkipBlank(t, 11) == 11;
  }

  lemma NoChart(f: File)
    requires forall i | 0 <= i < |f| :: ChartAt(f[i]).None?
    ensures Search(Chart, f).None?
  {
    hide ChartAt, FirstPlace;
  }

  const OLD_TAG := TAG_WORD + " v1"
  const DEV_TAG := TAG_WORD + " vdev"

  /** A release tag set to a version that does not start with a digit: the rewrite takes, and no version can be read
      after. */
  lemma DevTag()
    ensures ReadVersion(ReleaseTag, [OLD_TAG]) == Some("1")
    ensures WriteVersion(ReleaseTag, [OLD_TAG], "1", "dev") == Some([DEV_TAG]) &&
            ReadVersion(ReleaseTag, [DEV_TAG]) == None
  {
    hide TagAt, TagNamedAt, FirstPlace;
    var f, g := [OLD_TAG], [DEV_TAG];
    OldTagRead();
    DevTagRead();
    SearchIs(Tag, f, 0, 0);
    SearchIs(TagNamed("1"), f, 0, 0);
    assert OLD_TAG[..18] + "dev" + OLD_TAG[19..] == DEV_TAG;
    assert Refill(f, Search(TagNamed("1"), f).value, "dev") == g;
    SearchIs(TagNamed("dev"), g, 0, 0);
    assert WriteTag(f, "1", "dev") == Some(g);
    assert FirstPlace(Tag, DEV_TAG, 0).None?;
  }

  lemma OldTagRead()
    ensures |OLD_TAG| == 19 && OLD_TAG[18..19] == "1"
    ensures TagAt(OLD_TAG, 0) == Some(Span(18, 19, 19)) && TagNamedAt(OLD_TAG, 0, "1") == Some(Span(18, 19, 19))
  {
    hide TagStart, InkEnd;
    TagStarts(" v1");
    assert |TAG_WORD| == 16 && OLD_TAG[18] == '1' && InkEnd(OLD_TAG, 18) == 19;
  }

  lemma DevTagRead()
    ensures |DEV_TAG| == 21 && TagNamedAt(DEV_TAG, 0, "dev") == Some(Span(18, 21, 21))
    ensures forall k: nat | k <= |DEV_TAG| :: TagAt(DEV_TAG, k).None?
  {
    hide TagStart, InkEnd;
    TagStarts(" vdev");
    assert |TAG_WORD| == 16 && DEV_TAG[18] == 'd' && DEV_TAG[18..21] == "dev";
    forall k: nat | k <= |DEV_TAG| ensures TagAt(DEV_TAG, k).None? {
      if 0 < k {
        OneTagWord(k);
      }
    }
  }

  lemma TagStarts(tail: string)
    requires |tail| >= 2 && tail[0] == ' ' && tail[1] == 'v'
    ensures TagStart(TAG_WORD + tail, 0) == Some(|TAG_WORD| + 2)
  {
    hide SkipBlank;
    var s, n := TAG_WORD + tail, |TAG_WORD|;
    assert s[0..n] == TAG_WORD && s[n] == ' ' && s[n + 1] == 'v';
    assert SkipBlank(s, n) == n + 1;
  }

  lemma OneTagWord(k: nat)
    requires 0 < k <= |DEV_TAG|
    ensures !StartsAt(DEV_TAG, TAG_WORD, k) && TagStart(DEV_TAG, k).None?
  {
    if StartsAt(DEV_TAG, TAG_WORD, k) {
      CharAt(DEV_TAG, TAG_WORD, k, 15);
    }
  }
}
