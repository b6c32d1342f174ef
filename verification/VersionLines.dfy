/**
 The version lines of the files a release bump rewrites: where a line of each kind of file holds
 its version string. A file is the sequence of its lines; blanks do not run over a line's end.
 */
module VersionLines {
  import opened Text

  /** How a file spells versions; `Workspace` is the root manifest, whose pins alone are versions. */
  datatype Kind = Toml | Python | Helm | Workflow | Workspace

  predicate IsBlank(c: char) {
    c == ' ' || c == '\t' || c == '\r' || c as int == 11 || c as int == 12
  }

  predicate IsLetter(c: char) {
    'a' <= c <= 'z' || 'A' <= c <= 'Z'
  }

  predicate IsWord(c: char) {
    IsLetter(c) || IsDigit(c) || c == '_'
  }

  predicate IsKeyChar(c: char) {
    IsWord(c) || c == '.' || c == '-'
  }

  /** `[0-9A-Za-z.+-]` */
  predicate IsVersionChar(c: char) {
    IsLetter(c) || IsDigit(c) || c == '.' || c == '+' || c == '-'
  }

  /** `VERSION.fullmatch` */
  predicate IsVersion(v: string) {
    v != [] && IsDigit(v[0]) && forall i | 0 <= i < |v| :: IsVersionChar(v[i])
  }

  // --- scanning --------------------------------------------------------------------------

  /** The first position from `i` on that is not a blank. */
  function SkipBlank(s: string, i: nat): (r: nat)
    requires i <= |s|
    ensures i <= r <= |s| && (r < |s| ==> !IsBlank(s[r]))
    ensures forall k | i <= k < r :: IsBlank(s[k])
    decreases |s| - i
  {
    if i < |s| && IsBlank(s[i]) then SkipBlank(s, i + 1) else i
  }

  ghost predicate Blanks(s: string) {
    forall i | 0 <= i < |s| :: IsBlank(s[i])
  }

  lemma SkipsOver(front: string, blanks: string, tail: string)
    requires Blanks(blanks) && tail != [] && !IsBlank(tail[0])
    ensures SkipBlank(front + blanks + tail, |front|) == |front| + |blanks|
  {
    var s := front + blanks + tail;
    var r, e := SkipBlank(s, |front|), |front| + |blanks|;
    assert forall k | |front| <= k < e :: s[k] == blanks[k - |front|];
    assert s[e] == tail[0];
  }

  function SkipKey(s: string, i: nat): (r: nat)
    requires i <= |s|
    ensures i <= r <= |s| && (r < |s| ==> !IsKeyChar(s[r]))
    ensures forall k | i <= k < r :: IsKeyChar(s[k])
    decreases |s| - i
  {
    if i < |s| && IsKeyChar(s[i]) then SkipKey(s, i + 1) else i
  }

  /** The end of the run of version characters from `i` on. */
  function RunEnd(s: string, i: nat): (r: nat)
    requires i <= |s|
    ensures i <= r <= |s| && (r < |s| ==> !IsVersionChar(s[r]))
    ensures forall k | i <= k < r :: IsVersionChar(s[k])
    decreases |s| - i
  {
    if i < |s| && IsVersionChar(s[i]) then RunEnd(s, i + 1) else i
  }

  /** The version run at `a`, if one starts there. */
  function VersionAt(s: string, a: nat): (r: Option<nat>)
    requires a <= |s|
    ensures r.Some? ==> a < r.value <= |s| && IsVersion(s[a..r.value])
    ensures r.Some? ==> (r.value < |s| ==> !IsVersionChar(s[r.value]))
  {
    if a < |s| && IsDigit(s[a]) then Some(RunEnd(s, a)) else None
  }

  /** Past the opening quote of `word = "`, spelled with any blanks around the sign. */
  function Assigned(s: string, p: nat, word: string): (r: Option<nat>)
    requires p <= |s|
    ensures r.Some? ==> StartsAt(s, word, p) && p + |word| < r.value <= |s| && s[r.value - 1] == '"'
  {
    if !StartsAt(s, word, p) then None
    else
      var i := SkipBlank(s, p + |word|);
      if i >= |s| || s[i] != '=' then None
      else
        var j := SkipBlank(s, i + 1);
        if j < |s| && s[j] == '"' then Some(j + 1) else None
  }

  // --- the version span of a line -----------------------------------------------------------

  /** Where the version of a line may start: past the words its kind puts in front of it. */
  function LinePrefix(kind: Kind, s: string): (r: Option<nat>)
    ensures r.Some? ==> 0 < r.value <= |s|
  {
    match kind
    case Toml => Assigned(s, SkipBlank(s, 0), "version")
    case Python => Assigned(s, SkipBlank(s, 0), "__version__")
    case Helm =>
      var word := if StartsAt(s, "version:", 0) then "version:" else "appVersion:";
      if !StartsAt(s, word, 0) then None
      else
        var j := SkipBlank(s, |word|);
        Some(if j < |s| && s[j] == '"' then j + 1 else j)
    case Workflow =>
      var p := SkipBlank(s, 0);
      if !StartsAt(s, "SMG_RELEASE_TAG:", p) then None
      else
        var j := SkipBlank(s, p + |"SMG_RELEASE_TAG:"|);
        if j < |s| && s[j] == 'v' then Some(j + 1) else None
    case Workspace => None
  }

  /** What may follow the version. */
  predicate LineSuffix(kind: Kind, tail: string) {
    match kind
    case Toml => tail != [] && tail[0] == '"'
    case Python => tail != [] && tail[0] == '"'
    case Helm => SkipBlank(tail, if tail != [] && tail[0] == '"' then 1 else 0) == |tail|
    case Workflow => SkipBlank(tail, 0) == |tail|
    case Workspace => false
  }

  /** `VERSION_LINES[kind].match`, as the bounds of its middle group. */
  function LineSpan(kind: Kind, s: string): (r: Option<(nat, nat)>)
    ensures r.Some? ==> r.value.0 < r.value.1 <= |s| && IsVersion(s[r.value.0..r.value.1])
  {
    match LinePrefix(kind, s)
    case None => None
    case Some(a) =>
      match VersionAt(s, a)
      case None => None
      case Some(b) => if LineSuffix(kind, s[b..]) then Some((a, b)) else None
  }

  /** Past the brace of `key = {`, and the key. */
  function PinKey(s: string): (r: Option<(string, nat)>)
    ensures r.Some? ==> r.value.1 <= |s|
  {
    var p := SkipBlank(s, 0);
    var e := SkipKey(s, p);
    var i := SkipBlank(s, e);
    if p == e || i >= |s| || s[i] != '=' then None
    else
      var j := SkipBlank(s, i + 1);
      if j < |s| && s[j] == '{' then Some((s[p..e], j + 1)) else None
  }

  /** A whole word `version = "` at `q`, with a version and its closing quote behind it. */
  function PinAt(s: string, q: nat): (r: Option<(nat, nat)>)
    requires q <= |s|
    ensures r.Some? ==> q < r.value.0 < r.value.1 <= |s| && IsVersion(s[r.value.0..r.value.1])
  {
    if q > 0 && IsWord(s[q - 1]) then None
    else match Assigned(s, q, "version")
      case None => None
      case Some(a) =>
        match VersionAt(s, a)
        case None => None
        case Some(b) => if b < |s| && s[b] == '"' then Some((a, b)) else None
  }

  /** The first such place before a closing brace. */
  function PinFrom(s: string, q: nat): (r: Option<(nat, nat)>)
    requires q <= |s|
    ensures r.Some? ==> q < r.value.0 < r.value.1 <= |s| && IsVersion(s[r.value.0..r.value.1])
    decreases |s| - q
  {
    if PinAt(s, q).Some? then PinAt(s, q)
    else if q < |s| && s[q] != '}' then PinFrom(s, q + 1)
    else None
  }

  /** `PIN_LINE.match`, for a key of the workspace. */
  function PinSpan(s: string, keys: set<string>): (r: Option<(nat, nat)>)
    ensures r.Some? ==> r.value.0 < r.value.1 <= |s| && IsVersion(s[r.value.0..r.value.1])
  {
    match PinKey(s)
    case None => None
    case Some((key, q)) => if key in keys then PinFrom(s, q) else None
  }

  /** `version_span` */
  function VersionSpan(kind: Kind, s: string, keys: set<string>): (r: Option<(nat, nat)>)
    ensures r.Some? ==> r.value.0 < r.value.1 <= |s| && IsVersion(s[r.value.0..r.value.1])
  {
    var span := LineSpan(kind, s);
    if span.Some? then span
    else if kind.Toml? || kind.Workspace? then PinSpan(s, keys)
    else None
  }

  // --- another version in the same place -------------------------------------------------------

  /** The lines agree up to `n`. */
  ghost predicate Agree(s: string, t: string, n: nat) {
    n <= |s| && n <= |t| && forall k | 0 <= k < n :: s[k] == t[k]
  }

  lemma StartsAgree(s: string, t: string, n: nat, p: nat, word: string)
    requires Agree(s, t, n) && p + |word| <= n
    ensures StartsAt(s, word, p) <==> StartsAt(t, word, p)
  {
    assert s[p..p + |word|] == t[p..p + |word|];
  }

  function Put(s: string, span: (nat, nat), v: string): string
    requires span.0 <= span.1 <= |s|
  {
    s[..span.0] + v + s[span.1..]
  }

  lemma SkipBlankAgree(s: string, t: string, n: nat, i: nat)
    requires Agree(s, t, n) && i <= n && SkipBlank(s, i) < n
    ensures SkipBlank(t, i) == SkipBlank(s, i)
  {
    hide SkipBlank;
  }

  lemma SkipKeyAgree(s: string, t: string, n: nat, i: nat)
    requires Agree(s, t, n) && i <= n && SkipKey(s, i) < n
    ensures SkipKey(t, i) == SkipKey(s, i)
  {
    hide SkipKey;
  }

  lemma AssignedAgree(s: string, t: string, n: nat, p: nat, word: string)
    requires Agree(s, t, n) && p <= n && Assigned(s, p, word).Some? && Assigned(s, p, word).value <= n
    ensures Assigned(t, p, word) == Assigned(s, p, word)
  {
    hide SkipBlank;
    var i := SkipBlank(s, p + |word|);
    StartsAgree(s, t, n, p, word);
    SkipBlankAgree(s, t, n, p + |word|);
    SkipBlankAgree(s, t, n, i + 1);
  }

  /** A version put in front of the same tail is the version found there. */
  lemma VersionAtPut(head: string, v: string, tail: string)
    requires IsVersion(v) && (tail != [] ==> !IsVersionChar(tail[0]))
    ensures VersionAt(head + v + tail, |head|) == Some(|head| + |v|)
  {
    var s := head + v + tail;
    assert s[|head|] == v[0];
    var r := RunEnd(s, |head|);
    assert forall k | 0 <= k < |v| :: s[|head| + k] == v[k];
    assert r < |s| ==> !IsVersionChar(s[r]);
    assert tail != [] ==> s[|head| + |v|] == tail[0];
    assert r >= |head| + |v| by {
      assert forall k | |head| <= k < |head| + |v| :: s[k] == v[k - |head|] && IsVersionChar(s[k]);
    }
  }

  lemma PutParts(s: string, a: nat, b: nat, v: string)
    requires a <= b <= |s|
    ensures var t := Put(s, (a, b), v);
            Agree(s, t, a) && t[a..a + |v|] == v && t[a + |v|..] == s[b..] && t == s[..a] + v + s[b..]
  {
  }

  lemma LinePrefixPut(kind: Kind, s: string, a: nat, b: nat, v: string)
    requires LinePrefix(kind, s) == Some(a) && a <= b <= |s| && IsVersion(v)
    ensures LinePrefix(kind, Put(s, (a, b), v)) == Some(a)
  {
    hide LinePrefix, IsVersionChar;
    var t := Put(s, (a, b), v);
    PutParts(s, a, b, v);
    assert t[a] == v[0];
    match kind
    case Toml =>
      AssignPrefixPut(Toml, s, t, a);
    case Python =>
      AssignPrefixPut(Python, s, t, a);
    case Helm =>
      HelmPrefixPut(s, t, a);
    case Workflow =>
      WorkflowPrefixPut(s, t, a);
    case Workspace =>
      WorkspaceHasNoLine(s);
  }

  lemma AssignPrefixPut(kind: Kind, s: string, t: string, a: nat)
    requires (kind.Toml? || kind.Python?) && LinePrefix(kind, s) == Some(a) && Agree(s, t, a)
    ensures LinePrefix(kind, t) == Some(a)
  {
    hide SkipBlank, Assigned;
    SkipBlankAgree(s, t, a, 0);
    AssignedAgree(s, t, a, SkipBlank(s, 0), if kind.Toml? then "version" else "__version__");
  }

  lemma WorkflowPrefixPut(s: string, t: string, a: nat)
    requires LinePrefix(Workflow, s) == Some(a) && Agree(s, t, a)
    ensures LinePrefix(Workflow, t) == Some(a)
  {
    hide SkipBlank;
    var p := SkipBlank(s, 0);
    SkipBlankAgree(s, t, a, 0);
    StartsAgree(s, t, a, p, "SMG_RELEASE_TAG:");
    SkipBlankAgree(s, t, a, p + 16);
  }

  lemma HelmPrefixPut(s: string, t: string, a: nat)
    requires LinePrefix(Helm, s) == Some(a) && Agree(s, t, a) && a < |t| && IsDigit(t[a])
    ensures LinePrefix(Helm, t) == Some(a)
  {
    hide SkipBlank;
    var short := StartsAt(s, "version:", 0);
    var n := if short then 8 else 11;
    StartsAgree(s, t, a, 0, "version:");
    StartsAgree(s, t, a, 0, if short then "version:" else "appVersion:");
    var j := SkipBlank(s, n);
    if j < a {
      SkipBlankAgree(s, t, a, n);
    } else {
      assert forall k | n <= k < a :: IsBlank(t[k]);
      assert SkipBlank(t, n) == a;
    }
  }

  lemma LineSpanPut(kind: Kind, s: string, v: string)
    requires LineSpan(kind, s).Some? && IsVersion(v)
    ensures var (a, b) := LineSpan(kind, s).value; LineSpan(kind, Put(s, (a, b), v)) == Some((a, a + |v|))
  {
    hide LinePrefix, LineSuffix, VersionAt;
    var (a, b) := LineSpan(kind, s).value;
    LinePrefixPut(kind, s, a, b, v);
    PutParts(s, a, b, v);
    assert b < |s| ==> s[b..][0] == s[b];
    assert s[..a] + v + s[b..] == Put(s, (a, b), v);
    VersionAtPut(s[..a], v, s[b..]);
  }

  lemma PinKeyPut(s: string, t: string, n: nat)
    requires PinKey(s).Some? && PinKey(s).value.1 <= n && Agree(s, t, n)
    ensures PinKey(t) == PinKey(s)
  {
    hide SkipBlank, SkipKey;
    var p := SkipBlank(s, 0);
    var e := SkipKey(s, p);
    var i := SkipBlank(s, e);
    SkipBlankAgree(s, t, n, 0);
    SkipKeyAgree(s, t, n, p);
    SkipBlankAgree(s, t, n, e);
    SkipBlankAgree(s, t, n, i + 1);
    assert s[p..e] == t[p..e];
  }

  /** A word of another place ends before the found one starts. */
  lemma EarlierWordEnds(s: string, q: nat, p: nat)
    requires p < q <= |s| && StartsAt(s, "version", q) && Assigned(s, p, "version").Some?
    ensures Assigned(s, p, "version").value <= q
  {
    CharAt(s, "version", q, 0);
    var i := SkipBlank(s, p + 7);
    var j := SkipBlank(s, i + 1);
    forall k | p < k < p + 7 ensures s[k] != 'v' {
      CharAt(s, "version", p, k - p);
    }
    assert p + 7 <= q;
    assert i < q;
  }

  /** No place before the found one is taken once the version changes. */
  lemma EarlierPinStays(s: string, t: string, q: nat, p: nat, a: nat)
    requires p < q < a && q + 7 <= a && Agree(s, t, a) && StartsAt(s, "version", q) && s[a - 1] == '"'
    requires PinAt(s, p).None?
    ensures PinAt(t, p).None?
  {
    hide Assigned, RunEnd;
    StartsAgree(s, t, a, q, "version");
    if Assigned(t, p, "version").Some? {
      EarlierWordEnds(t, q, p);
      var c := Assigned(t, p, "version").value;
      assert Agree(t, s, a);
      AssignedAgree(t, s, a, p, "version");
      assert RunEnd(t, c) <= a - 1;
      assert RunEnd(s, c) == RunEnd(t, c);
    }
  }

  lemma {:induction false} PinFromPut(s: string, t: string, p: nat, v: string)
    requires p <= |s| && PinFrom(s, p).Some? && IsVersion(v)
    requires t == Put(s, PinFrom(s, p).value, v)
    ensures p <= |t| && PinFrom(t, p) == Some((PinFrom(s, p).value.0, PinFrom(s, p).value.0 + |v|))
    decreases |s| - p
  {
    hide PinAt;
    var (a, b) := PinFrom(s, p).value;
    PutParts(s, a, b, v);
    if PinAt(s, p).Some? {
      PinHerePut(s, p, v);
    } else {
      PinFromPut(s, t, p + 1, v);
      var q := PinPlace(s, p + 1);
      EarlierPinStays(s, t, q, p, a);
    }
  }

  /** Where the found pin's word stands. */
  lemma {:induction false} PinPlace(s: string, p: nat) returns (q: nat)
    requires p <= |s| && PinFrom(s, p).Some?
    ensures var (a, b) := PinFrom(s, p).value; p <= q && q + 7 < a && StartsAt(s, "version", q) && s[a - 1] == '"'
    decreases |s| - p
  {
    if PinAt(s, p).Some? {
      q := p;
    } else {
      q := PinPlace(s, p + 1);
    }
  }

  lemma PinHerePut(s: string, q: nat, v: string)
    requires q <= |s| && PinAt(s, q).Some? && IsVersion(v)
    ensures var (a, b) := PinAt(s, q).value;
            q <= |Put(s, (a, b), v)| && PinAt(Put(s, (a, b), v), q) == Some((a, a + |v|))
  {
    var (a, b) := PinAt(s, q).value;
    var t := Put(s, (a, b), v);
    PutParts(s, a, b, v);
    hide Assigned, RunEnd, VersionAt, IsVersionChar, IsVersion, IsWord;
    AssignedAgree(s, t, a, q, "version");
    assert s[b..][0] == s[b] && t[a + |v|..][0] == t[a + |v|];
    assert q > 0 ==> s[q - 1] == t[q - 1];
    QuoteEnds();
    VersionAtPut(s[..a], v, s[b..]);
  }

  lemma QuoteEnds()
    ensures !IsVersionChar('"')
  {
  }

  /** A pin line is no version line: its value opens with a brace. */
  lemma PinIsNoVersionLine(s: string)
    ensures LineSpan(Toml, s).Some? ==> PinKey(s).None?
  {
    hide SkipBlank, SkipKey, VersionAt, LineSuffix, Assigned;
    var p := SkipBlank(s, 0);
    if Assigned(s, p, "version").Some? {
      VersionIsKey(s, p);
    }
  }

  lemma VersionIsKey(s: string, p: nat)
    requires p <= |s| && Assigned(s, p, "version").Some?
    ensures SkipKey(s, p) == p + 7
    ensures var i := SkipBlank(s, p + 7);
            i < |s| && s[i] == '=' && var j := SkipBlank(s, i + 1); j < |s| && s[j] == '"'
  {
    hide SkipBlank, SkipKey, IsKeyChar;
    forall k | p <= k < p + 7 ensures IsKeyChar(s[k]) {
      CharAt(s, "version", p, k - p);
      LetterInKey(s[k]);
    }
    var i := SkipBlank(s, p + 7);
    assert s[p + 7] == '=' || IsBlank(s[p + 7]);
    KeyEndsHere(s, p, p + 7);
  }

  lemma LetterInKey(c: char)
    requires 'a' <= c <= 'z'
    ensures IsKeyChar(c)
  {
  }

  lemma KeyEndsHere(s: string, p: nat, e: nat)
    requires p <= e < |s| && (forall k | p <= k < e :: IsKeyChar(s[k])) && (s[e] == '=' || IsBlank(s[e]))
    ensures SkipKey(s, p) == e
  {
    hide SkipKey;
    assert !IsKeyChar(s[e]);
  }

  /** Another version in the same place is found in that place. */
  lemma VersionSpanPut(kind: Kind, s: string, keys: set<string>, v: string)
    requires VersionSpan(kind, s, keys).Some? && IsVersion(v)
    ensures var (a, b) := VersionSpan(kind, s, keys).value;
            VersionSpan(kind, Put(s, (a, b), v), keys) == Some((a, a + |v|))
  {
    hide LineSpan, PinKey, PinFrom;
    if LineSpan(kind, s).Some? {
      LineSpanPut(kind, s, v);
    } else {
      var (key, q) := PinKey(s).value;
      var (a, b) := PinFrom(s, q).value;
      var t := Put(s, (a, b), v);
      PutParts(s, a, b, v);
      PinKeyPut(s, t, a);
      PinFromPut(s, t, q, v);
      PinIsNoVersionLine(t);
      WorkspaceHasNoLine(t);
    }
  }

  lemma WorkspaceHasNoLine(s: string)
    ensures LinePrefix(Workspace, s).None? && LineSpan(Workspace, s).None?
  {
  }
}
