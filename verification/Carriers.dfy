/**
 Reading and rewriting the version of a file, as the release checker does it with regular
 expressions. A file is the sequence of its lines; a match stays within its line.
 */
module Carriers {
  import opened Text
  import opened VersionLines

  type File = seq<string>

  // --- patterns -------------------------------------------------------------------------------

  /** The checker's expressions:
      `Assign`      `word\s*=\s*"([^"]*)"`, at the line's start when anchored;
      `Tag`         `SMG_RELEASE_TAG:\s*v([0-9]\S*)`, and `TagNamed` the same with one version and a blank behind;
      `Chart`       `^version:\s*"?([^"\s]*)"?\s*$`, and `ChartNamed` `^version:\s*` and one version;
      `Pin`         `^key .*?version = "([^"]*)"`, and `PinNamed` `^key = { version = "` and one version. */
  datatype Pattern =
    | Assign(word: string, anchored: bool)
    | Tag | TagNamed(version: string)
    | Chart | ChartNamed(version: string)
    | Pin(key: string) | PinNamed(key: string, version: string)

  /** The group's bounds and the end of the match. */
  datatype Span = Span(from: nat, to: nat, end: nat)

  const TAG_WORD := "SMG_RELEASE_TAG:"
  const CHART_WORD := "version:"
  const PIN_WORD := "version = \""

  ghost predicate Within(m: Option<Span>, s: string, p: nat) {
    m.Some? ==> p <= m.value.from <= m.value.to <= m.value.end <= |s|
  }

  /** The position of the next double quote. */
  function NextQuote(s: string, i: nat): (r: Option<nat>)
    requires i <= |s|
    ensures r.Some? ==> i <= r.value < |s| && s[r.value] == '"'
    ensures forall k | i <= k < (if r.Some? then r.value else |s|) :: s[k] != '"'
    decreases |s| - i
  {
    if i == |s| then None else if s[i] == '"' then Some(i) else NextQuote(s, i + 1)
  }

  /** The end of the run of non-blanks from `i` on. */
  function InkEnd(s: string, i: nat): (r: nat)
    requires i <= |s|
    ensures i <= r <= |s| && (r < |s| ==> IsBlank(s[r])) && forall k | i <= k < r :: !IsBlank(s[k])
    decreases |s| - i
  {
    if i < |s| && !IsBlank(s[i]) then InkEnd(s, i + 1) else i
  }

  /** The end of the run of characters that are neither blank nor a quote. */
  function BareEnd(s: string, i: nat): (r: nat)
    requires i <= |s|
    ensures i <= r <= |s| && (r < |s| ==> IsBlank(s[r]) || s[r] == '"')
    ensures forall k | i <= k < r :: !IsBlank(s[k]) && s[k] != '"'
    decreases |s| - i
  {
    if i < |s| && !IsBlank(s[i]) && s[i] != '"' then BareEnd(s, i + 1) else i
  }

  function AssignAt(s: string, p: nat, word: string): (m: Option<Span>)
    requires p <= |s|
    ensures Within(m, s, p)
  {
    match Assigned(s, p, word)
    case None => None
    case Some(a) =>
      match NextQuote(s, a)
      case None => None
      case Some(b) => Some(Span(a, b, b + 1))
  }

  /** Past the `v` of `SMG_RELEASE_TAG: v`. */
  function TagStart(s: string, p: nat): (r: Option<nat>)
    requires p <= |s|
    ensures r.Some? ==> p < r.value <= |s|
  {
    if !StartsAt(s, TAG_WORD, p) then None
    else
      var j := SkipBlank(s, p + |TAG_WORD|);
      if j < |s| && s[j] == 'v' then Some(j + 1) else None
  }

  function TagAt(s: string, p: nat): (m: Option<Span>)
    requires p <= |s|
    ensures Within(m, s, p)
  {
    match TagStart(s, p)
    case None => None
    case Some(a) => if a < |s| && IsDigit(s[a]) then Some(Span(a, InkEnd(s, a), InkEnd(s, a))) else None
  }

  function TagNamedAt(s: string, p: nat, version: string): (m: Option<Span>)
    requires p <= |s|
    ensures Within(m, s, p)
  {
    match TagStart(s, p)
    case None => None
    case Some(a) =>
      var e := a + |version|;
      if StartsAt(s, version, a) && (e == |s| || IsBlank(s[e])) then Some(Span(a, e, e)) else None
  }

  function ChartAt(s: string): (m: Option<Span>)
    ensures Within(m, s, 0)
  {
    if !StartsAt(s, CHART_WORD, 0) then None
    else
      var j := SkipBlank(s, |CHART_WORD|);
      var a := if j < |s| && s[j] == '"' then j + 1 else j;
      var b := BareEnd(s, a);
      var c := if b < |s| && s[b] == '"' then b + 1 else b;
      if SkipBlank(s, c) == |s| then Some(Span(a, b, |s|)) else None
  }

  function ChartNamedAt(s: string, version: string): (m: Option<Span>)
    ensures Within(m, s, 0)
  {
    if !StartsAt(s, CHART_WORD, 0) then None
    else
      var j := SkipBlank(s, |CHART_WORD|);
      if StartsAt(s, version, j) then Some(Span(j, j + |version|, j + |version|)) else None
  }

  /** The first `version = "..."` from `q` on. */
  function PinWordFrom(s: string, q: nat): (m: Option<Span>)
    requires q <= |s|
    ensures Within(m, s, q)
    decreases |s| - q
  {
    if StartsAt(s, PIN_WORD, q) && NextQuote(s, q + |PIN_WORD|).Some? then
      var b := NextQuote(s, q + |PIN_WORD|).value;
      Some(Span(q + |PIN_WORD|, b, b + 1))
    else if q == |s| then None
    else PinWordFrom(s, q + 1)
  }

  function PinHead(key: string): string {
    key + " = { " + PIN_WORD
  }

  function MatchAt(pat: Pattern, s: string, p: nat): (m: Option<Span>)
    requires p <= |s|
    ensures Within(m, s, p)
  {
    match pat
    case Assign(word, anchored) => if anchored && p > 0 then None else AssignAt(s, p, word)
    case Tag => TagAt(s, p)
    case TagNamed(version) => TagNamedAt(s, p, version)
    case Chart => if p > 0 then None else ChartAt(s)
    case ChartNamed(version) => if p > 0 then None else ChartNamedAt(s, version)
    case Pin(key) =>
      if p > 0 || !StartsAt(s, key + " ", 0) then None else PinWordFrom(s, |key| + 1)
    case PinNamed(key, version) =>
      var head := PinHead(key);
      var e := |head| + |version|;
      if p > 0 || !StartsAt(s, head + version + "\"", 0) then None else Some(Span(|head|, e, e + 1))
  }

  // --- searching ------------------------------------------------------------------------------

  /** The first match in a line, from `p` on. */
  function FirstPlace(pat: Pattern, s: string, p: nat): (r: Option<nat>)
    requires p <= |s|
    ensures r.Some? ==> p <= r.value <= |s| && MatchAt(pat, s, r.value).Some?
    ensures forall k: nat | p <= k < (if r.Some? then r.value else |s| + 1) :: MatchAt(pat, s, k).None?
    decreases |s| - p
  {
    if MatchAt(pat, s, p).Some? then Some(p) else if p == |s| then None else FirstPlace(pat, s, p + 1)
  }

  function FirstLine(pat: Pattern, f: File, i: nat): (r: Option<nat>)
    requires i <= |f|
    ensures r.Some? ==> i <= r.value < |f| && FirstPlace(pat, f[r.value], 0).Some?
    ensures forall k | i <= k < (if r.Some? then r.value else |f|) :: FirstPlace(pat, f[k], 0).None?
    decreases |f| - i
  {
    if i == |f| then None else if FirstPlace(pat, f[i], 0).Some? then Some(i) else FirstLine(pat, f, i + 1)
  }

  /** Where `re.search` stops. */
  datatype Hit = Hit(line: nat, place: nat, span: Span)

  function Search(pat: Pattern, f: File): (h: Option<Hit>)
    ensures h.Some? ==> h.value.line < |f| && h.value.place <= |f[h.value.line]| &&
                        MatchAt(pat, f[h.value.line], h.value.place) == Some(h.value.span)
    ensures h.Some? ==> h.value.place <= h.value.span.from <= h.value.span.to <= h.value.span.end <= |f[h.value.line]|
  {
    match FirstLine(pat, f, 0)
    case None => None
    case Some(i) =>
      var p := FirstPlace(pat, f[i], 0).value;
      Some(Hit(i, p, MatchAt(pat, f[i], p).value))
  }

  function Group(f: File, h: Hit): string
    requires h.line < |f| && h.span.from <= h.span.to <= |f[h.line]|
  {
    f[h.line][h.span.from..h.span.to]
  }

  /** `pattern.search(text).group(1)` */
  function Found(pat: Pattern, f: File): Option<string> {
    match Search(pat, f)
    case None => None
    case Some(h) => Some(Group(f, h))
  }

  /** A match with none before it is where the search stops. */
  lemma SearchIs(pat: Pattern, f: File, i: nat, p: nat)
    requires i < |f| && p <= |f[i]| && MatchAt(pat, f[i], p).Some?
    requires forall k: nat | k < p :: MatchAt(pat, f[i], k).None?
    requires forall k | 0 <= k < i :: FirstPlace(pat, f[k], 0).None?
    ensures Search(pat, f) == Some(Hit(i, p, MatchAt(pat, f[i], p).value))
  {
    hide MatchAt, FirstPlace, FirstLine;
    assert FirstPlace(pat, f[i], 0) == Some(p);
    assert FirstLine(pat, f, 0) == Some(i);
  }

  /** Nothing before the place where the search stops matches. */
  lemma SearchIsFirst(pat: Pattern, f: File)
    requires Search(pat, f).Some?
    ensures var h := Search(pat, f).value;
            && (forall k: nat | k < h.place :: MatchAt(pat, f[h.line], k).None?)
            && (forall k | 0 <= k < h.line :: FirstPlace(pat, f[k], 0).None?)
  {
    hide MatchAt;
  }

  // --- rewriting ------------------------------------------------------------------------------

  /** The whole match replaced. */
  function Replace(f: File, h: Hit, text: string): File
    requires h.line < |f| && h.place <= h.span.end <= |f[h.line]|
  {
    f[h.line := f[h.line][..h.place] + text + f[h.line][h.span.end..]]
  }

  /** The group alone replaced. */
  function Refill(f: File, h: Hit, text: string): File
    requires h.line < |f| && h.span.from <= h.span.to <= |f[h.line]|
  {
    f[h.line := f[h.line][..h.span.from] + text + f[h.line][h.span.to..]]
  }

  /** `[0-9]\S*` */
  predicate Inked(v: string) {
    v != [] && IsDigit(v[0]) && forall i | 0 <= i < |v| :: !IsBlank(v[i])
  }

  /** `[^"\s]*` */
  predicate Bare(v: string) {
    forall i | 0 <= i < |v| :: !IsBlank(v[i]) && v[i] != '"'
  }

  /** A version the checker writes. */
  predicate Writable(v: string) {
    Inked(v) && '"' !in v
  }
}
