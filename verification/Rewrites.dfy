/** What a rewrite leaves behind is what the next reading finds. */
module Rewrites {
  import opened Text
  import opened VersionLines
  import opened Carriers

  // --- `word = "..."` ---------------------------------------------------------------------------

  ghost predicate PlainWord(word: string) {
    word != [] && forall i | 0 <= i < |word| :: !IsBlank(word[i]) && word[i] != '=' && word[i] != '"'
  }

  function Spelled(word: string, version: string): string {
    word + " = \"" + version + "\""
  }

  lemma SpelledAt(head: string, word: string, version: string, tail: string)
    requires '"' !in version
    ensures var t := head + Spelled(word, version) + tail;
            var a := |head| + |word| + 4;
            && AssignAt(t, |head|, word) == Some(Span(a, a + |version|, a + |version| + 1))
            && Assigned(t, |head|, word) == Some(a) && t[a..a + |version|] == version
  {
    hide NextQuote, Assigned;
    var front, back := head + word + " = \"", "\"" + tail;
    var t := head + Spelled(word, version) + tail;
    assert t == front + version + back && t == front + (version + back);
    PlainQuote(head, word, version + back);
    Sliced(front, version, back);
    QuoteAfter(front, version, back);
  }

  lemma PlainQuote(head: string, word: string, rest: string)
    ensures Assigned(head + word + " = \"" + rest, |head|, word) == Some(|head| + |word| + 4)
  {
    hide SkipBlank;
    var t, n := head + word + " = \"" + rest, |head| + |word|;
    assert t[|head|..n] == word;
    assert t[n] == ' ' && t[n + 1] == '=' && t[n + 2] == ' ' && t[n + 3] == '"';
    assert SkipBlank(t, n) == n + 1 && SkipBlank(t, n + 2) == n + 3;
  }

  /** An assignment that starts before the word ends its opening quote before it. */
  lemma EarlierEnds(t: string, p: nat, word: string, q: nat)
    requires q < p <= |t| && PlainWord(word) && StartsAt(t, word, p) && Assigned(t, q, word).Some?
    ensures Assigned(t, q, word).value <= p
  {
    hide SkipBlank;
    forall k | p <= k < p + |word| ensures t[k] == word[k - p] {
      CharAt(t, word, p, k - p);
    }
    var i := SkipBlank(t, q + |word|);
    assert i < p by {
      var stop := if q + |word| < p then p else q + |word|;
      assert t[stop] == word[stop - p];
    }
    var j := SkipBlank(t, i + 1);
    assert j < p by {
      assert t[p] == word[0];
    }
  }

  /** A place before the rewritten one is no match afterwards unless it was one before. */
  lemma EarlierPlace(s: string, t: string, p: nat, word: string, q: nat)
    requires q < p && PlainWord(word) && Agree(t, s, p + |word|) && StartsAt(s, word, p) && AssignAt(s, p, word).Some?
    ensures Assigned(t, q, word).Some? ==> AssignAt(s, q, word).Some?
  {
    hide SkipBlank, NextQuote;
    if Assigned(t, q, word).Some? {
      StartsAgree(t, s, p + |word|, p, word);
      EarlierEnds(t, p, word, q);
      AssignedAgree(t, s, p + |word|, q, word);
      assert s[AssignAt(s, p, word).value.to] == '"';
    }
  }

  /** Whatever the file, an assignment that was rewritten reads back as the new version. */
  lemma AssignReadsBack(f: File, word: string, anchored: bool, version: string)
    requires PlainWord(word) && '"' !in version && Search(Assign(word, anchored), f).Some?
    ensures var h := Search(Assign(word, anchored), f).value;
            var g := Replace(f, h, Spelled(word, version));
            var r := Search(Assign(word, anchored), g);
            r.Some? && r.value.line == h.line && r.value.place == h.place && Group(g, r.value) == version
  {
    hide AssignAt, Spelled, FirstPlace;
    var pat := Assign(word, anchored);
    var h := Search(pat, f).value;
    var s := f[h.line];
    var g := Replace(f, h, Spelled(word, version));
    var t := g[h.line];
    SearchIsFirst(pat, f);
    SpelledAt(s[..h.place], word, version, s[h.span.end..]);
    assert StartsAt(s, word, h.place) by { AssignStarts(s, h.place, word); }
    RespelledAgrees(s, h.place, word, version, s[h.span.end..]);
    forall k: nat | k < h.place ensures MatchAt(pat, t, k).None? {
      EarlierPlace(s, t, h.place, word, k);
      AssignedFirst(t, k, word);
      assert MatchAt(pat, s, k).None?;
    }
    SearchIs(pat, g, h.line, h.place);
  }

  lemma AssignedFirst(s: string, p: nat, word: string)
    requires p <= |s|
    ensures AssignAt(s, p, word).Some? ==> Assigned(s, p, word).Some?
  {
  }

  lemma AssignStarts(s: string, p: nat, word: string)
    requires p <= |s| && AssignAt(s, p, word).Some?
    ensures StartsAt(s, word, p)
  {
  }

  lemma RespelledAgrees(s: string, p: nat, word: string, version: string, tail: string)
    requires StartsAt(s, word, p)
    ensures Agree(s[..p] + Spelled(word, version) + tail, s, p + |word|)
  {
    var t := s[..p] + Spelled(word, version) + tail;
    forall k | 0 <= k < p + |word| ensures t[k] == s[k] {
      if k >= p {
        CharAt(s, word, p, k - p);
      }
    }
  }

  // --- the release tag --------------------------------------------------------------------------

  /** A place that names a version is a place that holds exactly that version. */
  lemma NamedIsHeld(s: string, p: nat, version: string)
    requires p <= |s| && Inked(version)
    ensures TagNamedAt(s, p, version).Some? <==>
            TagAt(s, p).Some? && s[TagAt(s, p).value.from..TagAt(s, p).value.to] == version
    ensures TagNamedAt(s, p, version).Some? ==> TagNamedAt(s, p, version) == TagAt(s, p)
  {
    hide TagStart, InkEnd;
    if TagStart(s, p).Some? {
      var a := TagStart(s, p).value;
      var e := a + |version|;
      if TagNamedAt(s, p, version).Some? {
        forall k | a <= k < e ensures !IsBlank(s[k]) {
          CharAt(s, version, a, k - a);
        }
        CharAt(s, version, a, 0);
        assert InkEnd(s, a) == e;
      }
      if TagAt(s, p).Some? && s[a..InkEnd(s, a)] == version {
        assert e == InkEnd(s, a);
      }
    }
  }

  lemma TagStartAgree(s: string, t: string, p: nat)
    requires p <= |s| && TagStart(s, p).Some? && Agree(s, t, TagStart(s, p).value)
    ensures p <= |t| && TagStart(t, p) == TagStart(s, p)
  {
    hide SkipBlank, StartsAt;
    var a := TagStart(s, p).value;
    StartsAgree(s, t, a, p, TAG_WORD);
    SkipBlankAgree(s, t, a, p + |TAG_WORD|);
  }

  lemma TagRefilled(s: string, p: nat, version: string)
    requires p <= |s| && TagAt(s, p).Some? && Inked(version)
    ensures var m := TagAt(s, p).value;
            var t := s[..m.from] + version + s[m.to..];
            TagAt(t, p) == Some(Span(m.from, m.from + |version|, m.from + |version|)) &&
            t[m.from..m.from + |version|] == version
  {
    hide TagStart, InkEnd;
    var m := TagAt(s, p).value;
    var t := s[..m.from] + version + s[m.to..];
    var e := m.from + |version|;
    assert Agree(s, t, m.from);
    TagStartAgree(s, t, p);
    assert t[m.from..e] == version;
    assert forall k | m.from <= k < e :: t[k] == t[m.from..e][k - m.from] && !IsBlank(t[k]);
    assert e < |t| ==> t[e] == s[m.to];
    assert InkEnd(t, m.from) == e;
  }

  /** An earlier place holds a tag after the rewrite only if it held one before. */
  lemma EarlierTag(s: string, t: string, p: nat, q: nat, a: nat)
    requires q < p < a && Agree(t, s, a) && p + |TAG_WORD| <= a && StartsAt(s, TAG_WORD, p)
    ensures TagAt(t, q).Some? ==> TagAt(s, q).Some?
  {
    hide TagStart, InkEnd;
    StartsAgree(t, s, a, p, TAG_WORD);
    if TagStart(t, q).Some? {
      TagEndsEarly(t, p, q);
      TagStartAgree(t, s, q);
    }
  }

  /** Two tag words do not overlap, and the second is not the first one's `v`. */
  lemma TagEndsEarly(t: string, p: nat, q: nat)
    requires q < p <= |t| && StartsAt(t, TAG_WORD, p) && TagStart(t, q).Some?
    ensures TagStart(t, q).value <= p
  {
    hide SkipBlank;
    CharAt(t, TAG_WORD, p, 0);
    CharAt(t, TAG_WORD, p, 1);
    forall k | q + 1 < k < q + |TAG_WORD| ensures t[k] != 'M' {
      CharAt(t, TAG_WORD, q, k - q);
    }
    CharAt(t, TAG_WORD, q, |TAG_WORD| - 1);
    assert q + |TAG_WORD| <= p;
    assert SkipBlank(t, q + |TAG_WORD|) < p;
  }

  /** Rewriting the tag that was read: the named one is the one read, and the new one reads back. */
  lemma TagReadsBack(f: File, was: string, now: string)
    requires Search(Tag, f).Some? && Group(f, Search(Tag, f).value) == was && Inked(now)
    ensures var h := Search(Tag, f).value;
            var g := Refill(f, h, now);
            && Search(TagNamed(was), f) == Some(h)
            && Search(Tag, g).Some? && Group(g, Search(Tag, g).value) == now
            && Search(TagNamed(now), g) == Search(Tag, g)
  {
    hide TagAt, TagNamedAt, FirstPlace;
    var h := Search(Tag, f).value;
    var s := f[h.line];
    var g := Refill(f, h, now);
    var t := g[h.line];
    SearchIsFirst(Tag, f);
    TagShape(s, h.place);
    NamedSearch(f, was);
    TagRefilled(s, h.place, now);
    forall k: nat | k < h.place ensures MatchAt(Tag, t, k).None? {
      EarlierTag(s, t, h.place, k, h.span.from);
      assert MatchAt(Tag, s, k).None?;
    }
    SearchIs(Tag, g, h.line, h.place);
    NamedSearch(g, now);
  }

  lemma TagShape(s: string, p: nat)
    requires p <= |s| && TagAt(s, p).Some?
    ensures StartsAt(s, TAG_WORD, p) && p + |TAG_WORD| <= TagAt(s, p).value.from
    ensures var m := TagAt(s, p).value; Inked(s[m.from..m.to])
  {
    hide InkEnd, SkipBlank;
  }

  lemma NamedSearch(f: File, version: string)
    requires Search(Tag, f).Some? && Group(f, Search(Tag, f).value) == version && Inked(version)
    ensures Search(TagNamed(version), f) == Search(Tag, f)
  {
    hide TagAt, TagNamedAt, FirstPlace;
    var h := Search(Tag, f).value;
    SearchIsFirst(Tag, f);
    NamedIsHeld(f[h.line], h.place, version);
    forall k: nat | k < h.place ensures MatchAt(TagNamed(version), f[h.line], k).None? {
      NamedIsHeld(f[h.line], k, version);
      assert MatchAt(Tag, f[h.line], k).None?;
    }
    forall i | 0 <= i < h.line ensures FirstPlace(TagNamed(version), f[i], 0).None? {
      NoPlace(f[i], version);
    }
    SearchIs(TagNamed(version), f, h.line, h.place);
  }

  lemma NoPlace(s: string, version: string)
    requires FirstPlace(Tag, s, 0).None? && Inked(version)
    ensures FirstPlace(TagNamed(version), s, 0).None?
  {
    hide TagAt, TagNamedAt;
    forall k: nat | k <= |s| ensures MatchAt(TagNamed(version), s, k).None? {
      NamedIsHeld(s, k, version);
      assert MatchAt(Tag, s, k).None?;
    }
  }

  // --- the chart --------------------------------------------------------------------------------

  /** At most one line starts as the version line does. */
  ghost predicate OneVersionLine(f: File) {
    forall i, j | 0 <= i < j < |f| :: !(StartsAt(f[i], CHART_WORD, 0) && StartsAt(f[j], CHART_WORD, 0))
  }

  /** The word and blanks. */
  ghost predicate ChartHead(head: string) {
    StartsAt(head, CHART_WORD, 0) && |CHART_WORD| <= |head| && forall k | |CHART_WORD| <= k < |head| :: IsBlank(head[k])
  }

  /** What stands behind them: empty, or no blank first. */
  predicate ChartBody(body: string) {
    body == [] || !IsBlank(body[0])
  }

  /** Past a closing quote, if there is one. */
  function PastQuote(s: string, i: nat): (r: nat)
    requires i <= |s|
    ensures r <= |s|
  {
    if i < |s| && s[i] == '"' then i + 1 else i
  }

  /** `"?([^"\s]*)"?\s*$`, from the group on. */
  predicate ReadsFrom(body: string, a: nat)
    requires a <= |body|
  {
    SkipBlank(body, PastQuote(body, BareEnd(body, a))) == |body|
  }

  lemma Shifted(head: string, body: string, i: nat)
    requires i <= |body|
    ensures BareEnd(head + body, |head| + i) == |head| + BareEnd(body, i)
    ensures SkipBlank(head + body, |head| + i) == |head| + SkipBlank(body, i)
    ensures PastQuote(head + body, |head| + i) == |head| + PastQuote(body, i)
  {
    hide SkipBlank, BareEnd;
    BareShifted(head, body, i);
    BlankShifted(head, body, i);
    assert i < |body| ==> (head + body)[|head| + i] == body[i];
  }

  lemma {:induction false} BareShifted(head: string, body: string, i: nat)
    requires i <= |body|
    ensures BareEnd(head + body, |head| + i) == |head| + BareEnd(body, i)
    decreases |body| - i
  {
    hide IsBlank;
    assert i < |body| ==> (head + body)[|head| + i] == body[i];
    if i < |body| && !IsBlank(body[i]) && body[i] != '"' {
      BareShifted(head, body, i + 1);
    }
  }

  lemma {:induction false} BlankShifted(head: string, body: string, i: nat)
    requires i <= |body|
    ensures SkipBlank(head + body, |head| + i) == |head| + SkipBlank(body, i)
    decreases |body| - i
  {
    hide IsBlank;
    assert i < |body| ==> (head + body)[|head| + i] == body[i];
    if i < |body| && IsBlank(body[i]) {
      BlankShifted(head, body, i + 1);
    }
  }

  lemma HeadSkipped(head: string, body: string)
    requires ChartHead(head) && ChartBody(body)
    ensures StartsAt(head + body, CHART_WORD, 0) && SkipBlank(head + body, |CHART_WORD|) == |head|
  {
    hide SkipBlank, IsBlank, StartsAt;
    var s := head + body;
    StartsAgree(head, s, |head|, 0, CHART_WORD);
    assert forall k | 0 <= k < |head| :: s[k] == head[k];
    assert body != [] ==> s[|head|] == body[0];
  }

  /** What a version line is read as. */
  function LineReads(s: string): Option<string> {
    if ChartAt(s).Some? then Some(s[ChartAt(s).value.from..ChartAt(s).value.to]) else None
  }

  /** What its body is read as. */
  function BodyReads(body: string): Option<string> {
    var a := PastQuote(body, 0);
    if ReadsFrom(body, a) then Some(body[a..BareEnd(body, a)]) else None
  }

  lemma ChartAtIs(s: string, j: nat)
    requires StartsAt(s, CHART_WORD, 0) && j == SkipBlank(s, |CHART_WORD|)
    ensures var a := PastQuote(s, j); ChartAt(s) == if ReadsFrom(s, a) then Some(Span(a, BareEnd(s, a), |s|)) else None
  {
    hide SkipBlank, BareEnd, IsBlank;
  }

  /** A version line is read from its body. */
  lemma LineOfBody(head: string, body: string)
    requires ChartHead(head) && ChartBody(body)
    ensures LineReads(head + body) == BodyReads(body)
  {
    hide ChartHead, ChartBody, ChartAt, ReadsFrom;
    var a := PastQuote(body, 0);
    SpanOfBody(head, body);
    SliceBehind(head, body, a, BareEnd(body, a));
  }

  lemma SpanOfBody(head: string, body: string)
    requires ChartHead(head) && ChartBody(body)
    ensures var a := PastQuote(body, 0);
            ChartAt(head + body) ==
            if ReadsFrom(body, a) then Some(Span(|head| + a, |head| + BareEnd(body, a), |head| + |body|)) else None
  {
    hide SkipBlank, BareEnd, IsBlank, StartsAt, PastQuote, ChartAt, ChartHead, ChartBody, ReadsFrom;
    HeadSkipped(head, body);
    ChartAtIs(head + body, |head|);
    Shifted(head, body, 0);
    Shifted(head, body, PastQuote(body, 0));
    ReadsBehind(head, body, PastQuote(body, 0));
  }

  lemma ReadsBehind(head: string, body: string, a: nat)
    requires a <= |body|
    ensures ReadsFrom(head + body, |head| + a) <==> ReadsFrom(body, a)
  {
    hide SkipBlank, BareEnd, PastQuote;
    var b := BareEnd(body, a);
    Shifted(head, body, a);
    Shifted(head, body, b);
    Shifted(head, body, PastQuote(body, b));
  }

  lemma SliceBehind(head: string, body: string, a: nat, b: nat)
    requires a <= b <= |body|
    ensures (head + body)[|head| + a..|head| + b] == body[a..b]
  {
  }

  lemma NamedOfBody(head: string, body: string, v: string)
    requires ChartHead(head) && ChartBody(body)
    ensures ChartNamedAt(head + body, v) ==
            if StartsAt(body, v, 0) then Some(Span(|head|, |head| + |v|, |head| + |v|)) else None
  {
    hide SkipBlank, IsBlank;
    HeadSkipped(head, body);
    if |v| <= |body| {
      assert (head + body)[|head|..|head| + |v|] == body[0..|v|];
    }
  }

  /** With a bare text before it, the body is read exactly when the rest is. */
  lemma BarePrefix(v: string, rest: string)
    requires Bare(v) && v != []
    ensures var body := v + rest;
            && ChartBody(body) && PastQuote(body, 0) == 0 && BareEnd(body, 0) == |v| + BareEnd(rest, 0)
            && (ReadsFrom(body, 0) <==> ReadsFrom(rest, 0))
  {
    hide SkipBlank, BareEnd, IsBlank, PastQuote;
    var body := v + rest;
    assert body[0] == v[0];
    FirstNotQuote(body);
    Shifted(v, rest, 0);
    BareOn(v, rest);
    Shifted(v, rest, BareEnd(rest, 0));
    Shifted(v, rest, PastQuote(rest, BareEnd(rest, 0)));
  }

  lemma FirstNotQuote(body: string)
    requires body != [] && body[0] != '"'
    ensures PastQuote(body, 0) == 0
  {
  }

  lemma BareOn(v: string, rest: string)
    requires Bare(v)
    ensures BareEnd(v + rest, 0) == BareEnd(v + rest, |v|)
  {
    hide BareEnd, IsBlank;
    var body := v + rest;
    assert forall k | 0 <= k < |v| :: body[k] == v[k];
    var x, y := BareEnd(body, 0), BareEnd(body, |v|);
    assert x >= |v|;
  }

  /** A version line split at its body. */
  lemma ChartSplit(s: string) returns (head: string, body: string)
    requires StartsAt(s, CHART_WORD, 0)
    ensures s == head + body && ChartHead(head) && ChartBody(body) && |head| == SkipBlank(s, |CHART_WORD|)
  {
    hide SkipBlank, IsBlank, StartsAt;
    HeadReaches(s);
    var j := SkipBlank(s, |CHART_WORD|);
    head, body := s[..j], s[j..];
    StartsAgree(s, head, j, 0, CHART_WORD);
  }

  lemma HeadReaches(head: string)
    requires StartsAt(head, CHART_WORD, 0)
    ensures |CHART_WORD| <= |head|
  {
  }

  /** An empty pair of quotes. */
  predicate Hollow(s: string) {
    StartsAt(s, CHART_WORD, 0) && StartsAt(s, "\"\"", SkipBlank(s, |CHART_WORD|))
  }

  lemma HollowOfBody(head: string, body: string)
    requires ChartHead(head) && ChartBody(body)
    ensures Hollow(head + body) <==> HollowBody(body)
  {
    hide SkipBlank, IsBlank;
    HeadSkipped(head, body);
    var s, n := head + body, |head|;
    if |body| >= 2 {
      assert s[n..n + 2] == [body[0], body[1]];
    }
  }

  /** A body that reads as nothing, without the pair of quotes, reads with anything bare before it. */
  lemma EmptyBody(body: string)
    requires ChartBody(body) && BareEnd(body, PastQuote(body, 0)) == PastQuote(body, 0)
    ensures ReadsFrom(body, PastQuote(body, 0)) ==> (ReadsFrom(body, 0) <==> !HollowBody(body))
    ensures BareEnd(body, 0) == 0
  {
    hide SkipBlank;
  }

  /** Where the body is not read, the rest behind a bare prefix is not read either. */
  lemma UnreadRest(body: string)
    requires ChartBody(body)
    ensures ReadsFrom(body, 0) ==> ReadsFrom(body, PastQuote(body, 0))
  {
    hide SkipBlank;
  }

  /** What a version line reads as with the named version replaced. */
  lemma ChartRefilled(s: string, was: string, now: string)
    requires ChartNamedAt(s, was).Some? && Bare(was) && Bare(now) && now != []
    ensures var m := ChartNamedAt(s, was).value;
            var t := s[..m.from] + now + s[m.to..];
            && StartsAt(t, CHART_WORD, 0) && ChartNamedAt(t, now).Some?
            && (LineReads(s).None? ==> LineReads(t).None?)
            && (LineReads(s) == Some(was) ==> LineReads(t) == if Hollow(s) then None else Some(now))
  {
    hide SkipBlank, BareEnd, IsBlank, ChartAt, ChartNamedAt, LineReads, BodyReads, Hollow, ChartHead, ChartBody,
         PastQuote, Bare, StartsAt;
    NamedStarts(s, was);
    var head, body := ChartSplit(s);
    NamedOfBody(head, body, was);
    BodyTaken(body, was);
    var rest, m := body[|was|..], ChartNamedAt(s, was).value;
    assert s[..m.from] == head && s[m.to..] == rest;
    assert s[..m.from] + now + s[m.to..] == head + (now + rest);
    BarePrefix(now, rest);
    StartsHere(now + rest, now, 0);
    HeadSkipped(head, now + rest);
    NamedOfBody(head, now + rest, now);
    LineOfBody(head, body);
    LineOfBody(head, now + rest);
    HollowOfBody(head, body);
    RefilledBody(body, was, now);
  }

  lemma NamedStarts(s: string, was: string)
    requires ChartNamedAt(s, was).Some?
    ensures StartsAt(s, CHART_WORD, 0)
  {
  }

  lemma BodyTaken(body: string, was: string)
    requires StartsAt(body, was, 0)
    ensures |was| <= |body| && body == was + body[|was|..]
  {
    assert body[..|was|] == body[0..|was|];
  }

  lemma StartsHere(s: string, v: string, j: nat)
    requires j + |v| <= |s| && s[j..j + |v|] == v
    ensures StartsAt(s, v, j)
  {
  }

  ghost predicate HollowBody(body: string) {
    |body| >= 2 && body[0] == '"' && body[1] == '"'
  }

  /** The body before and after: read or not, and as what. */
  lemma RefilledBody(body: string, was: string, now: string)
    requires ChartBody(body) && StartsAt(body, was, 0) && |was| <= |body| && Bare(was) && Bare(now) && now != []
    ensures var t := now + body[|was|..];
            && (BodyReads(body).None? ==> BodyReads(t).None?)
            && (BodyReads(body) == Some(was) ==> BodyReads(t) == if HollowBody(body) then None else Some(now))
  {
    hide SkipBlank, BareEnd, IsBlank, ReadsFrom, ChartBody, PastQuote, Bare, BodyReads, HollowBody, StartsAt;
    BodyTaken(body, was);
    PutBefore(now, body[|was|..]);
    if was == [] {
      assert body[|was|..] == body;
      EmptyRead(body);
    } else {
      PutBefore(was, body[|was|..]);
      NotHollow(body, was);
    }
  }

  /** A bare text put before a rest is read with what the rest starts with, exactly when the rest is read. */
  lemma PutBefore(v: string, rest: string)
    requires Bare(v) && v != []
    ensures BodyReads(v + rest) == if ReadsFrom(rest, 0) then Some(v + rest[..BareEnd(rest, 0)]) else None
    ensures BareEnd(rest, 0) == 0 <==> v + rest[..BareEnd(rest, 0)] == v
  {
    hide SkipBlank, BareEnd, IsBlank, PastQuote, Bare;
    BarePrefix(v, rest);
    assert (v + rest)[0..|v| + BareEnd(rest, 0)] == v + rest[..BareEnd(rest, 0)];
  }

  lemma EmptyRead(body: string)
    requires ChartBody(body)
    ensures BodyReads(body).None? ==> !ReadsFrom(body, 0)
    ensures BodyReads(body) == Some([]) ==> (ReadsFrom(body, 0) <==> !HollowBody(body)) && BareEnd(body, 0) == 0
  {
    hide SkipBlank, BareEnd, IsBlank, ReadsFrom, ChartBody, PastQuote;
    UnreadRest(body);
    if BodyReads(body) == Some([]) {
      EmptyBody(body);
    }
  }

  lemma NotHollow(body: string, was: string)
    requires StartsAt(body, was, 0) && was != [] && Bare(was)
    ensures !HollowBody(body)
  {
    CharAt(body, was, 0, 0);
  }

  /** A closing quote, maybe, and blanks. */
  ghost predicate ChartTail(tail: string) {
    forall k | (if tail != [] && tail[0] == '"' then 1 else 0) <= k < |tail| :: IsBlank(tail[k])
  }

  /** The version that was read, where it is spelled without an opening quote. */
  lemma ChartNamedIsRead(s: string, was: string)
    requires ChartAt(s).Some? && s[ChartAt(s).value.from..ChartAt(s).value.to] == was && was != []
    requires ChartNamedAt(s, was).Some?
    ensures var m, r := ChartNamedAt(s, was).value, ChartAt(s).value;
            && m.from == r.from && m.to == r.to && ChartTail(s[m.to..])
            && StartsAt(s[..m.from], CHART_WORD, 0)
            && forall k | |CHART_WORD| <= k < m.from :: IsBlank(s[k])
  {
    hide SkipBlank, BareEnd;
    var m, r := ChartNamedAt(s, was).value, ChartAt(s).value;
    CharAt(s, was, m.from, 0);
    assert s[r.from] == s[r.from..r.to][0];
    assert s[m.from] != '"';
    StartsAgree(s, s[..m.from], m.from, 0, CHART_WORD);
  }

  // --- the pins of the root manifest ----------------------------------------------------------------

  /** `workspace_dep_version` */
  function ReadPin(f: File, key: string): Option<string> {
    Found(Pin(key), f)
  }

  /** A line `^key .* version = "now"`. */
  predicate PinShows(s: string, key: string, now: string) {
    StartsAt(s, key + " ", 0) && exists q | |key| < q <= |s| :: StartsAt(s, " " + PIN_WORD + now + "\"", q)
  }

  predicate AnyPinShows(f: File, key: string, now: string) {
    exists i | 0 <= i < |f| :: PinShows(f[i], key, now)
  }

  function WithPin(f: File, key: string, was: string, now: string): File {
    match Search(PinNamed(key, was), f)
    case None => f
    case Some(h) => Refill(f, h, now)
  }

  /** `write_workspace_dep_version` */
  function WritePin(f: File, key: string, was: string, now: string): Option<File> {
    var g := WithPin(f, key, was, now);
    if AnyPinShows(g, key, now) then Some(g) else None
  }

  ghost predicate PinText(s: string, key: string, now: string, middle: string, rest: string) {
    s == key + " " + middle + (" version = \"" + now + "\"") + rest
  }

  lemma PinShowsIff(s: string, key: string, now: string)
    ensures PinShows(s, key, now) <==> exists middle, rest :: PinText(s, key, now, middle, rest)
  {
    var word := " " + PIN_WORD + now + "\"";
    assert word == " version = \"" + now + "\"";
    if PinShows(s, key, now) {
      var q :| |key| < q <= |s| && StartsAt(s, word, q);
      assert s == s[0..|key| + 1] + s[|key| + 1..q] + s[q..q + |word|] + s[q + |word|..];
      assert PinText(s, key, now, s[|key| + 1..q], s[q + |word|..]);
    }
    forall middle, rest | PinText(s, key, now, middle, rest) ensures PinShows(s, key, now) {
      var q := |key| + 1 + |middle|;
      assert s[0..|key| + 1] == key + " ";
      assert s[q..q + |word|] == word;
      assert StartsAt(s, word, q);
    }
  }

  /** A pin's rewrite takes exactly when some line of the result opens with the key and sets the new version. */
  lemma PinTakesIff(f: File, key: string, was: string, now: string)
    ensures WritePin(f, key, was, now).Some? <==>
            exists s, middle, rest :: s in WithPin(f, key, was, now) && PinText(s, key, now, middle, rest)
  {
    hide PinShows, PinText, WithPin;
    forall s ensures PinShows(s, key, now) <==> exists middle, rest :: PinText(s, key, now, middle, rest) {
      PinShowsIff(s, key, now);
    }
    var g := WithPin(f, key, was, now);
    if s, middle, rest :| s in g && PinText(s, key, now, middle, rest) {
      var i :| 0 <= i < |g| && g[i] == s;
      assert PinShows(g[i], key, now);
    }
  }

  ghost predicate Solid(key: string) {
    key != [] && forall i | 0 <= i < |key| :: key[i] != ' '
  }

  ghost predicate PinLine(s: string, key: string) {
    StartsAt(s, key + " ", 0)
  }

  /** `key = { version = "...`, with the quote closed. */
  ghost predicate PlainPin(s: string, key: string) {
    StartsAt(s, PinHead(key), 0) && NextQuote(s, |PinHead(key)|).Some?
  }

  /** The pin is read from a line that spells it plainly, which is the line a rewrite finds. */
  ghost predicate PinSits(f: File, key: string) {
    var read := ReadPin(f, key);
    read.Some? &&
    var named := Search(PinNamed(key, read.value), f);
    named.Some? && named.value.line == Search(Pin(key), f).value.line
  }

  lemma HeadIsLine(s: string, key: string)
    requires StartsAt(s, PinHead(key), 0)
    ensures PinLine(s, key)
  {
    assert PinHead(key)[..|key| + 1] == key + " ";
    assert s[0..|key| + 1] == s[0..|PinHead(key)|][..|key| + 1];
  }

  /** No line opens with two keys. */
  lemma OneKey(s: string, key: string, other: string)
    requires Solid(key) && Solid(other) && PinLine(s, key) && PinLine(s, other)
    ensures key == other
  {
    forall k | 0 <= k <= |key| ensures s[k] == (key + " ")[k] {
      CharAt(s, key + " ", 0, k);
    }
    forall k | 0 <= k <= |other| ensures s[k] == (other + " ")[k] {
      CharAt(s, other + " ", 0, k);
    }
    assert s[|key|] == ' ' && s[|other|] == ' ';
    assert |key| == |other|;
    assert forall k | 0 <= k < |key| :: key[k] == s[k] && other[k] == s[k];
  }

  /** The pin of a plain line is the text between its quotes. */
  lemma PlainPinAt(s: string, key: string)
    requires PlainPin(s, key)
    ensures var b := NextQuote(s, |PinHead(key)|).value;
            MatchAt(Pin(key), s, 0) == Some(Span(|PinHead(key)|, b, b + 1))
  {
    hide NextQuote;
    HeadIsLine(s, key);
    var n, head := |key|, PinHead(key);
    assert head == (key + " = { ") + PIN_WORD;
    assert s[n + 5..n + 5 + |PIN_WORD|] == s[0..|head|][n + 5..] == PIN_WORD;
    var m := PinWordFrom(s, n + 5);
    NoWordHere(s, key, n + 4);
    NoWordHere(s, key, n + 3);
    NoWordHere(s, key, n + 2);
    NoWordHere(s, key, n + 1);
    assert PinWordFrom(s, n + 1) == m;
  }

  lemma NoWordHere(s: string, key: string, k: nat)
    requires StartsAt(s, PinHead(key), 0) && |key| < k < |key| + 5
    ensures k < |s| && PinWordFrom(s, k) == PinWordFrom(s, k + 1)
  {
    hide NextQuote, PinWordFrom;
    CharAt(s, PinHead(key), 0, k);
    assert s[k] == " = { "[k - |key|];
    assert s[k] != 'v';
    if StartsAt(s, PIN_WORD, k) {
      CharAt(s, PIN_WORD, k, 0);
    }
    PinWordStep(s, k);
  }

  lemma PinWordStep(s: string, k: nat)
    requires k < |s| && !StartsAt(s, PIN_WORD, k)
    ensures PinWordFrom(s, k) == PinWordFrom(s, k + 1)
  {
  }

  lemma NoPinPlace(s: string, key: string)
    requires !PinLine(s, key)
    ensures FirstPlace(Pin(key), s, 0).None?
  {
  }

  lemma NamedLine(s: string, key: string, was: string)
    ensures StartsAt(s, PinHead(key) + was + "\"", 0) ==> PinLine(s, key)
  {
    if StartsAt(s, PinHead(key) + was + "\"", 0) {
      assert s[0..|PinHead(key)|] == s[0..|PinHead(key)| + |was| + 1][..|PinHead(key)|];
      HeadIsLine(s, key);
    }
  }

  lemma NoNamedPlace(s: string, key: string, was: string)
    requires !PinLine(s, key)
    ensures FirstPlace(PinNamed(key, was), s, 0).None?
  {
    hide PinHead;
    NamedLine(s, key, was);
  }

  /** A line that names a pin is plain, and is read as that pin. */
  lemma NamedPlain(s: string, key: string, was: string)
    requires '"' !in was && StartsAt(s, PinHead(key) + was + "\"", 0)
    ensures var n := |PinHead(key)|;
            && PlainPin(s, key) && NextQuote(s, n) == Some(n + |was|) && s[n..n + |was|] == was
            && MatchAt(Pin(key), s, 0) == Some(Span(n, n + |was|, n + |was| + 1))
  {
    hide NextQuote, PinHead, MatchAt;
    var head := PinHead(key);
    var n, e := |head|, |head| + |was|;
    var whole := head + was + "\"";
    assert s[0..n] == s[0..e + 1][..n] == head;
    assert s[n..e] == s[0..e + 1][n..e] == was;
    CharAt(s, whole, 0, e);
    assert forall k | n <= k < e :: s[k] == s[n..e][k - n] && s[k] in was;
    QuoteIs(s, n, e);
    PlainPinAt(s, key);
  }

  lemma {:induction false} PinWordUnquoted(s: string, q: nat)
    requires q <= |s| && PinWordFrom(s, q).Some?
    ensures var m := PinWordFrom(s, q).value; '"' !in s[m.from..m.to]
    decreases |s| - q
  {
    hide NextQuote;
    if !(StartsAt(s, PIN_WORD, q) && NextQuote(s, q + |PIN_WORD|).Some?) {
      PinWordUnquoted(s, q + 1);
    }
  }

  lemma PinUnquoted(f: File, key: string)
    ensures ReadPin(f, key).Some? ==> '"' !in ReadPin(f, key).value
  {
    hide PinWordFrom, FirstLine;
    var h := Search(Pin(key), f);
    if h.Some? {
      PinWordUnquoted(f[h.value.line], |key| + 1);
    }
  }

  lemma {:induction false} PinWordReaches(s: string, q: nat, k: nat)
    requires q <= k <= |s| && StartsAt(s, PIN_WORD, k) && NextQuote(s, k + |PIN_WORD|).Some?
    ensures PinWordFrom(s, q).Some?
    decreases k - q
  {
    hide NextQuote;
    if q < k {
      PinWordReaches(s, q + 1, k);
    }
  }

  lemma ShownHolds(now: string)
    ensures (" " + PIN_WORD + now + "\"")[1..1 + |PIN_WORD|] == PIN_WORD
  {
    Sliced(" ", PIN_WORD, now + "\"");
    assert " " + PIN_WORD + now + "\"" == " " + PIN_WORD + (now + "\"");
  }

  /** What a rewrite is recognised by can be read. */
  lemma ShownIsPinned(s: string, key: string, now: string)
    requires PinShows(s, key, now)
    ensures MatchAt(Pin(key), s, 0).Some?
  {
    hide NextQuote, PinWordFrom;
    var shown := " " + PIN_WORD + now + "\"";
    var q :| |key| < q <= |s| && StartsAt(s, shown, q);
    var k := q + 1;
    SubSlice(s, q, q + |shown|, 1, 1 + |PIN_WORD|);
    ShownHolds(now);
    assert s[k..k + |PIN_WORD|] == PIN_WORD;
    CharAt(s, shown, q, |shown| - 1);
    assert s[q + |shown| - 1] == '"' && k + |PIN_WORD| <= q + |shown| - 1;
    PinWordReaches(s, |key| + 1, k);
  }

  lemma HeadRefilled(s: string, head: string, now: string)
    requires StartsAt(s, head, 0) && NextQuote(s, |head|).Some? && '"' !in now
    ensures var n, b := |head|, NextQuote(s, |head|).value;
            var t := s[..n] + now + s[b..];
            StartsAt(t, head + now + "\"", 0) && StartsAt(t, head, 0) && NextQuote(t, n) == Some(n + |now|) &&
              t[n..n + |now|] == now
  {
    hide NextQuote, StartsAt;
    var b := NextQuote(s, |head|).value;
    HeadTaken(s, head);
    QuoteAfter(head, now, s[b..]);
    Sliced(head, now, s[b..]);
    QuotedHead(head, now, s[b..]);
  }

  lemma HeadTaken(s: string, head: string)
    requires StartsAt(s, head, 0)
    ensures |head| <= |s| && s[..|head|] == head
  {
    assert s[..|head|] == s[0..|head|];
  }

  lemma QuotedHead(head: string, now: string, rest: string)
    requires rest != [] && rest[0] == '"'
    ensures var t := head + now + rest; StartsAt(t, head + now + "\"", 0) && StartsAt(t, head, 0)
  {
    hide StartsAt;
    assert rest == "\"" + rest[1..];
    assert head + now + rest == head + (now + rest) && head + now + rest == (head + now + "\"") + rest[1..];
    StartsConcat(head, now + rest);
    StartsConcat(head + now + "\"", rest[1..]);
  }

  lemma QuoteAfter(head: string, now: string, rest: string)
    requires (forall i | 0 <= i < |now| :: now[i] != '"') && rest != [] && rest[0] == '"'
    ensures NextQuote(head + now + rest, |head|) == Some(|head| + |now|)
  {
    hide NextQuote;
    var t, n, e := head + now + rest, |head|, |head| + |now|;
    assert t[e] == rest[0];
    QuoteIs(t, n, e);
  }

  lemma QuoteIs(t: string, n: nat, e: nat)
    requires n <= e < |t| && t[e] == '"' && forall k | n <= k < e :: t[k] != '"'
    ensures NextQuote(t, n) == Some(e)
  {
    hide NextQuote;
  }

  lemma StartsConcat(a: string, b: string)
    ensures StartsAt(a + b, a, 0)
  {
    assert (a + b)[0..|a|] == a;
  }

  lemma HeadShows(t: string, key: string, now: string)
    requires StartsAt(t, PinHead(key) + now + "\"", 0)
    ensures PinShows(t, key, now)
  {
    var whole, q := PinHead(key) + now + "\"", |key| + 4;
    var shown := " " + PIN_WORD + now + "\"";
    assert whole == (key + " = {") + shown;
    assert t[q..q + |shown|] == t[0..|whole|][q..] == shown;
    assert t[0..|key| + 1] == t[0..|whole|][..|key| + 1] == key + " ";
    assert StartsAt(t, shown, q);
  }

  lemma FirstPinPlace(s: string, key: string)
    ensures FirstPlace(Pin(key), s, 0).Some? <==> MatchAt(Pin(key), s, 0).Some?
    ensures FirstPlace(Pin(key), s, 0).Some? ==> FirstPlace(Pin(key), s, 0) == Some(0) && PinLine(s, key)
  {
    hide PinWordFrom;
  }

  lemma FirstNamedPlace(s: string, key: string, was: string)
    ensures FirstPlace(PinNamed(key, was), s, 0).Some? ==>
              FirstPlace(PinNamed(key, was), s, 0) == Some(0) && StartsAt(s, PinHead(key) + was + "\"", 0)
  {
    hide PinHead;
  }

  /** A rewrite that took had a pin to read. */
  lemma TookIsRead(f: File, key: string, now: string)
    requires WritePin(f, key, PinOf(f, key), now).Some?
    ensures ReadPin(f, key).Some?
  {
    hide PinShows, FirstPlace, MatchAt, PinHead;
    var h := Search(PinNamed(key, PinOf(f, key)), f);
    var i: nat;
    if h.Some? {
      i := h.value.line;
      PinUnquoted(f, key);
      FirstNamedPlace(f[i], key, PinOf(f, key));
      NamedPlain(f[i], key, PinOf(f, key));
    } else {
      i :| 0 <= i < |f| && PinShows(f[i], key, now);
      ShownIsPinned(f[i], key, now);
    }
    FirstPinPlace(f[i], key);
    assert FirstLine(Pin(key), f, 0).Some?;
  }

  /** What the checker takes for the present pin. */
  function PinOf(f: File, key: string): string {
    if ReadPin(f, key).Some? then ReadPin(f, key).value else []
  }

  /** The named line is never before the one read. */
  lemma NamedNotBefore(f: File, key: string)
    requires ReadPin(f, key).Some? && Search(PinNamed(key, PinOf(f, key)), f).Some?
    ensures var i, j := Search(Pin(key), f).value.line, Search(PinNamed(key, PinOf(f, key)), f).value.line;
            i <= j && StartsAt(f[j], PinHead(key) + PinOf(f, key) + "\"", 0) && PinLine(f[j], key)
    ensures Search(PinNamed(key, PinOf(f, key)), f).value.span.from == |PinHead(key)|
    ensures Search(PinNamed(key, PinOf(f, key)), f).value.span.to == |PinHead(key)| + |PinOf(f, key)|
  {
    hide FirstPlace, PinHead, PinWordFrom;
    var j := Search(PinNamed(key, PinOf(f, key)), f).value.line;
    PinUnquoted(f, key);
    FirstNamedPlace(f[j], key, PinOf(f, key));
    NamedPlain(f[j], key, PinOf(f, key));
    FirstPinPlace(f[j], key);
    SearchIsFirst(Pin(key), f);
  }

  /** What a rewrite of a pin leaves of the file: one plain line is new, if any. */
  lemma PinLineNew(f: File, key: string, now: string)
    requires ReadPin(f, key).Some? && '"' !in now
    ensures var named, g := Search(PinNamed(key, PinOf(f, key)), f), WithPin(f, key, PinOf(f, key), now);
            && |g| == |f| && (named.None? ==> g == f)
            && (named.Some? ==>
                  && (forall k | 0 <= k < |f| && k != named.value.line :: g[k] == f[k])
                  && StartsAt(g[named.value.line], PinHead(key) + now + "\"", 0))
  {
    hide FirstPlace, PinHead, NextQuote, Search;
    var named := Search(PinNamed(key, PinOf(f, key)), f);
    if named.Some? {
      var j := named.value.line;
      NamedNotBefore(f, key);
      PinUnquoted(f, key);
      NamedPlain(f[j], key, PinOf(f, key));
      HeadRefilled(f[j], PinHead(key), now);
    }
  }

  /** The first line that can be read is the one read. */
  lemma PinReadHere(f: File, key: string, i: nat)
    requires i < |f| && MatchAt(Pin(key), f[i], 0).Some? && forall k | 0 <= k < i :: MatchAt(Pin(key), f[k], 0).None?
    ensures var m := MatchAt(Pin(key), f[i], 0).value; ReadPin(f, key) == Some(f[i][m.from..m.to])
  {
    hide MatchAt, FirstPlace;
    forall k | 0 <= k < i ensures FirstPlace(Pin(key), f[k], 0).None? {
      FirstPinPlace(f[k], key);
    }
    SearchIs(Pin(key), f, i, 0);
  }

  lemma NoPinAbove(f: File, key: string)
    requires Search(Pin(key), f).Some?
    ensures var h := Search(Pin(key), f).value;
            && h.place == 0 && MatchAt(Pin(key), f[h.line], 0) == Some(h.span)
            && forall k | 0 <= k < h.line :: MatchAt(Pin(key), f[k], 0).None?
  {
    hide MatchAt, FirstPlace;
    SearchIsFirst(Pin(key), f);
    var h := Search(Pin(key), f).value;
    FirstPinPlace(f[h.line], key);
    forall k | 0 <= k < h.line ensures MatchAt(Pin(key), f[k], 0).None? {
      FirstPinPlace(f[k], key);
    }
  }

  /** A pin that was rewritten reads back exactly when it already said so, or was read from a plain line. */
  lemma PinReadsBackIff(f: File, key: string, now: string)
    requires '"' !in now && WritePin(f, key, PinOf(f, key), now).Some?
    ensures ReadPin(WritePin(f, key, PinOf(f, key), now).value, key) == Some(now) <==>
            ReadPin(f, key) == Some(now) || PinSits(f, key)
  {
    hide FirstPlace, PinHead, NextQuote, MatchAt, AnyPinShows, WithPin, FirstLine;
    TookIsRead(f, key, now);
    PinLineNew(f, key, now);
    NoPinAbove(f, key);
    var i, g, named := Search(Pin(key), f).value.line, WithPin(f, key, PinOf(f, key), now),
        Search(PinNamed(key, PinOf(f, key)), f);
    if named.Some? && named.value.line == i {
      NamedPlain(g[i], key, now);
      PinReadHere(g, key, i);
    } else {
      if named.Some? {
        NamedNotBefore(f, key);
      }
      assert forall k | 0 <= k <= i :: g[k] == f[k];
      PinReadHere(g, key, i);
    }
  }

  ghost predicate OtherPinKept(f: File, g: File, key: string) {
    ReadPin(g, key) == ReadPin(f, key) && (PinSits(f, key) <==> PinSits(g, key))
  }

  /** And it moves no other key's pin. */
  lemma OtherPins(f: File, key: string, now: string, other: string)
    requires Solid(key) && Solid(other) && key != other && '"' !in now && WritePin(f, key, PinOf(f, key), now).Some?
    ensures OtherPinKept(f, WritePin(f, key, PinOf(f, key), now).value, other)
  {
    hide FirstPlace, PinHead, NextQuote, MatchAt, PinShows, PinLine, Search;
    TookIsRead(f, key, now);
    PinLineNew(f, key, now);
    var named, g := Search(PinNamed(key, PinOf(f, key)), f), WithPin(f, key, PinOf(f, key), now);
    if named.Some? {
      var j := named.value.line;
      NamedNotBefore(f, key);
      NamedLine(g[j], key, now);
      OtherLines(f, g, j, key, other);
    }
  }

  lemma OtherLines(f: File, g: File, i: nat, key: string, other: string)
    requires Solid(key) && Solid(other) && key != other && i < |f| && |g| == |f|
    requires PinLine(f[i], key) && PinLine(g[i], key) && forall k | 0 <= k < |f| && k != i :: g[k] == f[k]
    ensures OtherPinKept(f, g, other)
  {
    hide FirstPlace, PinLine, MatchAt, PinHead;
    assert !PinLine(f[i], other) && !PinLine(g[i], other) by {
      if PinLine(f[i], other) {
        OneKey(f[i], key, other);
      }
      if PinLine(g[i], other) {
        OneKey(g[i], key, other);
      }
    }
    NoPinPlace(f[i], other);
    NoPinPlace(g[i], other);
    SameSearch(Pin(other), f, g, i);
    NoNamedPlace(f[i], other, PinOf(f, other));
    NoNamedPlace(g[i], other, PinOf(f, other));
    SameSearch(PinNamed(other, PinOf(f, other)), f, g, i);
  }

  /** A line that matches before and after, or neither, does not move the search elsewhere. */
  lemma SameSearch(pat: Pattern, f: File, g: File, i: nat)
    requires i < |f| && |g| == |f| && forall k | 0 <= k < |f| && k != i :: g[k] == f[k]
    requires FirstPlace(pat, f[i], 0).None? && FirstPlace(pat, g[i], 0).None?
    ensures Search(pat, g) == Search(pat, f)
    ensures Search(pat, f).Some? ==> Search(pat, f).value.line != i
  {
    hide FirstPlace, MatchAt;
    var a, b := FirstLine(pat, f, 0), FirstLine(pat, g, 0);
    assert forall k | 0 <= k < |f| :: FirstPlace(pat, f[k], 0).Some? <==> FirstPlace(pat, g[k], 0).Some?;
    assert a == b;
  }

  // --- a pin that does not read back ----------------------------------------------------------------

  /** A pin behind another field. */
  function Behind(key: string, was: string): string {
    key + FIELD + PIN_WORD + was + "\" }"
  }

  lemma {:induction false} NoWordUntil(s: string, q: nat, e: nat)
    requires q <= e <= |s| && forall k | q <= k < e :: s[k] != 'v'
    ensures PinWordFrom(s, q) == PinWordFrom(s, e)
    decreases e - q
  {
    hide NextQuote;
    if q < e {
      if StartsAt(s, PIN_WORD, q) {
        CharAt(s, PIN_WORD, q, 0);
      }
      PinWordStep(s, q);
      NoWordUntil(s, q + 1, e);
    }
  }

  const FIELD := " = { path = \"p\", "

  lemma FieldShape()
    ensures FIELD[0] == ' ' && FIELD[5] == 'p' && |FIELD| == 17 && forall k | 0 <= k < |FIELD| :: FIELD[k] != 'v'
  {
  }

  lemma Pieces(a: string, b: string, c: string, d: string, e: string)
    ensures var s := a + b + c + d + e;
            && s[..|a|] == a && s[|a|..|a| + |b|] == b && s[|a| + |b|..|a| + |b| + |c|] == c
            && s[|a| + |b| + |c|..|a| + |b| + |c| + |d|] == d && s[|a| + |b| + |c| + |d|..] == e
  {
  }

  /** Where the pieces of the line stand. */
  lemma BehindShape(key: string, was: string)
    ensures var s, n := Behind(key, was), |key|;
            var a := n + 17 + |PIN_WORD|;
            && |s| == a + |was| + 3 && s[..n] == key && s[n..n + 17] == FIELD && s[n + 17..a] == PIN_WORD
            && s[a..a + |was|] == was && s[a + |was|] == '"'
  {
    FieldShape();
    Pieces(key, FIELD, PIN_WORD, was, "\" }");
    var s := Behind(key, was);
    assert s == key + FIELD + PIN_WORD + was + "\" }";
    assert s[|s| - 3..] == "\" }";
  }

  lemma BehindReads(key: string, was: string)
    requires '"' !in was
    ensures var s := Behind(key, was);
            var m := MatchAt(Pin(key), s, 0);
            m.Some? && s[m.value.from..m.value.to] == was
  {
    hide NextQuote, PinWordFrom, Behind;
    var s, n := Behind(key, was), |key|;
    var e := n + 17;
    var a := e + |PIN_WORD|;
    BehindShape(key, was);
    FieldShape();
    assert s[n] == s[n..e][0];
    assert s[0..n + 1] == s[..n] + [s[n]] == key + " ";
    forall k | n + 1 <= k < e ensures s[k] != 'v' {
      assert s[k] == s[n..e][k - n];
    }
    NoWordUntil(s, n + 1, e);
    forall k | a <= k < a + |was| ensures s[k] != '"' {
      assert s[k] == s[a..a + |was|][k - a];
    }
    QuoteIs(s, a, a + |was|);
    WordHere(s, e);
  }

  lemma BehindUnnamed(key: string, was: string, v: string)
    ensures !StartsAt(Behind(key, was), PinHead(key) + v + "\"", 0)
  {
    hide Behind;
    var s, n := Behind(key, was), |key|;
    BehindShape(key, was);
    FieldShape();
    assert s[n + 5] == s[n..n + 17][5];
    if StartsAt(s, PinHead(key) + v + "\"", 0) {
      CharAt(s, PinHead(key) + v + "\"", 0, n + 5);
    }
  }

  lemma WordHere(s: string, q: nat)
    requires q <= |s| && StartsAt(s, PIN_WORD, q) && NextQuote(s, q + |PIN_WORD|).Some?
    ensures var b := NextQuote(s, q + |PIN_WORD|).value; PinWordFrom(s, q) == Some(Span(q + |PIN_WORD|, b, b + 1))
  {
  }

  /** Two lines for one key, the first of them not plain: the second is rewritten, and the first read again. */
  lemma TwoPins(key: string, was: string, now: string)
    requires '"' !in was && '"' !in now && was != now
    ensures var f, g := [Behind(key, was), PinHead(key) + was + "\""], [Behind(key, was), PinHead(key) + now + "\""];
            && ReadPin(f, key) == Some(was) && WritePin(f, key, was, now) == Some(g) && ReadPin(g, key) == Some(was)
  {
    hide FirstPlace, PinHead, NextQuote, MatchAt, PinShows, PinLine, Behind;
    var first := Behind(key, was);
    var f, g := [first, PinHead(key) + was + "\""], [first, PinHead(key) + now + "\""];
    BehindReads(key, was);
    BehindUnnamed(key, was, was);
    SearchIs(Pin(key), f, 0, 0);
    SearchIs(Pin(key), g, 0, 0);
    FirstNamedPlace(first, key, was);
    StartsItself(f[1]);
    StartsItself(g[1]);
    NamedHere(f[1], key, was);
    SearchIs(PinNamed(key, was), f, 1, 0);
    assert WithPin(f, key, was, now) == g by {
      assert f[1][..|PinHead(key)|] + now + f[1][|PinHead(key)| + |was|..] == g[1];
    }
    HeadShows(g[1], key, now);
    assert PinShows(g[1], key, now);
  }

  lemma StartsItself(s: string)
    ensures StartsAt(s, s, 0)
  {
    assert s[0..|s|] == s;
  }

  lemma NamedHere(s: string, key: string, was: string)
    requires StartsAt(s, PinHead(key) + was + "\"", 0)
    ensures var n := |PinHead(key)|; MatchAt(PinNamed(key, was), s, 0) == Some(Span(n, n + |was|, n + |was| + 1))
  {
    hide PinHead;
  }
}
