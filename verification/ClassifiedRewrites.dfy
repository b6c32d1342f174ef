/** Which of the checker's rewrites the version-only classifier takes for version bumps. */
module ClassifiedRewrites {
  import opened Text
  import opened VersionLines
  import opened VersionOnly
  import opened Carriers
  import opened Rewrites
  import opened VersionFiles

  /** The kind the classifier reads a file as. */
  function KindOf(k: Spelling): Kind {
    match k
    case Dunder => Python
    case HelmChart => Helm
    case ReleaseTag => Workflow
    case _ => Toml
  }

  lemma VersionIsWritable(v: string)
    requires IsVersion(v)
    ensures Writable(v)
  {
  }

  /** A line whose version span is known passes against another exactly when that one fits around it. */
  lemma PassesFrom(kind: Kind, s: string, t: string, keys: set<string>, a: nat, now: string, tail: string)
    requires VersionSpan(kind, t, keys) == Some((a, a + |now|)) && t[a + |now|..] == tail
    ensures LinePasses(kind, s, t, keys) <==> s == t || Fits(s, t[..a], tail)
  {
    hide VersionSpan, LinePasses, Fits;
    LinePassesEquivalence(kind, s, t, s, keys);
    LinePassesAt(kind, t, s, keys);
  }

  lemma LinePassesAt(kind: Kind, t: string, s: string, keys: set<string>)
    requires VersionSpan(kind, t, keys).Some?
    ensures var (a, b) := VersionSpan(kind, t, keys).value;
            LinePasses(kind, t, s, keys) <==> s == t || Fits(s, t[..a], t[b..])
  {
    hide VersionSpan, Fits;
  }

  // --- assignments ------------------------------------------------------------------------------

  ghost predicate AssignKind(kind: Kind, word: string) {
    (kind == Toml && word == "version") || (kind == Python && word == "__version__")
  }

  lemma LeadingPrefix(kind: Kind, head: string, word: string, rest: string)
    requires AssignKind(kind, word) && forall k | 0 <= k < |head| :: IsBlank(head[k])
    ensures LinePrefix(kind, head + word + " = \"" + rest) == Some(|head| + |word| + 4)
  {
    hide SkipBlank, Assigned;
    var t := head + word + " = \"" + rest;
    PlainQuote(head, word, rest);
    assert t[|head|] == word[0];
    assert forall k | 0 <= k < |head| :: t[k] == head[k];
    assert SkipBlank(t, 0) == |head|;
  }

  lemma SpelledSpan(kind: Kind, head: string, word: string, now: string, tail: string, keys: set<string>)
    requires AssignKind(kind, word) && IsVersion(now) && forall k | 0 <= k < |head| :: IsBlank(head[k])
    ensures var a := |head| + |word| + 4;
            VersionSpan(kind, head + Spelled(word, now) + tail, keys) == Some((a, a + |now|))
  {
    hide LinePrefix, VersionAt, IsVersion, IsBlank;
    var before, after := head + word + " = \"", "\"" + tail;
    var t := before + now + after;
    assert head + Spelled(word, now) + tail == t == before + (now + after);
    LeadingPrefix(kind, head, word, now + after);
    VersionAtPut(before, now, after);
    assert t[|before| + |now|..] == after;
  }

  lemma PlainFrom(s: string, p: nat, word: string)
    requires p <= |s| && AssignAt(s, p, word).Some? && StartsAt(s, word + " = \"", p)
    ensures AssignAt(s, p, word).value.from == p + |word| + 4
  {
    hide SkipBlank, NextQuote;
    var n := |word|;
    forall k | n <= k < n + 4 ensures s[p + k] == (word + " = \"")[k] {
      CharAt(s, word + " = \"", p, k);
    }
    assert s[p + n] == ' ' && s[p + n + 1] == '=' && s[p + n + 2] == ' ' && s[p + n + 3] == '"';
    assert SkipBlank(s, p + n) == p + n + 1 && SkipBlank(s, p + n + 2) == p + n + 3;
  }

  /** The line as it was fits around the new version exactly when it was spelled as the checker spells it. */
  lemma FitsPlain(s: string, p: nat, word: string, now: string)
    requires p <= |s| && AssignAt(s, p, word).Some?
    ensures var m := AssignAt(s, p, word).value;
            Fits(s, s[..p] + word + " = \"", s[m.to..]) <==>
              StartsAt(s, word + " = \"", p) && IsVersion(s[m.from..m.to])
  {
    hide AssignAt, IsVersion;
    var m := AssignAt(s, p, word).value;
    var before := s[..p] + word + " = \"";
    assert StartsAt(s, before, 0) <==> StartsAt(s, word + " = \"", p) by {
      assert before == s[..p] + (word + " = \"");
      if StartsAt(s, before, 0) {
        assert s[p..p + |word| + 4] == s[0..|before|][p..];
      }
      if StartsAt(s, word + " = \"", p) {
        assert s[0..|before|] == s[0..p] + s[p..p + |word| + 4];
      }
    }
    if StartsAt(s, word + " = \"", p) {
      PlainFrom(s, p, word);
      assert Middle(s, before, s[m.to..]) == s[m.from..m.to];
      assert s[|s| - |s[m.to..]|..] == s[m.to..];
    }
  }

  lemma LeadingAccepted(kind: Kind, s: string, p: nat, word: string, now: string, keys: set<string>)
    requires AssignKind(kind, word) && IsVersion(now) && p <= |s| && AssignAt(s, p, word).Some? && p == SkipBlank(s, 0)
    ensures var m := AssignAt(s, p, word).value;
            LinePasses(kind, s, s[..p] + Spelled(word, now) + s[m.end..], keys) <==>
              s == s[..p] + Spelled(word, now) + s[m.end..] ||
                (StartsAt(s, word + " = \"", p) && IsVersion(s[m.from..m.to]))
  {
    hide AssignAt, Fits, IsVersion, VersionSpan, LinePasses, SkipBlank, StartsAt, Spelled, AssignKind;
    var m := AssignAt(s, p, word).value;
    var head, tail := s[..p], s[m.end..];
    var t := head + Spelled(word, now) + tail;
    var a := p + |word| + 4;
    AssignShape(s, p, word);
    SpelledSpan(kind, head, word, now, tail, keys);
    SpelledParts(head, word, now, tail);
    assert s[m.to..] == "\"" + tail;
    PassesFrom(kind, s, t, keys, a, now, s[m.to..]);
    FitsPlain(s, p, word, now);
  }

  lemma TrailingAccepted(s: string, p: nat, word: string, now: string, keys: set<string>)
    requires word == "__version__" && p <= |s| && AssignAt(s, p, word).Some? && p != SkipBlank(s, 0)
    requires forall q: nat | q < p :: AssignAt(s, q, word).None?
    ensures var m := AssignAt(s, p, word).value;
            var t := s[..p] + Spelled(word, now) + s[m.end..];
            LinePasses(Python, s, t, keys) <==> s == t
  {
    hide AssignAt, Fits, IsVersion, VersionSpan, LinePasses, SkipBlank, StartsAt, Spelled;
    var m := AssignAt(s, p, word).value;
    var t := s[..p] + Spelled(word, now) + s[m.end..];
    AssignShape(s, p, word);
    RespelledAgrees(s, p, word, now, s[m.end..]);
    NoSpanYet(s, t, p, word, keys);
    LinePassesEquivalence(Python, s, t, s, keys);
    NoSpanPasses(Python, t, s, keys);
  }

  /** A rewritten assignment passes exactly when it led its line in the checker's own spelling. */
  lemma AssignAccepted(kind: Kind, s: string, p: nat, word: string, now: string, keys: set<string>)
    requires AssignKind(kind, word) && IsVersion(now) && p <= |s| && AssignAt(s, p, word).Some?
    requires if kind == Toml then p == 0 else forall q: nat | q < p :: AssignAt(s, q, word).None?
    ensures var m := AssignAt(s, p, word).value;
            var t := s[..p] + Spelled(word, now) + s[m.end..];
            LinePasses(kind, s, t, keys) <==>
              s == t || (p == SkipBlank(s, 0) && StartsAt(s, word + " = \"", p) && IsVersion(s[m.from..m.to]))
  {
    hide AssignAt, Fits, IsVersion, VersionSpan, LinePasses, SkipBlank, StartsAt, Spelled;
    AssignShape(s, p, word);
    assert p == 0 ==> p == SkipBlank(s, 0) by {
      CharAt(s, word, p, 0);
    }
    if p == SkipBlank(s, 0) {
      LeadingAccepted(kind, s, p, word, now, keys);
    } else {
      TrailingAccepted(s, p, word, now, keys);
    }
  }

  lemma SpelledParts(head: string, word: string, now: string, tail: string)
    ensures var t, a := head + Spelled(word, now) + tail, |head| + |word| + 4;
            t[..a] == head + word + " = \"" && t[a + |now|..] == "\"" + tail
  {
  }

  lemma AssignShape(s: string, p: nat, word: string)
    requires p <= |s| && AssignAt(s, p, word).Some?
    ensures var m := AssignAt(s, p, word).value; m.end == m.to + 1 && s[m.to] == '"' && StartsAt(s, word, p)
  {
    hide NextQuote;
  }

  lemma NoSpanPasses(kind: Kind, t: string, s: string, keys: set<string>)
    requires VersionSpan(kind, t, keys).None?
    ensures LinePasses(kind, t, s, keys) <==> s == t
  {
    hide VersionSpan;
  }

  lemma NoSpanYet(s: string, t: string, p: nat, word: string, keys: set<string>)
    requires word == "__version__" && p <= |s| && AssignAt(s, p, word).Some? && StartsAt(s, word, p)
    requires (forall q: nat | q < p :: AssignAt(s, q, word).None?) && p != SkipBlank(s, 0) && Agree(t, s, p + |word|)
    ensures VersionSpan(Python, t, keys).None?
  {
    hide AssignAt, SkipBlank, StartsAt, VersionAt, Assigned;
    CharAt(s, word, p, 0);
    var q := SkipBlank(s, 0);
    assert q < p;
    assert Agree(s, t, p + |word|);
    SkipBlankAgree(s, t, p + |word|, 0);
    WordIsPlain(Dunder);
    EarlierPlace(s, t, p, word, q);
    assert Assigned(t, q, word).None?;
  }

  // --- the chart ----------------------------------------------------------------------------------

  lemma TailEndsVersion(tail: string)
    requires ChartTail(tail)
    ensures (tail != [] ==> !IsVersionChar(tail[0])) && LineSuffix(Helm, tail)
  {
  }

  lemma ChartSpan(head: string, now: string, tail: string, keys: set<string>)
    requires StartsAt(head, CHART_WORD, 0) && (forall k | |CHART_WORD| <= k < |head| :: IsBlank(head[k]))
    requires IsVersion(now) && ChartTail(tail)
    ensures VersionSpan(Helm, head + now + tail, keys) == Some((|head|, |head| + |now|))
  {
    hide SkipBlank, VersionAt, IsVersion, ChartTail, StartsAt, IsBlank;
    var t := head + now + tail;
    HeadReaches(head);
    StartsAgree(head, t, |head|, 0, CHART_WORD);
    VersionIsWritable(now);
    assert t[|head|] == now[0];
    assert forall k | 0 <= k < |head| :: t[k] == head[k];
    assert !IsBlank(t[|head|]);
    assert SkipBlank(t, |CHART_WORD|) == |head|;
    assert LinePrefix(Helm, t) == Some(|head|);
    TailEndsVersion(tail);
    VersionAtPut(head, now, tail);
    assert t[|head| + |now|..] == tail;
  }

  /** A chart's rewritten version line passes exactly when it held a version. */
  lemma ChartAccepted(s: string, was: string, now: string, keys: set<string>)
    requires ChartAt(s).Some? && s[ChartAt(s).value.from..ChartAt(s).value.to] == was && was != []
    requires ChartNamedAt(s, was).Some? && IsVersion(now)
    ensures var m := ChartNamedAt(s, was).value;
            LinePasses(Helm, s, s[..m.from] + now + s[m.to..], keys) <==> IsVersion(was)
  {
    hide ChartAt, ChartNamedAt, LinePasses, VersionSpan, IsVersion, ChartTail, StartsAt;
    var m := ChartNamedAt(s, was).value;
    var head, tail := s[..m.from], s[m.to..];
    ChartNamedIsRead(s, was);
    ChartSpan(head, now, tail, keys);
    assert s == head + was + tail;
    BetweenAccepted(Helm, head, was, now, tail, keys);
  }

  lemma BetweenAccepted(kind: Kind, head: string, was: string, now: string, tail: string, keys: set<string>)
    requires VersionSpan(kind, head + now + tail, keys) == Some((|head|, |head| + |now|)) && IsVersion(now)
    ensures LinePasses(kind, head + was + tail, head + now + tail, keys) <==> IsVersion(was)
  {
    hide VersionSpan, LinePasses, IsVersion;
    var s, t := head + was + tail, head + now + tail;
    assert t[..|head|] == head && t[|head| + |now|..] == tail;
    PassesFrom(kind, s, t, keys, |head|, now, tail);
    assert s[0..|head|] == head && s[|s| - |tail|..] == tail;
    assert Middle(s, head, tail) == was;
    if s == t {
      assert was == s[|head|..|s| - |tail|] == now;
    }
  }

  /** `appVersion: "..."`, and nothing more. */
  predicate AppPlain(s: string) {
    |s| >= |APP_WORD| + 3 && var v := s[|APP_WORD| + 2..|s| - 1]; s == AppText(v) && IsVersion(v)
  }

  lemma AppSpan(now: string, keys: set<string>)
    requires IsVersion(now)
    ensures VersionSpan(Helm, AppText(now), keys) == Some((|APP_WORD| + 2, |APP_WORD| + 2 + |now|))
  {
    hide SkipBlank, VersionAt, IsVersion, LineSuffix, StartsAt;
    var t, n := AppText(now), |APP_WORD|;
    AppTextStarts(t, now);
    AppIsNoChart(t);
    assert t[n] == ' ' && t[n + 1] == '"';
    assert SkipBlank(t, n) == n + 1;
    assert LinePrefix(Helm, t) == Some(n + 2);
    assert t == (APP_WORD + " \"") + now + "\"";
    VersionAtPut(APP_WORD + " \"", now, "\"");
    assert ChartTail("\"");
    TailEndsVersion("\"");
    assert t[n + 2 + |now|..] == "\"";
  }

  /** The `appVersion` line passes exactly when it was the plain spelling of a version. */
  lemma AppAccepted(s: string, now: string, keys: set<string>)
    requires IsVersion(now)
    ensures LinePasses(Helm, s, AppText(now), keys) <==> AppPlain(s)
  {
    hide VersionSpan, LinePasses, IsVersion;
    var t, before := AppText(now), APP_WORD + " \"";
    AppSpan(now, keys);
    assert t[..|before|] == before && t[|before| + |now|..] == "\"";
    PassesFrom(Helm, s, t, keys, |before|, now, "\"");
    if s == t {
      assert s[|before|..|s| - 1] == now;
    }
    if Fits(s, before, "\"") {
      VersionIsWritable(Middle(s, before, "\""));
      assert s == s[0..|before|] + s[|before|..|s| - 1] + s[|s| - 1..];
    }
    if AppPlain(s) {
      assert s[0..|before|] == before && s[|s| - 1..] == "\"";
    }
  }

  // --- the release tag ------------------------------------------------------------------------------

  lemma TagPrefix(s: string, t: string, p: nat, a: nat)
    requires p <= |s| && TagStart(s, p) == Some(a) && Agree(s, t, a) && p == SkipBlank(s, 0)
    ensures LinePrefix(Workflow, t) == Some(a)
  {
    hide SkipBlank, StartsAt, IsBlank;
    TagInk(s, p);
    SkipBlankAgree(s, t, a, 0);
    StartsAgree(s, t, a, p, TAG_WORD);
    SkipBlankAgree(s, t, a, p + |TAG_WORD|);
  }

  lemma BlankTail(head: string, tail: string)
    ensures SkipBlank(tail, 0) == |tail| <==> SkipBlank(head + tail, |head|) == |head + tail|
  {
    hide SkipBlank, IsBlank;
    var s := head + tail;
    assert forall k | 0 <= k < |tail| :: s[|head| + k] == tail[k];
    var i, j := SkipBlank(tail, 0), SkipBlank(s, |head|);
    assert i < |tail| ==> !IsBlank(s[|head| + i]);
    assert j < |s| ==> !IsBlank(tail[j - |head|]);
  }

  lemma BlankIsNoVersion(c: char)
    requires IsBlank(c)
    ensures !IsVersionChar(c)
  {
  }

  lemma TagEnds(s: string, p: nat)
    requires p <= |s| && TagAt(s, p).Some?
    ensures var m := TagAt(s, p).value; (m.to < |s| ==> IsBlank(s[m.to])) && TagStart(s, p) == Some(m.from)
  {
    hide InkEnd, TagStart;
  }

  lemma LeadingTag(s: string, p: nat, now: string, keys: set<string>)
    requires p <= |s| && TagAt(s, p).Some? && p == SkipBlank(s, 0) && IsVersion(now)
    ensures var m := TagAt(s, p).value;
            VersionSpan(Workflow, s[..m.from] + now + s[m.to..], keys) ==
            if SkipBlank(s, m.to) == |s| then Some((m.from, m.from + |now|)) else None
  {
    hide TagAt, TagStart, SkipBlank, IsVersion, VersionAt, LinePrefix, IsBlank, IsVersionChar;
    var m := TagAt(s, p).value;
    var head, tail := s[..m.from], s[m.to..];
    var t := head + now + tail;
    TagEnds(s, p);
    assert Agree(s, t, m.from);
    TagPrefix(s, t, p, m.from);
    if tail != [] {
      BlankIsNoVersion(tail[0]);
    }
    VersionAtPut(head, now, tail);
    assert t[m.from + |now|..] == tail;
    assert s == s[..m.to] + tail;
    BlankTail(s[..m.to], tail);
  }

  lemma TrailingTag(s: string, p: nat, now: string, keys: set<string>)
    requires p <= |s| && TagAt(s, p).Some? && p != SkipBlank(s, 0) && forall q: nat | q < p :: TagAt(s, q).None?
    ensures var m := TagAt(s, p).value; VersionSpan(Workflow, s[..m.from] + now + s[m.to..], keys).None?
  {
    hide TagAt, SkipBlank, VersionSpan;
    var m := TagAt(s, p).value;
    var t := s[..m.from] + now + s[m.to..];
    assert Agree(s, t, m.from);
    NoTagYet(s, t, p, m.from, keys);
  }

  lemma NoTagYet(s: string, t: string, p: nat, a: nat, keys: set<string>)
    requires p <= |s| && TagAt(s, p).Some? && p != SkipBlank(s, 0) && forall q: nat | q < p :: TagAt(s, q).None?
    requires a == TagAt(s, p).value.from && Agree(s, t, a)
    ensures VersionSpan(Workflow, t, keys).None?
  {
    hide TagAt, SkipBlank, StartsAt, VersionSpan, IsBlank;
    TagShape(s, p);
    var q := SkipBlank(s, 0);
    TagInk(s, p);
    assert q < p;
    SkipBlankAgree(s, t, a, 0);
    EarlierTag(s, t, p, q, a);
    TagNeeded(t, q, keys);
  }

  lemma TagInk(s: string, p: nat)
    requires StartsAt(s, TAG_WORD, p)
    ensures p < |s| && !IsBlank(s[p])
  {
    CharAt(s, TAG_WORD, p, 0);
  }

  lemma TagNeeded(t: string, q: nat, keys: set<string>)
    requires q == SkipBlank(t, 0)
    ensures VersionSpan(Workflow, t, keys).Some? ==> TagAt(t, q).Some?
  {
    hide SkipBlank, RunEnd, InkEnd, StartsAt;
  }

  lemma SelfPasses(kind: Kind, s: string, keys: set<string>)
    ensures LinePasses(kind, s, s, keys)
  {
  }

  lemma LoneTag(s: string, p: nat, now: string, keys: set<string>)
    requires p <= |s| && TagAt(s, p).Some? && IsVersion(now) && p == SkipBlank(s, 0)
    requires SkipBlank(s, TagAt(s, p).value.to) == |s|
    ensures var m := TagAt(s, p).value;
            LinePasses(Workflow, s, s[..m.from] + now + s[m.to..], keys) <==> IsVersion(s[m.from..m.to])
  {
    hide TagAt, SkipBlank, IsVersion, VersionSpan, LinePasses;
    var m := TagAt(s, p).value;
    var head, was, tail := s[..m.from], s[m.from..m.to], s[m.to..];
    assert s == head + was + tail;
    LeadingTag(s, p, now, keys);
    BetweenAccepted(Workflow, head, was, now, tail, keys);
  }

  /** A rewritten release tag passes exactly when it stood alone on its line. */
  lemma TagAccepted(s: string, p: nat, now: string, keys: set<string>)
    requires p <= |s| && TagAt(s, p).Some? && IsVersion(now) && forall q: nat | q < p :: TagAt(s, q).None?
    ensures var m := TagAt(s, p).value;
            var t := s[..m.from] + now + s[m.to..];
            LinePasses(Workflow, s, t, keys) <==>
              s == t || (p == SkipBlank(s, 0) && SkipBlank(s, m.to) == |s| && IsVersion(s[m.from..m.to]))
  {
    hide TagAt, SkipBlank, IsVersion, VersionSpan, LinePasses;
    var m := TagAt(s, p).value;
    var t := s[..m.from] + now + s[m.to..];
    if p == SkipBlank(s, 0) && SkipBlank(s, m.to) == |s| {
      LoneTag(s, p, now, keys);
      SelfPasses(Workflow, s, keys);
    } else {
      assert VersionSpan(Workflow, t, keys).None? by {
        if p == SkipBlank(s, 0) {
          LeadingTag(s, p, now, keys);
        } else {
          TrailingTag(s, p, now, keys);
        }
      }
      LinePassesEquivalence(Workflow, s, t, s, keys);
      NoSpanPasses(Workflow, t, s, keys);
    }
  }

  // --- the pins ---------------------------------------------------------------------------------------

  ghost predicate KeyWord(key: string) {
    key != [] && forall i | 0 <= i < |key| :: IsKeyChar(key[i])
  }

  lemma PinKeyOf(t: string, key: string)
    requires KeyWord(key) && StartsAt(t, PinHead(key), 0)
    ensures PinKey(t) == Some((key, |key| + 4)) && t[|key| + 3] == '{' && t[|key| + 4] == ' ' && |t| > |key| + 5
  {
    hide SkipBlank, SkipKey, IsKeyChar;
    var n := |key|;
    forall k | 0 <= k < n + 5 ensures t[k] == PinHead(key)[k] {
      CharAt(t, PinHead(key), 0, k);
    }
    assert forall k | 0 <= k < n :: t[k] == key[k] && IsKeyChar(t[k]);
    assert t[n] == ' ' && t[n + 1] == '=' && t[n + 2] == ' ' && t[n + 3] == '{' && t[n + 4] == ' ';
    KeyCharInk(t[0]);
    assert SkipBlank(t, 0) == 0;
    KeyEndsHere(t, 0, n);
    assert SkipBlank(t, n) == n + 1 && SkipBlank(t, n + 2) == n + 3;
    assert t[0..n] == key;
  }

  lemma KeyCharInk(c: char)
    requires IsKeyChar(c)
    ensures !IsBlank(c)
  {
  }

  lemma PinSpanOf(head: string, key: string, now: string, tail: string, keys: set<string>)
    requires KeyWord(key) && key in keys && head == PinHead(key) && IsVersion(now) && tail != [] && tail[0] == '"'
    ensures VersionSpan(Workspace, head + now + tail, keys) == Some((|head|, |head| + |now|))
  {
    hide PinKey, VersionAt, IsVersion, Assigned, StartsAt;
    var t, n := head + now + tail, |key|;
    assert t[0..|head|] == head;
    StartsHere(t, head, 0);
    PinKeyOf(t, key);
    WorkspaceHasNoLine(t);
    PlainAssigned(t, key, head, now + tail);
    VersionAtPut(head, now, tail);
    assert PinAt(t, n + 5) == Some((|head|, |head| + |now|));
    assert PinAt(t, n + 4).None? by {
      NotTheWord(t, n + 4);
    }
    assert PinFrom(t, n + 4) == PinFrom(t, n + 5);
  }

  lemma NotTheWord(t: string, q: nat)
    requires q < |t| && t[q] == ' '
    ensures Assigned(t, q, "version").None?
  {
    if StartsAt(t, "version", q) {
      CharAt(t, "version", q, 0);
    }
  }

  lemma PlainAssigned(t: string, key: string, head: string, rest: string)
    requires head == PinHead(key) && t == head + rest
    ensures Assigned(t, |key| + 5, "version") == Some(|head|)
  {
    hide SkipBlank;
    var n := |key| + 5;
    assert head == key + " = { " + PIN_WORD;
    assert t[n..n + 7] == "version";
    assert t[n + 7] == ' ' && t[n + 8] == '=' && t[n + 9] == ' ' && t[n + 10] == '"';
    assert SkipBlank(t, n + 7) == n + 8 && SkipBlank(t, n + 9) == n + 10;
  }

  /** A rewritten pin of a workspace crate passes exactly when it held a version. */
  lemma PinAccepted(s: string, key: string, now: string, keys: set<string>)
    requires KeyWord(key) && key in keys && PlainPin(s, key) && IsVersion(now)
    ensures var n, b := |PinHead(key)|, NextQuote(s, |PinHead(key)|).value;
            LinePasses(Workspace, s, s[..n] + now + s[b..], keys) <==> IsVersion(s[n..b])
  {
    hide NextQuote, IsVersion, LinePasses, VersionSpan, PinHead;
    var head, b := PinHead(key), NextQuote(s, |PinHead(key)|).value;
    assert s[..|head|] == s[0..|head|] == head;
    assert s == head + s[|head|..b] + s[b..];
    PinSpanOf(head, key, now, s[b..], keys);
    BetweenAccepted(Workspace, head, s[|head|..b], now, s[b..], keys);
  }

  // --- whole files --------------------------------------------------------------------------------------

  /** The lines a rewrite touches are spelled as the checker itself spells them. */
  ghost predicate Canonical(k: Spelling, f: File)
    requires Search(Reading(k), f).Some?
  {
    var h := Search(Reading(k), f).value;
    var s := f[h.line];
    match k
    case HelmChart => FirstApp(f, 0).Some? ==> AppPlain(f[FirstApp(f, 0).value])
    case ReleaseTag => h.place == SkipBlank(s, 0) && SkipBlank(s, h.span.to) == |s|
    case _ => h.place == SkipBlank(s, 0) && StartsAt(s, Word(k) + " = \"", h.place)
  }

  lemma FilesPass(kind: Kind, f: File, g: File, keys: set<string>)
    requires |f| == |g|
    ensures EraseAll(kind, f, keys) == EraseAll(kind, g, keys) <==>
            forall i | 0 <= i < |f| :: LinePasses(kind, f[i], g[i], keys)
  {
    hide LinePasses, Erase;
    forall i | 0 <= i < |f|
      ensures LinePasses(kind, f[i], g[i], keys) <==> EraseAll(kind, f, keys)[i] == EraseAll(kind, g, keys)[i]
    {
      LinePassesIff(kind, f[i], g[i], keys);
    }
  }

  lemma OneLinePasses(kind: Kind, f: File, i: nat, t: string, keys: set<string>)
    requires i < |f|
    ensures EraseAll(kind, f, keys) == EraseAll(kind, f[i := t], keys) <==> LinePasses(kind, f[i], t, keys)
  {
    hide LinePasses, EraseAll;
    var g := f[i := t];
    FilesPass(kind, f, g, keys);
    forall j | 0 <= j < |f| && j != i ensures LinePasses(kind, f[j], g[j], keys) {
      SelfPasses(kind, f[j], keys);
    }
    assert g[i] == t;
  }

  lemma AssignFileAccepted(k: Spelling, f: File, was: string, now: string, keys: set<string>)
    requires !k.HelmChart? && !k.ReleaseTag? && ReadVersion(k, f) == Some(was) && IsVersion(was) && IsVersion(now) &&
             was != now
    ensures var w := WriteVersion(k, f, was, now);
            w.Some? && (EraseAll(KindOf(k), f, keys) == EraseAll(KindOf(k), w.value, keys) <==> Canonical(k, f))
  {
    hide AssignAt, LinePasses, EraseAll, IsVersion, SkipBlank, StartsAt, Spelled, Search, Inherits, AnyShows;
    VersionIsWritable(now);
    AssignWritten(k, f, now);
    var h := Search(Reading(k), f).value;
    var s := f[h.line];
    var g := WithAssign(f, Word(k), !k.Dunder?, now);
    var t := g[h.line];
    assert g == f[h.line := t];
    SearchIsFirst(Reading(k), f);
    if k.Dunder? {
      forall q: nat | q < h.place ensures AssignAt(s, q, Word(k)).None? {
        assert MatchAt(Reading(k), s, q).None?;
      }
    }
    assert g != f;
    OneLinePasses(KindOf(k), f, h.line, t, keys);
    assert AssignKind(KindOf(k), Word(k));
    AssignAccepted(KindOf(k), s, h.place, Word(k), now, keys);
  }

  lemma TagFileAccepted(f: File, was: string, now: string, keys: set<string>)
    requires Found(Tag, f) == Some(was) && IsVersion(was) && IsVersion(now) && was != now
    ensures var w := WriteTag(f, was, now);
            w.Some? && (EraseAll(Workflow, f, keys) == EraseAll(Workflow, w.value, keys) <==> Canonical(ReleaseTag, f))
  {
    hide TagAt, TagNamedAt, LinePasses, EraseAll, IsVersion, SkipBlank, Search;
    VersionIsWritable(now);
    TagReadsBack(f, was, now);
    var h := Search(Tag, f).value;
    var g := Refill(f, h, now);
    SearchIsFirst(Tag, f);
    forall q: nat | q < h.place ensures TagAt(f[h.line], q).None? {
      assert MatchAt(Tag, f[h.line], q).None?;
    }
    assert g != f;
    OneLinePasses(Workflow, f, h.line, g[h.line], keys);
    TagAccepted(f[h.line], h.place, now, keys);
  }

  /** What a rewritten chart looks like: two of its lines are new. */
  lemma ChartLines(f: File, was: string, now: string)
    requires Found(Chart, f) == Some(was) && ChartSits(f, was) && Writable(now) && WriteChart(f, was, now).Some?
    ensures var i, g := Search(Chart, f).value.line, WriteChart(f, was, now).value;
            && |g| == |f| && FirstApp(f, 0).Some? && FirstApp(f, 0).value != i
            && ChartAt(f[i]).Some? && ChartNamedAt(f[i], was).Some?
            && f[i][ChartAt(f[i]).value.from..ChartAt(f[i]).value.to] == was
            && (var m := ChartNamedAt(f[i], was).value; g[i] == f[i][..m.from] + now + f[i][m.to..])
            && g[FirstApp(f, 0).value] == AppText(now)
            && forall k | 0 <= k < |f| && k != i && k != FirstApp(f, 0).value :: g[k] == f[k]
  {
    hide ChartAt, ChartNamedAt, FirstPlace, StartsAt, FirstApp, AppText, ShowsApp;
    var i := Search(Chart, f).value.line;
    ChartTakes(f, was, now);
    ChartValueBare(f);
    ChartHit(f[i], was);
    VersionLineNew(f, was, now);
    SameApp(f, WithVersion(f, was, now), i);
    AppIsNoChart(f[i]);
  }

  lemma ChartFileAccepted(f: File, was: string, now: string, keys: set<string>)
    requires Found(Chart, f) == Some(was) && ChartSits(f, was) && IsVersion(was) && IsVersion(now)
    requires WriteChart(f, was, now).Some?
    ensures EraseAll(Helm, f, keys) == EraseAll(Helm, WriteChart(f, was, now).value, keys) <==> Canonical(HelmChart, f)
  {
    hide ChartAt, ChartNamedAt, Search, FirstApp, LinePasses, EraseAll, IsVersion, AppPlain, AppText, WriteChart;
    VersionIsWritable(was);
    VersionIsWritable(now);
    ChartLines(f, was, now);
    var i, a, g := Search(Chart, f).value.line, FirstApp(f, 0).value, WriteChart(f, was, now).value;
    ChartAccepted(f[i], was, now, keys);
    AppAccepted(f[a], now, keys);
    FilesPass(Helm, f, g, keys);
    forall k | 0 <= k < |f| && k != a ensures LinePasses(Helm, f[k], g[k], keys) {
      SelfPasses(Helm, f[k], keys);
    }
  }

  /** On the line that is read, a rewrite that took is version-only to the classifier exactly when the file was
      canonically spelled. */
  lemma RewriteAccepted(k: Spelling, f: File, was: string, now: string, keys: set<string>)
    requires ReadVersion(k, f) == Some(was) && IsVersion(was) && IsVersion(now) && was != now &&
             (k.HelmChart? ==> ChartSits(f, was))
    requires WriteVersion(k, f, was, now).Some?
    ensures EraseAll(KindOf(k), f, keys) == EraseAll(KindOf(k), WriteVersion(k, f, was, now).value, keys) <==>
            Canonical(k, f)
  {
    hide WriteChart, WriteTag, WriteAssign, Canonical, EraseAll, ChartSits, Inherits, IsVersion;
    match k
    case HelmChart => ChartFileAccepted(f, was, now, keys);
    case ReleaseTag => TagFileAccepted(f, was, now, keys);
    case _ => AssignFileAccepted(k, f, was, now, keys);
  }

  /** And beside the version line, and a chart's `appVersion`, it leaves every line alone. */
  lemma RewriteTouches(k: Spelling, f: File, was: string, now: string)
    requires ReadVersion(k, f) == Some(was) && Writable(now) && WriteVersion(k, f, was, now).Some? &&
             (k.HelmChart? ==> ChartSits(f, was))
    ensures var h, g := Search(Reading(k), f).value, WriteVersion(k, f, was, now).value;
            |g| == |f| && forall i | 0 <= i < |f| && i != h.line && !(k.HelmChart? && FirstApp(f, 0) == Some(i)) ::
              g[i] == f[i]
  {
    hide Search, FirstApp, AnyShows, Spelled, Inherits, WriteChart;
    if k.ReleaseTag? {
      TagReadsBack(f, was, now);
    } else if k.HelmChart? {
      ChartLines(f, was, now);
    }
  }

  /** So is a pin of the root manifest, where the pinned string was a version. */
  lemma PinRewriteAccepted(f: File, key: string, was: string, now: string, keys: set<string>)
    requires KeyWord(key) && key in keys && PinSits(f, key) && ReadPin(f, key) == Some(was) && IsVersion(now)
    requires WritePin(f, key, was, now).Some?
    ensures EraseAll(Workspace, f, keys) == EraseAll(Workspace, WritePin(f, key, was, now).value, keys) <==>
            IsVersion(was)
  {
    hide NextQuote, PlainPin, PinLine, LinePasses, EraseAll, IsVersion, AnyPinShows, PinHead, FirstPlace;
    var i, n := Search(Pin(key), f).value.line, |PinHead(key)|;
    NamedNotBefore(f, key);
    PinUnquoted(f, key);
    NamedPlain(f[i], key, was);
    var g := WithPin(f, key, was, now);
    assert g[i] == f[i][..n] + now + f[i][n + |was|..];
    OneLinePasses(Workspace, f, i, g[i], keys);
    PinAccepted(f[i], key, now, keys);
  }
}
