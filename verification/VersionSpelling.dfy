/**
 How the version lines are spelled, as texts: a line is a version line of its kind exactly when it is one of the
 spellings written out here, and its version is the part they leave open.
 */
module VersionSpelling {
  import opened Text
  import opened VersionLines

  const DIGITS := "0123456789"
  const CAPITALS := "ABCDEFGHIJKLMNOPQRSTUVWXYZ"
  const SMALL := "abcdefghijklmnopqrstuvwxyz"

  /** A digit, and then any digits, letters, dots, plus signs and dashes. */
  lemma VersionIff(v: string)
    ensures IsVersion(v) <==>
              && v != [] && v[0] in DIGITS
              && forall c | c in v :: c in DIGITS || c in CAPITALS || c in SMALL || c in ".+-"
  {
    hide IsVersionChar;
    forall c ensures IsVersionChar(c) <==> c in DIGITS || c in CAPITALS || c in SMALL || c in ".+-" {
      CharIff(c);
    }
    if v != [] {
      DigitIff(v[0]);
    }
    assert forall i | 0 <= i < |v| :: v[i] in v;
  }

  lemma DigitIff(c: char)
    ensures IsDigit(c) <==> c in DIGITS
  {
    if IsDigit(c) {
      assert DIGITS[c as int - '0' as int] == c;
    }
  }

  lemma CapitalIff(c: char)
    ensures 'A' <= c <= 'Z' <==> c in CAPITALS
  {
    if 'A' <= c <= 'Z' {
      assert CAPITALS[c as int - 'A' as int] == c;
    }
  }

  lemma SmallIff(c: char)
    ensures 'a' <= c <= 'z' <==> c in SMALL
  {
    if 'a' <= c <= 'z' {
      assert SMALL[c as int - 'a' as int] == c;
    }
  }

  /** A key is of digits, letters, underscores, dots and dashes; a word of digits, letters and underscores. */
  lemma KeyCharIff(c: char)
    ensures IsKeyChar(c) <==> c in DIGITS || c in CAPITALS || c in SMALL || c in "_.-"
    ensures IsWord(c) <==> c in DIGITS || c in CAPITALS || c in SMALL || c in "_"
  {
    DigitIff(c);
    CapitalIff(c);
    SmallIff(c);
  }

  lemma CharIff(c: char)
    ensures IsVersionChar(c) <==> c in DIGITS || c in CAPITALS || c in SMALL || c in ".+-"
  {
    DigitIff(c);
    CapitalIff(c);
    SmallIff(c);
  }

  // --- an assignment ------------------------------------------------------------------------------------

  /** `word = "` with any blanks around the sign. */
  ghost predicate Opens(t: string, word: string, b: string, c: string) {
    Blanks(b) && Blanks(c) && t == word + b + "=" + c + "\""
  }

  /** A stretch is its parts. */
  lemma Five(s: string, p: nat, a: nat, b: nat, c: nat, d: nat, e: nat)
    requires p <= a <= b <= c <= d <= e <= |s|
    ensures s[p..e] == s[p..a] + s[a..b] + s[b..c] + s[c..d] + s[d..e]
  {
    Two(s, p, a, b);
    Two(s, p, b, c);
    Two(s, p, c, d);
    Two(s, p, d, e);
  }

  lemma Two(s: string, p: nat, a: nat, e: nat)
    requires p <= a <= e <= |s|
    ensures s[p..e] == s[p..a] + s[a..e]
  {
  }

  lemma One(s: string, i: nat)
    requires i < |s|
    ensures s[i..i + 1] == [s[i]]
  {
  }

  lemma BlanksBetween(s: string, i: nat)
    requires i <= |s|
    ensures Blanks(s[i..SkipBlank(s, i)])
  {
  }

  lemma AssignedGives(s: string, p: nat, word: string)
    requires p <= |s| && Assigned(s, p, word).Some?
    ensures exists b, c :: Opens(s[p..Assigned(s, p, word).value], word, b, c)
  {
    hide SkipBlank, Blanks;
    var w := p + |word|;
    var i := SkipBlank(s, w);
    var j := SkipBlank(s, i + 1);
    BlanksBetween(s, w);
    BlanksBetween(s, i + 1);
    Five(s, p, w, i, i + 1, j, j + 1);
    One(s, i);
    One(s, j);
    assert Opens(s[p..j + 1], word, s[w..i], s[i + 1..j]);
  }

  lemma AssignedTakes(front: string, word: string, b: string, c: string, tail: string)
    requires Blanks(b) && Blanks(c)
    ensures Assigned(front + (word + b + "=" + c + "\"") + tail, |front|, word) ==
            Some(|front| + |word| + |b| + 1 + |c| + 1)
  {
    hide SkipBlank;
    var s := front + (word + b + "=" + c + "\"") + tail;
    assert s[|front|..|front| + |word|] == word;
    SkipsOver(front + word, b, "=" + c + "\"" + tail);
    assert front + word + b + ("=" + c + "\"" + tail) == s;
    SkipsOver(front + word + b + "=", c, "\"" + tail);
    assert front + word + b + "=" + c + ("\"" + tail) == s;
    assert s[|front| + |word| + |b|] == '=' && s[|front| + |word| + |b| + 1 + |c|] == '"';
  }

  lemma AssignedIff(s: string, p: nat, word: string, r: nat)
    requires p <= |s|
    ensures Assigned(s, p, word) == Some(r) <==> p <= r <= |s| && exists b, c :: Opens(s[p..r], word, b, c)
  {
    hide Assigned, Opens;
    if Assigned(s, p, word) == Some(r) {
      AssignedGives(s, p, word);
    }
    if p <= r <= |s| {
      forall b, c | Opens(s[p..r], word, b, c) ensures Assigned(s, p, word) == Some(r) {
        OpensTakes(s, p, word, r, b, c);
      }
    }
  }

  lemma OpensTakes(s: string, p: nat, word: string, r: nat, b: string, c: string)
    requires p <= r <= |s| && Opens(s[p..r], word, b, c)
    ensures Assigned(s, p, word) == Some(r)
  {
    hide Assigned;
    AssignedTakes(s[..p], word, b, c, s[r..]);
    assert s == s[..p] + s[p..r] + s[r..];
  }

  // --- the version line of each kind ---------------------------------------------------------------------------

  /** `\s*word\s*=\s*"` */
  ghost predicate AssignHead(t: string, word: string) {
    exists a: nat, b, c :: a <= |t| && Blanks(t[..a]) && Opens(t[a..], word, b, c)
  }

  /** `(?:version|appVersion):\s*"?` */
  ghost predicate ChartHead(t: string) {
    exists word, b, q :: (word == "version:" || word == "appVersion:") && Blanks(b) && Quote(q) && Three(t, word, b, q)
  }

  /** `\s*SMG_RELEASE_TAG:\s*v` */
  ghost predicate TagHead(t: string) {
    exists a, b :: Blanks(a) && Blanks(b) && Three(t, a, "SMG_RELEASE_TAG:" + b, "v")
  }

  ghost predicate Quote(q: string) {
    q == "" || q == "\""
  }

  ghost predicate Three(t: string, a: string, b: string, c: string) {
    t == a + b + c
  }

  /** The text before the version. */
  ghost predicate Before(kind: Kind, before: string) {
    match kind
    case Toml => AssignHead(before, "version")
    case Python => AssignHead(before, "__version__")
    case Helm => ChartHead(before)
    case Workflow => TagHead(before)
    case Workspace => false
  }

  /** The text behind it: a quote and anything, or maybe a quote and blanks, or blanks. */
  ghost predicate Behind(kind: Kind, after: string) {
    match kind
    case Toml => after != [] && after[0] == '"'
    case Python => after != [] && after[0] == '"'
    case Helm => exists q, c :: Quote(q) && Blanks(c) && Three(after, q, c, "")
    case Workflow => Blanks(after)
    case Workspace => false
  }

  lemma AssignHeadTakes(s: string, word: string, r: nat, a: nat, b: string, c: string)
    requires a <= r <= |s| && word != [] && !IsBlank(word[0]) && Blanks(s[..a]) && Opens(s[a..r], word, b, c)
    ensures SkipBlank(s, 0) == a && Assigned(s, a, word) == Some(r)
  {
    hide Assigned, Opens, SkipBlank, Blanks;
    OpensStarts(s[a..r], word, b, c);
    assert s[a..][0] == s[a..r][0];
    assert "" + s[..a] + s[a..] == s;
    SkipsOver("", s[..a], s[a..]);
    OpensTakes(s, a, word, r, b, c);
  }

  /** Blanks, and an assignment up to its opening quote. */
  lemma AssignHeadIff(s: string, word: string, r: nat)
    requires r <= |s| && word != [] && !IsBlank(word[0])
    ensures Assigned(s, SkipBlank(s, 0), word) == Some(r) <==> AssignHead(s[..r], word)
  {
    hide Assigned, Opens, SkipBlank, Blanks;
    var p := SkipBlank(s, 0);
    if Assigned(s, p, word) == Some(r) {
      AssignedGives(s, p, word);
      var b, c :| Opens(s[p..r], word, b, c);
      SkippedAreBlanks(s);
      assert s[..r][..p] == s[..p] && s[..r][p..] == s[p..r];
    }
    if AssignHead(s[..r], word) {
      var a: nat, b, c :| a <= r && Blanks(s[..r][..a]) && Opens(s[..r][a..], word, b, c);
      assert s[..r][a..] == s[a..r] && s[..r][..a] == s[..a];
      AssignHeadTakes(s, word, r, a, b, c);
    }
  }

  lemma SkippedAreBlanks(s: string)
    ensures Blanks(s[..SkipBlank(s, 0)])
  {
  }

  lemma OpensStarts(t: string, word: string, b: string, c: string)
    requires Opens(t, word, b, c) && word != []
    ensures t != [] && t[0] == word[0]
  {
  }

  lemma ChartHeadGives(s: string, r: nat)
    requires LinePrefix(Helm, s) == Some(r)
    ensures r <= |s| && ChartHead(s[..r])
  {
    hide SkipBlank;
    var word := if StartsAt(s, "version:", 0) then "version:" else "appVersion:";
    var j := SkipBlank(s, |word|);
    assert s[0..|word|] == word;
    BlanksBetween(s, |word|);
    HeadParts(s, word, j, r);
  }

  lemma HeadParts(s: string, word: string, j: nat, r: nat)
    requires (word == "version:" || word == "appVersion:") && |word| <= j <= r <= |s| && s[0..|word|] == word
    requires Blanks(s[|word|..j]) && (r == j || (r == j + 1 && s[j] == '"'))
    ensures ChartHead(s[..r])
  {
    var b, q := s[|word|..j], s[j..r];
    assert Quote(q);
    assert s[..r] == s[0..|word|] + b + q;
    assert Three(s[..r], word, b, q);
  }

  lemma ChartHeadTakes(word: string, b: string, q: string, tail: string)
    requires (word == "version:" || word == "appVersion:") && Blanks(b) && Quote(q) && tail != [] && IsDigit(tail[0])
    ensures LinePrefix(Helm, word + b + (q + tail)) == Some(|word| + |b| + |q|)
  {
    hide SkipBlank;
    var s := word + b + (q + tail);
    assert s[0..|word|] == word && s[0] == word[0];
    if word == "appVersion:" {
      NotShort(s);
    }
    SkipsOver(word, b, q + tail);
    assert s[|word| + |b|] == (q + tail)[0];
  }

  lemma NotShort(s: string)
    requires s != [] && s[0] == 'a'
    ensures !StartsAt(s, "version:", 0)
  {
    assert |s| >= 8 ==> s[0..8][0] == s[0];
  }

  lemma ChartHeadIff(s: string, r: nat)
    requires r < |s| && IsDigit(s[r])
    ensures LinePrefix(Helm, s) == Some(r) <==> ChartHead(s[..r])
  {
    hide LinePrefix;
    if LinePrefix(Helm, s) == Some(r) {
      ChartHeadGives(s, r);
    }
    if ChartHead(s[..r]) {
      var word, b, q :|
        (word == "version:" || word == "appVersion:") && Blanks(b) && Quote(q) && Three(s[..r], word, b, q);
      assert s == word + b + (q + s[r..]);
      ChartHeadTakes(word, b, q, s[r..]);
    }
  }

  const TAG := "SMG_RELEASE_TAG:"

  lemma TagHeadGives(s: string, r: nat)
    requires LinePrefix(Workflow, s) == Some(r)
    ensures r <= |s| && TagHead(s[..r])
  {
    hide SkipBlank, Blanks;
    var p := SkipBlank(s, 0);
    var e := p + |TAG|;
    var j := SkipBlank(s, e);
    BlanksBetween(s, 0);
    BlanksBetween(s, e);
    Five(s, 0, p, e, j, j + 1, j + 1);
    One(s, j);
    assert s[j + 1..j + 1] == "" && s[..r] == s[0..r];
    assert Three(s[..r], s[0..p], TAG + s[e..j], "v");
  }

  lemma TagHeadTakes(a: string, b: string, tail: string)
    requires Blanks(a) && Blanks(b)
    ensures LinePrefix(Workflow, a + (TAG + b) + "v" + tail) == Some(|a| + |TAG| + |b| + 1)
  {
    hide SkipBlank;
    var s := a + (TAG + b) + "v" + tail;
    SkipsOver("", a, TAG + b + "v" + tail);
    assert "" + a + (TAG + b + "v" + tail) == s;
    assert s[|a|..|a| + |TAG|] == TAG;
    SkipsOver(a + TAG, b, "v" + tail);
    assert a + TAG + b + ("v" + tail) == s;
    assert s[|a| + |TAG| + |b|] == 'v';
  }

  lemma TagHeadIff(s: string, r: nat)
    requires r <= |s|
    ensures LinePrefix(Workflow, s) == Some(r) <==> TagHead(s[..r])
  {
    hide LinePrefix;
    if LinePrefix(Workflow, s) == Some(r) {
      TagHeadGives(s, r);
    }
    if TagHead(s[..r]) {
      var a, b :| Blanks(a) && Blanks(b) && Three(s[..r], a, TAG + b, "v");
      assert s == a + (TAG + b) + "v" + s[r..];
      TagHeadTakes(a, b, s[r..]);
    }
  }

  lemma BlankTailIff(tail: string, n: nat)
    requires n <= |tail|
    ensures SkipBlank(tail, n) == |tail| <==> Blanks(tail[n..])
  {
    hide SkipBlank;
    var r := SkipBlank(tail, n);
    assert forall k | 0 <= k < |tail| - n :: tail[n..][k] == tail[n + k];
    if r < |tail| {
      assert tail[n..][r - n] == tail[r];
    } else {
      assert forall k | n <= k < |tail| :: IsBlank(tail[k]);
    }
  }

  lemma ChartTailIff(tail: string)
    ensures Behind(Helm, tail) <==> Blanks(tail[if tail != [] && tail[0] == '"' then 1 else 0..])
  {
    var n := if tail != [] && tail[0] == '"' then 1 else 0;
    if Blanks(tail[n..]) {
      assert tail == tail[..n] + tail[n..] + "";
      assert Quote(tail[..n]) && Three(tail, tail[..n], tail[n..], "");
    }
    forall q, c | Quote(q) && Blanks(c) && Three(tail, q, c, "") ensures tail[n..] == c {
      assert tail == q + c;
      if q == "" {
        assert tail == c;
      } else {
        assert tail[0] == '"' && tail[1..] == c;
      }
    }
  }

  lemma SuffixIff(kind: Kind, tail: string)
    ensures LineSuffix(kind, tail) <==> Behind(kind, tail)
  {
    hide SkipBlank;
    ChartTailIff(tail);
    BlankTailIff(tail, if tail != [] && tail[0] == '"' then 1 else 0);
    BlankTailIff(tail, 0);
    assert tail[0..] == tail;
  }

  lemma SuffixEnds(kind: Kind, tail: string)
    requires LineSuffix(kind, tail)
    ensures tail != [] ==> !IsVersionChar(tail[0])
  {
  }

  lemma PrefixIff(kind: Kind, s: string, a: nat)
    requires a < |s| && IsDigit(s[a])
    ensures LinePrefix(kind, s) == Some(a) <==> Before(kind, s[..a])
  {
    hide AssignHead, ChartHead, TagHead, Assigned, SkipBlank;
    AssignHeadIff(s, "version", a);
    AssignHeadIff(s, "__version__", a);
    ChartHeadIff(s, a);
    TagHeadIff(s, a);
  }

  /** A line is a version line of its kind, with the version in one place, exactly when the texts before and behind
      that place are those the kind has around a version. */
  lemma LineSpanIff(kind: Kind, s: string, a: nat, b: nat)
    requires a <= b <= |s|
    ensures LineSpan(kind, s) == Some((a, b)) <==> IsVersion(s[a..b]) && Before(kind, s[..a]) && Behind(kind, s[b..])
  {
    hide LinePrefix, LineSuffix, Before, Behind;
    if a < b && IsDigit(s[a]) {
      PrefixIff(kind, s, a);
      SuffixIff(kind, s[b..]);
      if IsVersion(s[a..b]) && LineSuffix(kind, s[b..]) {
        SuffixEnds(kind, s[b..]);
        assert s[..a] + s[a..b] + s[b..] == s;
        VersionAtPut(s[..a], s[a..b], s[b..]);
      }
    }
  }

  // --- a pin -----------------------------------------------------------------------------------------------------

  /** `\s*key\s*=\s*\{` */
  ghost predicate PinHead(t: string, key: string, a: string, b: string, c: string) {
    && Blanks(a) && Blanks(b) && Blanks(c) && key != [] && (forall i | 0 <= i < |key| :: IsKeyChar(key[i]))
    && t == a + key + b + "=" + c + "{"
  }

  lemma PinKeyGives(s: string)
    requires PinKey(s).Some?
    ensures exists a, b, c :: PinHead(s[..PinKey(s).value.1], PinKey(s).value.0, a, b, c)
  {
    hide SkipBlank, SkipKey, Blanks, IsKeyChar;
    var p := SkipBlank(s, 0);
    var e := SkipKey(s, p);
    var i := SkipBlank(s, e);
    var j := SkipBlank(s, i + 1);
    BlanksBetween(s, 0);
    BlanksBetween(s, e);
    BlanksBetween(s, i + 1);
    KeyBetween(s, p);
    PinParts(s, p, e, i, j);
  }

  lemma PinParts(s: string, p: nat, e: nat, i: nat, j: nat)
    requires p < e <= i < j < |s| && s[i] == '=' && s[j] == '{'
    requires Blanks(s[0..p]) && Blanks(s[e..i]) && Blanks(s[i + 1..j])
    requires forall k | 0 <= k < e - p :: IsKeyChar(s[p..e][k])
    ensures PinHead(s[..j + 1], s[p..e], s[0..p], s[e..i], s[i + 1..j])
  {
    hide Blanks, IsKeyChar;
    Five(s, 0, p, e, i, i + 1, j);
    One(s, i);
    assert s[..j + 1] == s[0..j] + [s[j]];
  }

  lemma KeyBetween(s: string, p: nat)
    requires p <= |s|
    ensures var key := s[p..SkipKey(s, p)]; forall i | 0 <= i < |key| :: IsKeyChar(key[i])
  {
  }

  lemma SkipsKey(front: string, key: string, tail: string)
    requires (forall i | 0 <= i < |key| :: IsKeyChar(key[i])) && tail != [] && !IsKeyChar(tail[0])
    ensures SkipKey(front + key + tail, |front|) == |front| + |key|
  {
    var s := front + key + tail;
    var r, e := SkipKey(s, |front|), |front| + |key|;
    assert forall k | |front| <= k < e :: s[k] == key[k - |front|];
    assert s[e] == tail[0];
  }

  lemma PinKeyTakes(key: string, a: string, b: string, c: string, t: string, tail: string)
    requires PinHead(t, key, a, b, c)
    ensures PinKey(t + tail) == Some((key, |t|))
  {
    hide SkipBlank, SkipKey, IsKeyChar, Blanks;
    var s, e := t + tail, |a| + |key|;
    var rest := b + ("=" + c + ("{" + tail));
    Regrouped(key, a, b, c, tail);
    RestStarts(b, "=" + c + ("{" + tail));
    KeyPart(a, key, rest);
    SignPart(a + key, b, c, "{" + tail);
    assert s[|a|..e] == key;
  }

  lemma Regrouped(key: string, a: string, b: string, c: string, tail: string)
    ensures a + key + b + "=" + c + "{" + tail == a + key + (b + ("=" + c + ("{" + tail)))
  {
    assert "=" + c + "{" + tail == "=" + c + ("{" + tail);
  }

  lemma RestStarts(b: string, x: string)
    requires Blanks(b) && x != [] && x[0] == '='
    ensures b + x != [] && !IsKeyChar((b + x)[0])
  {
    if b != [] {
      assert (b + x)[0] == b[0] && IsBlank(b[0]);
    }
  }

  lemma KeyNotBlank(c: char)
    requires IsKeyChar(c)
    ensures !IsBlank(c)
  {
  }

  lemma KeyPart(a: string, key: string, rest: string)
    requires Blanks(a) && key != [] && (forall i | 0 <= i < |key| :: IsKeyChar(key[i]))
    requires rest != [] && !IsKeyChar(rest[0])
    ensures var s := a + key + rest; SkipBlank(s, 0) == |a| && SkipKey(s, |a|) == |a| + |key|
  {
    hide SkipBlank, SkipKey, Blanks, IsKeyChar, IsBlank;
    assert a + key + rest == "" + a + (key + rest);
    KeyNotBlank(key[0]);
    assert (key + rest)[0] == key[0];
    SkipsOver("", a, key + rest);
    SkipsKey(a, key, rest);
  }

  lemma SignPart(front: string, b: string, c: string, tail: string)
    requires Blanks(b) && Blanks(c) && tail != [] && tail[0] == '{'
    ensures var s, i := front + (b + ("=" + c + tail)), |front| + |b|;
            && SkipBlank(s, |front|) == i && i < |s| && s[i] == '='
            && SkipBlank(s, i + 1) == i + 1 + |c| && i + 1 + |c| < |s| && s[i + 1 + |c|] == '{'
  {
    hide SkipBlank;
    var s, x := front + (b + ("=" + c + tail)), "=" + c + tail;
    assert s == front + b + x;
    SkipsOver(front, b, x);
    var front1 := front + b + "=";
    assert s == front1 + c + tail;
    SkipsOver(front1, c, tail);
  }

  lemma PinKeyIff(s: string, key: string, q: nat)
    ensures PinKey(s) == Some((key, q)) <==> q <= |s| && exists a, b, c :: PinHead(s[..q], key, a, b, c)
  {
    hide PinKey, PinHead;
    if PinKey(s) == Some((key, q)) {
      PinKeyGives(s);
    }
    if q <= |s| {
      forall a, b, c | PinHead(s[..q], key, a, b, c) ensures PinKey(s) == Some((key, q)) {
        PinKeyTakes(key, a, b, c, s[..q], s[q..]);
        assert s == s[..q] + s[q..];
      }
    }
  }

  /** A whole word `version = "` at a place, a version in the place given, and a closing quote. */
  ghost predicate PinWord(s: string, q: nat, x: nat, y: nat) {
    && q <= x <= y < |s| && (q > 0 ==> !IsWord(s[q - 1])) && IsVersion(s[x..y]) && s[y] == '"'
    && exists b, c :: Opens(s[q..x], "version", b, c)
  }

  lemma PinAtIff(s: string, q: nat, x: nat, y: nat)
    requires q <= |s|
    ensures PinAt(s, q) == Some((x, y)) <==> PinWord(s, q, x, y)
  {
    hide Assigned, Opens;
    if PinAt(s, q) == Some((x, y)) || PinWord(s, q, x, y) {
      AssignedIff(s, q, "version", x);
    }
    if PinWord(s, q, x, y) {
      assert s[..x] + s[x..y] + s[y..] == s && s[y..][0] == '"';
      VersionAtPut(s[..x], s[x..y], s[y..]);
    }
  }

  lemma {:induction false} PinFromIff(s: string, q: nat, r: (nat, nat))
    requires q <= |s|
    ensures PinFrom(s, q) == Some(r) <==>
            exists k: nat :: q <= k <= |s| && PinAt(s, k) == Some(r) &&
                             forall j | q <= j < k :: s[j] != '}' && PinAt(s, j).None?
    decreases |s| - q
  {
    hide PinAt;
    if PinAt(s, q).None? && q < |s| && s[q] != '}' {
      PinFromIff(s, q + 1, r);
      if k: nat :| q <= k <= |s| && PinAt(s, k) == Some(r) &&
                   forall j | q <= j < k :: s[j] != '}' && PinAt(s, j).None?
      {
        assert k > q;
      }
    }
  }

  ghost predicate NoPinWord(s: string, q: nat) {
    forall x: nat, y: nat :: !PinWord(s, q, x, y)
  }

  lemma NoPinWordIff(s: string, q: nat)
    requires q <= |s|
    ensures PinAt(s, q).None? <==> NoPinWord(s, q)
  {
    hide PinAt, PinWord;
    forall x: nat, y: nat ensures PinAt(s, q) == Some((x, y)) <==> PinWord(s, q, x, y) {
      PinAtIff(s, q, x, y);
    }
    if PinAt(s, q).Some? {
      var (x, y) := PinAt(s, q).value;
      assert PinWord(s, q, x, y);
    }
  }

  ghost predicate Keyed(s: string, key: string, q: nat) {
    q <= |s| && exists a, b, c :: PinHead(s[..q], key, a, b, c)
  }

  /** The first whole word `version` set to a version in quotes, before any closing brace. */
  ghost predicate FirstPin(s: string, q: nat, k: nat, x: nat, y: nat) {
    q <= k <= |s| && PinWord(s, k, x, y) && forall j: nat | q <= j < k :: s[j] != '}' && NoPinWord(s, j)
  }

  lemma FirstPinIff(s: string, q: nat, x: nat, y: nat)
    requires q <= |s|
    ensures PinFrom(s, q) == Some((x, y)) <==> exists k: nat :: FirstPin(s, q, k, x, y)
  {
    hide PinFrom, PinAt, PinWord, NoPinWord;
    PinFromIff(s, q, (x, y));
    forall k: nat | k <= |s| ensures PinAt(s, k) == Some((x, y)) <==> PinWord(s, k, x, y) {
      PinAtIff(s, k, x, y);
    }
    forall k: nat | k <= |s| ensures PinAt(s, k).None? <==> NoPinWord(s, k) {
      NoPinWordIff(s, k);
    }
    if PinFrom(s, q) == Some((x, y)) {
      var k: nat :| q <= k <= |s| && PinAt(s, k) == Some((x, y)) &&
                    forall j | q <= j < k :: s[j] != '}' && PinAt(s, j).None?;
      assert FirstPin(s, q, k, x, y);
    }
    if k: nat :| FirstPin(s, q, k, x, y) {
      assert PinAt(s, k) == Some((x, y));
    }
  }

  /** A pin of the workspace: a key of it, an opening brace, and before any closing one the first whole word `version`
      set to a version in quotes. */
  lemma PinSpanIff(s: string, keys: set<string>, x: nat, y: nat)
    ensures PinSpan(s, keys) == Some((x, y)) <==>
            exists key, q: nat, k: nat :: key in keys && Keyed(s, key, q) && FirstPin(s, q, k, x, y)
  {
    hide PinKey, PinFrom, FirstPin, Keyed;
    forall key, q: nat ensures PinKey(s) == Some((key, q)) <==> Keyed(s, key, q) {
      KeyedIff(s, key, q);
    }
    if PinKey(s).Some? {
      var (key, q) := PinKey(s).value;
      assert Keyed(s, key, q);
      FirstPinIff(s, q, x, y);
    }
  }

  lemma KeyedIff(s: string, key: string, q: nat)
    ensures PinKey(s) == Some((key, q)) <==> Keyed(s, key, q)
  {
    hide PinKey, PinHead;
    PinKeyIff(s, key, q);
  }

  /** The line is a version line of its kind, with the version in this place. */
  ghost predicate LineSays(kind: Kind, s: string, a: nat, b: nat) {
    a <= b <= |s| && IsVersion(s[a..b]) && Before(kind, s[..a]) && Behind(kind, s[b..])
  }

  /** The line pins a crate of the workspace, with the version in this place. */
  ghost predicate PinSays(s: string, keys: set<string>, a: nat, b: nat) {
    exists key, q: nat, k: nat :: key in keys && Keyed(s, key, q) && FirstPin(s, q, k, a, b)
  }

  /** The version of a line: that of a version line of its kind, or else, in a manifest or the root manifest, that of a
      pin; the root manifest has pins alone. */
  lemma VersionSpanIff(kind: Kind, s: string, keys: set<string>, a: nat, b: nat)
    ensures VersionSpan(kind, s, keys) == Some((a, b)) <==>
              || LineSays(kind, s, a, b)
              || ((kind.Toml? || kind.Workspace?) && (forall c: nat, d: nat :: !LineSays(kind, s, c, d)) &&
                  PinSays(s, keys, a, b))
  {
    hide LineSpan, PinSpan, Before, Behind, Keyed, FirstPin;
    forall c: nat, d: nat ensures LineSpan(kind, s) == Some((c, d)) <==> LineSays(kind, s, c, d) {
      if c <= d <= |s| {
        LineSpanIff(kind, s, c, d);
      }
    }
    PinSpanIff(s, keys, a, b);
    if LineSpan(kind, s).Some? {
      var (c, d) := LineSpan(kind, s).value;
      assert LineSays(kind, s, c, d);
    }
  }
}
