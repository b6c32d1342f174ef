/** Text between a prefix and a suffix, read back from the end of a larger text. */
module Delimited {
  import opened Text

  /** The text between the last `prefix` and the first `suffix` from there on. */
  function Extract(body: string, prefix: string, suffix: string): Option<string> {
    match RFind(body, prefix, |body|)
    case None => None
    case Some(start) =>
      match Find(body, suffix, start)
      case None => None
      case Some(end) =>
        if start + |prefix| <= end <= |body| then Some(body[start + |prefix|..end]) else Some([])
  }

  ghost predicate Braced(j: string) {
    |j| >= 2 && j[0] == '{' && j[|j| - 1] == '}'
  }

  /** Delimiters that cannot run into a braced text or into each other. */
  ghost predicate Delimiters(prefix: string, suffix: string, tail: string) {
    && prefix != [] && suffix != []
    && (forall c | c in {'{', '}'} :: c !in prefix && c !in suffix)
    && |suffix| + |tail| < |prefix| && !Contains(prefix, suffix)
  }

  /** A braced text is read back from under any other text exactly when it holds neither delimiter. */
  lemma ExtractExact(head: string, j: string, tail: string, prefix: string, suffix: string)
    requires Braced(j) && Delimiters(prefix, suffix, tail)
    ensures Extract(head + prefix + j + suffix + tail, prefix, suffix) == Some(j)
       <==> !Contains(j, prefix) && !Contains(j, suffix)
  {
    var body := head + prefix + j + suffix + tail;
    var start, mid, stop := |head|, |head| + |prefix|, |head| + |prefix| + |j|;
    assert body[start..mid] == prefix && body[mid..stop] == j && body[stop..stop + |suffix|] == suffix;
    forall i: nat | start < i <= |body| && StartsAt(body, prefix, i) ensures Contains(j, prefix) {
      PrefixInside(head, j, suffix + tail, prefix, i);
      assert head + prefix + j + (suffix + tail) == body;
    }
    forall i: nat | start <= i < stop && StartsAt(body, suffix, i) ensures Contains(j, suffix) {
      SuffixInside(head, j, tail, prefix, suffix, i);
    }
    if Contains(j, prefix) {
      LaterPrefix(body, start, stop, prefix, suffix);
    } else if Contains(j, suffix) {
      EarlierSuffix(body, start, stop, prefix, suffix);
    } else {
      OneMarker(body, start, stop, prefix, suffix);
    }
  }

  lemma InBody(body: string, from: nat, to: nat, pat: string) returns (i: nat)
    requires from <= to <= |body| && Contains(body[from..to], pat)
    ensures from <= i && i + |pat| <= to && StartsAt(body, pat, i)
  {
    var k: nat :| k <= to - from && StartsAt(body[from..to], pat, k);
    InSlice(body, from, to, pat, k);
    i := from + k;
  }

  lemma Occurs(s: string, pat: string, i: nat, from: nat, to: nat)
    requires from <= i && i + |pat| <= to <= |s| && StartsAt(s, pat, i)
    ensures Contains(s[from..to], pat)
  {
    InSlice(s, from, to, pat, i - from);
    assert StartsAt(s[from..to], pat, i - from);
  }

  lemma OneMarker(body: string, start: nat, stop: nat, prefix: string, suffix: string)
    requires start + |prefix| <= stop <= |body| && StartsAt(body, prefix, start) && StartsAt(body, suffix, stop)
    requires forall i: nat | start < i <= |body| :: !StartsAt(body, prefix, i)
    requires forall i: nat | start <= i < stop :: !StartsAt(body, suffix, i)
    ensures Extract(body, prefix, suffix) == Some(body[start + |prefix|..stop])
  {
    assert RFind(body, prefix, |body|) == Some(start);
    assert Find(body, suffix, start) == Some(stop);
  }

  lemma LaterPrefix(body: string, start: nat, stop: nat, prefix: string, suffix: string)
    requires start + |prefix| < stop && StartsAt(body, suffix, stop) && |body| < stop + |prefix|
    requires Contains(body[start + |prefix|..stop], prefix) && prefix != []
    ensures Extract(body, prefix, suffix) != Some(body[start + |prefix|..stop])
  {
    var i := InBody(body, start + |prefix|, stop, prefix);
    var from := RFind(body, prefix, |body|).value;
    assert start < i <= from <= stop;
    assert Find(body, suffix, from).Some? && Find(body, suffix, from).value <= stop;
  }

  lemma EarlierSuffix(body: string, start: nat, stop: nat, prefix: string, suffix: string)
    requires start + |prefix| < stop <= |body| && StartsAt(body, prefix, start)
    requires forall i: nat | start < i <= |body| :: !StartsAt(body, prefix, i)
    requires Contains(body[start + |prefix|..stop], suffix) && suffix != []
    ensures Extract(body, prefix, suffix) != Some(body[start + |prefix|..stop])
  {
    var i := InBody(body, start + |prefix|, stop, suffix);
    assert RFind(body, prefix, |body|) == Some(start);
    assert Find(body, suffix, start).Some? && Find(body, suffix, start).value <= i < stop;
  }

  lemma PrefixInside(head: string, j: string, after: string, prefix: string, i: nat)
    requires Braced(j) && prefix != [] && '{' !in prefix && '}' !in prefix && |after| < |prefix|
    requires |head| < i && StartsAt(head + prefix + j + after, prefix, i)
    ensures Contains(j, prefix)
  {
    var body := head + prefix + j + after;
    Occurs(body, prefix, i, |head| + 1, |body|);
    assert body[|head| + 1..|body|] == prefix[1..] + j + after;
    Around(prefix[1..], j, after, prefix);
    TooShort(prefix[1..], prefix);
    TooShort(after, prefix);
  }

  lemma SuffixInside(head: string, j: string, tail: string, prefix: string, suffix: string, i: nat)
    requires Braced(j) && Delimiters(prefix, suffix, tail)
    requires |head| <= i < |head| + |prefix| + |j|
    requires StartsAt(head + prefix + j + suffix + tail, suffix, i)
    ensures Contains(j, suffix)
  {
    var body := head + prefix + j + suffix + tail;
    var most := |head| + |prefix| + |j| + |suffix| - 1;
    Occurs(body, suffix, i, |head|, most);
    assert body[|head|..most] == prefix + j + suffix[..|suffix| - 1];
    Around(prefix, j, suffix[..|suffix| - 1], suffix);
    TooShort(suffix[..|suffix| - 1], suffix);
  }

  /** A delimiter in text around a braced one is on one side of it or within it. */
  lemma Around(a: string, j: string, b: string, pat: string)
    requires Braced(j) && pat != [] && '{' !in pat && '}' !in pat && Contains(a + j + b, pat)
    ensures Contains(a, pat) || Contains(j, pat) || Contains(b, pat)
  {
    var inner := j[1..|j| - 1];
    assert a + j + b == a + ['{'] + (inner + ['}'] + b);
    ContainsAcross(a, '{', inner + ['}'] + b, pat);
    if !Contains(a, pat) {
      ContainsAcross(inner, '}', b, pat);
      if Contains(inner, pat) {
        var k := InBody(j, 1, |j| - 1, pat);
      }
    }
  }
}
