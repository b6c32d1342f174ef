/**
 Reading many files of a git repository in one `git cat-file --batch` call: the answers come as one
 byte stream, whose contents may look like anything, headers included. A byte is a character here.
 */
module CatFile {
  import opened Text

  type Request = (string, string)

  function Spec(r: Request): string {
    r.0 + ":" + r.1
  }

  // --- what git writes ----------------------------------------------------------------------------

  datatype Answer = Object(sha: string, kind: string, text: string) | Missing | Ambiguous

  ghost predicate Plain(s: string) {
    forall i | 0 <= i < |s| :: s[i] != ' ' && s[i] != '\n'
  }

  ghost predicate OneLine(s: string) {
    forall i | 0 <= i < |s| :: s[i] != '\n'
  }

  /** A request without a newline and an answer git can give to it. */
  ghost predicate Answers(r: Request, a: Answer) {
    OneLine(Spec(r)) && (a.Object? ==> Plain(a.sha) && Plain(a.kind))
  }

  function Header(r: Request, a: Answer): string {
    match a
    case Object(sha, kind, text) => sha + " " + kind + " " + Decimal(|text|)
    case Missing => Spec(r) + " missing"
    case Ambiguous => Spec(r) + " ambiguous"
  }

  function Body(a: Answer): string {
    if a.Object? then a.text + "\n" else []
  }

  function Rendered(r: Request, a: Answer): string {
    Header(r, a) + "\n" + Body(a)
  }

  /** One answer per request, in order. */
  function Stream(wanted: seq<Request>, answers: seq<Answer>): string
    requires |wanted| == |answers|
  {
    if wanted == [] then [] else Rendered(wanted[0], answers[0]) + Stream(wanted[1..], answers[1..])
  }

  /** The texts of the objects, by request; the last one where a request repeats. */
  function Texts(wanted: seq<Request>, answers: seq<Answer>): map<Request, string>
    requires |wanted| == |answers|
  {
    if wanted == [] then map[]
    else
      var n := |wanted| - 1;
      var rest := Texts(wanted[..n], answers[..n]);
      if answers[n].Object? then rest[wanted[n] := answers[n].text] else rest
  }

  // --- what the checker reads -----------------------------------------------------------------------

  /** `int(header.rsplit(" ", 1)[1])` */
  function LastField(s: string): Option<nat> {
    match RFind(s, " ", |s|)
    case None => None
    case Some(i) => ParseNat(s[i + 1..])
  }

  function Min(a: nat, b: nat): nat {
    if a < b then a else b
  }

  /** One answer off the stream: the text if there is one, and where the next answer starts. */
  function Next(out: string, position: nat): Option<(Option<string>, nat)> {
    if position > |out| then None
    else match Find(out, "\n", position)
      case None => None
      case Some(end) =>
        var header, start := out[position..end], end + 1;
        if EndsWith(header, " missing") || EndsWith(header, " ambiguous") then Some((None, start))
        else match LastField(header)
          case None => None
          case Some(size) =>
            Some((Some(out[Min(start, |out|)..Min(start + size, |out|)]), start + size + 1))
  }

  /** Every answer, from a position on; None where the stream is none git writes. */
  function Read(out: string, wanted: seq<Request>, position: nat): Option<(map<Request, string>, nat)> {
    if wanted == [] then Some((map[], position))
    else
      var n := |wanted| - 1;
      match Read(out, wanted[..n], position)
      case None => None
      case Some((texts, at)) =>
        match Next(out, at)
        case None => None
        case Some((text, after)) => Some((if text.Some? then texts[wanted[n] := text.value] else texts, after))
  }

  /** `texts_at` */
  method TextsAt(out: string, wanted: seq<Request>) returns (r: Option<(map<Request, string>, nat)>)
    ensures r == Read(out, wanted, 0)
  {
    hide Next;
    var texts: map<Request, string>, position := map[], 0;
    for n := 0 to |wanted|
      invariant Read(out, wanted[..n], 0) == Some((texts, position))
    {
      assert wanted[..n + 1][..n] == wanted[..n];
      var next := Next(out, position);
      if next.None? {
        ReadStops(out, wanted, 0, n);
        return None;
      }
      if next.value.0.Some? {
        texts := texts[wanted[n] := next.value.0.value];
      }
      position := next.value.1;
    }
    assert wanted[..|wanted|] == wanted;
    return Some((texts, position));
  }

  lemma {:induction false} ReadStops(out: string, wanted: seq<Request>, position: nat, n: nat)
    requires n < |wanted| && Read(out, wanted[..n + 1], position).None?
    ensures Read(out, wanted, position).None?
  {
    hide Next;
    if n + 1 < |wanted| {
      var front := wanted[..|wanted| - 1];
      assert front[..n + 1] == wanted[..n + 1];
      ReadStops(out, front, position, n);
    } else {
      assert wanted[..n + 1] == wanted;
    }
  }

  // --- reading undoes writing -----------------------------------------------------------------------

  lemma FirstNewline(before: string, line: string, rest: string)
    requires OneLine(line)
    ensures Find(before + line + "\n" + rest, "\n", |before|) == Some(|before| + |line|)
  {
    var out, e := before + line + "\n" + rest, |before| + |line|;
    assert out[e] == '\n' && out[e..e + 1] == "\n";
    assert StartsAt(out, "\n", e);
    forall k: nat | |before| <= k < e ensures !StartsAt(out, "\n", k) {
      assert out[k] == line[k - |before|];
      assert out[k..k + 1][0] == out[k];
    }
  }

  lemma DigitsArePlain(n: nat)
    ensures Plain(Decimal(n))
  {
  }

  lemma HeaderIsOneLine(r: Request, a: Answer)
    requires Answers(r, a)
    ensures OneLine(Header(r, a))
  {
    if a.Object? {
      DigitsArePlain(|a.text|);
    }
  }

  /** The size is what follows the header's last space. */
  lemma SizeRead(front: string, n: nat)
    ensures LastField(front + " " + Decimal(n)) == Some(n)
  {
    hide ParseNat, Decimal;
    var digits := Decimal(n);
    var s, i := front + " " + digits, |front|;
    DigitsArePlain(n);
    assert s[i..i + 1] == " ";
    assert StartsAt(s, " ", i);
    forall k: nat | i < k <= |s| ensures !StartsAt(s, " ", k) {
      if k < |s| {
        assert s[k] == digits[k - i - 1];
        assert s[k..k + 1][0] == s[k];
      }
    }
    assert RFind(s, " ", |s|) == Some(i);
    assert s[i + 1..] == digits;
    DecimalRoundTrip(n);
  }

  lemma EndsInDigit(front: string, n: nat, pat: string)
    requires pat != [] && !IsDigit(pat[|pat| - 1])
    ensures !EndsWith(front + Decimal(n), pat)
  {
    hide Decimal;
    var s := front + Decimal(n);
    assert IsDigit(s[|s| - 1]) by {
      assert s[|s| - 1] == Decimal(n)[|Decimal(n)| - 1];
    }
    if |pat| <= |s| {
      assert s[|s| - |pat|..][|pat| - 1] == s[|s| - 1];
    }
  }

  lemma WordAtEnd(front: string, pat: string)
    ensures EndsWith(front + pat, pat)
  {
  }

  /** The header says which answer it heads. */
  lemma HeaderRead(r: Request, a: Answer)
    requires Answers(r, a)
    ensures (EndsWith(Header(r, a), " missing") || EndsWith(Header(r, a), " ambiguous")) <==> !a.Object?
    ensures a.Object? ==> LastField(Header(r, a)) == Some(|a.text|)
  {
    hide EndsWith, LastField, Decimal;
    match a
    case Object(sha, kind, text) =>
      var front := sha + " " + kind;
      assert Header(r, a) == front + " " + Decimal(|text|);
      SizeRead(front, |text|);
      EndsInDigit(front + " ", |text|, " missing");
      EndsInDigit(front + " ", |text|, " ambiguous");
    case Missing =>
      WordAtEnd(Spec(r), " missing");
    case Ambiguous =>
      WordAtEnd(Spec(r), " ambiguous");
  }

  lemma RenderedParts(before: string, r: Request, a: Answer, rest: string)
    ensures before + Rendered(r, a) + rest == before + Header(r, a) + "\n" + (Body(a) + rest)
    ensures |Rendered(r, a)| == |Header(r, a)| + 1 + if a.Object? then |a.text| + 1 else 0
    ensures a.Object? ==> Body(a) == a.text + "\n"
  {
    hide Header;
  }

  /** The line from a position on. */
  lemma LineRead(before: string, line: string, behind: string)
    requires OneLine(line)
    ensures var out := before + line + "\n" + behind;
            Find(out, "\n", |before|) == Some(|before| + |line|) && out[|before|..|before| + |line|] == line
  {
    hide Find, OneLine;
    FirstNewline(before, line, behind);
    Sliced(before, line, "\n" + behind);
    assert before + line + "\n" + behind == before + line + ("\n" + behind);
  }

  /** One answer is read off as it was written, whatever stands before and behind it. */
  lemma AnswerRead(before: string, r: Request, a: Answer, rest: string)
    requires Answers(r, a)
    ensures Next(before + Rendered(r, a) + rest, |before|) ==
            Some((if a.Object? then Some(a.text) else None, |before| + |Rendered(r, a)|))
  {
    hide EndsWith, LastField, Header, Find, Rendered, Body, Answers, OneLine;
    var header := Header(r, a);
    HeaderIsOneLine(r, a);
    HeaderRead(r, a);
    RenderedParts(before, r, a, rest);
    LineRead(before, header, Body(a) + rest);
    if a.Object? {
      TextSliced(before + header, a.text, rest);
    }
  }

  lemma TextSliced(front: string, text: string, rest: string)
    ensures (front + "\n" + (text + "\n" + rest))[|front| + 1..|front| + 1 + |text|] == text
  {
    Sliced(front + "\n", text, "\n" + rest);
    assert front + "\n" + (text + "\n" + rest) == (front + "\n") + text + ("\n" + rest);
  }

  lemma {:induction false} StreamSplit(wanted: seq<Request>, answers: seq<Answer>, n: nat)
    requires |wanted| == |answers| && n < |wanted|
    ensures Stream(wanted, answers) ==
            Stream(wanted[..n], answers[..n]) + Rendered(wanted[n], answers[n]) +
              Stream(wanted[n + 1..], answers[n + 1..])
  {
    hide Rendered;
    if n > 0 {
      StreamSplit(wanted[1..], answers[1..], n - 1);
      assert wanted[1..][..n - 1] == wanted[1..n] && wanted[..n][1..] == wanted[1..n] &&
             wanted[1..][n..] == wanted[n + 1..];
      assert answers[1..][..n - 1] == answers[1..n] && answers[..n][1..] == answers[1..n] &&
             answers[1..][n..] == answers[n + 1..];
    }
  }

  lemma {:induction false} ReadUpTo(wanted: seq<Request>, answers: seq<Answer>, n: nat)
    requires |wanted| == |answers| && n <= |wanted| && forall i | 0 <= i < |wanted| :: Answers(wanted[i], answers[i])
    ensures Read(Stream(wanted, answers), wanted[..n], 0) ==
            Some((Texts(wanted[..n], answers[..n]), |Stream(wanted[..n], answers[..n])|))
  {
    hide Next, Rendered, Answers;
    if n > 0 {
      var m := n - 1;
      var out := Stream(wanted, answers);
      ReadUpTo(wanted, answers, m);
      StreamSplit(wanted, answers, m);
      AnswerRead(Stream(wanted[..m], answers[..m]), wanted[m], answers[m], Stream(wanted[n..], answers[n..]));
      assert wanted[..n][..m] == wanted[..m] && answers[..n][..m] == answers[..m];
      StreamGrows(wanted[..n], answers[..n]);
    }
  }

  lemma StreamGrows(wanted: seq<Request>, answers: seq<Answer>)
    requires |wanted| == |answers| > 0
    ensures var m := |wanted| - 1;
            Stream(wanted, answers) == Stream(wanted[..m], answers[..m]) + Rendered(wanted[m], answers[m])
  {
    hide Rendered;
    StreamSplit(wanted, answers, |wanted| - 1);
  }

  /** Reading the batch gives back exactly the texts that exist, and ends where the stream ends. */
  lemma ReadInvertsStream(wanted: seq<Request>, answers: seq<Answer>)
    requires |wanted| == |answers| && forall i | 0 <= i < |wanted| :: Answers(wanted[i], answers[i])
    ensures Read(Stream(wanted, answers), wanted, 0) == Some((Texts(wanted, answers), |Stream(wanted, answers)|))
  {
    hide Next, Stream, Texts, Read, Answers;
    ReadUpTo(wanted, answers, |wanted|);
    assert wanted[..|wanted|] == wanted && answers[..|answers|] == answers;
  }

  /** Where equal requests have equal answers, as git gives them, a text is there exactly when its object is. */
  lemma {:induction false} TextsExact(wanted: seq<Request>, answers: seq<Answer>, i: nat)
    requires |wanted| == |answers| && i < |wanted|
    requires forall j, k | 0 <= j < |wanted| && 0 <= k < |wanted| && wanted[j] == wanted[k] :: answers[j] == answers[k]
    ensures wanted[i] in Texts(wanted, answers) <==> answers[i].Object?
    ensures answers[i].Object? ==> Texts(wanted, answers)[wanted[i]] == answers[i].text
  {
    var n := |wanted| - 1;
    if i < n {
      TextsExact(wanted[..n], answers[..n], i);
    } else if exists j :: 0 <= j < n && wanted[j] == wanted[n] {
      var j :| 0 <= j < n && wanted[j] == wanted[n];
      TextsExact(wanted[..n], answers[..n], j);
    } else {
      TextsWithin(wanted[..n], answers[..n]);
    }
  }

  lemma {:induction false} TextsWithin(wanted: seq<Request>, answers: seq<Answer>)
    requires |wanted| == |answers|
    ensures forall r | r in Texts(wanted, answers) :: r in wanted
  {
    if wanted != [] {
      TextsWithin(wanted[..|wanted| - 1], answers[..|wanted| - 1]);
    }
  }
}
