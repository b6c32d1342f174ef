/**
 The memory of the node-health monitor: the marker at the end of an issue body.
 A timestamp is its number of seconds; the marker spells it in decimal.
 */
module IssueMarker {
  import opened Text
  import opened Json
  import opened Delimited

  const MARKER_PREFIX := "<!-- ci-node-health "
  const MARKER_SUFFIX := " -->"

  /** What a marker remembers between runs; `nodes` is the dictionary in its printed order. */
  datatype IssueState = IssueState(
    number: nat, key: string, firstSeen: nat, lastSeen: nat, lastComment: Option<nat>, nodes: seq<(string, nat)>)

  function ScopesOf(nodes: seq<(string, nat)>): set<string> {
    set i | 0 <= i < |nodes| :: nodes[i].0
  }

  /** `nodes.get(scope, default)` */
  function SeenSince(nodes: seq<(string, nat)>, scope: string, default: nat): nat {
    if nodes == [] then default
    else if nodes[0].0 == scope then nodes[0].1
    else SeenSince(nodes[1..], scope, default)
  }

  // --- printing --------------------------------------------------------------------

  function Stamp(t: nat): Value {
    Str(Decimal(t))
  }

  function NodesJson(nodes: seq<(string, nat)>): Fields {
    if nodes == [] then End else Field(nodes[0].0, Stamp(nodes[0].1), NodesJson(nodes[1..]))
  }

  function StateJson(s: IssueState): Value {
    Obj(Field("first_seen", Stamp(s.firstSeen),
        Field("key", Str(s.key),
        Field("last_comment", if s.lastComment.Some? then Stamp(s.lastComment.value) else Null,
        Field("last_seen", Stamp(s.lastSeen),
        Field("nodes", Obj(NodesJson(s.nodes)), End))))))
  }

  function ClosedJson(key: string, now: nat): Value {
    Obj(Field("key", Str(key), Field("closed", Stamp(now), End)))
  }

  /** A body: whatever text stands above, then the marker. */
  function Body(head: string, marker: Value): string {
    head + MARKER_PREFIX + Dumps(marker) + MARKER_SUFFIX + "\n"
  }

  // --- parsing ---------------------------------------------------------------------

  function MarkerText(body: string): Option<string> {
    Extract(body, MARKER_PREFIX, MARKER_SUFFIX)
  }

  /** `_marker`: the dictionary, or nothing. */
  function Marker(body: string): Option<Fields> {
    match MarkerText(body)
    case None => None
    case Some(text) =>
      match Loads(text)
      case Some(Obj(fs)) => Some(fs)
      case _ => None
  }

  /** The value a dictionary holds under a key: the last one printed. */
  function Get(fs: Fields, name: string): Option<Value> {
    match fs
    case End => None
    case Field(k, v, more) =>
      var later := Get(more, name);
      if later.Some? then later else if k == name then Some(v) else None
  }

  function TimeOf(v: Option<Value>): Option<nat> {
    match v
    case Some(Str(t)) => ParseNat(t)
    case _ => None
  }

  function NodesOf(fs: Fields): Option<seq<(string, nat)>> {
    match fs
    case End => Some([])
    case Field(k, v, more) =>
      match (TimeOf(Some(v)), NodesOf(more))
      case (Some(t), Some(rest)) => Some([(k, t)] + rest)
      case _ => None
  }

  /** `parse_issue`: None for a body that is not the monitor's. */
  function ParseIssue(number: nat, body: string): (r: Option<IssueState>)
    ensures r.Some? ==> r.value.number == number
  {
    match Marker(body)
    case None => None
    case Some(fs) => StateOf(number, fs)
  }

  function StateOf(number: nat, fs: Fields): (r: Option<IssueState>)
    ensures r.Some? ==> r.value.number == number
  {
    var key, first, last := Get(fs, "key"), TimeOf(Get(fs, "first_seen")), TimeOf(Get(fs, "last_seen"));
    var comment, nodes := Get(fs, "last_comment"), NodesIn(fs);
    if !(key.Some? && key.value.Str? && first.Some? && last.Some? && nodes.Some?) then None
    else if comment.None? || comment.value in {Null, Str([]), Obj(End)} then
      Some(IssueState(number, key.value.text, first.value, last.value, None, nodes.value))
    else if TimeOf(comment).None? then None
    else Some(IssueState(number, key.value.text, first.value, last.value, TimeOf(comment), nodes.value))
  }

  /** `marker.get("nodes", {})` as times. */
  function NodesIn(fs: Fields): Option<seq<(string, nat)>> {
    match Get(fs, "nodes")
    case None => Some([])
    case Some(Obj(nodes)) => NodesOf(nodes)
    case _ => None
  }

  /** The scopes a closed issue's marker lists: none for one the monitor closed itself. */
  function ClosedScopes(body: string): Option<(string, set<string>)> {
    match Marker(body)
    case None => None
    case Some(fs) =>
      match (Get(fs, "key"), Get(fs, "nodes"))
      case (Some(Str(key)), None) => Some((key, {}))
      case (Some(Str(key)), Some(Obj(nodes))) => Some((key, Keys(nodes)))
      case _ => None
  }

  function Keys(fs: Fields): set<string> {
    match fs
    case End => {}
    case Field(k, _, more) => {k} + Keys(more)
  }

  // --- parsing undoes printing ---------------------------------------------------------

  /** No marker text in the key or in a scope. */
  ghost predicate CleanState(s: IssueState) {
    forall pat | pat in {MARKER_PREFIX, MARKER_SUFFIX} :: Clean(StateJson(s), pat)
  }

  ghost predicate CleanText(t: string) {
    !Contains(t, MARKER_PREFIX) && !Contains(t, MARKER_SUFFIX)
  }

  lemma MarkersInert()
    ensures Inert(MARKER_PREFIX) && Inert(MARKER_SUFFIX)
  {
  }

  /** A clean state is one whose key and scopes are clean: stamps and field names always are. */
  lemma CleanStateIff(s: IssueState)
    ensures CleanState(s) <==> CleanText(s.key) && forall i | 0 <= i < |s.nodes| :: CleanText(s.nodes[i].0)
  {
    forall pat | pat in {MARKER_PREFIX, MARKER_SUFFIX}
      ensures Clean(StateJson(s), pat)
         <==> !Contains(s.key, pat) && forall i | 0 <= i < |s.nodes| :: !Contains(s.nodes[i].0, pat)
    {
      NodesClean(s.nodes, pat);
      CleanStamp(s.firstSeen, pat);
      CleanStamp(s.lastSeen, pat);
      if s.lastComment.Some? {
        CleanStamp(s.lastComment.value, pat);
      }
      NamesClean(pat);
      var comment := if s.lastComment.Some? then Stamp(s.lastComment.value) else Null;
      var nodes := Field("nodes", Obj(NodesJson(s.nodes)), End);
      var last := Field("last_seen", Stamp(s.lastSeen), nodes);
      assert CleanFields(nodes, pat) <==> CleanFields(NodesJson(s.nodes), pat);
      assert CleanFields(last, pat) <==> CleanFields(nodes, pat);
      var commented := Field("last_comment", comment, last);
      assert CleanFields(commented, pat) <==> CleanFields(last, pat);
      var keyed := Field("key", Str(s.key), commented);
      assert CleanFields(keyed, pat) <==> !Contains(s.key, pat) && CleanFields(commented, pat);
      assert StateJson(s) == Obj(Field("first_seen", Stamp(s.firstSeen), keyed));
    }
  }

  lemma CleanStamp(t: nat, pat: string)
    requires pat in {MARKER_PREFIX, MARKER_SUFFIX}
    ensures Clean(Stamp(t), pat)
  {
    DigitsHoldNo(Decimal(t), pat);
  }

  lemma NoBlank(t: string, pat: string)
    requires pat in {MARKER_PREFIX, MARKER_SUFFIX} && ' ' !in t
    ensures !Contains(t, pat)
  {
    forall i: nat | i + |pat| <= |t| ensures !StartsAt(t, pat, i) {
      assert forall k | i <= k < i + |pat| :: t[k] == t[i..i + |pat|][k - i] && t[k] in t;
      assert ' ' == if |pat| == 4 then pat[0] else pat[4];
    }
  }

  lemma NamesClean(pat: string)
    requires pat in {MARKER_PREFIX, MARKER_SUFFIX}
    ensures !Contains("first_seen", pat) && !Contains("key", pat) && !Contains("last_comment", pat)
    ensures !Contains("last_seen", pat) && !Contains("nodes", pat) && !Contains("closed", pat)
  {
    NoBlank("first_seen", pat); NoBlank("key", pat); NoBlank("last_comment", pat);
    NoBlank("last_seen", pat); NoBlank("nodes", pat); NoBlank("closed", pat);
  }

  lemma {:induction false} NodesClean(nodes: seq<(string, nat)>, pat: string)
    requires pat in {MARKER_PREFIX, MARKER_SUFFIX}
    ensures CleanFields(NodesJson(nodes), pat) <==> forall i | 0 <= i < |nodes| :: !Contains(nodes[i].0, pat)
  {
    if nodes != [] {
      CleanStamp(nodes[0].1, pat);
      NodesClean(nodes[1..], pat);
      assert forall i | 0 < i < |nodes| :: nodes[i] == nodes[1..][i - 1];
    }
  }

  lemma {:induction false} NodesRoundTrip(nodes: seq<(string, nat)>)
    ensures NodesOf(NodesJson(nodes)) == Some(nodes)
    ensures Keys(NodesJson(nodes)) == ScopesOf(nodes)
  {
    if nodes != [] {
      DecimalRoundTrip(nodes[0].1);
      NodesRoundTrip(nodes[1..]);
      assert nodes == [nodes[0]] + nodes[1..];
    }
  }

  /** The text the reader takes out of a body is the text printed into it exactly when that text
      holds no marker of its own, whatever stands above. */
  lemma MarkerTextExact(head: string, fs: Fields)
    ensures MarkerText(Body(head, Obj(fs))) == Some(Dumps(Obj(fs)))
       <==> !Contains(Dumps(Obj(fs)), MARKER_PREFIX) && !Contains(Dumps(Obj(fs)), MARKER_SUFFIX)
  {
    BracesAround(fs);
    MarkersDelimit();
    ExtractExact(head, Dumps(Obj(fs)), "\n", MARKER_PREFIX, MARKER_SUFFIX);
  }

  lemma MarkersDelimit()
    ensures Delimiters(MARKER_PREFIX, MARKER_SUFFIX, "\n")
  {
    forall k: nat | k + 4 <= |MARKER_PREFIX| ensures !StartsAt(MARKER_PREFIX, MARKER_SUFFIX, k) {
      assert MARKER_PREFIX[k..k + 4][3] == MARKER_PREFIX[k + 3] != '>';
    }
  }

  lemma BracesAround(fs: Fields)
    ensures Braced(Dumps(Obj(fs)))
  {
    hide FieldsTo, MoreTo;
    FieldsEnd(fs, []);
    LastOfEnd(FieldsTo(fs, []), '}');
  }

  lemma LastOfEnd(s: string, c: char)
    requires EndsWith(s, [c] + [])
    ensures s != [] && s[|s| - 1] == c
  {
    assert s[|s| - 1..][0] == s[|s| - 1];
  }

  lemma EndsTransitive(a: string, b: string, c: string)
    requires EndsWith(a, b) && EndsWith(b, c)
    ensures EndsWith(a, c)
  {
    assert a[|a| - |c|..] == a[|a| - |b|..][|b| - |c|..];
  }

  lemma CharEnd(c: char, rest: string)
    ensures EndsWith(CharTo(c, rest), rest)
  {
    var n := c as int;
    if 0x10000 <= n {
      EndsTransitive(CharTo(c, rest), UnitTo(0xdc00 + (n - 0x10000) % 1024, rest), rest);
    }
  }

  lemma {:induction false} CharsEnd(t: string, rest: string)
    ensures EndsWith(CharsTo(t, rest), rest)
  {
    if t != [] {
      CharsEnd(t[1..], rest);
      CharEnd(t[0], CharsTo(t[1..], rest));
      EndsTransitive(CharsTo(t, rest), CharsTo(t[1..], rest), rest);
    }
  }

  lemma {:induction false} ValueEnd(v: Value, rest: string)
    ensures EndsWith(ValueTo(v, rest), rest)
    decreases v
  {
    match v
    case Null =>
    case Str(t) =>
      CharsEnd(t, rest);
    case Obj(fs) =>
      FieldsEnd(fs, rest);
      EndsTransitive(FieldsTo(fs, rest), ['}'] + rest, rest);
  }

  lemma {:induction false} FieldsEnd(fs: Fields, rest: string)
    ensures EndsWith(FieldsTo(fs, rest), ['}'] + rest) && EndsWith(MoreTo(fs, rest), ['}'] + rest)
    decreases fs
  {
    if fs.Field? {
      var more := MoreTo(fs.more, rest);
      var value := ValueTo(fs.value, more);
      FieldsEnd(fs.more, rest);
      ValueEnd(fs.value, more);
      EndsTransitive(value, more, ['}'] + rest);
      var colon := [':', ' '] + value;
      CharsEnd(fs.key, colon);
      EndsTransitive(CharsTo(fs.key, colon), colon, value);
      EndsTransitive(CharsTo(fs.key, colon), value, ['}'] + rest);
      EndsTransitive(FieldsTo(fs, rest), CharsTo(fs.key, colon), ['}'] + rest);
      assert MoreTo(fs, rest) == [',', ' '] + FieldsTo(fs, rest);
      EndsTransitive(MoreTo(fs, rest), FieldsTo(fs, rest), ['}'] + rest);
    }
  }

  /** The marker text survives the body exactly when the state's key and scopes are clean. */
  lemma MarkerSurvivesIff(head: string, s: IssueState)
    ensures MarkerText(Body(head, StateJson(s))) == Some(Dumps(StateJson(s)))
       <==> CleanText(s.key) && forall i | 0 <= i < |s.nodes| :: CleanText(s.nodes[i].0)
  {
    MarkersInert();
    MarkerTextExact(head, StateJson(s).fields);
    CleanStateIff(s);
    forall pat | pat in {MARKER_PREFIX, MARKER_SUFFIX}
      ensures Contains(Dumps(StateJson(s)), pat) <==> !Clean(StateJson(s), pat)
    {
      if Contains(Dumps(StateJson(s)), pat) {
        PeelValue(StateJson(s), [], pat);
        TooShort([], pat);
      }
      if !Clean(StateJson(s), pat) {
        ValueHolds(StateJson(s), [], pat);
      }
    }
  }

  /** `parse_issue(render_body(state)) == state`, whatever the text above the marker. */
  lemma StateRoundTrip(head: string, s: IssueState)
    requires CleanText(s.key) && forall i | 0 <= i < |s.nodes| :: CleanText(s.nodes[i].0)
    ensures ParseIssue(s.number, Body(head, StateJson(s))) == Some(s)
    ensures ClosedScopes(Body(head, StateJson(s))) == Some((s.key, ScopesOf(s.nodes)))
  {
    MarkerSurvivesIff(head, s);
    LoadsDumps(StateJson(s));
    StateOfJson(s);
  }

  lemma StateOfJson(s: IssueState)
    ensures StateOf(s.number, StateJson(s).fields) == Some(s)
    ensures Get(StateJson(s).fields, "key") == Some(Str(s.key))
    ensures Get(StateJson(s).fields, "nodes") == Some(Obj(NodesJson(s.nodes)))
    ensures Keys(NodesJson(s.nodes)) == ScopesOf(s.nodes)
  {
    DecimalRoundTrip(s.firstSeen);
    DecimalRoundTrip(s.lastSeen);
    NodesRoundTrip(s.nodes);
    var comment := if s.lastComment.Some? then Stamp(s.lastComment.value) else Null;
    if s.lastComment.Some? {
      DecimalRoundTrip(s.lastComment.value);
    }
    var nodes := Field("nodes", Obj(NodesJson(s.nodes)), End);
    var last := Field("last_seen", Stamp(s.lastSeen), nodes);
    var commented := Field("last_comment", comment, last);
    var keyed := Field("key", Str(s.key), commented);
    assert StateJson(s).fields == Field("first_seen", Stamp(s.firstSeen), keyed);
    assert |"first_seen"| == 10 && |"key"| == 3 && |"last_comment"| == 12 && |"last_seen"| == 9 && |"nodes"| == 5;
    forall name ensures Get(nodes, name) == if name == "nodes" then Some(Obj(NodesJson(s.nodes))) else None {
    }
    forall name ensures Get(last, name) == if name == "last_seen" then Some(Stamp(s.lastSeen)) else Get(nodes, name) {
    }
    forall name ensures Get(commented, name) == if name == "last_comment" then Some(comment) else Get(last, name) {
    }
    forall name ensures Get(keyed, name) == if name == "key" then Some(Str(s.key)) else Get(commented, name) {
    }
    var fs := StateJson(s).fields;
    assert TimeOf(Get(fs, "first_seen")) == Some(s.firstSeen);
    assert TimeOf(Get(fs, "last_seen")) == Some(s.lastSeen);
    assert Get(fs, "last_comment") == Some(comment);
    assert Get(fs, "nodes") == Some(Obj(NodesJson(s.nodes)));
    assert NodesIn(fs) == NodesOf(NodesJson(s.nodes));
    assert Get(fs, "key") == Some(Str(s.key));
  }

  /** An issue's scopes are found again when it is closed by someone else. */
  lemma ClosedAsParsed(number: nat, body: string)
    requires ParseIssue(number, body).Some?
    ensures var s := ParseIssue(number, body).value; ClosedScopes(body) == Some((s.key, ScopesOf(s.nodes)))
  {
    hide MarkerText, Json.Loads, Get;
    var fs := Marker(body).value;
    if Get(fs, "nodes").Some? {
      NodesOfKeys(Get(fs, "nodes").value.fields);
    } else {
      assert ScopesOf([]) == {};
    }
  }

  lemma {:induction false} NodesOfKeys(fs: Fields)
    requires NodesOf(fs).Some?
    ensures Keys(fs) == ScopesOf(NodesOf(fs).value)
  {
    if fs.Field? {
      NodesOfKeys(fs.more);
      var nodes, rest := NodesOf(fs).value, NodesOf(fs.more).value;
      assert nodes == [(fs.key, nodes[0].1)] + rest;
      assert forall i | 0 < i < |nodes| :: nodes[i] == rest[i - 1];
      assert forall i | 0 <= i < |rest| :: rest[i] == nodes[i + 1];
    }
  }

  /** What a monitor-closed body leaves behind names no scope. */
  lemma ClosedBodyNamesNothing(head: string, key: string, now: nat)
    requires CleanText(key)
    ensures ClosedScopes(Body(head, ClosedJson(key, now))) == Some((key, {}))
  {
    var v := ClosedJson(key, now);
    MarkersInert();
    forall pat | pat in {MARKER_PREFIX, MARKER_SUFFIX} ensures !Contains(Dumps(v), pat) {
      CleanStamp(now, pat);
      NamesClean(pat);
      assert CleanFields(Field("closed", Stamp(now), End), pat);
      assert Clean(v, pat);
      if Contains(Dumps(v), pat) {
        PeelValue(v, [], pat);
        TooShort([], pat);
      }
    }
    MarkerTextExact(head, v.fields);
    LoadsDumps(v);
    assert |"closed"| == 6 && |"key"| == 3 && |"nodes"| == 5;
    assert Get(Field("closed", Stamp(now), End), "key") == None;
    assert Get(Field("closed", Stamp(now), End), "nodes") == None;
  }

  // --- a string that holds a marker prints it ---------------------------------------------

  lemma Prepend(a: string, s: string, pat: string)
    requires Contains(s, pat)
    ensures Contains(a + s, pat)
  {
    var i: nat :| i <= |s| && StartsAt(s, pat, i);
    assert (a + s)[|a| + i..|a| + i + |pat|] == s[i..i + |pat|];
    assert StartsAt(a + s, pat, |a| + i);
  }

  lemma HoldsEnd(a: string, b: string, pat: string)
    requires EndsWith(a, b) && Contains(b, pat)
    ensures Contains(a, pat)
  {
    assert a == a[..|a| - |b|] + b;
    Prepend(a[..|a| - |b|], b, pat);
  }

  lemma {:induction false} FrontPrinted(t: string, rest: string, pat: string)
    requires forall i | 0 <= i < |pat| :: Plain(pat[i])
    requires StartsAt(t, pat, 0)
    ensures StartsAt(CharsTo(t, rest), pat, 0)
  {
    if pat != [] {
      assert t[0..|pat|][0] == t[0] && t[1..][0..|pat| - 1] == t[0..|pat|][1..];
      FrontPrinted(t[1..], rest, pat[1..]);
      var s, tail := CharsTo(t, rest), CharsTo(t[1..], rest);
      assert s == [t[0]] + tail;
      assert s[0..|pat|] == [t[0]] + tail[0..|pat| - 1];
    }
  }

  lemma {:induction false} CharsHold(t: string, rest: string, pat: string)
    requires Inert(pat) && Contains(t, pat)
    ensures Contains(CharsTo(t, rest), pat)
  {
    if StartsAt(t, pat, 0) {
      FrontPrinted(t, rest, pat);
    } else {
      TooShort([], pat);
      assert t == [t[0]] + t[1..];
      PeelAbsent(t[0], t[1..], pat);
      CharsHold(t[1..], rest, pat);
      CharEnd(t[0], CharsTo(t[1..], rest));
      HoldsEnd(CharsTo(t, rest), CharsTo(t[1..], rest), pat);
    }
  }

  lemma {:induction false} ValueHolds(v: Value, rest: string, pat: string)
    requires Inert(pat) && !Clean(v, pat)
    ensures Contains(ValueTo(v, rest), pat)
    decreases v
  {
    match v
    case Str(t) =>
      CharsHold(t, rest, pat);
      Prepend(['"'], CharsTo(t, rest), pat);
    case Obj(fs) =>
      FieldsHold(fs, rest, pat);
      Prepend(['{'], FieldsTo(fs, rest), pat);
  }

  lemma {:induction false} FieldsHold(fs: Fields, rest: string, pat: string)
    requires Inert(pat) && !CleanFields(fs, pat)
    ensures Contains(FieldsTo(fs, rest), pat) && Contains(MoreTo(fs, rest), pat)
    decreases fs
  {
    var more := MoreTo(fs.more, rest);
    var value := ValueTo(fs.value, more);
    var colon := [':', ' '] + value;
    if Contains(fs.key, pat) {
      CharsHold(fs.key, colon, pat);
    } else {
      if !Clean(fs.value, pat) {
        ValueHolds(fs.value, more, pat);
      } else {
        FieldsHold(fs.more, rest, pat);
        ValueEnd(fs.value, more);
        HoldsEnd(value, more, pat);
      }
      Prepend([':', ' '], value, pat);
      CharsEnd(fs.key, colon);
      HoldsEnd(CharsTo(fs.key, colon), colon, pat);
    }
    Prepend(['"'], CharsTo(fs.key, colon), pat);
    assert MoreTo(fs, rest) == [',', ' '] + FieldsTo(fs, rest);
    Prepend([',', ' '], FieldsTo(fs, rest), pat);
  }
}
