/**
 Whole histories of the monitor: any sequence of runs, each possibly cut short by the GitHub API,
 and of issues closed by a human. Time never goes back.
 */
module NodeHealthHistory {
  import opened Text
  import opened IssueMarker
  import opened NodeHealth

  const HOUR := 3600
  const DAY := 86400
  const NINETY_MINUTES := 5400

  // --- the invariant of every reachable world -----------------------------------------------

  ghost function StateAt(issues: seq<Issue>, n: nat): Option<IssueState> {
    if n < |issues| && issues[n].open then ParseIssue(n, issues[n].body) else None
  }

  /** An issue's memory is in order: what it says was true at some run, and its comments are paid
      for by days that passed. */
  ghost predicate InOrder(m: Monitor, s: IssueState, comments: nat, clock: nat) {
    && s.key in m.checks
    && (forall i | 0 <= i < |s.nodes| :: CleanText(s.nodes[i].0))
    && s.firstSeen <= s.lastSeen <= clock
    && if m.checks[s.key].event
       then s.lastComment.Some? && s.firstSeen + DAY * comments <= s.lastComment.value <= s.lastSeen
       else s.lastComment.None? && comments == 0
  }

  ghost predicate Inv(m: Monitor, w: World) {
    && ValidMonitor(m)
    && (forall n: nat | n < |w.issues| && w.issues[n].open ::
          StateAt(w.issues, n).Some? && InOrder(m, StateAt(w.issues, n).value, |w.issues[n].comments|, w.clock))
    && (forall a: nat, b: nat | a < b && StateAt(w.issues, a).Some? && StateAt(w.issues, b).Some? ::
          StateAt(w.issues, a).value.key != StateAt(w.issues, b).value.key)
  }

  // --- the state of a check's open issue ------------------------------------------------------

  lemma {:induction false} StateForIsLast(issues: seq<Issue>, key: string)
    ensures var r := StateFor(issues, key);
            && (r.Some? ==> r.value.key == key && StateAt(issues, r.value.number) == r)
            && (forall n: nat | StateAt(issues, n).Some? && StateAt(issues, n).value.key == key ::
                  r.Some? && n <= r.value.number)
  {
    hide ParseIssue, StateFor;
    if issues == [] {
      assert StateFor(issues, key).None? by { StateForEmpty(key); }
    } else {
      var last := |issues| - 1;
      var shorter := issues[..last];
      StateForIsLast(shorter, key);
      StateForExtend(issues, key);
      assert forall n: nat | n < last :: StateAt(shorter, n) == StateAt(issues, n);
    }
  }

  lemma StateForEmpty(key: string)
    ensures StateFor([], key).None?
  {
  }

  lemma StateForExtend(issues: seq<Issue>, key: string)
    requires issues != []
    ensures var last := |issues| - 1;
            StateFor(issues, key) ==
              if StateAt(issues, last).Some? && StateAt(issues, last).value.key == key
              then StateAt(issues, last) else StateFor(issues[..last], key)
  {
    hide ParseIssue;
    var xs := OpenStates(issues[..|issues| - 1]);
    var state := StateAt(issues, |issues| - 1);
    if state.Some? {
      assert OpenStates(issues) == xs + [state.value];
      assert (xs + [state.value])[..|xs|] == xs;
    } else {
      assert OpenStates(issues) == xs + [] == xs;
    }
  }

  /** With one open issue per check, its state is the only one. */
  lemma StateForIff(m: Monitor, w: World, key: string)
    requires Inv(m, w)
    ensures var r := StateFor(w.issues, key);
            && (r.Some? ==> r.value.key == key && StateAt(w.issues, r.value.number) == r)
            && (forall n: nat | StateAt(w.issues, n).Some? && StateAt(w.issues, n).value.key == key ::
                  r == StateAt(w.issues, n))
  {
    hide ParseIssue, StateFor;
    StateForIsLast(w.issues, key);
  }

  // --- one operation ----------------------------------------------------------------------------

  ghost predicate Legit(m: Monitor, w: World, n: nat, key: string, body: string, comments: nat) {
    var s := ParseIssue(n, body);
    s.Some? && s.value.key == key && InOrder(m, s.value, comments, w.clock)
  }

  /** The operation fits the world it is carried out in. */
  ghost predicate Fits(m: Monitor, w: World, op: Op) {
    var known := StateFor(w.issues, op.key);
    match op
    case Create(key, _, body) => known.None? && Legit(m, w, |w.issues|, key, body, 0)
    case Update(n, key, _, body) =>
      known.Some? && known.value.number == n && n < |w.issues| && Legit(m, w, n, key, body, |w.issues[n].comments|)
    case Comment(n, key, _) =>
      known.Some? && known.value.number == n && n < |w.issues| &&
      Legit(m, w, n, key, w.issues[n].body, |w.issues[n].comments| + 1)
    case Close(n, key, _) => known.Some? && known.value.number == n
  }

  /** A closed issue is never touched again. */
  ghost predicate ClosedKept(w: World, w': World) {
    && |w.issues| <= |w'.issues|
    && forall n | 0 <= n < |w.issues| && !w.issues[n].open :: w'.issues[n] == w.issues[n]
  }

  /** Only the operation's own check is affected. */
  ghost predicate OthersKept(w: World, w': World, keys: set<string>) {
    forall k | k !in keys :: StateFor(w'.issues, k) == StateFor(w.issues, k)
  }

  lemma OpKeepsInv(m: Monitor, w: World, op: Op)
    requires Inv(m, w) && Fits(m, w, op)
    ensures var w' := ApplyOp(m, w, op);
            && Inv(m, w') && w'.clock == w.clock && OthersKept(w, w', {op.key}) && ClosedKept(w, w')
            && match op
               case Create(key, _, body) => StateFor(w'.issues, key) == ParseIssue(|w.issues|, body)
               case Update(n, key, _, body) => StateFor(w'.issues, key) == ParseIssue(n, body)
               case Comment(_, key, _) => StateFor(w'.issues, key) == StateFor(w.issues, key)
               case Close(_, key, _) => StateFor(w'.issues, key).None?
  {
    hide ParseIssue, CleanText, StateFor;
    var w' := ApplyOp(m, w, op);
    var at := if op.Create? then |w.issues| else op.number;
    StateForIff(m, w, op.key);
    assert forall n: nat | n != at :: StateAt(w'.issues, n) == StateAt(w.issues, n);
    assert forall n: nat | n != at && StateAt(w.issues, n).Some? :: StateAt(w.issues, n).value.key != op.key;
    assert op.Comment? ==> StateAt(w'.issues, at) == StateAt(w.issues, at);
    assert (op.Create? || op.Update?) ==> StateAt(w'.issues, at) == ParseIssue(at, op.body);
    assert Inv(m, w');
    StateForIff(m, w', op.key);
    forall k | k != op.key ensures StateFor(w'.issues, k) == StateFor(w.issues, k) {
      StateForIff(m, w, k);
      StateForIff(m, w', k);
    }
  }

  lemma ApplyOne(m: Monitor, w: World, op: Op)
    ensures Apply(m, w, [op]) == ApplyOp(m, w, op)
  {
    assert [op][..0] == [];
    assert Apply(m, w, []) == w;
  }

  lemma {:induction false} ApplyConcat(m: Monitor, w: World, a: seq<Op>, b: seq<Op>)
    ensures Apply(m, w, a + b) == Apply(m, Apply(m, w, a), b)
  {
    if b == [] {
      assert a + b == a;
    } else {
      ApplyConcat(m, w, a, b[..|b| - 1]);
      assert (a + b)[..|a + b| - 1] == a + b[..|b| - 1];
    }
  }

  // --- one check --------------------------------------------------------------------------------

  /** A scope that was listed keeps its time; a new one is seen since now. */
  ghost predicate KeepsTime(known: seq<(string, nat)>, node: (string, nat), now: nat) {
    node in known || (node.1 == now && forall k | k in known :: k.0 != node.0)
  }

  /** What an issue says once a run acted on live findings: seen now, first seen when it was, exactly the scopes found
      with the times they were first seen at, and for an event a comment less than a day old. */
  ghost predicate BroughtUp(c: Check, known: Option<IssueState>, live: seq<Finding>, now: nat, s: IssueState) {
    && s.lastSeen == now && ScopesOf(s.nodes) == ScopeSet(live)
    && (forall i | 0 <= i < |s.nodes| :: KeepsTime(if known.Some? then known.value.nodes else [], s.nodes[i], now))
    && (known.None? ==> s.firstSeen == now && s.lastComment == if c.event then Some(now) else None)
    && (known.Some? ==> s.firstSeen == known.value.firstSeen && s.number == known.value.number)
    && (known.Some? && !c.event ==> s.lastComment == known.value.lastComment)
    && (known.Some? && c.event && known.value.lastComment.Some? ==>
          s.lastComment ==
          if now - known.value.lastComment.value >= DAY then Some(now) else known.value.lastComment)
  }

  ghost function Comments(issues: seq<Issue>, known: Option<IssueState>): nat {
    if known.Some? && known.value.number < |issues| then |issues[known.value.number].comments| else 0
  }

  lemma SeenInOrder(m: Monitor, w: World, key: string, live: seq<Finding>)
    requires Inv(m, w) && key in m.checks
    requires forall f | f in live :: CleanText(f.scope)
    ensures var known := StateFor(w.issues, key);
            var comments := Comments(w.issues, known);
            var s := Seen(m.checks[key], key, known, live, w.clock);
            && s.key == key && InOrder(m, s, comments, w.clock) && s.lastSeen == w.clock
            && ScopesOf(s.nodes) == ScopeSet(live)
            && BroughtUp(m.checks[key], known, live, w.clock, s)
            && (known.Some? && CommentDue(m.checks[key], known.value, w.clock) ==> InOrder(m, s, comments + 1, w.clock))
  {
    hide ParseIssue, CleanText, StateFor;
    StateForIff(m, w, key);
    var s := Seen(m.checks[key], key, StateFor(w.issues, key), live, w.clock);
    forall i | 0 <= i < |s.nodes| ensures CleanText(s.nodes[i].0) {
      assert s.nodes[i].0 in Scopes(live);
    }
    assert ScopesOf(s.nodes) == ScopeSet(live) by {
      assert forall x :: x in ScopesOf(s.nodes) <==> x in Scopes(live);
    }
    var known := if StateFor(w.issues, key).Some? then StateFor(w.issues, key).value.nodes else [];
    forall i | 0 <= i < |s.nodes| ensures KeepsTime(known, s.nodes[i], w.clock) {
      NodesKeepTime(Scopes(live), known, w.clock, i);
    }
  }

  lemma {:induction false} NodesKeepTime(scopes: seq<string>, known: seq<(string, nat)>, now: nat, i: nat)
    requires i < |scopes|
    ensures KeepsTime(known, Nodes(scopes, known, now)[i], now)
  {
    if i == 0 {
      SinceKeepsTime(known, scopes[0], now);
    } else {
      NodesKeepTime(scopes[1..], known, now, i - 1);
    }
  }

  lemma {:induction false} SinceKeepsTime(known: seq<(string, nat)>, scope: string, now: nat)
    ensures KeepsTime(known, (scope, SeenSince(known, scope, now)), now)
  {
    if known != [] && known[0].0 != scope {
      SinceKeepsTime(known[1..], scope, now);
      assert known == [known[0]] + known[1..];
    } else if known != [] {
      assert known[0] in known;
    }
  }

  /** Everything written for a check reads back as the state it was printed from. */
  lemma WrittenReadsBack(m: Monitor, c: Check, n: nat, s: IssueState, fs: seq<Finding>, clock: nat, comments: nat)
    requires ValidMonitor(m) && InOrder(m, s, comments, clock)
    ensures ParseIssue(n, Body(Head(m, c, fs), StateJson(s))) == Some(s.(number := n))
  {
    hide ParseIssue, Body, Head;
    StateRoundTrip(Head(m, c, fs), s.(number := n));
    assert StateJson(s) == StateJson(s.(number := n));
  }

  /** The first operation for a check leaves its issue holding exactly what was seen. */
  lemma FirstOpFits(m: Monitor, w: World, key: string, live: seq<Finding>)
    requires Inv(m, w) && key in m.checks && live != [] && forall f | f in live :: CleanText(f.scope)
    ensures var known := StateFor(w.issues, key);
            var ops := PlanOne(m, key, known, live, w.clock);
            var w1 := ApplyOp(m, w, ops[0]);
            var s := StateFor(w1.issues, key);
            && Fits(m, w, ops[0]) && Inv(m, w1) && w1.clock == w.clock && OthersKept(w, w1, {key}) && ClosedKept(w, w1)
            && s.Some? && BroughtUp(m.checks[key], known, live, w.clock, s.value)
            && (|ops| == 2 ==> Fits(m, w1, ops[1]))
  {
    hide ParseIssue, CleanText, StateFor, Body, Head, Seen, StateJson, OthersKept, ClosedKept, Inv, InOrder, Title,
         BroughtUp;
    var c, known := m.checks[key], StateFor(w.issues, key);
    StateForIff(m, w, key);
    SeenInOrder(m, w, key, live);
    var s := Seen(c, key, known, live, w.clock);
    var n := if known.Some? then known.value.number else |w.issues|;
    assert ValidMonitor(m) by { InvValid(m, w); }
    WrittenReadsBack(m, c, n, s, live, w.clock, Comments(w.issues, known));
    SameButNumber(m, s, n, Comments(w.issues, known), w.clock);
    SameButNumber(m, s, n, Comments(w.issues, known) + 1, w.clock);
    BroughtButNumber(c, known, live, w.clock, s, n);
    OpKeepsInv(m, w, PlanOne(m, key, known, live, w.clock)[0]);
  }

  lemma InvValid(m: Monitor, w: World)
    requires Inv(m, w)
    ensures ValidMonitor(m)
  {
  }

  lemma SameButNumber(m: Monitor, s: IssueState, n: nat, comments: nat, clock: nat)
    ensures InOrder(m, s.(number := n), comments, clock) <==> InOrder(m, s, comments, clock)
  {
  }

  lemma BroughtButNumber(c: Check, known: Option<IssueState>, live: seq<Finding>, now: nat, s: IssueState, n: nat)
    requires BroughtUp(c, known, live, now, s) && (known.Some? ==> n == known.value.number)
    ensures BroughtUp(c, known, live, now, s.(number := n))
  {
  }

  /** The world after the operations of one check, however many of them were carried out. */
  lemma OneCheckKept(m: Monitor, w: World, key: string, live: seq<Finding>, applied: nat)
    requires Inv(m, w) && key in m.checks && forall f | f in live :: CleanText(f.scope)
    requires applied <= |PlanOne(m, key, StateFor(w.issues, key), live, w.clock)|
    ensures var ops := PlanOne(m, key, StateFor(w.issues, key), live, w.clock);
            var w' := Apply(m, w, ops[..applied]);
            && Inv(m, w') && w'.clock == w.clock && OthersKept(w, w', {key}) && ClosedKept(w, w')
            && (if applied == 0 then w' == w else Recorded(m, w', key, live, StateFor(w.issues, key)))
  {
    hide ParseIssue, CleanText, StateFor, Body, Head, Seen, StateJson, Inv, InOrder, Fits, ApplyOp, BroughtUp;
    var ops := PlanOne(m, key, StateFor(w.issues, key), live, w.clock);
    if applied > 0 {
      FirstOpFits(m, w, key, live);
      var w1 := ApplyOp(m, w, ops[0]);
      ApplyOne(m, w, ops[0]);
      if applied == 1 {
        assert ops[..1] == [ops[0]];
      } else {
        assert ops[..2] == [ops[0]] + [ops[1]];
        ApplyConcat(m, w, [ops[0]], [ops[1]]);
        ApplyOne(m, w1, ops[1]);
        OpKeepsInv(m, w1, ops[1]);
      }
    } else {
      assert ops[..0] == [];
    }
  }

  /** The check's one open issue is brought up to date. */
  ghost predicate Recorded(m: Monitor, w: World, key: string, live: seq<Finding>, known: Option<IssueState>)
    requires key in m.checks
  {
    var s := StateFor(w.issues, key);
    s.Some? && BroughtUp(m.checks[key], known, live, w.clock, s.value)
  }

  // --- the whole plan -----------------------------------------------------------------------------

  /** The findings of a check a run acts on. */
  function LiveFor(m: Monitor, issues: seq<Issue>, input: Input, key: string): seq<Finding>
    requires key in m.checks
  {
    Live(m, issues, input.page, key, Of(AllFindings(input), key), input.now)
  }

  /** Exactly the findings of the check that no acknowledgement silences. */
  lemma LiveForExact(m: Monitor, issues: seq<Issue>, input: Input, key: string)
    requires key in m.checks
    ensures forall f :: f in LiveFor(m, issues, input, key) <==>
      f in AllFindings(input) && f.key == key &&
      !(m.checks[key].event && Acknowledged(issues, input.page, key, f.scope, input.now))
  {
    hide AllFindings, Acknowledged;
    OfExact(AllFindings(input), key);
    LiveExact(m, issues, input.page, key, Of(AllFindings(input), key), input.now);
  }

  ghost predicate Distinct(keys: seq<string>) {
    forall i, j | 0 <= i < j < |keys| :: keys[i] != keys[j]
  }

  lemma {:induction false} ActiveKept(m: Monitor, w: World, input: Input, keys: seq<string>, applied: nat)
    requires Inv(m, w) && w.clock == input.now && ValidInput(m, input)
    requires Distinct(keys) && forall k | k in keys :: k in m.checks
    requires applied <= |PlanActive(m, w.issues, input, keys)|
    ensures var ops := PlanActive(m, w.issues, input, keys);
            var w' := Apply(m, w, ops[..applied]);
            && Inv(m, w') && w'.clock == w.clock && OthersKept(w, w', set k | k in keys) && ClosedKept(w, w')
            && forall k | k in keys :: Acted(m, w, input, w', k, applied == |ops|, ops[..applied])
  {
    hide AllFindings, LiveFor, StateFor, Inv, PlanOne, PlanKey, CleanText, Recorded, Apply, ApplyOp, ClosedKept;
    var ops := PlanActive(m, w.issues, input, keys);
    if keys == [] {
      assert ops[..applied] == [];
      NothingApplied(m, w);
    } else {
      var shorter, last := keys[..|keys| - 1], keys[|keys| - 1];
      var a, b := PlanActive(m, w.issues, input, shorter), PlanKey(m, w.issues, input, last);
      var live := LiveFor(m, w.issues, input, last);
      assert (set k | k in keys) == (set k | k in shorter) + {last};
      PlanKeyIs(m, w.issues, input, last);
      LiveForExact(m, w.issues, input, last);
      PlannedIffLive(m, last, StateFor(w.issues, last), live, input.now);
      if applied <= |a| {
        assert ops[..applied] == a[..applied];
        ActiveKept(m, w, input, shorter, applied);
        forall k | k in keys
          ensures Acted(m, w, input, Apply(m, w, ops[..applied]), k, applied == |ops|, ops[..applied])
        {
          assert k == last || k in shorter;
          ActiveKeys(m, w.issues, input, shorter);
        }
      } else {
        assert ops[..applied] == a + b[..applied - |a|];
        assert a[..|a|] == a;
        ActiveKept(m, w, input, shorter, |a|);
        var w1 := Apply(m, w, a);
        ApplyConcat(m, w, a, b[..applied - |a|]);
        assert StateFor(w1.issues, last) == StateFor(w.issues, last);
        OneCheckKept(m, w1, last, live, applied - |a|);
        var w' := Apply(m, w, ops[..applied]);
        ClosedKeptTransitive(w, w1, w');
        forall k | k in keys ensures Acted(m, w, input, w', k, applied == |ops|, ops[..applied]) {
          if k != last {
            KeyOps(m, w.issues, input, last);
            assert k in shorter;
            RecordedKept(m, w1, w', k, LiveFor(m, w.issues, input, k), StateFor(w.issues, k));
          }
        }
      }
    }
  }

  /** A check is as it was, and none of its operations is among those carried out, or it holds what was found;
      all are dealt with when the run is `whole`. */
  ghost predicate Acted(m: Monitor, w: World, input: Input, w': World, key: string, whole: bool, done: seq<Op>)
    requires key in m.checks
  {
    var live := LiveFor(m, w.issues, input, key);
    || (StateFor(w'.issues, key) == StateFor(w.issues, key) && (live == [] || !whole) && !Touched(done, key))
    || (Recorded(m, w', key, live, StateFor(w.issues, key)) && live != [])
  }

  ghost predicate Touched(ops: seq<Op>, key: string) {
    exists op :: op in ops && op.key == key
  }

  lemma KeyOps(m: Monitor, issues: seq<Issue>, input: Input, key: string)
    requires key in m.checks
    ensures forall op | op in PlanKey(m, issues, input, key) :: op.key == key
  {
    hide AllFindings, Of, Live, StateFor, Head, Seen, StateJson, Body;
  }

  lemma {:induction false} ActiveKeys(m: Monitor, issues: seq<Issue>, input: Input, keys: seq<string>)
    requires forall k | k in keys :: k in m.checks
    ensures forall op | op in PlanActive(m, issues, input, keys) :: op.key in keys
  {
    hide PlanKey;
    if keys != [] {
      ActiveKeys(m, issues, input, keys[..|keys| - 1]);
      KeyOps(m, issues, input, keys[|keys| - 1]);
    }
  }

  lemma NothingApplied(m: Monitor, w: World)
    ensures Apply(m, w, []) == w && ClosedKept(w, w)
  {
  }

  lemma PlanKeyIs(m: Monitor, issues: seq<Issue>, input: Input, key: string)
    requires key in m.checks
    ensures PlanKey(m, issues, input, key) ==
            PlanOne(m, key, StateFor(issues, key), LiveFor(m, issues, input, key), input.now)
  {
    hide AllFindings, Of, Live, StateFor, PlanOne;
  }

  lemma ClosedKeptTransitive(a: World, b: World, c: World)
    requires ClosedKept(a, b) && ClosedKept(b, c)
    ensures ClosedKept(a, c)
  {
  }

  lemma RecordedKept(m: Monitor, w: World, w': World, key: string, live: seq<Finding>, known: Option<IssueState>)
    requires key in m.checks && w'.clock == w.clock && StateFor(w'.issues, key) == StateFor(w.issues, key)
    ensures Recorded(m, w', key, live, known) <==> Recorded(m, w, key, live, known)
  {
  }

  lemma PlannedIffLive(m: Monitor, key: string, known: Option<IssueState>, live: seq<Finding>, now: nat)
    requires key in m.checks
    ensures PlanOne(m, key, known, live, now) == [] <==> live == []
  {
  }

  lemma {:induction false} OpenStatesExact(issues: seq<Issue>)
    ensures forall s :: s in OpenStates(issues) <==> StateAt(issues, s.number) == Some(s)
    ensures forall i, j | 0 <= i < j < |OpenStates(issues)| ::
            OpenStates(issues)[i].number < OpenStates(issues)[j].number
  {
    hide ParseIssue;
    if issues != [] {
      var last := |issues| - 1;
      OpenStatesExact(issues[..last]);
      assert forall n: nat | n < last :: StateAt(issues[..last], n) == StateAt(issues, n);
      assert forall s | s in OpenStates(issues[..last]) :: s.number < last;
    }
  }

  ghost predicate OneKeyEach(states: seq<IssueState>) {
    forall i, j | 0 <= i < j < |states| :: states[i].key != states[j].key
  }

  /** The open states have one key each, and are what the plan looks up. */
  lemma OpenStatesByKey(m: Monitor, w: World)
    requires Inv(m, w)
    ensures forall s | s in OpenStates(w.issues) :: StateFor(w.issues, s.key) == Some(s)
    ensures OneKeyEach(OpenStates(w.issues))
  {
    hide ParseIssue, StateFor, InOrder, CleanText;
    OpenStatesExact(w.issues);
    forall s | s in OpenStates(w.issues) ensures StateFor(w.issues, s.key) == Some(s) {
      StateForIff(m, w, s.key);
    }
  }

  lemma {:induction false} CloseKept(m: Monitor, w: World, states: seq<IssueState>, input: Input, applied: nat)
    requires Inv(m, w) && applied <= |PlanClose(m, states, input)|
    requires OneKeyEach(states)
    requires forall s | s in states && Resolved(m, s, input) :: StateFor(w.issues, s.key) == Some(s)
    ensures var ops := PlanClose(m, states, input);
            var w' := Apply(m, w, ops[..applied]);
            && Inv(m, w') && w'.clock == w.clock
            && OthersKept(w, w', set s | s in states && Resolved(m, s, input) :: s.key) && ClosedKept(w, w')
            && forall s | s in states && Resolved(m, s, input) ::
                 StateFor(w'.issues, s.key).None? || (StateFor(w'.issues, s.key) == Some(s) && applied < |ops|)
  {
    hide Resolved, StateFor, Inv, Body, IssueMarker.ClosedJson, Apply, ApplyOp;
    var ops := PlanClose(m, states, input);
    if states == [] || applied == 0 {
      assert ops[..applied] == [];
      NothingApplied(m, w);
      if states != [] && applied == |ops| {
        NothingPlanned(m, states, input);
      }
    } else {
      var shorter, last := states[..|states| - 1], states[|states| - 1];
      var a := PlanClose(m, shorter, input);
      if !Resolved(m, last, input) {
        assert a + [] == a;
        CloseKept(m, w, shorter, input, applied);
      } else if applied <= |a| {
        assert ops[..applied] == a[..applied];
        CloseKept(m, w, shorter, input, applied);
      } else {
        assert ops[..applied] == a + [ops[|a|]] && a[..|a|] == a;
        CloseKept(m, w, shorter, input, |a|);
        var w1 := Apply(m, w, a);
        ApplyConcat(m, w, a, [ops[|a|]]);
        ApplyOne(m, w1, ops[|a|]);
        OpKeepsInv(m, w1, ops[|a|]);
      }
    }
  }

  lemma {:induction false} NothingPlanned(m: Monitor, states: seq<IssueState>, input: Input)
    requires PlanClose(m, states, input) == []
    ensures forall s | s in states :: !Resolved(m, s, input)
  {
    hide Resolved, Body, IssueMarker.ClosedJson;
    if states != [] {
      NothingPlanned(m, states[..|states| - 1], input);
    }
  }

  // --- one run ------------------------------------------------------------------------------------

  ghost predicate Found(input: Input, key: string) {
    key in KeysOf(AllFindings(input))
  }

  ghost predicate Complete(m: Monitor, w: World, input: Input)
    requires ValidInput(m, input)
  {
    input.applied >= |Plan(m, w.issues, input)|
  }

  /** What a run makes of a check's open issue. */
  ghost predicate Done(m: Monitor, w: World, input: Input, w': World, key: string) {
    var known := StateFor(w.issues, key);
    if Found(input, key) && key in m.checks && LiveFor(m, w.issues, input, key) != [] then
      Recorded(m, w', key, LiveFor(m, w.issues, input, key), known)
    else if known.Some? && Resolved(m, known.value, input) then StateFor(w'.issues, key).None?
    else StateFor(w'.issues, key) == known
  }

  /** The operations a run carried out. */
  function Carried(m: Monitor, w: World, input: Input): seq<Op>
    requires forall f | f in AllFindings(input) :: f.key in m.checks
  {
    var ops := Plan(m, w.issues, input);
    ops[..if input.applied < |ops| then input.applied else |ops|]
  }

  /** Those of a run's operations that are for checks it found. */
  function Actives(m: Monitor, w: World, input: Input): seq<Op>
    requires forall f | f in AllFindings(input) :: f.key in m.checks
  {
    KeysOfExact(AllFindings(input));
    PlanActive(m, w.issues, input, KeysOf(AllFindings(input)))
  }

  /** Done with the check, or cut short before it. */
  ghost predicate DoneOrKept(m: Monitor, w: World, input: Input, w': World, key: string)
    requires ValidInput(m, input)
  {
    Done(m, w, input, w', key) || (StateFor(w'.issues, key) == StateFor(w.issues, key) && !Complete(m, w, input))
  }

  /** A run that got no further than the checks it found. */
  lemma RunInActive(m: Monitor, w: World, input: Input)
    requires Inv(m, w) && w.clock <= input.now && ValidInput(m, input)
    requires |Carried(m, w, input)| <= |Actives(m, w, input)|
    ensures var w' := Run(m, w, input);
            && Inv(m, w') && w'.clock == input.now && ClosedKept(w, w')
            && forall key :: DoneOrKept(m, w, input, w', key)
  {
    hide AllFindings, KeysOf, LiveFor, StateFor, Inv, InOrder, CleanText, Apply, Evaluated, PlanOne, PlanActive,
         PlanClose, Recorded, Touched;
    var w0 := World(input.now, w.issues);
    LaterInv(m, w, input.now);
    KeysOfExact(AllFindings(input));
    var keys, states := KeysOf(AllFindings(input)), OpenStates(w.issues);
    var a, k := PlanActive(m, w.issues, input, keys), |Carried(m, w, input)|;
    OpenStatesByKey(m, w0);
    OpenStatesComplete(m, w0);
    assert Carried(m, w, input) == a[..k];
    ActiveKept(m, w0, input, keys, k);
    if k == |Plan(m, w.issues, input)| {
      NothingPlanned(m, states, input);
    }
  }

  /** A run that got to the checks it closes. */
  lemma RunInClose(m: Monitor, w: World, input: Input)
    requires Inv(m, w) && w.clock <= input.now && ValidInput(m, input)
    requires |Carried(m, w, input)| > |Actives(m, w, input)|
    ensures var w' := Run(m, w, input);
            && Inv(m, w') && w'.clock == input.now && ClosedKept(w, w')
            && forall key :: DoneOrKept(m, w, input, w', key)
  {
    hide AllFindings, KeysOf, LiveFor, StateFor, Inv, InOrder, CleanText, Apply, Evaluated, PlanOne, PlanActive,
         PlanClose, Touched;
    var w0 := World(input.now, w.issues);
    LaterInv(m, w, input.now);
    KeysOfExact(AllFindings(input));
    var keys, states := KeysOf(AllFindings(input)), OpenStates(w.issues);
    var a, b := PlanActive(m, w.issues, input, keys), PlanClose(m, states, input);
    var k := |Carried(m, w, input)|;
    OpenStatesByKey(m, w0);
    OpenStatesComplete(m, w0);
    assert Carried(m, w, input) == a + b[..k - |a|] && a[..|a|] == a;
    ActiveKept(m, w0, input, keys, |a|);
    var w1 := Apply(m, w0, a);
    ApplyConcat(m, w0, a, b[..k - |a|]);
    CloseKept(m, w1, states, input, k - |a|);
  }

  /** A run keeps the invariant; carried out in full it is done with every check, and cut short it
      leaves each check either done or as it was. */
  lemma RunKept(m: Monitor, w: World, input: Input)
    requires Inv(m, w) && w.clock <= input.now && ValidInput(m, input)
    ensures var w' := Run(m, w, input);
            && Inv(m, w') && w'.clock == input.now && ClosedKept(w, w')
            && forall key ::
                 || Done(m, w, input, w', key)
                 || (StateFor(w'.issues, key) == StateFor(w.issues, key) && !Complete(m, w, input))
  {
    hide Run, Carried, Inv, Actives, ClosedKept, Done, Complete, StateFor;
    if |Carried(m, w, input)| <= |Actives(m, w, input)| {
      RunInActive(m, w, input);
    } else {
      RunInClose(m, w, input);
    }
    var w' := Run(m, w, input);
    forall key
      ensures || Done(m, w, input, w', key)
              || (StateFor(w'.issues, key) == StateFor(w.issues, key) && !Complete(m, w, input))
    {
      assert DoneOrKept(m, w, input, w', key);
    }
  }

  /** A check that was found is recorded once the run got to its operation. */
  lemma TouchedIsRecorded(m: Monitor, w: World, input: Input, key: string)
    requires Inv(m, w) && w.clock <= input.now && ValidInput(m, input) && Found(input, key)
    requires Touched(Carried(m, w, input), key)
    ensures key in m.checks
    ensures Recorded(m, Run(m, w, input), key, LiveFor(m, w.issues, input, key), StateFor(w.issues, key))
  {
    hide AllFindings, KeysOf, LiveFor, StateFor, Inv, InOrder, CleanText, Apply, Evaluated, PlanOne, PlanActive,
         PlanClose, Recorded;
    var w0 := World(input.now, w.issues);
    LaterInv(m, w, input.now);
    KeysOfExact(AllFindings(input));
    var keys, states := KeysOf(AllFindings(input)), OpenStates(w.issues);
    var a, b := PlanActive(m, w.issues, input, keys), PlanClose(m, states, input);
    var k := |Carried(m, w, input)|;
    OpenStatesByKey(m, w0);
    OpenStatesComplete(m, w0);
    ClosesAreResolved(m, states, input);
    if k <= |a| {
      assert Carried(m, w, input) == a[..k];
      ActiveKept(m, w0, input, keys, k);
    } else {
      assert Carried(m, w, input) == a + b[..k - |a|] && a[..|a|] == a;
      ActiveKept(m, w0, input, keys, |a|);
      var w1 := Apply(m, w0, a);
      ApplyConcat(m, w0, a, b[..k - |a|]);
      CloseKept(m, w1, states, input, k - |a|);
      RecordedKept(m, w1, Run(m, w, input), key, LiveFor(m, w.issues, input, key), StateFor(w.issues, key));
    }
  }

  lemma LaterInv(m: Monitor, w: World, now: nat)
    requires Inv(m, w) && w.clock <= now
    ensures Inv(m, World(now, w.issues))
  {
    hide ParseIssue, CleanText;
  }

  lemma OpenStatesComplete(m: Monitor, w: World)
    requires Inv(m, w)
    ensures forall key | StateFor(w.issues, key).Some? ::
              StateFor(w.issues, key).value in OpenStates(w.issues) && StateFor(w.issues, key).value.key == key
  {
    hide ParseIssue, StateFor;
    OpenStatesExact(w.issues);
    forall key | StateFor(w.issues, key).Some?
      ensures StateFor(w.issues, key).value in OpenStates(w.issues) && StateFor(w.issues, key).value.key == key
    {
      StateForIff(m, w, key);
    }
  }

  // --- why a run closes an issue --------------------------------------------------------------------

  lemma {:induction false} OnlyClosesClose(m: Monitor, w: World, ops: seq<Op>, n: nat)
    requires n < |w.issues| && w.issues[n].open
    ensures var w' := Apply(m, w, ops);
            n < |w'.issues| && (!w'.issues[n].open ==> exists op | op in ops :: op.Close? && op.number == n)
  {
    if ops != [] {
      OnlyClosesClose(m, w, ops[..|ops| - 1], n);
      assert ops == ops[..|ops| - 1] + [ops[|ops| - 1]];
    }
  }

  lemma {:induction false} ClosesAreResolved(m: Monitor, states: seq<IssueState>, input: Input)
    ensures forall op | op in PlanClose(m, states, input) ::
              op.Close? && exists s | s in states :: s.number == op.number && s.key == op.key && Resolved(m, s, input)
  {
    hide Resolved, Body, IssueMarker.ClosedJson;
    if states != [] {
      ClosesAreResolved(m, states[..|states| - 1], input);
    }
  }

  /** The operations for what was found close nothing, and name only live findings of their check. */
  lemma {:induction false} ActiveNamesLive(m: Monitor, issues: seq<Issue>, input: Input, keys: seq<string>)
    requires forall k | k in keys :: k in m.checks
    ensures forall op | op in PlanActive(m, issues, input, keys) ::
              !op.Close? && op.key in keys && op.findings == LiveFor(m, issues, input, op.key)
  {
    hide AllFindings, Of, Live, StateFor, Body, Head, StateJson, Seen;
    if keys != [] {
      ActiveNamesLive(m, issues, input, keys[..|keys| - 1]);
    }
  }

  lemma ClosedByRun(m: Monitor, w: World, input: Input, n: nat)
    requires Inv(m, w) && w.clock <= input.now && ValidInput(m, input)
    requires n < |w.issues| && w.issues[n].open
    ensures n < |Run(m, w, input).issues|
    ensures !Run(m, w, input).issues[n].open ==> Resolved(m, StateAt(w.issues, n).value, input)
  {
    hide AllFindings, KeysOf, Resolved, ParseIssue, InOrder, CleanText;
    var w0, ops := World(input.now, w.issues), Plan(m, w.issues, input);
    var k := if input.applied < |ops| then input.applied else |ops|;
    OnlyClosesClose(m, w0, ops[..k], n);
    KeysOfExact(AllFindings(input));
    ActiveNamesLive(m, w.issues, input, KeysOf(AllFindings(input)));
    ClosesAreResolved(m, OpenStates(w.issues), input);
    OpenStatesExact(w.issues);
    assert forall op | op in ops[..k] :: op in ops;
  }

  lemma {:induction false} PoolsQuiet(pools: seq<Pool>)
    requires forall i | 0 <= i < |pools| :: ValidPool(pools[i])
    requires forall f | f in PoolFindings(pools) :: f.key != RUNNER_FAILED
    ensures forall i | 0 <= i < |pools| :: pools[i].failed == Some(0)
  {
    if pools != [] {
      assert ValidPool(pools[0]);
      var first := PoolFinding(pools[0]);
      assert PoolFindings(pools) == first + PoolFindings(pools[1..]);
      assert forall i | 0 <= i < |first| :: first[i] in PoolFindings(pools);
      PoolsQuiet(pools[1..]);
    }
  }

  /** A run's findings are those of the three sources, and those it makes of a source it cannot read. */
  lemma FindingsIff(input: Input, f: Finding)
    ensures f in AllFindings(input) <==>
              || f in input.github || f in input.prom.findings
              || (input.prom.Down? && f == Finding(MONITOR_BLIND, "prometheus", input.prom.error))
              || f in RunnerFindings(input.snapshot, input.now).0
  {
  }

  /** The checks a run evaluated: those of the runners as far as their report goes, those of Prometheus unless it is
      down, and every other. */
  lemma EvaluatedIff(m: Monitor, input: Input, key: string)
    ensures key in Evaluated(m, input) <==>
              && (key in m.promKeys ==> input.prom.Up?)
              && (if key == RUNNER_FAILED then Readable(input.snapshot, input.now)
                  else if key == RUNNER_BLIND then !input.snapshot.Absent?
                  else key in m.checks)
  {
    assert |RUNNER_FAILED| == 13 && |RUNNER_BLIND| == 20;
  }

  /** Nothing but a reading of the check's own source resolves an issue: a fresh report that counts no
      failed runner, or answers from Prometheus without the finding. */
  lemma ResolvedWasRead(m: Monitor, s: IssueState, input: Input)
    requires Resolved(m, s, input)
    ensures !m.checks[s.key].event && forall f | f in AllFindings(input) :: f.key != s.key
    ensures s.key == RUNNER_FAILED ==>
              Readable(input.snapshot, input.now) &&
              forall i | 0 <= i < |input.snapshot.pools| :: input.snapshot.pools[i].failed == Some(0)
    ensures s.key in m.promKeys && s.key !in {RUNNER_FAILED, RUNNER_BLIND} ==> input.prom.Up?
  {
    KeysOfExact(AllFindings(input));
    forall f | f in AllFindings(input) ensures f.key != s.key {
      var i :| 0 <= i < |AllFindings(input)| && AllFindings(input)[i] == f;
    }
    if s.key == RUNNER_FAILED {
      assert |RUNNER_FAILED| == 13 && |RUNNER_BLIND| == 20;
      forall f | f in PoolFindings(input.snapshot.pools) ensures f.key != RUNNER_FAILED {
        assert f in RunnerFindings(input.snapshot, input.now).0;
        assert f in AllFindings(input);
      }
      PoolsQuiet(input.snapshot.pools);
    }
  }

  // --- histories ------------------------------------------------------------------------------------

  datatype Step = MonitorRun(input: Input) | HumanClose(number: nat, at: nat)

  ghost predicate Next(m: Monitor, w: World, step: Step, w': World) {
    match step
    case MonitorRun(input) => w.clock <= input.now && ValidInput(m, input) && w' == Run(m, w, input)
    case HumanClose(n, at) =>
      && w.clock <= at && n < |w.issues| && w.issues[n].open
      && w' == World(at, w.issues[n := w.issues[n].(open := false, closedAt := Some(at))])
  }

  ghost predicate History(m: Monitor, ws: seq<World>, steps: seq<Step>) {
    && ValidMonitor(m) && |ws| == |steps| + 1 && ws[0].issues == []
    && forall i | 0 <= i < |steps| :: Next(m, ws[i], steps[i], ws[i + 1])
  }

  lemma HumanCloseKept(m: Monitor, w: World, n: nat, at: nat, w': World)
    requires Inv(m, w) && Next(m, w, HumanClose(n, at), w')
    ensures Inv(m, w') && w'.clock == at && ClosedKept(w, w')
    ensures forall key :: StateFor(w'.issues, key).None? || StateFor(w'.issues, key) == StateFor(w.issues, key)
  {
    hide ParseIssue, CleanText, StateFor;
    assert forall i: nat :: StateAt(w'.issues, i) == if i == n then None else StateAt(w.issues, i);
    forall key ensures StateFor(w'.issues, key).None? || StateFor(w'.issues, key) == StateFor(w.issues, key) {
      StateForIff(m, w, key);
      StateForIff(m, w', key);
    }
  }

  /** A run that found the check. */
  ghost predicate FoundBy(step: Step, key: string) {
    step.MonitorRun? && Found(step.input, key)
  }

  /** The check's operation was carried out: its issue says it was seen now. */
  ghost predicate Noted(w: World, key: string) {
    StateFor(w.issues, key).Some? && StateFor(w.issues, key).value.lastSeen == w.clock
  }

  lemma StepKept(m: Monitor, w: World, step: Step, w': World)
    requires Inv(m, w) && Next(m, w, step, w')
    ensures Inv(m, w') && w.clock <= w'.clock && ClosedKept(w, w')
    ensures forall key | StateFor(w'.issues, key).Some? ::
              (FoundBy(step, key) && Noted(w', key)) || StateFor(w'.issues, key) == StateFor(w.issues, key)
  {
    hide ParseIssue, CleanText, StateFor, Run, LiveFor, Resolved, Complete, Inv, ValidInput, Found;
    match step
    case MonitorRun(input) =>
      RunKept(m, w, input);
    case HumanClose(n, at) =>
      HumanCloseKept(m, w, n, at, w');
  }

  /** In every world a history reaches, each open issue is the monitor's, reads back, and is the only
      one open for its check. */
  lemma {:induction false} EveryWorldInOrder(m: Monitor, ws: seq<World>, steps: seq<Step>, i: nat)
    requires History(m, ws, steps) && i < |ws|
    ensures Inv(m, ws[i])
  {
    hide Next, ParseIssue;
    if i > 0 {
      EveryWorldInOrder(m, ws, steps, i - 1);
      StepKept(m, ws[i - 1], steps[i - 1], ws[i]);
    }
  }

  /** At most one open monitor issue per check, and one for each finding a complete run acts on, listing
      exactly the scopes found; any other open issue is an event's, was not evaluated or was seen within
      the last ninety minutes. */
  lemma OneIssuePerCheck(m: Monitor, ws: seq<World>, steps: seq<Step>, i: nat)
    requires History(m, ws, steps) && i < |steps| && steps[i].MonitorRun?
    requires ValidInput(m, steps[i].input) && Complete(m, ws[i], steps[i].input)
    ensures var input, w, w' := steps[i].input, ws[i], ws[i + 1];
            && (forall a: nat, b: nat | a < b && StateAt(w'.issues, a).Some? && StateAt(w'.issues, b).Some? ::
                  StateAt(w'.issues, a).value.key != StateAt(w'.issues, b).value.key)
            && (forall key | key in m.checks && LiveFor(m, w.issues, input, key) != [] ::
                  Recorded(m, w', key, LiveFor(m, w.issues, input, key), StateFor(w.issues, key)))
            && (forall n: nat | StateAt(w'.issues, n).Some? ::
                  var s := StateAt(w'.issues, n).value;
                  s.key in m.checks &&
                  (|| Found(input, s.key) || m.checks[s.key].event || s.key !in Evaluated(m, input)
                   || input.now - s.lastSeen < NINETY_MINUTES))
  {
    hide ParseIssue, CleanText, StateFor, Run, LiveFor, AllFindings, KeysOf, Evaluated, Plan, InOrder, Found;
    var input, w, w' := steps[i].input, ws[i], ws[i + 1];
    EveryWorldInOrder(m, ws, steps, i);
    RunKept(m, w, input);
    forall key | key in m.checks && LiveFor(m, w.issues, input, key) != []
      ensures Recorded(m, w', key, LiveFor(m, w.issues, input, key), StateFor(w.issues, key))
    {
      LiveIsFound(m, w, input, key);
      assert Done(m, w, input, w', key);
    }
    forall n: nat | StateAt(w'.issues, n).Some?
      ensures var s := StateAt(w'.issues, n).value;
              s.key in m.checks &&
              (|| Found(input, s.key) || m.checks[s.key].event || s.key !in Evaluated(m, input)
               || input.now - s.lastSeen < NINETY_MINUTES)
    {
      LeftOpen(m, w, input, n);
    }
  }

  lemma LiveIsFound(m: Monitor, w: World, input: Input, key: string)
    requires key in m.checks && LiveFor(m, w.issues, input, key) != []
    ensures Found(input, key)
  {
    hide AllFindings;
    LiveForExact(m, w.issues, input, key);
    KeysOfExact(AllFindings(input));
    assert LiveFor(m, w.issues, input, key)[0] in AllFindings(input);
  }

  lemma LeftOpen(m: Monitor, w: World, input: Input, n: nat)
    requires Inv(m, w) && w.clock <= input.now && ValidInput(m, input) && Complete(m, w, input)
    requires StateAt(Run(m, w, input).issues, n).Some?
    ensures var s := StateAt(Run(m, w, input).issues, n).value;
            && s.key in m.checks
            && (|| Found(input, s.key) || m.checks[s.key].event || s.key !in Evaluated(m, input)
                || input.now - s.lastSeen < NINETY_MINUTES)
  {
    hide ParseIssue, CleanText, StateFor, Run, LiveFor, AllFindings, KeysOf, Evaluated, Plan;
    var w' := Run(m, w, input);
    RunKept(m, w, input);
    var s := StateAt(w'.issues, n).value;
    StateForIff(m, w', s.key);
    assert Done(m, w, input, w', s.key);
  }

  /** What an open issue remembers never falls behind a run that noted the check. */
  lemma {:induction false} LastSeenKeepsUp(m: Monitor, ws: seq<World>, steps: seq<Step>, j: nat, i: nat, key: string)
    requires History(m, ws, steps) && j < i < |ws| && Noted(ws[j + 1], key)
    ensures ws[j + 1].clock <= ws[i].clock
    ensures StateFor(ws[i].issues, key).Some? ==> StateFor(ws[i].issues, key).value.lastSeen >= ws[j + 1].clock
  {
    hide ParseIssue, CleanText, StateFor, Run, LiveFor, AllFindings, KeysOf, Plan, Inv;
    if i > j + 1 {
      EveryWorldInOrder(m, ws, steps, i - 1);
      LastSeenKeepsUp(m, ws, steps, j, i - 1, key);
      StepKept(m, ws[i - 1], steps[i - 1], ws[i]);
    }
  }

  /** And it is what some run that found the check noted. */
  lemma {:induction false} LastSeenWasNoted(m: Monitor, ws: seq<World>, steps: seq<Step>, i: nat, key: string)
    returns (j: nat)
    requires History(m, ws, steps) && i < |ws| && StateFor(ws[i].issues, key).Some?
    ensures j < i && FoundBy(steps[j], key) && Noted(ws[j + 1], key) &&
            StateFor(ws[i].issues, key).value.lastSeen == ws[j + 1].clock
  {
    hide ParseIssue, CleanText, StateFor, Run, LiveFor, AllFindings, KeysOf, Plan, Inv, Found;
    if i == 0 {
      StateForEmpty(key);
    } else {
      EveryWorldInOrder(m, ws, steps, i - 1);
      StepKept(m, ws[i - 1], steps[i - 1], ws[i]);
      if FoundBy(steps[i - 1], key) && Noted(ws[i], key) {
        j := i - 1;
      } else {
        j := LastSeenWasNoted(m, ws, steps, i - 1, key);
      }
    }
  }

  /** A complete run notes every check it found, events apart. */
  lemma CompleteNotes(m: Monitor, ws: seq<World>, steps: seq<Step>, j: nat, key: string)
    requires History(m, ws, steps) && j < |steps| && FoundBy(steps[j], key) && key in m.checks && !m.checks[key].event
    requires ValidInput(m, steps[j].input) && Complete(m, ws[j], steps[j].input)
    ensures Noted(ws[j + 1], key)
  {
    hide ParseIssue, CleanText, StateFor, Run, LiveFor, AllFindings, KeysOf, Plan, Inv;
    EveryWorldInOrder(m, ws, steps, j);
    var input := steps[j].input;
    assert Next(m, ws[j], steps[j], ws[j + 1]);
    RunKept(m, ws[j], input);
    FoundIsLive(m, ws[j], input, key);
    assert Done(m, ws[j], input, ws[j + 1], key);
  }

  /** What makes a report of the runners unreadable. */
  ghost predicate Defective(s: Snapshot, now: nat) {
    || s.Garbled? || (s.Report? && (s.error != "" || s.checkedAt.None?))
    || (s.Report? && s.checkedAt.Some? && (s.checkedAt.value + 2 * 3600 < now || now + 5 * 60 < s.checkedAt.value))
    || (s.Report? && |s.pools| != 4)
    || (s.Report? && exists name :: name in RUNNER_POOLS && forall p | p in s.pools :: p.name != name)
    || (s.Report? && exists p :: p in s.pools && BadPool(p))
  }

  /** No count, a negative one, or failed runners without one to three examples that say all they should. */
  ghost predicate BadPool(p: Pool) {
    || p.failed.None? || p.failed.value < 0 || p.examples.None?
    || |p.examples.value| > 3 || (p.failed.value > 0 && p.examples.value == [])
    || exists e :: e in p.examples.value && (e.name.None? || e.reason.None? || e.message.None?)
  }

  lemma DefectiveIsUnreadable(s: Snapshot, now: nat)
    requires s.Report? || s.Garbled?
    ensures Defective(s, now) <==> !Readable(s, now)
  {
    if s.Report? {
      forall i | 0 <= i < |s.pools| ensures BadPool(s.pools[i]) <==> !ValidPool(s.pools[i]) {
        PoolIsBad(s.pools[i]);
      }
      var names := set i | 0 <= i < |s.pools| :: s.pools[i].name;
      if |s.pools| == 4 {
        NamesCover(s.pools);
      }
      assert forall p | p in s.pools :: exists i :: 0 <= i < |s.pools| && s.pools[i] == p;
    }
  }

  lemma PoolIsBad(p: Pool)
    ensures BadPool(p) <==> !ValidPool(p)
  {
    if p.examples.Some? {
      assert forall e | e in p.examples.value :: exists i :: 0 <= i < |p.examples.value| && p.examples.value[i] == e;
    }
  }

  /** Four pools that leave no name out have no other. */
  lemma NamesCover(pools: seq<Pool>)
    requires |pools| == 4
    ensures (set i | 0 <= i < |pools| :: pools[i].name) == RUNNER_POOLS <==>
            !exists name :: name in RUNNER_POOLS && forall p | p in pools :: p.name != name
  {
    var names := set i | 0 <= i < |pools| :: pools[i].name;
    assert names == {pools[0].name, pools[1].name, pools[2].name, pools[3].name};
    assert forall p | p in pools :: p.name in names;
    if forall name | name in RUNNER_POOLS :: exists p :: p in pools && p.name == name {
      assert RUNNER_POOLS <= names;
    }
  }

  /** A complete run that cannot read the report of the runners, or Prometheus, says so in an issue. */
  lemma OutageIsReported(m: Monitor, ws: seq<World>, steps: seq<Step>, i: nat, key: string)
    requires History(m, ws, steps) && i < |steps| && steps[i].MonitorRun? && key in m.checks && !m.checks[key].event
    requires ValidInput(m, steps[i].input) && Complete(m, ws[i], steps[i].input)
    requires var input := steps[i].input;
             || (key == RUNNER_BLIND && !input.snapshot.Absent? && Defective(input.snapshot, input.now))
             || (key == MONITOR_BLIND && input.prom.Down?)
    ensures Noted(ws[i + 1], key)
  {
    hide History, Complete, Noted, Readable, Defective;
    var input := steps[i].input;
    var found := AllFindings(input);
    if key == RUNNER_BLIND {
      DefectiveIsUnreadable(input.snapshot, input.now);
      assert found[0].key == key;
    } else {
      var n := |RunnerFindings(input.snapshot, input.now).0| + |PromFindings(input.prom)| - 1;
      assert found[n].key == key;
    }
    KeysOfExact(found);
    CompleteNotes(m, ws, steps, i, key);
  }

  /** A complete run that can read the report says of every pool with failed runners that it has them. */
  lemma FailedIsReported(m: Monitor, ws: seq<World>, steps: seq<Step>, i: nat, j: nat)
    requires History(m, ws, steps) && i < |steps| && steps[i].MonitorRun?
    requires RUNNER_FAILED in m.checks && !m.checks[RUNNER_FAILED].event
    requires ValidInput(m, steps[i].input) && Complete(m, ws[i], steps[i].input)
    requires var input := steps[i].input;
             && input.snapshot.Report? && !Defective(input.snapshot, input.now) && j < |input.snapshot.pools|
             && input.snapshot.pools[j].failed.Some? && input.snapshot.pools[j].failed.value > 0
    ensures Noted(ws[i + 1], RUNNER_FAILED)
    ensures steps[i].input.snapshot.pools[j].name in ScopesOf(StateFor(ws[i + 1].issues, RUNNER_FAILED).value.nodes)
  {
    hide Complete, Defective, StateFor, Run, LiveFor, Plan, Inv, CleanText, ParseIssue, Evaluated;
    var input := steps[i].input;
    var found := AllFindings(input);
    DefectiveIsUnreadable(input.snapshot, input.now);
    var f := PoolFound(input.snapshot.pools, j);
    assert f in found;
    var at :| 0 <= at < |found| && found[at] == f;
    KeysOfExact(found);
    CompleteNotes(m, ws, steps, i, RUNNER_FAILED);
    EveryWorldInOrder(m, ws, steps, i);
    assert Next(m, ws[i], steps[i], ws[i + 1]);
    RunKept(m, ws[i], input);
    LiveForExact(m, ws[i].issues, input, RUNNER_FAILED);
    var live := LiveFor(m, ws[i].issues, input, RUNNER_FAILED);
    assert f in live;
    assert Done(m, ws[i], input, ws[i + 1], RUNNER_FAILED);
    var k :| 0 <= k < |live| && live[k] == f;
    assert live[k].scope in ScopeSet(live);
  }

  lemma {:induction false} PoolFound(pools: seq<Pool>, j: nat) returns (f: Finding)
    requires (forall i | 0 <= i < |pools| :: ValidPool(pools[i])) && j < |pools|
    requires pools[j].failed.Some? && pools[j].failed.value > 0
    ensures f in PoolFindings(pools) && f.key == RUNNER_FAILED && f.scope == pools[j].name
  {
    hide ValidPool;
    if j == 0 {
      assert ValidPool(pools[0]);
      f := PoolFinding(pools[0])[0];
    } else {
      assert pools[1..][j - 1] == pools[j];
      f := PoolFound(pools[1..], j - 1);
    }
  }

  lemma FoundIsLive(m: Monitor, w: World, input: Input, key: string)
    requires Found(input, key) && key in m.checks && !m.checks[key].event
    ensures LiveFor(m, w.issues, input, key) != []
  {
    hide AllFindings, LiveFor;
    KeysOfExact(AllFindings(input));
    LiveForExact(m, w.issues, input, key);
    var i :| 0 <= i < |AllFindings(input)| && AllFindings(input)[i].key == key;
    assert AllFindings(input)[i] in LiveFor(m, w.issues, input, key);
  }

  /** The monitor closes an issue only in a run that read its check's source and found nothing, at least
      ninety minutes after every run that noted it. An outage resolves nothing. */
  lemma CloseNeedsQuiet(m: Monitor, ws: seq<World>, steps: seq<Step>, i: nat, n: nat)
    requires History(m, ws, steps) && i < |steps| && steps[i].MonitorRun?
    requires n < |ws[i].issues| && ws[i].issues[n].open && n < |ws[i + 1].issues| && !ws[i + 1].issues[n].open
    ensures StateAt(ws[i].issues, n).Some?
    ensures var input, key := steps[i].input, StateAt(ws[i].issues, n).value.key;
            && key in m.checks && !m.checks[key].event && key in Evaluated(m, input) && !Found(input, key)
            && (key == RUNNER_FAILED ==> Readable(input.snapshot, input.now))
            && (key in m.promKeys && key !in {RUNNER_FAILED, RUNNER_BLIND} ==> input.prom.Up?)
            && Quiet(ws, i, input.now, key)
  {
    hide ParseIssue, CleanText, StateFor, Run, LiveFor, AllFindings, KeysOf, Plan, Evaluated, InOrder, Readable;
    var input := steps[i].input;
    EveryWorldInOrder(m, ws, steps, i);
    ClosedByRun(m, ws[i], input, n);
    var s := StateAt(ws[i].issues, n).value;
    ResolvedWasRead(m, s, input);
    StateForIff(m, ws[i], s.key);
    forall k | 0 < k <= i && Noted(ws[k], s.key) ensures input.now - ws[k].clock >= NINETY_MINUTES {
      LastSeenKeepsUp(m, ws, steps, k - 1, i, s.key);
    }
  }

  /** No run before noted the check within ninety minutes. */
  ghost predicate Quiet(ws: seq<World>, i: nat, now: nat, key: string)
    requires i < |ws|
  {
    forall k | 0 < k <= i && Noted(ws[k], key) :: now - ws[k].clock >= NINETY_MINUTES
  }

  /** The check's issue is open before the step and not after it. */
  ghost predicate Closes(ws: seq<World>, i: nat, key: string)
    requires i + 1 < |ws|
  {
    StateFor(ws[i].issues, key).Some? && StateFor(ws[i + 1].issues, key).None?
  }

  /** A complete run closes a check's open issue exactly when the check is no event, was evaluated and not
      found, and no run noted it within ninety minutes. */
  lemma ClosesIff(m: Monitor, ws: seq<World>, steps: seq<Step>, i: nat, key: string)
    requires History(m, ws, steps) && i < |steps| && steps[i].MonitorRun? && StateFor(ws[i].issues, key).Some?
    requires ValidInput(m, steps[i].input) && Complete(m, ws[i], steps[i].input)
    ensures Closes(ws, i, key) <==>
              && key in m.checks && !m.checks[key].event && key in Evaluated(m, steps[i].input)
              && !Found(steps[i].input, key) && Quiet(ws, i, steps[i].input.now, key)
  {
    hide ParseIssue, CleanText, StateFor, Run, LiveFor, AllFindings, KeysOf, Plan, Evaluated, Inv;
    var input, s := steps[i].input, StateFor(ws[i].issues, key).value;
    EveryWorldInOrder(m, ws, steps, i);
    StateForIff(m, ws[i], key);
    assert Next(m, ws[i], steps[i], ws[i + 1]);
    RunKept(m, ws[i], input);
    assert Done(m, ws[i], input, ws[i + 1], key);
    var j := LastSeenWasNoted(m, ws, steps, i, key);
    forall k | 0 < k <= i && Noted(ws[k], key) ensures s.lastSeen >= ws[k].clock {
      LastSeenKeepsUp(m, ws, steps, k - 1, i, key);
    }
    assert Closes(ws, i, key) <==> Resolved(m, s, input);
  }

  /** No run before found the check within ninety minutes, noted or not. */
  ghost predicate Clear(ws: seq<World>, steps: seq<Step>, i: nat, now: nat, key: string)
    requires |ws| == |steps| + 1 && i <= |steps|
  {
    forall j | 0 <= j < i && FoundBy(steps[j], key) :: now - ws[j + 1].clock >= NINETY_MINUTES
  }

  /** A run that found the check and stopped before its operation. */
  ghost predicate StoppedShort(m: Monitor, w: World, step: Step, key: string) {
    FoundBy(step, key) && ValidInput(m, step.input) && !Touched(Carried(m, w, step.input), key)
  }

  /** A run that closes an issue has ninety clear minutes behind it exactly when no run in them found the check
      and stopped before its operation. */
  lemma ClearIff(m: Monitor, ws: seq<World>, steps: seq<Step>, i: nat, key: string)
    requires History(m, ws, steps) && i < |steps| && steps[i].MonitorRun? && Closes(ws, i, key)
    ensures Clear(ws, steps, i, steps[i].input.now, key) <==>
            !exists j :: 0 <= j < i && steps[i].input.now - ws[j + 1].clock < NINETY_MINUTES &&
              StoppedShort(m, ws[j], steps[j], key)
  {
    hide ParseIssue, CleanText, StateFor, Run, LiveFor, AllFindings, KeysOf, Plan, Evaluated, Inv, Found, Carried,
         Touched;
    var input, s := steps[i].input, StateFor(ws[i].issues, key).value;
    EveryWorldInOrder(m, ws, steps, i);
    StateForIff(m, ws[i], key);
    assert Next(m, ws[i], steps[i], ws[i + 1]);
    RunKept(m, ws[i], input);
    assert Done(m, ws[i], input, ws[i + 1], key) && Resolved(m, s, input);
    forall k | 0 < k <= i && Noted(ws[k], key) ensures input.now - ws[k].clock >= NINETY_MINUTES {
      LastSeenKeepsUp(m, ws, steps, k - 1, i, key);
    }
    forall j | 0 <= j < i && FoundBy(steps[j], key)
      ensures StoppedShort(m, ws[j], steps[j], key) || Noted(ws[j + 1], key)
    {
      FoundIsNoted(m, ws, steps, j, key);
    }
  }

  lemma FoundIsNoted(m: Monitor, ws: seq<World>, steps: seq<Step>, j: nat, key: string)
    requires History(m, ws, steps) && j < |steps| && FoundBy(steps[j], key)
    ensures StoppedShort(m, ws[j], steps[j], key) || Noted(ws[j + 1], key)
  {
    hide ParseIssue, CleanText, StateFor, Run, LiveFor, AllFindings, KeysOf, Plan, Evaluated, Inv, Found, Carried,
         Touched;
    EveryWorldInOrder(m, ws, steps, j);
    assert Next(m, ws[j], steps[j], ws[j + 1]);
    RunKept(m, ws[j], steps[j].input);
    if !StoppedShort(m, ws[j], steps[j], key) {
      TouchedIsRecorded(m, ws[j], steps[j].input, key);
    }
  }

  /** So with runs less than ninety minutes apart, the first clear run after one that noted the check does not
      close its issue. */
  lemma FirstClearKeeps(m: Monitor, ws: seq<World>, steps: seq<Step>, j: nat, i: nat, key: string)
    requires History(m, ws, steps) && j < i < |steps| && steps[i].MonitorRun? && Noted(ws[j + 1], key)
    requires steps[i].input.now - ws[j + 1].clock < NINETY_MINUTES
    ensures !Closes(ws, i, key)
  {
    hide ParseIssue, CleanText, StateFor, Run, LiveFor, AllFindings, KeysOf, Plan, Evaluated, Inv, Found;
    var input := steps[i].input;
    EveryWorldInOrder(m, ws, steps, i);
    StateForIff(m, ws[i], key);
    assert Next(m, ws[i], steps[i], ws[i + 1]);
    RunKept(m, ws[i], input);
    LastSeenKeepsUp(m, ws, steps, j, i, key);
    assert Done(m, ws[i], input, ws[i + 1], key) || StateFor(ws[i + 1].issues, key) == StateFor(ws[i].issues, key);
  }

  lemma {:induction false} PlanActiveSize(m: Monitor, issues: seq<Issue>, input: Input, keys: seq<string>)
    requires forall k | k in keys :: k in m.checks
    ensures |PlanActive(m, issues, input, keys)| <= 2 * |keys|
  {
    hide Live, Of, StateFor, Body, Head, Seen, StateJson;
    if keys != [] {
      PlanActiveSize(m, issues, input, keys[..|keys| - 1]);
    }
  }

  lemma {:induction false} PlanCloseSize(m: Monitor, states: seq<IssueState>, input: Input)
    ensures |PlanClose(m, states, input)| <= |states|
  {
    hide Resolved, Body, IssueMarker.ClosedJson;
    if states != [] {
      PlanCloseSize(m, states[..|states| - 1], input);
    }
  }

  lemma {:induction false} OpenStatesSize(issues: seq<Issue>)
    ensures |OpenStates(issues)| <= |issues|
  {
    hide ParseIssue;
    if issues != [] {
      OpenStatesSize(issues[..|issues| - 1]);
    }
  }

  lemma {:induction false} KeysOfSize(fs: seq<Finding>)
    ensures |KeysOf(fs)| <= |fs|
  {
    if fs != [] {
      KeysOfSize(fs[..|fs| - 1]);
    }
  }

  /** No run plans more than two operations a finding and one an issue. */
  lemma PlanSize(m: Monitor, w: World, input: Input)
    requires ValidInput(m, input)
    ensures |Plan(m, w.issues, input)| <= 2 * |AllFindings(input)| + |w.issues|
  {
    hide AllFindings, KeysOf, PlanActive, PlanClose, OpenStates;
    KeysOfExact(AllFindings(input));
    KeysOfSize(AllFindings(input));
    PlanActiveSize(m, w.issues, input, KeysOf(AllFindings(input)));
    PlanCloseSize(m, OpenStates(w.issues), input);
    OpenStatesSize(w.issues);
  }

  function HourAt(now: nat, fs: seq<Finding>, applied: nat): Input {
    Input(now, Up(fs), Absent, [], [], applied)
  }

  lemma HourFinds(now: nat, f: Finding, applied: nat, key: string)
    ensures AllFindings(HourAt(now, [f], applied)) == [f] && AllFindings(HourAt(now, [], applied)) == []
    ensures Found(HourAt(now, [f], applied), f.key) && !Found(HourAt(now, [], applied), key)
  {
    KeysOfExact([f]);
    KeysOfExact([]);
    assert [f][0].key == f.key;
  }

  /** The ninety minutes are not always clear: a run at noon finds the check and notes it, one an hour later finds
      it and stops before its first operation, and a clear one half an hour after that closes the issue. */
  lemma CutShortForgets(m: Monitor, f: Finding) returns (ws: seq<World>, steps: seq<Step>)
    requires ValidMonitor(m) && f.key in m.checks && !m.checks[f.key].event && CleanText(f.scope)
    requires f.key !in {RUNNER_FAILED, RUNNER_BLIND}
    ensures History(m, ws, steps) && |steps| == 3 && FoundBy(steps[1], f.key) && steps[2].MonitorRun?
    ensures steps[2].input.now - ws[2].clock < NINETY_MINUTES && Closes(ws, 2, f.key) &&
            !Clear(ws, steps, 2, steps[2].input.now, f.key)
  {
    hide ParseIssue, CleanText, StateFor, Run, LiveFor, AllFindings, KeysOf, Plan, Inv, InOrder, Found;
    var noon := 12 * 3600;
    var first, second := HourAt(noon, [f], 2), HourAt(noon + 3600, [f], 0);
    var w0 := World(noon, []);
    HourFinds(noon, f, 2, f.key);
    HourFinds(noon + 3600, f, 0, f.key);
    var w1 := Run(m, w0, first);
    var w2 := Run(m, w1, second);
    var third := HourAt(noon + 5400, [], |w2.issues|);
    HourFinds(noon + 5400, f, |w2.issues|, f.key);
    var w3 := Run(m, w2, third);
    ws, steps := [w0, w1, w2, w3], [MonitorRun(first), MonitorRun(second), MonitorRun(third)];
    NothingDone(m, w1, second);
    PlanSize(m, w0, first);
    EveryWorldInOrder(m, ws[..1], [], 0);
    RunKept(m, w0, first);
    RunKept(m, w1, second);
    assert History(m, ws, steps);
    CompleteNotes(m, ws, steps, 0, f.key);
    PlanSize(m, w2, third);
    var j := LastSeenWasNoted(m, ws, steps, 2, f.key);
    EvaluatedPlain(m, third, f.key);
    assert ws[1].clock == noon && StateFor(w2.issues, f.key).value.lastSeen == noon;
    LastSeenKeepsUp(m, ws, steps, 0, 2, f.key);
    ClosesIff(m, ws, steps, 2, f.key);
  }

  lemma NothingDone(m: Monitor, w: World, input: Input)
    requires ValidInput(m, input) && input.applied == 0
    ensures Run(m, w, input) == World(input.now, w.issues)
  {
    hide Plan;
    assert Plan(m, w.issues, input)[..0] == [];
  }

  lemma EvaluatedPlain(m: Monitor, input: Input, key: string)
    requires key in m.checks && key !in {RUNNER_FAILED, RUNNER_BLIND} && input.prom.Up?
    ensures key in Evaluated(m, input)
  {
  }

  // --- comments -----------------------------------------------------------------------------------

  /** The comments operations put on an issue. */
  ghost function Posted(ops: seq<Op>, n: nat, now: nat): seq<nat> {
    if ops == [] then []
    else
      var op := ops[|ops| - 1];
      Posted(ops[..|ops| - 1], n, now) + if op.Comment? && op.number == n then [now] else []
  }

  lemma {:induction false} PostedJoin(a: seq<Op>, b: seq<Op>, n: nat, now: nat)
    ensures Posted(a + b, n, now) == Posted(a, n, now) + Posted(b, n, now)
  {
    if b == [] {
      assert a + b == a;
    } else {
      PostedJoin(a, b[..|b| - 1], n, now);
      assert (a + b)[..|a + b| - 1] == a + b[..|b| - 1];
    }
  }

  lemma {:induction false} PostedNone(ops: seq<Op>, n: nat, now: nat)
    requires forall op | op in ops :: !(op.Comment? && op.number == n)
    ensures Posted(ops, n, now) == []
  {
    if ops != [] {
      assert ops[|ops| - 1] in ops;
      PostedNone(ops[..|ops| - 1], n, now);
    }
  }

  /** Nothing else changes an issue's comments, and a new issue has none. */
  lemma {:induction false} CommentsApplied(m: Monitor, w: World, ops: seq<Op>, n: nat)
    ensures var w' := Apply(m, w, ops);
            && |w.issues| <= |w'.issues| && w'.clock == w.clock
            && (n < |w.issues| ==> w'.issues[n].comments == w.issues[n].comments + Posted(ops, n, w.clock))
            && (|w.issues| <= n < |w'.issues| && Posted(ops, n, w.clock) == [] ==> w'.issues[n].comments == [])
  {
    hide Title;
    if ops != [] {
      CommentsApplied(m, w, ops[..|ops| - 1], n);
    }
  }

  /** A check's issue, by number, is no other check's. */
  lemma OtherNumber(m: Monitor, w: World, a: string, b: string)
    requires Inv(m, w) && a != b && StateFor(w.issues, a).Some? && StateFor(w.issues, b).Some?
    ensures StateFor(w.issues, a).value.number != StateFor(w.issues, b).value.number
  {
    hide ParseIssue, StateFor;
    StateForIff(m, w, a);
    StateForIff(m, w, b);
  }

  /** The check is an event with live findings, and its issue's last comment is a full day old. */
  ghost predicate DayOld(m: Monitor, w: World, input: Input, s: IssueState) {
    && s.key in m.checks && m.checks[s.key].event && LiveFor(m, w.issues, input, s.key) != []
    && s.lastComment.Some? && input.now - s.lastComment.value >= DAY
  }

  lemma KeyPosts(m: Monitor, w: World, input: Input, key: string, s: IssueState)
    requires Inv(m, w) && key in m.checks && StateFor(w.issues, s.key) == Some(s)
    ensures Posted(PlanKey(m, w.issues, input, key), s.number, input.now) ==
            if key == s.key && DayOld(m, w, input, s) then [input.now] else []
  {
    hide StateFor, ParseIssue, Body, Head, Seen, StateJson, LiveFor, CleanText;
    var live, known := LiveFor(m, w.issues, input, key), StateFor(w.issues, key);
    PlanKeyIs(m, w.issues, input, key);
    StateForIff(m, w, s.key);
    var ops := PlanKey(m, w.issues, input, key);
    if key != s.key {
      if known.Some? {
        OtherNumber(m, w, key, s.key);
      }
      PostedNone(ops, s.number, input.now);
    } else if |ops| == 2 {
      assert ops == [ops[0]] + [ops[1]];
      PostedJoin([ops[0]], [ops[1]], s.number, input.now);
    }
  }

  lemma {:induction false} ActivePosts(m: Monitor, w: World, input: Input, keys: seq<string>, s: IssueState)
    requires Inv(m, w) && Distinct(keys) && StateFor(w.issues, s.key) == Some(s)
    requires forall k | k in keys :: k in m.checks
    ensures Posted(PlanActive(m, w.issues, input, keys), s.number, input.now) ==
            if s.key in keys && DayOld(m, w, input, s) then [input.now] else []
  {
    hide StateFor, Inv, PlanKey, DayOld;
    if keys != [] {
      var shorter, last := keys[..|keys| - 1], keys[|keys| - 1];
      ActivePosts(m, w, input, shorter, s);
      KeyPosts(m, w, input, last, s);
      PostedJoin(PlanActive(m, w.issues, input, shorter), PlanKey(m, w.issues, input, last), s.number, input.now);
      assert s.key in keys <==> s.key in shorter || s.key == last;
    }
  }

  lemma PlanPosts(m: Monitor, w: World, input: Input, s: IssueState)
    requires Inv(m, w) && ValidInput(m, input) && StateFor(w.issues, s.key) == Some(s)
    ensures Posted(Plan(m, w.issues, input), s.number, input.now) == if DayOld(m, w, input, s) then [input.now] else []
  {
    hide StateFor, Inv, PlanActive, PlanClose, AllFindings, KeysOf, LiveFor, CleanText;
    KeysOfExact(AllFindings(input));
    var keys, states := KeysOf(AllFindings(input)), OpenStates(w.issues);
    ActivePosts(m, w, input, keys, s);
    ClosesAreResolved(m, states, input);
    PostedNone(PlanClose(m, states, input), s.number, input.now);
    PostedJoin(PlanActive(m, w.issues, input, keys), PlanClose(m, states, input), s.number, input.now);
    if DayOld(m, w, input, s) {
      LiveIsFound(m, w, input, s.key);
    }
  }

  lemma {:induction false} ActiveComments(m: Monitor, w: World, input: Input, keys: seq<string>)
    requires forall k | k in keys :: k in m.checks
    ensures forall op | op in PlanActive(m, w.issues, input, keys) && op.Comment? ::
              exists k :: StateFor(w.issues, k).Some? && StateFor(w.issues, k).value.number == op.number
  {
    hide StateFor, Live, Of, AllFindings, Seen, Head, Body, StateJson;
    if keys != [] {
      ActiveComments(m, w, input, keys[..|keys| - 1]);
    }
  }

  /** Only issues that are open when the run starts are commented on. */
  lemma PlanComments(m: Monitor, w: World, input: Input, n: nat)
    requires Inv(m, w) && ValidInput(m, input) && StateAt(w.issues, n).None?
    ensures Posted(Plan(m, w.issues, input), n, input.now) == []
  {
    hide StateFor, PlanActive, PlanClose, AllFindings, KeysOf, CleanText, ParseIssue, InOrder;
    KeysOfExact(AllFindings(input));
    var keys, states := KeysOf(AllFindings(input)), OpenStates(w.issues);
    ActiveComments(m, w, input, keys);
    ClosesAreResolved(m, states, input);
    forall op | op in Plan(m, w.issues, input) ensures !(op.Comment? && op.number == n) {
      if op.Comment? {
        assert op in PlanActive(m, w.issues, input, keys);
        var k :| StateFor(w.issues, k).Some? && StateFor(w.issues, k).value.number == op.number;
        StateForIff(m, w, k);
      }
    }
    PostedNone(Plan(m, w.issues, input), n, input.now);
  }

  /** A complete run comments once on the issue of an event with live findings whose last comment is a full day old,
      and on no other; a new issue has no comments. */
  lemma CommentsExact(m: Monitor, ws: seq<World>, steps: seq<Step>, i: nat, n: nat)
    requires History(m, ws, steps) && i < |steps| && steps[i].MonitorRun? && n < |ws[i + 1].issues|
    requires ValidInput(m, steps[i].input) && Complete(m, ws[i], steps[i].input)
    ensures var w, input := ws[i], steps[i].input;
            && |w.issues| <= |ws[i + 1].issues|
            && ws[i + 1].issues[n].comments ==
               (if n < |w.issues| then w.issues[n].comments else []) +
               (if StateAt(w.issues, n).Some? && DayOld(m, w, input, StateAt(w.issues, n).value)
                then [input.now] else [])
  {
    hide ParseIssue, CleanText, StateFor, LiveFor, AllFindings, KeysOf, Plan, Inv, DayOld, Apply;
    var w, input := ws[i], steps[i].input;
    EveryWorldInOrder(m, ws, steps, i);
    assert Next(m, w, steps[i], ws[i + 1]);
    var ops := Plan(m, w.issues, input);
    assert ops[..|ops|] == ops;
    CommentsApplied(m, World(input.now, w.issues), ops, n);
    if StateAt(w.issues, n).Some? {
      var s := StateAt(w.issues, n).value;
      StateForIff(m, w, s.key);
      NumberIs(w.issues, n);
      PlanPosts(m, w, input, s);
    } else {
      PlanComments(m, w, input, n);
    }
  }

  lemma NumberIs(issues: seq<Issue>, n: nat)
    requires StateAt(issues, n).Some?
    ensures StateAt(issues, n).value.number == n && n < |issues|
  {
    OpenStatesExact(issues);
  }

  /** So after a complete run every event with live findings was commented on, or its issue opened, within the day. */
  lemma CommentedWithinDay(m: Monitor, ws: seq<World>, steps: seq<Step>, i: nat, key: string)
    requires History(m, ws, steps) && i < |steps| && steps[i].MonitorRun? && key in m.checks && m.checks[key].event
    requires ValidInput(m, steps[i].input) && Complete(m, ws[i], steps[i].input)
    requires LiveFor(m, ws[i].issues, steps[i].input, key) != []
    ensures var now, s := steps[i].input.now, StateFor(ws[i + 1].issues, key);
            s.Some? && s.value.lastComment.Some? && now - s.value.lastComment.value < DAY
  {
    hide ParseIssue, CleanText, StateFor, Run, LiveFor, AllFindings, KeysOf, Plan, Found;
    var input, w := steps[i].input, ws[i];
    EveryWorldInOrder(m, ws, steps, i);
    assert Next(m, w, steps[i], ws[i + 1]);
    RunKept(m, w, input);
    LiveIsFound(m, w, input, key);
    assert Done(m, w, input, ws[i + 1], key);
    StateForIff(m, w, key);
  }

  /** An event issue got at most one comment for each full day since it was opened. */
  lemma EventComments(m: Monitor, ws: seq<World>, steps: seq<Step>, i: nat, n: nat)
    requires History(m, ws, steps) && i < |ws| && n < |ws[i].issues| && ws[i].issues[n].open
    ensures StateAt(ws[i].issues, n).Some?
    ensures var s := StateAt(ws[i].issues, n).value;
            |ws[i].issues[n].comments| * DAY <= ws[i].clock - s.firstSeen
  {
    hide ParseIssue, CleanText;
    EveryWorldInOrder(m, ws, steps, i);
  }

  lemma {:induction false} ClosedStays(m: Monitor, ws: seq<World>, steps: seq<Step>, j: nat, i: nat, n: nat)
    requires History(m, ws, steps) && j <= i < |ws| && n < |ws[j].issues| && !ws[j].issues[n].open
    ensures n < |ws[i].issues| && ws[i].issues[n] == ws[j].issues[n]
  {
    hide Next, ParseIssue;
    if j < i {
      ClosedStays(m, ws, steps, j, i - 1, n);
      EveryWorldInOrder(m, ws, steps, i - 1);
      StepKept(m, ws[i - 1], steps[i - 1], ws[i]);
    }
  }

  /** For an hour after a human closes an event issue, no operation of its check names a scope it listed,
      as long as the page of closed issues still shows it. */
  lemma AcknowledgementHolds(m: Monitor, ws: seq<World>, steps: seq<Step>, j: nat, i: nat, scope: string)
    requires History(m, ws, steps) && j < i < |steps|
    requires steps[j].HumanClose? && steps[i].MonitorRun? && steps[j].number < |ws[j].issues|
    requires StateAt(ws[j].issues, steps[j].number).Some? && steps[j].number in steps[i].input.page
    requires ValidInput(m, steps[i].input)
    requires steps[i].input.now - steps[j].at < HOUR
    ensures var s, input := StateAt(ws[j].issues, steps[j].number).value, steps[i].input;
            s.key in m.checks && m.checks[s.key].event && scope in ScopesOf(s.nodes) ==>
              forall op | op in Plan(m, ws[i].issues, input) && op.key == s.key ::
                !op.Close? && forall f | f in op.findings :: f.scope != scope
  {
    hide ParseIssue, CleanText, AllFindings, KeysOf, LiveFor, Inv, ClosedScopes, Resolved;
    var input, issues, n := steps[i].input, ws[i].issues, steps[j].number;
    var s := StateAt(ws[j].issues, n).value;
    if s.key in m.checks && m.checks[s.key].event && scope in ScopesOf(s.nodes) {
      ClosedStays(m, ws, steps, j + 1, i, n);
      ClosedAsParsed(n, ws[j].issues[n].body);
      assert Lists(issues, n, s.key, scope);
      var p :| 0 <= p < |input.page| && input.page[p] == n;
      assert Acknowledged(issues, input.page, s.key, scope, input.now);
      LiveForExact(m, issues, input, s.key);
      KeysOfExact(AllFindings(input));
      ActiveNamesLive(m, issues, input, KeysOf(AllFindings(input)));
      ClosesAreResolved(m, OpenStates(issues), input);
      EventsNeverResolve(m, input, s.key);
    }
  }

  lemma EventsNeverResolve(m: Monitor, input: Input, key: string)
    requires key in m.checks && m.checks[key].event
    ensures forall s: IssueState | s.key == key :: !Resolved(m, s, input)
  {
  }
}
