/**
 The hourly monitor of the CI nodes: it compares the findings of a run with its open issues and
 creates, updates, comments on or closes them. All it remembers is in the issue bodies.
 */
module NodeHealth {
  import opened Text
  import opened IssueMarker

  const CLOSE_AFTER := 90 * 60
  const COMMENT_EVERY := 24 * 3600
  const EVENT_REOPEN_GRACE := 3600

  datatype Check = Check(
    key: string, severity: string, title: string, meaning: string, firstAction: string, event: bool)

  datatype Finding = Finding(key: string, scope: string, detail: string)

  /** The registry of checks and the links a body carries. */
  datatype Monitor = Monitor(checks: map<string, Check>, promKeys: set<string>, runUrl: string, docsUrl: string)

  const RUNNER_FAILED := "runner_failed"
  const RUNNER_BLIND := "runner_monitor_blind"
  const MONITOR_BLIND := "monitor_blind"
  const RUNNER_POOLS := {"1-gpu-h100", "2-gpu-h100", "4-gpu-h100", "k8s-runner-cpu"}

  ghost predicate ValidMonitor(m: Monitor) {
    forall k | k in m.checks :: CleanText(k)
  }

  // --- runner status supplied by the cluster trigger ----------------------------------

  /** None where the snapshot's field is not of the type asked for. */
  datatype Example = Example(name: Option<string>, reason: Option<string>, message: Option<string>)
  datatype Pool = Pool(name: string, failed: Option<int>, examples: Option<seq<Example>>)

  /** `Garbled`: not a JSON object, or a field missing. A naive timestamp is `checkedAt == None`. */
  datatype Snapshot =
    | Absent
    | Garbled(reason: string)
    | Report(error: string, checkedAt: Option<int>, pools: seq<Pool>)

  predicate ValidPool(p: Pool) {
    && p.failed.Some? && p.failed.value >= 0
    && p.examples.Some? && |p.examples.value| <= 3 && (p.failed.value != 0 ==> p.examples.value != [])
    && forall i | 0 <= i < |p.examples.value| ::
         var e := p.examples.value[i]; e.name.Some? && e.reason.Some? && e.message.Some?
  }

  /** A fresh, complete report of every pool. */
  predicate Readable(s: Snapshot, now: nat) {
    && s.Report? && s.error == ""
    && s.checkedAt.Some? && -300 <= now - s.checkedAt.value <= 7200
    && |s.pools| == 4 && (set i | 0 <= i < |s.pools| :: s.pools[i].name) == RUNNER_POOLS
    && forall i | 0 <= i < |s.pools| :: ValidPool(s.pools[i])
  }

  function PoolFinding(p: Pool): seq<Finding>
    requires ValidPool(p)
  {
    if p.failed.value == 0 then []
    else [Finding(RUNNER_FAILED, p.name, Decimal(p.failed.value) + " Failed runner(s) occupy pool slots")]
  }

  function PoolFindings(pools: seq<Pool>): seq<Finding>
    requires forall i | 0 <= i < |pools| :: ValidPool(pools[i])
  {
    if pools == [] then [] else PoolFinding(pools[0]) + PoolFindings(pools[1..])
  }

  /** The findings, and which of the two runner checks this run evaluated. */
  function RunnerFindings(s: Snapshot, now: nat): (seq<Finding>, set<string>) {
    if s.Absent? then ([], {})
    else if Readable(s, now) then (PoolFindings(s.pools), {RUNNER_FAILED, RUNNER_BLIND})
    else ([Finding(RUNNER_BLIND, "runner-status", "unreadable")], {RUNNER_BLIND})
  }

  // --- one run's input ------------------------------------------------------------------

  /** Prometheus may fail before or after its findings were taken. */
  datatype Prom = Up(findings: seq<Finding>) | Down(findings: seq<Finding>, error: string)

  /** `page`: the closed issues the one-page listing returned. `applied`: how many operations were
      carried out before the GitHub API failed, if it did. */
  datatype Input = Input(
    now: nat, prom: Prom, snapshot: Snapshot, github: seq<Finding>, page: seq<nat>, applied: nat)

  function PromFindings(p: Prom): seq<Finding> {
    match p
    case Up(fs) => fs
    case Down(fs, error) => fs + [Finding(MONITOR_BLIND, "prometheus", error)]
  }

  function AllFindings(input: Input): seq<Finding> {
    RunnerFindings(input.snapshot, input.now).0 + PromFindings(input.prom) + input.github
  }

  function Evaluated(m: Monitor, input: Input): set<string> {
    var own := (m.checks.Keys - {RUNNER_FAILED, RUNNER_BLIND}) + RunnerFindings(input.snapshot, input.now).1;
    if input.prom.Up? then own else own - m.promKeys
  }

  ghost predicate ValidInput(m: Monitor, input: Input) {
    forall f | f in AllFindings(input) :: f.key in m.checks && CleanText(f.scope)
  }

  // --- grouping ---------------------------------------------------------------------------

  function Of(fs: seq<Finding>, key: string): seq<Finding> {
    if fs == [] then []
    else Of(fs[..|fs| - 1], key) + (if fs[|fs| - 1].key == key then [fs[|fs| - 1]] else [])
  }

  /** The keys in the order they first appear. */
  function KeysOf(fs: seq<Finding>): seq<string> {
    if fs == [] then []
    else
      var keys := KeysOf(fs[..|fs| - 1]);
      if fs[|fs| - 1].key in keys then keys else keys + [fs[|fs| - 1].key]
  }

  lemma {:induction false} KeysOfExact(fs: seq<Finding>)
    ensures forall k :: k in KeysOf(fs) <==> exists i | 0 <= i < |fs| :: fs[i].key == k
    ensures forall i, j | 0 <= i < j < |KeysOf(fs)| :: KeysOf(fs)[i] != KeysOf(fs)[j]
  {
    if fs != [] {
      KeysOfExact(fs[..|fs| - 1]);
      assert forall i | 0 <= i < |fs| - 1 :: fs[i] == fs[..|fs| - 1][i];
    }
  }

  lemma {:induction false} OfExact(fs: seq<Finding>, key: string)
    ensures forall f :: f in Of(fs, key) <==> f in fs && f.key == key
  {
    if fs != [] {
      OfExact(fs[..|fs| - 1], key);
      assert fs == fs[..|fs| - 1] + [fs[|fs| - 1]];
    }
  }

  lemma NothingYet()
    ensures KeysOf([]) == [] && forall k :: Of([], k) == []
  {
  }

  lemma OneMoreFinding(fs: seq<Finding>, n: nat, k: string)
    requires n < |fs|
    ensures Of(fs[..n + 1], k) == Of(fs[..n], k) + if fs[n].key == k then [fs[n]] else []
    ensures KeysOf(fs[..n + 1]) == KeysOf(fs[..n]) + if fs[n].key in KeysOf(fs[..n]) then [] else [fs[n].key]
  {
    assert fs[..n + 1][..n] == fs[..n];
  }

  /** `group_by_check`: a dictionary filled in one pass. */
  method GroupByCheck(fs: seq<Finding>) returns (keys: seq<string>, grouped: map<string, seq<Finding>>)
    ensures keys == KeysOf(fs)
    ensures grouped.Keys == set k | k in keys
    ensures forall k | k in grouped :: grouped[k] == Of(fs, k) && grouped[k] != []
  {
    hide Of, KeysOf;
    keys, grouped := [], map[];
    NothingYet();
    for n := 0 to |fs|
      invariant keys == KeysOf(fs[..n])
      invariant grouped.Keys == set k | k in keys
      invariant forall k :: Of(fs[..n], k) == if k in grouped then grouped[k] else []
      invariant forall k | k in grouped :: grouped[k] != []
    {
      forall k ensures Of(fs[..n + 1], k) == Of(fs[..n], k) + if fs[n].key == k then [fs[n]] else [] {
        OneMoreFinding(fs, n, k);
      }
      OneMoreFinding(fs, n, fs[n].key);
      var f := fs[n];
      if f.key !in grouped {
        keys := keys + [f.key];
        grouped := grouped[f.key := []];
      }
      grouped := grouped[f.key := grouped[f.key] + [f]];
    }
    assert fs[..|fs|] == fs;
  }

  function Scopes(fs: seq<Finding>): (r: seq<string>)
    ensures StrictlySorted(r)
    ensures forall s :: s in r <==> exists i | 0 <= i < |fs| :: fs[i].scope == s
  {
    if fs == [] then []
    else
      assert forall i | 0 <= i < |fs| - 1 :: fs[..|fs| - 1][i] == fs[i];
      Insert(fs[|fs| - 1].scope, Scopes(fs[..|fs| - 1]))
  }

  ghost function ScopeSet(fs: seq<Finding>): set<string> {
    set i | 0 <= i < |fs| :: fs[i].scope
  }

  // --- the issues ---------------------------------------------------------------------------

  /** `comments`: when the monitor commented. */
  datatype Issue = Issue(open: bool, title: string, body: string, closedAt: Option<nat>, comments: seq<nat>)
  datatype World = World(clock: nat, issues: seq<Issue>)

  function OpenStates(issues: seq<Issue>): seq<IssueState> {
    if issues == [] then []
    else
      var n := |issues| - 1;
      var state := ParseIssue(n, issues[n].body);
      OpenStates(issues[..n]) + (if issues[n].open && state.Some? then [state.value] else [])
  }

  /** `{s.key: s for s in states}` */
  function ByKey(states: seq<IssueState>): map<string, IssueState> {
    if states == [] then map[]
    else ByKey(states[..|states| - 1])[states[|states| - 1].key := states[|states| - 1]]
  }

  function StateFor(issues: seq<Issue>, key: string): Option<IssueState> {
    var states := ByKey(OpenStates(issues));
    if key in states then Some(states[key]) else None
  }

  /** The latest time a closed issue of the page that lists a scope of the key was closed. */
  function ClosedAt(issues: seq<Issue>, page: seq<nat>, key: string, scope: string): Option<nat> {
    if page == [] then None
    else
      var before, n := ClosedAt(issues, page[..|page| - 1], key, scope), page[|page| - 1];
      if !Lists(issues, n, key, scope) then before
      else if before.Some? && before.value >= issues[n].closedAt.value then before
      else issues[n].closedAt
  }

  predicate Lists(issues: seq<Issue>, n: nat, key: string, scope: string) {
    && n < |issues| && !issues[n].open && issues[n].closedAt.Some?
    && var listed := ClosedScopes(issues[n].body);
       listed.Some? && listed.value.0 == key && scope in listed.value.1
  }

  /** Acknowledged: a human closed an issue of the check naming the scope less than an hour ago. */
  ghost predicate Acknowledged(issues: seq<Issue>, page: seq<nat>, key: string, scope: string, now: nat) {
    exists i | 0 <= i < |page| ::
      Lists(issues, page[i], key, scope) && now - issues[page[i]].closedAt.value < EVENT_REOPEN_GRACE
  }

  lemma {:induction false} ClosedAtIsLatest(issues: seq<Issue>, page: seq<nat>, key: string, scope: string, now: nat)
    ensures var at := ClosedAt(issues, page, key, scope);
            Acknowledged(issues, page, key, scope, now) <==> at.Some? && now - at.value < EVENT_REOPEN_GRACE
  {
    hide ClosedScopes;
    if page != [] {
      var shorter := page[..|page| - 1];
      ClosedAtIsLatest(issues, shorter, key, scope, now);
      assert forall i | 0 <= i < |shorter| :: shorter[i] == page[i];
      assert Acknowledged(issues, page, key, scope, now) <==>
        Acknowledged(issues, shorter, key, scope, now) ||
        (Lists(issues, page[|page| - 1], key, scope) &&
         now - issues[page[|page| - 1]].closedAt.value < EVENT_REOPEN_GRACE);
    }
  }

  /** The findings an acknowledgement does not silence. */
  function Live(m: Monitor, issues: seq<Issue>, page: seq<nat>, key: string, fs: seq<Finding>, now: nat): seq<Finding>
    requires key in m.checks
  {
    if !m.checks[key].event || fs == [] then fs
    else
      var f, at := fs[|fs| - 1], ClosedAt(issues, page, key, fs[|fs| - 1].scope);
      Live(m, issues, page, key, fs[..|fs| - 1], now) +
      (if at.None? || now - at.value >= EVENT_REOPEN_GRACE then [f] else [])
  }

  lemma {:induction false} LiveExact(m: Monitor, issues: seq<Issue>, page: seq<nat>, key: string, fs: seq<Finding>,
                                     now: nat)
    requires key in m.checks
    ensures var live := Live(m, issues, page, key, fs, now);
            forall f :: f in live <==>
              f in fs && !(m.checks[key].event && Acknowledged(issues, page, key, f.scope, now))
  {
    hide ClosedAt, Acknowledged;
    if m.checks[key].event && fs != [] {
      LiveExact(m, issues, page, key, fs[..|fs| - 1], now);
      ClosedAtIsLatest(issues, page, key, fs[|fs| - 1].scope, now);
      assert fs == fs[..|fs| - 1] + [fs[|fs| - 1]];
    }
  }

  // --- the plan -------------------------------------------------------------------------------

  /** `findings` stands for the title and the comment text, which are printed from it. */
  datatype Op =
    | Create(key: string, findings: seq<Finding>, body: string)
    | Update(number: nat, key: string, findings: seq<Finding>, body: string)
    | Comment(number: nat, key: string, findings: seq<Finding>)
    | Close(number: nat, key: string, body: string)

  function Join(parts: seq<string>, separator: string): string {
    if parts == [] then [] else if |parts| == 1 then parts[0]
    else parts[0] + separator + Join(parts[1..], separator)
  }

  function Title(c: Check, fs: seq<Finding>): string {
    "[node-health][" + c.severity + "] " + c.title + ": " + Join(Scopes(fs), ", ")
  }

  function Rows(fs: seq<Finding>): string {
    if fs == [] then [] else "| " + fs[0].scope + " | " + fs[0].detail + " |\n" + Rows(fs[1..])
  }

  /** What stands above the marker. */
  function Head(m: Monitor, c: Check, fs: seq<Finding>): string {
    c.severity + c.title + "\n\n" + c.meaning + "\n\n" + Rows(fs) + "\n" + c.firstAction + m.runUrl + m.docsUrl + "\n\n"
  }

  function Nodes(scopes: seq<string>, known: seq<(string, nat)>, now: nat): (r: seq<(string, nat)>)
    ensures |r| == |scopes| && forall i | 0 <= i < |r| :: r[i].0 == scopes[i]
  {
    if scopes == [] then [] else [(scopes[0], SeenSince(known, scopes[0], now))] + Nodes(scopes[1..], known, now)
  }

  /** The state a run writes for a check it found in `fs`. */
  function Seen(c: Check, key: string, known: Option<IssueState>, fs: seq<Finding>, now: nat): IssueState {
    match known
    case None => IssueState(0, key, now, now, if c.event then Some(now) else None, Nodes(Scopes(fs), [], now))
    case Some(s) =>
      s.(lastSeen := now, nodes := Nodes(Scopes(fs), s.nodes, now),
         lastComment := if CommentDue(c, s, now) then Some(now) else s.lastComment)
  }

  predicate CommentDue(c: Check, s: IssueState, now: nat) {
    c.event && (s.lastComment.None? || now - s.lastComment.value >= COMMENT_EVERY)
  }

  /** The operations for one check with live findings. */
  function PlanOne(m: Monitor, key: string, known: Option<IssueState>, live: seq<Finding>, now: nat): seq<Op>
    requires key in m.checks
  {
    var c := m.checks[key];
    if live == [] then []
    else
      var body := Body(Head(m, c, live), StateJson(Seen(c, key, known, live, now)));
      match known
      case None => [Create(key, live, body)]
      case Some(s) =>
        [Update(s.number, key, live, body)] + (if CommentDue(c, s, now) then [Comment(s.number, key, live)] else [])
  }

  /** The live findings of every key found. */
  function PlanActive(m: Monitor, issues: seq<Issue>, input: Input, keys: seq<string>): seq<Op>
    requires forall k | k in keys :: k in m.checks
  {
    if keys == [] then []
    else
      PlanActive(m, issues, input, keys[..|keys| - 1]) + PlanKey(m, issues, input, keys[|keys| - 1])
  }

  function PlanKey(m: Monitor, issues: seq<Issue>, input: Input, key: string): seq<Op>
    requires key in m.checks
  {
    var live := Live(m, issues, input.page, key, Of(AllFindings(input), key), input.now);
    PlanOne(m, key, StateFor(issues, key), live, input.now)
  }

  /** Due to be closed: readable this run, not found, and last seen long enough ago. */
  predicate Resolved(m: Monitor, s: IssueState, input: Input) {
    && s.key !in KeysOf(AllFindings(input))
    && s.key in m.checks && !m.checks[s.key].event
    && s.key in Evaluated(m, input)
    && input.now - s.lastSeen >= CLOSE_AFTER
  }

  function PlanClose(m: Monitor, states: seq<IssueState>, input: Input): seq<Op> {
    if states == [] then []
    else
      var s := states[|states| - 1];
      PlanClose(m, states[..|states| - 1], input) +
      (if Resolved(m, s, input)
       then [Close(s.number, s.key, Body("Resolved" + m.runUrl, ClosedJson(s.key, input.now)))] else [])
  }

  /** `plan_ops` on what a run read. */
  function Plan(m: Monitor, issues: seq<Issue>, input: Input): seq<Op>
    requires forall f | f in AllFindings(input) :: f.key in m.checks
  {
    KeysOfExact(AllFindings(input));
    PlanActive(m, issues, input, KeysOf(AllFindings(input))) + PlanClose(m, OpenStates(issues), input)
  }

  /** Where a state stands that a key names: the object the dictionary shares with the list. */
  function Places(states: seq<IssueState>): map<string, nat> {
    if states == [] then map[]
    else Places(states[..|states| - 1])[states[|states| - 1].key := |states| - 1]
  }

  lemma {:induction false} PlacesExact(states: seq<IssueState>)
    ensures Places(states).Keys == ByKey(states).Keys
    ensures forall k | k in Places(states) ::
            Places(states)[k] < |states| && states[Places(states)[k]] == ByKey(states)[k] && ByKey(states)[k].key == k
  {
    if states != [] {
      PlacesExact(states[..|states| - 1]);
    }
  }

  /** `plan_ops` as its two loops: over the dictionary of findings, bringing the open states up to date in their
      places, then over those same states. */
  method PlanOps(m: Monitor, issues: seq<Issue>, input: Input) returns (ops: seq<Op>)
    requires forall f | f in AllFindings(input) :: f.key in m.checks
    ensures ops == Plan(m, issues, input)
  {
    KeysOfExact(AllFindings(input));
    var keys, active := GroupByCheck(AllFindings(input));
    assert forall k | k in keys :: k in m.checks;
    var states := OpenStates(issues);
    var updated;
    ops, updated := ActiveOps(m, issues, input, keys, active, states);
    var closes := CloseOps(m, updated, input, active.Keys);
    UpdatesUnseen(m, states, updated, input);
    ops := ops + closes;
  }

  /** The states differ only where their check was found. */
  ghost predicate Untouched(before: seq<IssueState>, after: seq<IssueState>, keys: seq<string>) {
    && |after| == |before|
    && (forall i | 0 <= i < |after| :: after[i].key == before[i].key)
    && forall i | 0 <= i < |after| && before[i].key !in keys :: after[i] == before[i]
  }

  lemma UntouchedYet(states: seq<IssueState>)
    ensures Untouched(states, states, [])
  {
  }

  /** A check whose turn has not come has its state as it was. */
  lemma StillToCome(before: seq<IssueState>, after: seq<IssueState>, keys: seq<string>, i: nat, place: nat)
    requires i < |keys| && Untouched(before, after, keys[..i]) && place < |before| && before[place].key == keys[i]
    requires forall j, k | 0 <= j < k < |keys| :: keys[j] != keys[k]
    ensures |after| == |before| && after[place] == before[place]
  {
    assert keys[i] !in keys[..i];
  }

  lemma UntouchedMore(before: seq<IssueState>, after: seq<IssueState>, keys: seq<string>, i: nat)
    requires i < |keys| && Untouched(before, after, keys[..i])
    ensures Untouched(before, after, keys[..i + 1])
  {
    assert keys[..i + 1] == keys[..i] + [keys[i]];
  }

  lemma UntouchedStep(before: seq<IssueState>, after: seq<IssueState>, keys: seq<string>, i: nat, place: nat,
                      s: IssueState)
    requires i < |keys| && Untouched(before, after, keys[..i]) && place < |before| &&
             before[place].key == keys[i] == s.key
    ensures |after| == |before| && Untouched(before, after[place := s], keys[..i + 1])
  {
    assert keys[..i + 1] == keys[..i] + [keys[i]];
  }

  /** No update of the first loop is seen by the second, which passes over every check that was found. */
  lemma {:induction false} UpdatesUnseen(m: Monitor, before: seq<IssueState>, after: seq<IssueState>, input: Input)
    requires Untouched(before, after, KeysOf(AllFindings(input)))
    ensures PlanClose(m, after, input) == PlanClose(m, before, input)
  {
    hide AllFindings, KeysOf, Evaluated, Body, ClosedJson;
    if before != [] {
      UpdatesUnseen(m, before[..|before| - 1], after[..|after| - 1], input);
    }
  }

  method ActiveOps(m: Monitor, issues: seq<Issue>, input: Input, keys: seq<string>,
                   active: map<string, seq<Finding>>, states: seq<IssueState>)
    returns (ops: seq<Op>, updated: seq<IssueState>)
    requires forall k | k in keys :: k in m.checks && k in active && active[k] == Of(AllFindings(input), k)
    requires forall i, j | 0 <= i < j < |keys| :: keys[i] != keys[j]
    requires states == OpenStates(issues)
    ensures ops == PlanActive(m, issues, input, keys) && Untouched(states, updated, keys)
  {
    hide AllFindings, Of, Live, OpenStates, ByKey, PlanOne, Places, Untouched;
    UntouchedYet(states);
    var places := Places(states);
    PlacesExact(states);
    ops, updated := [], states;
    for i := 0 to |keys|
      invariant ops == PlanActive(m, issues, input, keys[..i]) && Untouched(states, updated, keys[..i])
    {
      assert keys[..i + 1][..i] == keys[..i];
      var key := keys[i];
      var live := active[key];
      if m.checks[key].event {
        live := Unsilenced(m, issues, input, key, active[key]);
      }
      assert live == Live(m, issues, input.page, key, Of(AllFindings(input), key), input.now) by {
        NothingSilenced(m, issues, input.page, key, active[key], input.now);
      }
      if key in places {
        StillToCome(states, updated, keys, i, places[key]);
        var more, state := OpsForOpen(m, key, updated[places[key]], live, input.now);
        UntouchedStep(states, updated, keys, i, places[key], state);
        ops, updated := ops + more, updated[places[key] := state];
      } else {
        UntouchedMore(states, updated, keys, i);
        var more := OpsForFresh(m, key, live, input.now);
        ops := ops + more;
      }
    }
    assert keys[..|keys|] == keys;
  }

  /** A check that is no event has nothing to silence. */
  lemma NothingSilenced(m: Monitor, issues: seq<Issue>, page: seq<nat>, key: string, fs: seq<Finding>, now: nat)
    requires key in m.checks
    ensures !m.checks[key].event ==> Live(m, issues, page, key, fs, now) == fs
  {
  }

  method OpsForFresh(m: Monitor, key: string, live: seq<Finding>, now: nat) returns (ops: seq<Op>)
    requires key in m.checks
    ensures ops == PlanOne(m, key, None, live, now)
  {
    var c := m.checks[key];
    if live == [] {
      return [];
    }
    var state := IssueState(0, key, now, now, if c.event then Some(now) else None, Nodes(Scopes(live), [], now));
    return [Create(key, live, Body(Head(m, c, live), StateJson(state)))];
  }

  /** An open issue's state brought up to date, and the operations that say so. */
  method OpsForOpen(m: Monitor, key: string, known: IssueState, live: seq<Finding>, now: nat)
    returns (ops: seq<Op>, state: IssueState)
    requires key in m.checks
    ensures ops == PlanOne(m, key, Some(known), live, now)
    ensures state == if live == [] then known else Seen(m.checks[key], key, Some(known), live, now)
  {
    var c := m.checks[key];
    if live == [] {
      return [], known;
    }
    state := known.(lastSeen := now, nodes := Nodes(Scopes(live), known.nodes, now));
    var comment := c.event && (state.lastComment.None? || now - state.lastComment.value >= COMMENT_EVERY);
    if comment {
      state := state.(lastComment := Some(now));
    }
    ops := [Update(state.number, key, live, Body(Head(m, c, live), StateJson(state)))];
    if comment {
      ops := ops + [Comment(state.number, key, live)];
    }
  }

  method CloseOps(m: Monitor, states: seq<IssueState>, input: Input, active: set<string>) returns (ops: seq<Op>)
    requires active == set k | k in KeysOf(AllFindings(input))
    ensures ops == PlanClose(m, states, input)
  {
    ops := [];
    for i := 0 to |states|
      invariant ops == PlanClose(m, states[..i], input)
    {
      assert states[..i + 1][..i] == states[..i];
      var s := states[i];
      if s.key in active || s.key !in m.checks || m.checks[s.key].event {
        continue;
      }
      if s.key !in Evaluated(m, input) {
        continue;
      }
      if input.now - s.lastSeen >= CLOSE_AFTER {
        ops := ops + [Close(s.number, s.key, Body("Resolved" + m.runUrl, ClosedJson(s.key, input.now)))];
      }
    }
    assert states[..|states|] == states;
  }

  /** The event findings a recent close does not silence. */
  method Unsilenced(m: Monitor, issues: seq<Issue>, input: Input, key: string, fs: seq<Finding>)
    returns (live: seq<Finding>)
    requires key in m.checks && m.checks[key].event
    ensures live == Live(m, issues, input.page, key, fs, input.now)
  {
    live := [];
    for i := 0 to |fs|
      invariant live == Live(m, issues, input.page, key, fs[..i], input.now)
    {
      assert fs[..i + 1][..i] == fs[..i];
      var at := ClosedAt(issues, input.page, key, fs[i].scope);
      if at.None? || input.now - at.value >= EVENT_REOPEN_GRACE {
        live := live + [fs[i]];
      }
    }
    assert fs[..|fs|] == fs;
  }

  // --- carrying the plan out ------------------------------------------------------------------

  function ApplyOp(m: Monitor, w: World, op: Op): World {
    match op
    case Create(key, fs, body) =>
      w.(issues := w.issues + [Issue(true, if key in m.checks then Title(m.checks[key], fs) else "", body, None, [])])
    case Update(n, key, fs, body) =>
      if n >= |w.issues| then w
      else w.(issues := w.issues[n :=
        w.issues[n].(body := body, title := if key in m.checks then Title(m.checks[key], fs) else "")])
    case Comment(n, _, _) =>
      if n >= |w.issues| then w
      else w.(issues := w.issues[n := w.issues[n].(comments := w.issues[n].comments + [w.clock])])
    case Close(n, _, body) =>
      if n >= |w.issues| then w
      else w.(issues := w.issues[n := w.issues[n].(open := false, body := body, closedAt := Some(w.clock))])
  }

  /** `apply_ops` */
  function Apply(m: Monitor, w: World, ops: seq<Op>): World {
    if ops == [] then w else ApplyOp(m, Apply(m, w, ops[..|ops| - 1]), ops[|ops| - 1])
  }

  /** One run of the monitor, cut short after `applied` operations. */
  function Run(m: Monitor, w: World, input: Input): World
    requires forall f | f in AllFindings(input) :: f.key in m.checks
  {
    var ops := Plan(m, w.issues, input);
    Apply(m, World(input.now, w.issues), ops[..if input.applied < |ops| then input.applied else |ops|])
  }
}
