/**
 Whether a change moves nothing but release versions. The scanner walks the changed files line by
 line and the lock file entry by entry; what it decides is equality once the versions are erased.
 */
module VersionOnly {
  import opened Text
  import opened VersionLines

  // --- one line ------------------------------------------------------------------------------

  datatype Erased = Verbatim(line: string) | Hole(before: string, after: string)

  /** The line with its version string cut out. */
  function Erase(kind: Kind, line: string, keys: set<string>): Erased {
    match VersionSpan(kind, line, keys)
    case None => Verbatim(line)
    case Some((a, b)) => Hole(line[..a], line[b..])
  }

  function VersionOf(kind: Kind, line: string, keys: set<string>): string {
    match VersionSpan(kind, line, keys)
    case None => []
    case Some((a, b)) => line[a..b]
  }

  /** `new[len(prefix) : len(new) - len(suffix)]` */
  function Middle(s: string, before: string, after: string): string {
    if |before| <= |s| - |after| then s[|before|..|s| - |after|] else []
  }

  /** What the scanner asks of a changed line: the old line's own prefix and suffix around another version. */
  predicate Fits(now: string, before: string, after: string) {
    StartsAt(now, before, 0) && |after| <= |now| && now[|now| - |after|..] == after &&
      IsVersion(Middle(now, before, after))
  }

  /** The scanner's test of one pair of lines. */
  predicate LinePasses(kind: Kind, was: string, now: string, keys: set<string>) {
    || was == now
    || (var span := VersionSpan(kind, was, keys);
        span.Some? && Fits(now, was[..span.value.0], was[span.value.1..]))
  }

  /** A pair of lines passes the scanner exactly when they are equal with their versions erased. */
  lemma LinePassesIff(kind: Kind, was: string, now: string, keys: set<string>)
    ensures LinePasses(kind, was, now, keys) <==> Erase(kind, was, keys) == Erase(kind, now, keys)
    ensures was != now && Erase(kind, was, keys) == Erase(kind, now, keys) ==>
              var (a, b) := VersionSpan(kind, was, keys).value;
              VersionOf(kind, now, keys) == Middle(now, was[..a], was[b..])
  {
    hide VersionSpan;
    var span := VersionSpan(kind, was, keys);
    if span.Some? {
      var (a, b) := span.value;
      var before, after := was[..a], was[b..];
      if Fits(now, before, after) {
        var v := Middle(now, before, after);
        assert now[0..|before|] == now[..|before|];
        assert now == before + v + after == Put(was, (a, b), v);
        VersionSpanPut(kind, was, keys, v);
        assert now[..a] == before && now[a + |v|..] == after;
      }
      if Erase(kind, now, keys) == Hole(before, after) {
        var (c, d) := VersionSpan(kind, now, keys).value;
        assert now[0..|before|] == now[..c];
        assert Middle(now, before, after) == now[c..d];
      }
    }
  }

  /** Passing the scanner is symmetric and transitive: a bump can be undone, and bumps compose. */
  lemma LinePassesEquivalence(kind: Kind, a: string, b: string, c: string, keys: set<string>)
    ensures LinePasses(kind, a, b, keys) <==> LinePasses(kind, b, a, keys)
    ensures LinePasses(kind, a, b, keys) && LinePasses(kind, b, c, keys) ==> LinePasses(kind, a, c, keys)
  {
    hide LinePasses, Erase;
    LinePassesIff(kind, a, b, keys);
    LinePassesIff(kind, b, a, keys);
    LinePassesIff(kind, b, c, keys);
    LinePassesIff(kind, a, c, keys);
  }

  // --- a text carrier ---------------------------------------------------------------------------

  function EraseAll(kind: Kind, lines: seq<string>, keys: set<string>): seq<Erased> {
    seq(|lines|, i requires 0 <= i < |lines| => Erase(kind, lines[i], keys))
  }

  /** What differs between two sequences, as both sides show it. */
  ghost function Moves<T>(was: seq<T>, now: seq<T>, shown: T -> string): set<(string, string)>
    requires |was| == |now|
  {
    set i | 0 <= i < |was| && was[i] != now[i] :: (shown(was[i]), shown(now[i]))
  }

  lemma MovesGrow<T>(was: seq<T>, now: seq<T>, shown: T -> string, n: nat)
    requires |was| == |now| && n < |was|
    ensures Moves(was[..n + 1], now[..n + 1], shown) ==
            Moves(was[..n], now[..n], shown) + (if was[n] == now[n] then {} else {(shown(was[n]), shown(now[n]))})
  {
    var w, w', v, v' := was[..n], was[..n + 1], now[..n], now[..n + 1];
    assert forall i | 0 <= i < n :: w[i] == w'[i] && v[i] == v'[i];
    assert w'[n] == was[n] && v'[n] == now[n];
  }

  /** The versions that moved between two texts. */
  ghost function TextMoves(kind: Kind, base: seq<string>, head: seq<string>, keys: set<string>): set<(string, string)>
    requires |base| == |head|
  {
    Moves(base, head, line => VersionOf(kind, line, keys))
  }

  datatype Reason =
    | LineAddedOrRemoved | NotAVersionLine(number: nat) | MoreThanTheVersion(number: nat)
    | LockUnreadable | LockTables | LockCount | LockNames | DependencyMoved | LockEntry
    | NotACarrier(path: string) | NotModified(path: string) | NothingChanged | NoVersionMoved

  /** `text_reason`, adding to the versions that moved. */
  method TextReason(kind: Kind, base: seq<string>, head: seq<string>, keys: set<string>, moved0: set<(string, string)>)
    returns (reason: Option<Reason>, moved: set<(string, string)>)
    ensures reason.None? <==> EraseAll(kind, base, keys) == EraseAll(kind, head, keys)
    ensures reason.None? ==> |base| == |head| && moved == moved0 + TextMoves(kind, base, head, keys)
  {
    hide VersionSpan, Erase;
    moved := moved0;
    if |base| != |head| {
      assert |EraseAll(kind, base, keys)| != |EraseAll(kind, head, keys)|;
      return Some(LineAddedOrRemoved), moved;
    }
    ghost var shown := line => VersionOf(kind, line, keys);
    for n := 0 to |base|
      invariant forall i | 0 <= i < n :: Erase(kind, base[i], keys) == Erase(kind, head[i], keys)
      invariant moved == moved0 + Moves(base[..n], head[..n], shown)
    {
      var was, now := base[n], head[n];
      LinePassesIff(kind, was, now, keys);
      assert EraseAll(kind, base, keys)[n] == Erase(kind, was, keys);
      assert EraseAll(kind, head, keys)[n] == Erase(kind, now, keys);
      MovesGrow(base, head, shown, n);
      if was == now {
        continue;
      }
      var span := VersionSpan(kind, was, keys);
      if span.None? {
        return Some(NotAVersionLine(n + 1)), moved;
      }
      var before, after := was[..span.value.0], was[span.value.1..];
      if !Fits(now, before, after) {
        return Some(MoreThanTheVersion(n + 1)), moved;
      }
      moved := moved + {(was[span.value.0..span.value.1], Middle(now, before, after))};
    }
    assert base[..|base|] == base && head[..|head|] == head;
    reason := None;
  }

  // --- the lock file ------------------------------------------------------------------------------

  datatype Item = Text(text: string) | List(items: seq<string>)
  type Entry = map<string, Item>

  /** A lock file as TOML: the packages, and everything else. */
  datatype Lock = Lock(tables: map<string, Item>, packages: seq<Entry>)

  /** A path package, one of the workspace's own crates, loses its version; no other entry does. */
  function EraseEntry(e: Entry): Entry {
    if "source" in e then e else e - {"version"}
  }

  function EraseEntries(es: seq<Entry>): seq<Entry> {
    seq(|es|, i requires 0 <= i < |es| => EraseEntry(es[i]))
  }

  predicate SameLock(a: Option<Lock>, b: Option<Lock>) {
    && a.Some? && b.Some? && a.value.tables == b.value.tables
    && EraseEntries(a.value.packages) == EraseEntries(b.value.packages)
  }

  function Shown(e: Entry): string {
    if "version" in e && e["version"].Text? then e["version"].text else "None"
  }

  ghost function LockMoves(was: seq<Entry>, now: seq<Entry>): set<(string, string)>
    requires |was| == |now|
  {
    Moves(was, now, Shown)
  }

  /** `lock_reason` */
  method LockReason(base: Option<Lock>, head: Option<Lock>, moved0: set<(string, string)>)
    returns (reason: Option<Reason>, moved: set<(string, string)>)
    ensures reason.None? <==> SameLock(base, head)
    ensures reason.None? ==> |base.value.packages| == |head.value.packages| &&
                             moved == moved0 + LockMoves(base.value.packages, head.value.packages)
  {
    moved := moved0;
    if base.None? || head.None? {
      return Some(LockUnreadable), moved;
    }
    if base.value.tables != head.value.tables {
      return Some(LockTables), moved;
    }
    var was, now := base.value.packages, head.value.packages;
    if |was| != |now| {
      assert |EraseEntries(was)| != |EraseEntries(now)|;
      return Some(LockCount), moved;
    }
    for n := 0 to |was|
      invariant forall i | 0 <= i < n :: EraseEntry(was[i]) == EraseEntry(now[i])
      invariant moved == moved0 + LockMoves(was[..n], now[..n])
    {
      var w, v := was[n], now[n];
      assert EraseEntries(was)[n] == EraseEntry(w) && EraseEntries(now)[n] == EraseEntry(v);
      EntryErased(w, v);
      MovesGrow(was, now, Shown, n);
      if w == v {
        continue;
      }
      if ("name" in w) != ("name" in v) || ("name" in w && w["name"] != v["name"]) {
        return Some(LockNames), moved;
      }
      if "source" in w || "source" in v {
        return Some(DependencyMoved), moved;
      }
      if w - {"version"} != v - {"version"} {
        return Some(LockEntry), moved;
      }
      moved := moved + {(Shown(w), Shown(v))};
    }
    assert was[..|was|] == was && now[..|now|] == now;
    reason := None;
  }

  /** Erased entries agree in every field but the version of a path package. */
  lemma EntryErased(w: Entry, v: Entry)
    ensures EraseEntry(w) == EraseEntry(v) <==>
            w == v || ("source" !in w && "source" !in v && w - {"version"} == v - {"version"})
    ensures EraseEntry(w) == EraseEntry(v) ==>
            (("name" in w <==> "name" in v) && ("name" in w ==> w["name"] == v["name"]))
  {
    assert |"source"| == 6 && |"version"| == 7 && |"name"| == 4;
    assert "source" in EraseEntry(w) <==> "source" in w;
    assert "source" in EraseEntry(v) <==> "source" in v;
    assert "name" in EraseEntry(w) <==> "name" in w;
    assert "name" in EraseEntry(v) <==> "name" in v;
  }

  // --- the decision -------------------------------------------------------------------------------

  datatype Carrier = LineFile(kind: Kind) | LockFile

  /** A file's lines, and what `tomllib` makes of them where they are a lock file's. */
  datatype Content = Content(lines: seq<string>, lock: Option<Lock>)
  type Tree = map<string, Content>
  datatype Change = Change(status: char, path: string)

  /** The carriers of a repository and the keys its crates are pinned under. */
  datatype Table = Table(carriers: map<string, Carrier>, keys: set<string>)

  datatype Verdict = VersionOnly(moved: set<(string, string)>) | More(reason: Reason) | Unreadable(path: string)

  ghost predicate SameFile(t: Table, carrier: Carrier, a: Content, b: Content) {
    match carrier
    case LineFile(kind) => EraseAll(kind, a.lines, t.keys) == EraseAll(kind, b.lines, t.keys)
    case LockFile => SameLock(a.lock, b.lock)
  }

  ghost predicate Passes(t: Table, c: Change, base: Tree, head: Tree) {
    && c.path in t.carriers && c.status == 'M' && c.path in base && c.path in head
    && SameFile(t, t.carriers[c.path], base[c.path], head[c.path])
  }

  ghost function FileMoves(t: Table, c: Change, base: Tree, head: Tree): set<(string, string)> {
    if !Passes(t, c, base, head) then {}
    else
      var a, b := base[c.path], head[c.path];
      match t.carriers[c.path]
      case LineFile(kind) => if |a.lines| == |b.lines| then TextMoves(kind, a.lines, b.lines, t.keys) else {}
      case LockFile =>
        if |a.lock.value.packages| == |b.lock.value.packages|
        then LockMoves(a.lock.value.packages, b.lock.value.packages) else {}
  }

  ghost function AllMoves(t: Table, changes: seq<Change>, base: Tree, head: Tree): set<(string, string)> {
    if changes == [] then {}
    else AllMoves(t, changes[..|changes| - 1], base, head) + FileMoves(t, changes[|changes| - 1], base, head)
  }

  /** Every changed file is a modified carrier, equal with its versions erased, and some version moved. */
  ghost predicate Accepts(t: Table, changes: seq<Change>, base: Tree, head: Tree) {
    && (forall i | 0 <= i < |changes| :: Passes(t, changes[i], base, head))
    && AllMoves(t, changes, base, head) != {}
  }

  /** `classify` */
  method Classify(t: Table, changes: seq<Change>, base: Tree, head: Tree) returns (v: Verdict)
    ensures v.VersionOnly? <==> Accepts(t, changes, base, head)
    ensures v.VersionOnly? ==> v.moved == AllMoves(t, changes, base, head)
    ensures v.Unreadable? ==> exists i | 0 <= i < |changes| ::
              changes[i].path == v.path && v.path in t.carriers && (v.path !in base || v.path !in head)
  {
    hide EraseAll, SameLock, TextMoves, LockMoves;
    if changes == [] {
      return More(NothingChanged);
    }
    var moved: set<(string, string)> := {};
    for n := 0 to |changes|
      invariant forall i | 0 <= i < n :: Passes(t, changes[i], base, head)
      invariant moved == AllMoves(t, changes[..n], base, head)
    {
      var c := changes[n];
      assert changes[..n + 1][..n] == changes[..n];
      if c.path !in t.carriers {
        return More(NotACarrier(c.path));
      }
      if c.status != 'M' {
        return More(NotModified(c.path));
      }
      if c.path !in base || c.path !in head {
        return Unreadable(c.path);
      }
      var reason;
      match t.carriers[c.path] {
        case LineFile(kind) =>
          reason, moved := TextReason(kind, base[c.path].lines, head[c.path].lines, t.keys, moved);
        case LockFile =>
          reason, moved := LockReason(base[c.path].lock, head[c.path].lock, moved);
      }
      if reason.Some? {
        return More(reason.value);
      }
    }
    assert changes[..|changes|] == changes;
    if moved == {} {
      return More(NoVersionMoved);
    }
    v := VersionOnly(moved);
  }

  // --- changes compose ------------------------------------------------------------------------------

  /** `git diff --name-status --no-renames`: the files that differ, and how. */
  ghost predicate DiffOf(changes: seq<Change>, base: Tree, head: Tree) {
    && (forall i | 0 <= i < |changes| :: Differs(changes[i].path, base, head) && StatusOf(changes[i], base, head))
    && (forall p | Differs(p, base, head) :: exists i | 0 <= i < |changes| :: changes[i].path == p)
  }

  ghost predicate Differs(p: string, base: Tree, head: Tree) {
    (p in base) != (p in head) || (p in base && base[p] != head[p])
  }

  ghost predicate StatusOf(c: Change, base: Tree, head: Tree) {
    if c.path !in base then c.status == 'A' else if c.path !in head then c.status == 'D' else c.status == 'M'
  }

  /** Equal but for versions: every file is the same, or a carrier whose erased contents are. */
  ghost predicate SameTree(t: Table, a: Tree, b: Tree) {
    && a.Keys == b.Keys
    && forall p | p in a :: a[p] == b[p] || (p in t.carriers && SameFile(t, t.carriers[p], a[p], b[p]))
  }

  /** On a true diff the classifier decides exactly that. */
  lemma ClassifyDecides(t: Table, changes: seq<Change>, base: Tree, head: Tree)
    requires DiffOf(changes, base, head)
    ensures (forall i | 0 <= i < |changes| :: Passes(t, changes[i], base, head)) <==> SameTree(t, base, head)
  {
    hide SameFile;
    if forall i | 0 <= i < |changes| :: Passes(t, changes[i], base, head) {
      forall p | Differs(p, base, head)
        ensures p in base && p in head && p in t.carriers && SameFile(t, t.carriers[p], base[p], head[p])
      {
        var i :| 0 <= i < |changes| && changes[i].path == p;
        assert Passes(t, changes[i], base, head);
      }
      assert forall p :: p in base <==> p in head by {
        assert forall p | !Differs(p, base, head) :: p in base <==> p in head;
      }
    }
    if SameTree(t, base, head) {
      forall i | 0 <= i < |changes| ensures Passes(t, changes[i], base, head) {
        assert Differs(changes[i].path, base, head) && StatusOf(changes[i], base, head);
      }
    }
  }

  /** Being equal but for versions is an equivalence, so accepted changes compose and can be undone. */
  lemma SameTreeEquivalence(t: Table, a: Tree, b: Tree, c: Tree)
    ensures SameTree(t, a, a)
    ensures SameTree(t, a, b) ==> SameTree(t, b, a)
    ensures SameTree(t, a, b) && SameTree(t, b, c) ==> SameTree(t, a, c)
  {
    hide EraseAll, EraseEntries;
  }

  /** Two accepted changes in a row make one that is accepted, unless no version moved over both. */
  lemma ChangesCompose(t: Table, xs: seq<Change>, ys: seq<Change>, zs: seq<Change>, a: Tree, b: Tree, c: Tree)
    requires DiffOf(xs, a, b) && DiffOf(ys, b, c) && DiffOf(zs, a, c)
    requires Accepts(t, xs, a, b) && Accepts(t, ys, b, c)
    ensures Accepts(t, zs, a, c) <==> AllMoves(t, zs, a, c) != {}
  {
    hide SameTree, Passes, AllMoves, DiffOf;
    ClassifyDecides(t, xs, a, b);
    ClassifyDecides(t, ys, b, c);
    ClassifyDecides(t, zs, a, c);
    SameTreeEquivalence(t, a, b, c);
  }
}
