/** The checker at work on a repository: reading the tags, judging, planning, rewriting the working tree. */
module ReleaseTool {
  import opened Text
  import opened Rewrites
  import opened VersionFiles
  import opened ReleaseTags
  import opened ReleaseCheck
  import opened ReleaseFix

  lemma ApplyStep(tree: Tree, ws: seq<Write>, w: Write)
    requires Writeable(tree, ws + [w])
    ensures Writeable(tree, ws)
    ensures var (before, failed) := ApplyAll(tree, ws);
            && Writeable(before, [w])
            && var (after, took) := ApplyOne(before, w);
               ApplyAll(tree, ws + [w]) == (after, failed + if took then 0 else 1)
  {
    hide ApplyOne;
    assert (ws + [w])[..|ws|] == ws;
    assert forall v | v in ws :: v in ws + [w];
    assert w in ws + [w];
    var (before, failed) := ApplyAll(tree, ws);
    assert forall p :: p in before <==> p in before.Keys;
  }

  lemma WriteablePrefix(tree: Tree, a: seq<Write>, b: seq<Write>)
    requires Writeable(tree, a + b)
    ensures Writeable(tree, a)
  {
  }

  lemma {:induction false} GatherPrefix(run: Run, tables: Tables, pass: Pass, vs: seq<Verdict>, n: nat)
    requires n <= |vs|
    ensures Gather(run, tables, pass, vs[..n]) <= Gather(run, tables, pass, vs)
  {
    hide WritesOf;
    if n < |vs| {
      GatherPrefix(run, tables, pass, vs[..|vs| - 1], n);
      assert vs[..|vs| - 1][..n] == vs[..n];
    } else {
      assert vs[..n] == vs;
    }
  }

  lemma GatherStep(run: Run, tables: Tables, pass: Pass, vs: seq<Verdict>, n: nat)
    requires n < |vs|
    ensures Gather(run, tables, pass, vs[..n + 1]) ==
            Gather(run, tables, pass, vs[..n]) + WritesOf(run, tables, pass, vs[n])
  {
    hide WritesOf;
    assert vs[..n + 1][..n] == vs[..n];
  }

  lemma NothingGathered(run: Run, tables: Tables, pass: Pass, vs: seq<Verdict>)
    ensures Gather(run, tables, pass, vs[..0]) == []
  {
  }

  lemma ApplyNothing(tree: Tree)
    requires Writeable(tree, [])
    ensures ApplyAll(tree, []) == (tree, 0)
  {
  }

  lemma MorePrefix(more: seq<Write>, front: seq<Write>, w: Write, all: seq<Write>)
    requires front + [w] <= all
    ensures more + front + [w] <= more + all && more + front + [w] == more + (front + [w])
  {
  }

  lemma {:induction false} SyncsPrefix(ms: seq<(Mirror, string)>, target: string, n: nat)
    requires n <= |ms|
    ensures Syncs(ms[..n], target) <= Syncs(ms, target)
  {
    if n < |ms| {
      SyncsPrefix(ms[..|ms| - 1], target, n);
      assert ms[..|ms| - 1][..n] == ms[..n];
    } else {
      assert ms[..n] == ms;
    }
  }

  datatype Outcome = Consistent | Done | Failed(fixes: nat) | Fatal

  class Repo {
    const run: Run
    var tree: Tree

    constructor (run: Run, tree: Tree)
      ensures this.run == run && this.tree == tree
    {
      this.run := run;
      this.tree := tree;
    }

    /** `tagged_versions` */
    method ReadTables() returns (tables: Tables)
      ensures (forall i, j | 0 <= i < j < |Components(run)| :: Components(run)[i].name != Components(run)[j].name) ==>
                TablesOf(run, tables)
    {
      var cs := Components(run);
      tables := map[];
      for n := 0 to |cs|
        invariant (forall i, j | 0 <= i < j < |cs| :: cs[i].name != cs[j].name) ==>
                    forall i | 0 <= i < n :: cs[i].name in tables &&
                      NewestTags(run.git, cs[i], run.git.tags, tables[cs[i].name])
      {
        var table := TaggedVersions(run.git, cs[n]);
        tables := tables[cs[n].name := table];
      }
    }

    /** `examine` */
    method Examine(tables: Tables) returns (plan: Option<Plan>)
      ensures plan == PlanOf(run, tables, tree)
    {
      hide Judge, ReadVersion, NewVersion;
      if ROOT !in tree {
        return None;
      }
      var root, cs, verdicts := tree[ROOT], Components(run), [];
      for n := 0 to |cs|
        invariant JudgeAll(run, cs[..n], tables, tree) == Some(verdicts)
      {
        var verdict := CheckComponent(run, cs[n], root, TableOf(tables, cs[n]), tree);
        assert cs[..n + 1][..n] == cs[..n];
        if verdict.None? {
          JudgeAllFails(run, cs, tables, tree, n);
          return None;
        }
        verdicts := verdicts + [verdict.value];
      }
      assert cs[..|cs|] == cs;
      var gateway := FindNamed(verdicts, GATEWAY);
      var component := GatewayOf(run.crates);
      if component.None? || component.value.file !in tree {
        return None;
      }
      var target := ReadVersion(Cargo, tree[component.value.file]);
      if target.Some? && gateway.Some? && gateway.value.unbumped {
        target := NewVersion(run, tables, gateway.value);
      }
      if target.None? {
        return None;
      }
      var off := DisagreeingMirrors(target.value);
      if off.None? {
        return None;
      }
      return Some(Plan(verdicts, off.value, target.value));
    }

    method DisagreeingMirrors(target: string) returns (r: Option<seq<(Mirror, string)>>)
      ensures r == MirrorsOff(run.mirrors, target, tree)
    {
      hide ReadVersion;
      var ms, off := run.mirrors, [];
      for n := 0 to |ms|
        invariant MirrorsOff(ms[..n], target, tree) == Some(off)
      {
        assert ms[..n + 1][..n] == ms[..n];
        if ms[n].file !in tree {
          MirrorsOffFails(ms, target, tree, n);
          return None;
        }
        var carried := ReadVersion(ms[n].spelling, tree[ms[n].file]);
        if carried.None? {
          MirrorsOffFails(ms, target, tree, n);
          return None;
        }
        if carried.value != target {
          off := off + [(ms[n], carried.value)];
        }
      }
      assert ms[..|ms|] == ms;
      return Some(off);
    }

    /** `rewrite` of `apply` */
    method Rewrite(path: string, spelling: Spelling, was: string, now: string) returns (took: bool)
      requires path in tree
      modifies this
      ensures (tree, took) == ApplyOne(old(tree), ToFile(path, spelling, was, now))
    {
      hide WriteVersion;
      var text := WriteVersion(spelling, tree[path], was, now);
      took := text.Some?;
      if took {
        tree := tree[path := text.value];
      }
    }

    /** `pin` of `apply` */
    method Pin(key: string, now: string) returns (took: bool)
      requires ROOT in tree
      modifies this
      ensures (tree, took) == ApplyOne(old(tree), ToPin(key, now))
    {
      hide WritePin, ReadPin;
      var pinned := ReadPin(tree[ROOT], key);
      var text := WritePin(tree[ROOT], key, if pinned.Some? then pinned.value else [], now);
      took := text.Some?;
      if took {
        tree := tree[ROOT := text.value];
      }
    }
  
    /** The walk of `apply` over the unbumped components. */
    method BumpAll(tables: Tables, vs: seq<Verdict>) returns (failed: nat)
      requires Bumpable(run, tables, vs) && Writeable(tree, Gather(run, tables, Bumping, vs))
      modifies this
      ensures (tree, failed) == ApplyAll(old(tree), Gather(run, tables, Bumping, vs))
    {
      hide NewVersion, ApplyOne, ApplyAll, Writeable, Spells, Gather;
      NothingGathered(run, tables, Bumping, vs);
      failed := 0;
      ghost var before, done := tree, [];
      PrefixWriteable(before, [], Gather(run, tables, Bumping, vs));
      ApplyNothing(before);
      for n := 0 to |vs|
        invariant done == Gather(run, tables, Bumping, vs[..n]) && Writeable(before, done)
        invariant (tree, failed) == ApplyAll(before, done)
      {
        var v := vs[n];
        GatherStep(run, tables, Bumping, vs, n);
        GatherPrefix(run, tables, Bumping, vs, n + 1);
        ghost var asked := WritesOf(run, tables, Bumping, v);
        AskedWriteable(before, Gather(run, tables, Bumping, vs), done, asked);
        if v.unbumped {
          var c, now := v.component, NewVersion(run, tables, v).value;
          ghost var first := ToFile(c.file, Spells(c), v.version, now);
          AskedFirst(before, done, asked, first);
          ApplyStep(before, done, first);
          Written(tree, first);
          var took := Rewrite(c.file, Spells(c), v.version, now);
          failed := failed + if took then 0 else 1;
          done := done + [first];
          if c.crate && KeyOf(c).Some? {
            ghost var second := ToPin(KeyOf(c).value, now);
            assert done + [second] == Gather(run, tables, Bumping, vs[..n]) + asked;
            ApplyStep(before, done, second);
            Written(tree, second);
            took := Pin(KeyOf(c).value, now);
            failed := failed + if took then 0 else 1;
            done := done + [second];
          }
        }
      }
      assert vs[..|vs|] == vs;
    }

    /** The walk of `apply` over the pins that disagree; `more` is what was written before. */
    method SyncPins(tables: Tables, vs: seq<Verdict>, ghost before: Tree, ghost more: seq<Write>, failed0: nat)
      returns (failed: nat)
      requires Writeable(before, more + Gather(run, tables, Pinning, vs)) && Writeable(before, more)
      requires (tree, failed0) == ApplyAll(before, more)
      modifies this
      ensures (tree, failed) == ApplyAll(before, more + Gather(run, tables, Pinning, vs))
    {
      hide ApplyOne, ApplyAll, Writeable, Gather;
      failed := failed0;
      ghost var done := more;
      NothingGathered(run, tables, Pinning, vs);
      assert more + [] == more;
      for n := 0 to |vs|
        invariant done == more + Gather(run, tables, Pinning, vs[..n]) && Writeable(before, done)
        invariant (tree, failed) == ApplyAll(before, done)
      {
        var v := vs[n];
        GatherStep(run, tables, Pinning, vs, n);
        if v.workspace.Some? {
          var key := if v.component.depKey.Some? then v.component.depKey.value else [];
          ghost var w := ToPin(key, v.version);
          GatherPrefix(run, tables, Pinning, vs, n + 1);
          MorePrefix(more, Gather(run, tables, Pinning, vs[..n]), w, Gather(run, tables, Pinning, vs));
          PrefixWriteable(before, done + [w], more + Gather(run, tables, Pinning, vs));
          ApplyStep(before, done, w);
          Written(tree, w);
          var took := Pin(key, v.version);
          failed := failed + if took then 0 else 1;
          done := done + [w];
        }
      }
      assert vs[..|vs|] == vs;
    }

    method SyncMirrors(ms: seq<(Mirror, string)>, target: string, ghost before: Tree, ghost more: seq<Write>,
                       failed0: nat)
      returns (failed: nat)
      requires Writeable(before, more + Syncs(ms, target)) && Writeable(before, more)
      requires (tree, failed0) == ApplyAll(before, more)
      modifies this
      ensures (tree, failed) == ApplyAll(before, more + Syncs(ms, target))
    {
      hide ApplyOne, ApplyAll, Writeable;
      failed := failed0;
      ghost var done := more;
      assert more + [] == more;
      for n := 0 to |ms|
        invariant done == more + Syncs(ms[..n], target) && Writeable(before, done)
        invariant (tree, failed) == ApplyAll(before, done)
      {
        var (m, carried) := ms[n];
        assert ms[..n + 1][..n] == ms[..n];
        ghost var w := ToFile(m.file, m.spelling, carried, target);
        SyncsPrefix(ms, target, n + 1);
        MorePrefix(more, Syncs(ms[..n], target), w, Syncs(ms, target));
        PrefixWriteable(before, done + [w], more + Syncs(ms, target));
        ApplyStep(before, done, w);
        Written(tree, w);
        var took := Rewrite(m.file, m.spelling, carried, target);
        failed := failed + if took then 0 else 1;
        done := done + [w];
      }
      assert ms[..|ms|] == ms;
    }

    /** `apply`: the rewrites that did not take. */
    method Apply(tables: Tables, plan: Plan) returns (failed: nat)
      requires Bumpable(run, tables, plan.verdicts) && Writeable(tree, Writes(run, tables, plan))
      modifies this
      ensures (tree, failed) == ApplyAll(old(tree), Writes(run, tables, plan))
    {
      hide ApplyOne, Writeable, Gather, Syncs, Bumpable, ApplyAll;
      ghost var bumps, pins := Gather(run, tables, Bumping, plan.verdicts), Gather(run, tables, Pinning, plan.verdicts);
      ghost var syncs := Syncs(plan.mirrors, plan.target);
      WriteablePrefix(tree, bumps + pins, syncs);
      WriteablePrefix(tree, bumps, pins);
      ghost var before := tree;
      failed := BumpAll(tables, plan.verdicts);
      failed := SyncPins(tables, plan.verdicts, before, bumps, failed);
      failed := SyncMirrors(plan.mirrors, plan.target, before, bumps + pins, failed);
    }

    /** The run in its fixing mode; `tables` are the tags it read. */
    method Fix() returns (outcome: Outcome, tables: Tables)
      modifies this
      ensures Distinct(run) ==> TablesOf(run, tables)
      ensures outcome.Fatal? || outcome.Consistent? ==> tree == old(tree)
      ensures outcome.Consistent? <==>
              PlanOf(run, tables, old(tree)).Some? && Issues(PlanOf(run, tables, old(tree)).value) == 0
      ensures outcome.Done? || outcome.Failed? ==>
                && PlanOf(run, tables, old(tree)).Some?
                && var plan := PlanOf(run, tables, old(tree)).value;
                && Bumpable(run, tables, plan.verdicts) && Writeable(old(tree), Writes(run, tables, plan))
                && ApplyAll(old(tree), Writes(run, tables, plan)) == (tree, if outcome.Done? then 0 else outcome.fixes)
    {
      hide PlanOf, Writeable, Writes, ApplyAll, NewestTags;
      tables := ReadTables();
      var plan := Examine(tables);
      if plan.None? {
        return Fatal, tables;
      }
      if Issues(plan.value) == 0 {
        return Consistent, tables;
      }
      if !Bumpable(run, tables, plan.value.verdicts) {
        return Fatal, tables;
      }
      PlanWriteable(run, tables, tree, plan.value);
      var failed := Apply(tables, plan.value);
      return if failed == 0 then Done else Failed(failed), tables;
    }
  }

  /** Every write of a plan goes to a file that is there. */
  lemma PlanWriteable(run: Run, tables: Tables, tree: Tree, plan: Plan)
    requires PlanOf(run, tables, tree) == Some(plan)
    ensures Writeable(tree, Writes(run, tables, plan))
  {
    hide Gather, Syncs, PlanOf;
    PlanReads(run, tables, tree, plan);
    forall w | w in Writes(run, tables, plan) && w.ToFile? ensures w.path in tree {
      if w in Syncs(plan.mirrors, plan.target) {
        var p := SyncedFrom(plan.mirrors, plan.target, w);
      } else {
        var pass := if w in Gather(run, tables, Bumping, plan.verdicts) then Bumping else Pinning;
        GatherExact(run, tables, pass, plan.verdicts);
        var v :| v in plan.verdicts && w in WritesOf(run, tables, pass, v);
      }
    }
  }

  /** The files a plan is about are there. */
  lemma PlanReads(run: Run, tables: Tables, tree: Tree, plan: Plan)
    requires PlanOf(run, tables, tree) == Some(plan)
    ensures ROOT in tree
    ensures forall v | v in plan.verdicts && v.unbumped :: v.component.file in tree
    ensures forall p | p in plan.mirrors :: p.0.file in tree
  {
    hide Judge, ReadVersion, Target;
    var cs, vs := Components(run), plan.verdicts;
    JudgeAllExact(run, cs, tables, tree);
    MirrorsExact(run.mirrors, plan.target, tree);
    forall p | p in plan.mirrors ensures p.0.file in tree {
      assert Off(run.mirrors, plan.target, tree, p);
    }
    forall v | v in vs && v.unbumped ensures v.component.file in tree {
      var i :| 0 <= i < |vs| && vs[i] == v;
      VerdictFacts(run, cs[i], TableOf(tables, cs[i]), tree, v);
    }
  }

  lemma {:induction false} SyncedFrom(ms: seq<(Mirror, string)>, target: string, w: Write) returns (p: (Mirror, string))
    requires w in Syncs(ms, target)
    ensures p in ms && w == ToFile(p.0.file, p.0.spelling, p.1, target)
  {
    var n := |ms| - 1;
    if w in Syncs(ms[..n], target) {
      p := SyncedFrom(ms[..n], target, w);
    } else {
      p := ms[n];
    }
  }

  lemma PrefixWriteable(tree: Tree, a: seq<Write>, b: seq<Write>)
    requires a <= b && Writeable(tree, b)
    ensures Writeable(tree, a)
  {
    assert b == a + b[|a|..];
  }

  lemma AskedWriteable(tree: Tree, all: seq<Write>, done: seq<Write>, asked: seq<Write>)
    requires done + asked <= all && Writeable(tree, all)
    ensures Writeable(tree, done + asked)
  {
    PrefixWriteable(tree, done + asked, all);
  }

  lemma AskedFirst(tree: Tree, done: seq<Write>, asked: seq<Write>, w: Write)
    requires Writeable(tree, done + asked) && asked != [] && asked[0] == w
    ensures Writeable(tree, done + [w])
  {
    assert done + asked == done + [w] + asked[1..];
    PrefixWriteable(tree, done + [w], done + asked);
  }

  lemma Written(tree: Tree, w: Write)
    requires Writeable(tree, [w])
    ensures ROOT in tree && (w.ToFile? ==> w.path in tree)
  {
    assert w in [w];
  }

  lemma {:induction false} JudgeAllFails(run: Run, cs: seq<Component>, tables: Tables, tree: Tree, n: nat)
    requires ROOT in tree && n < |cs| && Judge(run, cs[n], TableOf(tables, cs[n]), tree).None?
    ensures JudgeAll(run, cs, tables, tree).None?
  {
    hide Judge;
    JudgeAllExact(run, cs, tables, tree);
  }

  lemma {:induction false} MirrorsOffFails(ms: seq<Mirror>, target: string, tree: Tree, n: nat)
    requires n < |ms| && (ms[n].file !in tree || ReadVersion(ms[n].spelling, tree[ms[n].file]).None?)
    ensures MirrorsOff(ms, target, tree).None?
  {
    hide ReadVersion;
    if n < |ms| - 1 {
      MirrorsOffFails(ms[..|ms| - 1], target, tree, n);
    }
  }
}
