/**
 The mesh's last-writer-wins keys: the write with the newest version stands, a delete like any other. The
 log is compacted to that write.
 */
module LastWriter {
  import opened Text
  import opened RateLimitShard

  datatype Op = Insert(key: string, value: string, version: Version) | Remove(key: string, version: Version)

  /** A key's newest version, and its value unless that was a delete. */
  datatype Register = Register(version: Version, value: Option<string>)

  function Written(op: Op): Register {
    Register(op.version, if op.Insert? then Some(op.value) else None)
  }

  /** `record_insert_metadata` and `record_remove_metadata`: an older write is ignored, and so is one of the same
      version unless it deletes what that version wrote. */
  function Apply(r: Option<Register>, op: Op): Option<Register> {
    if r.None? then Some(Written(op))
    else if Older(op.version, r.value.version) then r
    else if op.version == r.value.version && (op.Insert? || r.value.value.None?) then r
    else Some(Written(op))
  }

  function ApplyAll(r: Option<Register>, ops: seq<Op>): Option<Register> {
    if ops == [] then r else Apply(ApplyAll(r, ops[..|ops| - 1]), ops[|ops| - 1])
  }

  /** A version names one write. */
  ghost predicate IdsFix(ops: seq<Op>) {
    forall i, j | 0 <= i < |ops| && 0 <= j < |ops| && ops[i].version == ops[j].version :: ops[i] == ops[j]
  }

  ghost predicate Wins(ops: seq<Op>, w: Op) {
    w in ops && forall op | op in ops :: !Older(w.version, op.version)
  }

  /** The newest write stands. */
  lemma {:induction false} NewestStands(ops: seq<Op>) returns (w: Op)
    requires ops != [] && IdsFix(ops)
    ensures Wins(ops, w) && ApplyAll(None, ops) == Some(Written(w))
  {
    var n := |ops| - 1;
    var front, last := ops[..n], ops[n];
    assert ops == front + [last];
    if n == 0 {
      w := last;
    } else {
      w := NewestStands(front);
      var i :| 0 <= i < |front| && front[i] == w;
      assert ops[i] == w;
      if !Older(last.version, w.version) {
        w := last;
      }
    }
  }

  /** Replicas that have the same writes agree, however often and in whatever order they came. */
  lemma SameWritesSameValue(xs: seq<Op>, ys: seq<Op>)
    requires IdsFix(xs) && IdsFix(ys) && forall op :: op in xs <==> op in ys
    ensures ApplyAll(None, xs) == ApplyAll(None, ys)
  {
    hide ApplyAll;
    if xs != [] && ys != [] {
      var w := NewestStands(xs);
      var v := NewestStands(ys);
      var i :| 0 <= i < |xs| && xs[i] == w;
      var j :| 0 <= j < |xs| && xs[j] == v;
      assert !Older(w.version, v.version) && !Older(v.version, w.version);
      assert xs[i] == xs[j];
    } else {
      FirstIsIn(xs);
      FirstIsIn(ys);
    }
  }

  lemma FirstIsIn(xs: seq<Op>)
    ensures xs == [] || xs[0] in xs
  {
  }

  /** `lww_fold`: the last of the newest. */
  method Fold(ops: seq<Op>) returns (r: Option<Op>)
    ensures r.None? <==> ops == []
    ensures r.Some? ==> Wins(ops, r.value)
  {
    r := None;
    for n := 0 to |ops|
      invariant r.None? <==> n == 0
      invariant r.Some? ==> r.value in ops && forall i | 0 <= i < n :: !Older(r.value.version, ops[i].version)
    {
      if r.None? || !Older(ops[n].version, r.value.version) {
        r := Some(ops[n]);
      }
    }
  }

  /** A compacted log means what the log meant. */
  lemma FoldPreserves(ops: seq<Op>, w: Op, more: seq<Op>)
    requires Wins(ops, w) && IdsFix(ops + more)
    ensures ApplyAll(None, [w] + more) == ApplyAll(None, ops + more)
  {
    hide ApplyAll;
    assert forall op :: op in ops + more <==> op in ops || op in more;
    assert forall op :: op in [w] + more <==> op == w || op in more;
    SubsetFixes(ops + more, [w] + more);
    var x := NewestStands(ops + more);
    var y := NewestStands([w] + more);
    assert Wins(ops + more, y);
    var i :| 0 <= i < |ops + more| && (ops + more)[i] == x;
    var j :| 0 <= j < |ops + more| && (ops + more)[j] == y;
  }

  lemma SubsetFixes(all: seq<Op>, some: seq<Op>)
    requires IdsFix(all) && forall op | op in some :: op in all
    ensures IdsFix(some)
  {
    forall i, j | 0 <= i < |some| && 0 <= j < |some| && some[i].version == some[j].version ensures some[i] == some[j] {
      assert some[i] in all && some[j] in all;
      var k :| 0 <= k < |all| && all[k] == some[i];
      var l :| 0 <= l < |all| && all[l] == some[j];
    }
  }
}
