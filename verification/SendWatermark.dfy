/**
 What a peer has acknowledged: per key, the newest version it merged. The sender leaves out every log entry
 whose version is not newer.
 */
module SendWatermark {
  import opened Text
  import opened Collections
  import opened RateLimitShard
  import LastWriter

  type Watermark = map<string, Version>

  function Later(a: Version, b: Version): Version {
    if Older(a, b) then b else a
  }

  function At(w: Watermark, key: string): Option<Version> {
    if key in w then Some(w[key]) else None
  }

  /** Per key the newer of the two. */
  function MergeMax(a: Watermark, b: Watermark): Watermark {
    map k | k in a.Keys + b.Keys :: Newest(At(a, k), At(b, k)).value
  }

  /** What is newer than the version acknowledged for its key. */
  predicate Passes(acked: Option<Version>, id: Version) {
    acked.None? || Older(acked.value, id)
  }

  /** `allows` */
  predicate Allows(w: Watermark, key: string, id: Version) {
    Passes(At(w, key), id)
  }

  lemma AtMerge(a: Watermark, b: Watermark, key: string)
    ensures At(MergeMax(a, b), key) == Newest(At(a, key), At(b, key))
  {
  }

  lemma SameAt(a: Watermark, b: Watermark)
    requires forall key :: At(a, key) == At(b, key)
    ensures a == b
  {
    assert forall key :: key in a <==> At(a, key).Some?;
    assert forall key :: key in b <==> At(b, key).Some?;
    forall key | key in a ensures key in b && a[key] == b[key] {
      assert At(a, key) == At(b, key);
    }
    forall key | key in b ensures key in a {
      assert At(a, key) == At(b, key);
    }
  }

  lemma NewestAssociates(a: Option<Version>, b: Option<Version>, c: Option<Version>)
    ensures Newest(Newest(a, b), c) == Newest(a, Newest(b, c))
  {
  }

  /** Acks may come late, twice and in any order. */
  lemma MergeMaxLaws(a: Watermark, b: Watermark, c: Watermark)
    ensures MergeMax(a, a) == a && MergeMax(a, b) == MergeMax(b, a)
    ensures MergeMax(MergeMax(a, b), c) == MergeMax(a, MergeMax(b, c))
  {
    hide MergeMax, At, Newest;
    forall key ensures At(MergeMax(a, a), key) == At(a, key) {
      AtMerge(a, a, key);
      NewestItself(At(a, key));
    }
    SameAt(MergeMax(a, a), a);
    forall key ensures At(MergeMax(a, b), key) == At(MergeMax(b, a), key) {
      AtMerge(a, b, key);
      AtMerge(b, a, key);
      NewestCommutes(At(a, key), At(b, key));
    }
    SameAt(MergeMax(a, b), MergeMax(b, a));
    forall key ensures At(MergeMax(MergeMax(a, b), c), key) == At(MergeMax(a, MergeMax(b, c)), key) {
      AtMerge(a, b, key);
      AtMerge(MergeMax(a, b), c, key);
      AtMerge(b, c, key);
      AtMerge(a, MergeMax(b, c), key);
      NewestAssociates(At(a, key), At(b, key), At(c, key));
    }
    SameAt(MergeMax(MergeMax(a, b), c), MergeMax(a, MergeMax(b, c)));
  }

  lemma NewestItself(a: Option<Version>)
    ensures Newest(a, a) == a
  {
  }

  /** What passes two acknowledgements together is what passes each: an ack lets nothing through that was left
      out before, and leaves out no more than it names. */
  lemma AckOnlyNarrows(a: Watermark, b: Watermark, key: string, id: Version)
    ensures Allows(MergeMax(a, b), key, id) <==> Allows(a, key, id) && Allows(b, key, id)
  {
    AtMerge(a, b, key);
  }

  class CrdtWatermark {
    var versions: Watermark

    constructor ()
      ensures versions == map[]
    {
      versions := map[];
    }

    /** `merge_max` */
    method Advance(other: Watermark)
      modifies this
      ensures versions == MergeMax(old(versions), other)
    {
      var left := other.Keys;
      while left != {}
        invariant left <= other.Keys
        invariant forall k ::
                    At(versions, k) ==
                    if k in other && k !in left
                    then Newest(At(old(versions), k), At(other, k))
                    else At(old(versions), k)
        decreases |left|
      {
        ghost var some := Member(left);
        var key :| key in left;
        versions := versions[key := if key in versions then Later(versions[key], other[key]) else other[key]];
        left := left - {key};
      }
      forall k ensures At(versions, k) == At(MergeMax(old(versions), other), k) {
        AtMerge(old(versions), other, k);
      }
      SameAt(versions, MergeMax(old(versions), other));
    }
  }

  /** The newest version of every key among the entries. */
  function AckOf(ops: seq<LastWriter.Op>): Watermark {
    if ops == [] then map[]
    else
      var op := ops[|ops| - 1];
      MergeMax(AckOf(ops[..|ops| - 1]), map[op.key := op.version])
  }

  lemma {:induction false} AckOfExact(ops: seq<LastWriter.Op>)
    ensures forall i | 0 <= i < |ops| :: !Allows(AckOf(ops), ops[i].key, ops[i].version)
    ensures forall k | k in AckOf(ops) ::
              exists i :: 0 <= i < |ops| && ops[i].key == k && ops[i].version == AckOf(ops)[k]
  {
    if ops != [] {
      var n := |ops| - 1;
      var front, op := ops[..n], ops[n];
      AckOfExact(front);
      AckGrows(AckOf(front), op);
    }
  }

  lemma AckGrows(w: Watermark, op: LastWriter.Op)
    ensures var more := MergeMax(w, map[op.key := op.version]);
            && !Allows(more, op.key, op.version)
            && (forall key, id | !Allows(w, key, id) :: !Allows(more, key, id))
            && forall k | k in more :: (k == op.key && more[k] == op.version) || (k in w && more[k] == w[k])
  {
  }

  /** `from_ops` */
  method FromOps(ops: seq<LastWriter.Op>) returns (w: Watermark)
    ensures w == AckOf(ops)
    ensures forall i | 0 <= i < |ops| :: !Allows(w, ops[i].key, ops[i].version)
    ensures forall k | k in w :: exists i :: 0 <= i < |ops| && ops[i].key == k && ops[i].version == w[k]
  {
    hide MergeMax, Allows;
    w := map[];
    for n := 0 to |ops|
      invariant w == AckOf(ops[..n])
    {
      var op := ops[n];
      assert ops[..n + 1][..n] == ops[..n];
      OneMore(w, op.key, op.version);
      w := w[op.key := if op.key in w then Later(w[op.key], op.version) else op.version];
    }
    assert ops[..|ops|] == ops;
    AckOfExact(ops);
  }

  lemma OneMore(w: Watermark, key: string, id: Version)
    ensures w[key := if key in w then Later(w[key], id) else id] == MergeMax(w, map[key := id])
  {
  }
}
