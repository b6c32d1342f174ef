/**
 The failure rate of a benchmark run, cross-checked over every place its results report counts in. A rate
 comes out only where one pair of attempted and failed requests explains them all.
 */
module ErrorMetrics {
  import opened Text
  import opened Tolerance

  /** A count that is missing, is no nonnegative integer, or is one. */
  datatype Count = Absent | Bad | Value(n: nat)

  datatype Codes = NoCodes | BadCodes | Codes(counts: seq<Count>)

  /** The individual requests, and whether each failed. */
  datatype Records = NoRecords | BadRecords | Records(failed: seq<bool>)

  datatype Reported = NotReported | BadReport | Rate(rate: real)

  datatype Report = Report(requests: Count, errors: Count, completed: Count, codes: Codes, records: Records,
                           reported: Reported)

  datatype Note =
    | InvalidMetrics | CountsDisagree | NoAttempts | NoValidTotal | FailedRequests(failed: nat, attempted: nat)
    | InvalidReported | ReportedDisagrees | Unavailable

  function Total(cs: seq<Count>): (r: nat) {
    if cs == [] then 0 else Total(cs[..|cs| - 1]) + if cs[|cs| - 1].Value? then cs[|cs| - 1].n else 0
  }

  function Failing(fs: seq<bool>): nat {
    if fs == [] then 0 else Failing(fs[..|fs| - 1]) + if fs[|fs| - 1] then 1 else 0
  }

  ghost function Failed(fs: seq<bool>): set<nat> {
    set i: nat | i < |fs| && fs[i]
  }

  /** The failed records are as many as the places that say so. */
  lemma {:induction false} FailingCounts(fs: seq<bool>)
    ensures Failing(fs) == |Failed(fs)| && (Failing(fs) == 0 <==> true !in fs)
  {
    if fs != [] {
      var n := |fs| - 1;
      FailingCounts(fs[..n]);
      assert Failed(fs) == Failed(fs[..n]) + if fs[n] then {n} else {};
      assert fs == fs[..n] + [fs[n]];
    }
  }

  /** The counts by code add up, in whatever order, and to zero exactly when every one is. */
  lemma {:induction false} TotalAdds(cs: seq<Count>, ds: seq<Count>)
    ensures Total(cs + ds) == Total(cs) + Total(ds)
    ensures ds != [] && ds[0].Value? ==> Total(ds[..1]) == ds[0].n
    ensures Total(ds) == 0 <==> forall i | 0 <= i < |ds| && ds[i].Value? :: ds[i].n == 0
  {
    if ds == [] {
      assert cs + ds == cs;
    } else {
      var n := |ds| - 1;
      TotalAdds(cs, ds[..n]);
      assert (cs + ds)[..|cs + ds| - 1] == cs + ds[..n];
      assert ds[..1][..0] == [];
    }
  }

  // --- what the counts mean -------------------------------------------------------------------------

  predicate Readable(r: Report) {
    && !r.requests.Bad? && !r.errors.Bad? && !r.completed.Bad? && !r.codes.BadCodes? && !r.records.BadRecords?
    && (r.codes.Codes? ==> forall i | 0 <= i < |r.codes.counts| :: r.codes.counts[i].Value?)
  }

  /** Every count there is agrees with so many attempts and so many failures. */
  ghost predicate Explains(r: Report, attempted: nat, failed: nat) {
    && (r.requests.Value? ==> r.requests.n == attempted)
    && (r.errors.Value? ==> r.errors.n == failed)
    && (r.completed.Value? ==> r.completed.n + failed == attempted)
    && (r.codes.Codes? ==> Total(r.codes.counts) == failed)
    && (r.records.Records? ==> |r.records.failed| == attempted && Failing(r.records.failed) == failed)
  }

  ghost predicate CountsFailures(r: Report) {
    r.errors.Value? || r.codes.Codes? || r.records.Records?
  }

  ghost predicate CountsAttempts(r: Report) {
    r.requests.Value? || r.records.Records?
  }

  /** Failures are counted, or follow from attempts and completions. */
  ghost predicate KnowsFailures(r: Report) {
    CountsFailures(r) || (CountsAttempts(r) && r.completed.Value?)
  }

  ghost predicate KnowsAttempts(r: Report) {
    CountsAttempts(r) || (CountsFailures(r) && r.completed.Value?)
  }

  /** `len(set(xs)) <= 1` */
  predicate AllSame(xs: seq<nat>) {
    forall i | 0 <= i < |xs| :: xs[i] == xs[0]
  }

  ghost predicate AllAre(xs: seq<nat>, x: nat) {
    forall i | 0 <= i < |xs| :: xs[i] == x
  }

  lemma AllAreJoin(a: seq<nat>, b: seq<nat>, x: nat)
    ensures AllAre(a + b, x) <==> AllAre(a, x) && AllAre(b, x)
  {
    if AllAre(a + b, x) {
      assert forall i | 0 <= i < |a| :: a[i] == (a + b)[i];
      assert forall i | 0 <= i < |b| :: b[i] == (a + b)[|a| + i];
    }
  }

  lemma SameMeans(xs: seq<nat>, x: nat)
    requires xs != []
    ensures AllSame(xs) && xs[0] == x <==> AllAre(xs, x)
  {
  }

  // --- the counts, listed ---------------------------------------------------------------------------------

  function Listed(c: Count): seq<nat> {
    if c.Value? then [c.n] else []
  }

  function Failures(r: Report): seq<nat> {
    Listed(r.errors) + (if r.codes.Codes? then [Total(r.codes.counts)] else []) +
    (if r.records.Records? then [Failing(r.records.failed)] else [])
  }

  function Attempts(r: Report): seq<nat> {
    Listed(r.requests) + if r.records.Records? then [|r.records.failed|] else []
  }

  /** More completions than attempts. */
  predicate Overcompleted(r: Report) {
    r.completed.Value? && Attempts(r) != [] && r.completed.n > Attempts(r)[0]
  }

  /** With the failures that follow from the completions. */
  function AllFailures(r: Report): seq<nat>
    requires !Overcompleted(r)
  {
    if r.completed.Value? && Attempts(r) != [] then Failures(r) + [Attempts(r)[0] - r.completed.n] else Failures(r)
  }

  function AllAttempts(r: Report): seq<nat>
    requires !Overcompleted(r)
  {
    if r.completed.Value? && AllFailures(r) != []
    then Attempts(r) + [r.completed.n + AllFailures(r)[0]]
    else Attempts(r)
  }

  lemma ListsKnow(r: Report)
    requires !Overcompleted(r) && Readable(r)
    ensures AllFailures(r) != [] <==> KnowsFailures(r)
    ensures AllAttempts(r) != [] <==> KnowsAttempts(r)
  {
    hide Total, Failing;
  }

  lemma ListsHold(r: Report, a: nat, f: nat)
    ensures AllAre(Failures(r), f) <==>
              && (r.errors.Value? ==> r.errors.n == f) && (r.codes.Codes? ==> Total(r.codes.counts) == f)
              && (r.records.Records? ==> Failing(r.records.failed) == f)
    ensures AllAre(Attempts(r), a) <==>
              (r.requests.Value? ==> r.requests.n == a) && (r.records.Records? ==> |r.records.failed| == a)
  {
    hide Total, Failing;
    var codes := if r.codes.Codes? then [Total(r.codes.counts)] else [];
    var records := if r.records.Records? then [Failing(r.records.failed)] else [];
    var attempts := if r.records.Records? then [|r.records.failed|] else [];
    AllAreJoin(Listed(r.errors) + codes, records, f);
    AllAreJoin(Listed(r.errors), codes, f);
    AllAreJoin(Listed(r.requests), attempts, a);
    AllAreOne(r.errors, f);
    AllAreOne(r.requests, a);
    assert r.codes.Codes? ==> codes[0] == Total(r.codes.counts);
    assert r.records.Records? ==> records[0] == Failing(r.records.failed) && attempts[0] == |r.records.failed|;
  }

  lemma AllAreOne(c: Count, x: nat)
    ensures AllAre(Listed(c), x) <==> (c.Value? ==> c.n == x)
  {
    assert c.Value? ==> Listed(c)[0] == c.n;
  }

  /** The lists agree, each within itself, exactly on the attempts and failures that explain every count. */
  lemma AgreementExplains(r: Report, a: nat, f: nat)
    requires !Overcompleted(r) && AllFailures(r) != [] && AllAttempts(r) != []
    ensures AllSame(AllFailures(r)) && AllSame(AllAttempts(r)) && AllFailures(r)[0] == f && AllAttempts(r)[0] == a <==>
            Explains(r, a, f)
  {
    hide Total, Failing, AllSame, Failures, Attempts;
    var e, t := Failures(r), Attempts(r);
    SameMeans(AllFailures(r), f);
    SameMeans(AllAttempts(r), a);
    ListsHold(r, a, f);
    if r.completed.Value? && t != [] {
      AllAreJoin(e, [t[0] - r.completed.n], f);
      assert [t[0] - r.completed.n][0] == t[0] - r.completed.n;
    }
    if r.completed.Value? && AllFailures(r) != [] {
      AllAreJoin(t, [r.completed.n + AllFailures(r)[0]], a);
      assert [r.completed.n + AllFailures(r)[0]][0] == r.completed.n + AllFailures(r)[0];
    }
  }

  lemma OvercompletedUnexplained(r: Report, a: nat, f: nat)
    requires Readable(r) && Overcompleted(r)
    ensures !Explains(r, a, f)
  {
    hide Total, Failing, Attempts, Failures;
    ListsHold(r, a, f);
    assert Attempts(r)[0] == a || !AllAre(Attempts(r), a);
  }

  // --- the cross-check ------------------------------------------------------------------------------------

  /** The counts gathered: the failures and the attempts each source gives; None where it gives up early. */
  method Gather(r: Report) returns (g: Option<(seq<nat>, seq<nat>)>, early: Note)
    ensures g.Some? <==> Readable(r) && !Overcompleted(r)
    ensures g.Some? ==> g.value == (AllFailures(r), AllAttempts(r))
    ensures g.None? ==> early == if Readable(r) then CountsDisagree else InvalidMetrics
  {
    hide Total, Failing;
    if r.requests.Bad? || r.errors.Bad? || r.completed.Bad? {
      return None, InvalidMetrics;
    }
    var errors, totals: seq<nat> := [], [];
    if r.errors.Value? {
      errors := errors + [r.errors.n];
    }
    if r.requests.Value? {
      totals := totals + [r.requests.n];
    }
    if r.codes.BadCodes? || (r.codes.Codes? && exists i | 0 <= i < |r.codes.counts| :: !r.codes.counts[i].Value?) {
      return None, InvalidMetrics;
    }
    if r.codes.Codes? {
      errors := errors + [Total(r.codes.counts)];
    }
    if r.records.BadRecords? {
      return None, InvalidMetrics;
    }
    if r.records.Records? {
      totals := totals + [|r.records.failed|];
      errors := errors + [Failing(r.records.failed)];
    }
    assert errors == Failures(r) && totals == Attempts(r) && Readable(r);
    hide Failures, Attempts, Readable;
    if r.completed.Value? {
      if totals != [] {
        if r.completed.n > totals[0] {
          return None, CountsDisagree;
        }
        errors := errors + [totals[0] - r.completed.n];
      }
      if errors != [] {
        totals := totals + [r.completed.n + errors[0]];
      }
    }
    return Some((errors, totals)), NoAttempts;
  }

  predicate BadRate(reported: Reported) {
    reported.BadReport? || (reported.Rate? && !(0.0 <= reported.rate <= 1.0))
  }

  /** The counts come to a rate: one pair of attempts and failures explains them all. */
  ghost predicate CountsCome(r: Report, a: nat, f: nat) {
    KnowsFailures(r) && KnowsAttempts(r) && a > 0 && f <= a && Explains(r, a, f)
  }

  /** When a run counts as free of errors: the counts come to no failure and no reported rate speaks against
      it, or there are none and the reported rate is zero. */
  ghost predicate ErrorFree(r: Report) {
    Readable(r) &&
    if KnowsFailures(r) then
      && (exists a: nat :: CountsCome(r, a, 0)) && !BadRate(r.reported)
      && (r.reported.Rate? ==> r.reported.rate <= 0.000000000001)
    else r.reported == Rate(0.0) && r.requests != Value(0)
  }

  /** `_error_metrics`, and `is_error_free` of its result. */
  method Metrics(r: Report) returns (rate: Option<real>, notes: seq<Note>)
    ensures !Readable(r) ==> rate.None?
    ensures Readable(r) && KnowsFailures(r) ==>
              && (rate.Some? <==> exists a: nat, f: nat :: CountsCome(r, a, f))
              && (rate.Some? ==> forall a: nat, f: nat | CountsCome(r, a, f) ::
                    && rate.value == f as real / a as real
                    && (notes == [] <==>
                        f == 0 && !BadRate(r.reported) &&
                        (r.reported.Rate? ==> Close(rate.value, r.reported.rate))))
    ensures Readable(r) && !KnowsFailures(r) ==>
              && (rate.Some? <==> r.reported.Rate? && 0.0 <= r.reported.rate <= 1.0 && r.requests != Value(0))
              && (rate.Some? ==> rate.value == r.reported.rate && notes == [])
    ensures rate.None? ==> notes != []
    ensures rate.Some? ==> 0.0 <= rate.value <= 1.0
    ensures rate == Some(0.0) && notes == [] <==> ErrorFree(r)
  {
    hide Explains, Close, Readable, Total, Failing, Failures, Attempts;
    var g, early := Gather(r);
    if g.None? {
      if Readable(r) {
        NoneComes(r);
      }
      return None, [early];
    }
    var errors, totals := g.value.0, g.value.1;
    ListsKnow(r);
    if !AllSame(errors) || !AllSame(totals) {
      Disagreement(r);
      return None, [CountsDisagree];
    }
    if KnowsFailures(r) && KnowsAttempts(r) {
      AgreementExplains(r, totals[0], errors[0]);
      OnlyOne(r);
    }
    if totals != [] && totals[0] == 0 {
      AttemptsAre(r);
      return None, [NoAttempts];
    }
    if errors != [] {
      if totals == [] || errors[0] > totals[0] {
        return None, [NoValidTotal];
      }
      rate := Some(errors[0] as real / totals[0] as real);
      notes := if errors[0] > 0 then [FailedRequests(errors[0], totals[0])] else [];
      if BadRate(r.reported) {
        notes := notes + [InvalidReported];
      } else if r.reported.Rate? && !Close(rate.value, r.reported.rate) {
        notes := notes + [ReportedDisagrees];
      }
      assert CountsCome(r, totals[0], errors[0]);
      Quotient(errors[0], totals[0]);
      if errors[0] == 0 && !BadRate(r.reported) && r.reported.Rate? {
        CloseToZero(r.reported.rate);
      }
      return;
    }
    AttemptsAre(r);
    if BadRate(r.reported) {
      return None, [InvalidReported];
    }
    if r.reported.Rate? {
      return Some(r.reported.rate), [];
    }
    return None, [Unavailable];
  }

  lemma Quotient(f: nat, a: nat)
    requires a > 0 && f <= a
    ensures 0.0 <= f as real / a as real <= 1.0 && (f as real / a as real == 0.0 <==> f == 0)
  {
    var q := f as real / a as real;
    assert q * a as real == f as real;
  }

  lemma CloseToZero(b: real)
    requires 0.0 <= b <= 1.0
    ensures Close(0.0, b) <==> b <= 0.000000000001
  {
  }

  /** A run counts as free of errors only where every source of failures says so, a reported rate up to the
      tolerance of the comparison. */
  lemma ErrorFreeMeansZero(r: Report)
    requires ErrorFree(r)
    ensures r.errors.Value? ==> r.errors.n == 0
    ensures r.codes.Codes? ==> Total(r.codes.counts) == 0
    ensures r.records.Records? ==> Failing(r.records.failed) == 0
    ensures r.completed.Value? && r.requests.Value? ==> r.completed.n == r.requests.n
    ensures !r.reported.BadReport? && (r.reported.Rate? ==> 0.0 <= r.reported.rate <= 0.000000000001)
  {
    hide Total, Failing;
  }

  /** That tolerance shows: counts without a failure outweigh a reported rate that is not zero. */
  lemma TinyRateOverlooked()
    ensures ErrorFree(Report(Value(1), Value(0), Absent, NoCodes, NoRecords, Rate(0.0000000000001)))
  {
    var r := Report(Value(1), Value(0), Absent, NoCodes, NoRecords, Rate(0.0000000000001));
    assert CountsCome(r, 1, 0);
  }

  lemma NoneComes(r: Report)
    requires Readable(r) && Overcompleted(r)
    ensures KnowsFailures(r) && forall a: nat, f: nat :: !CountsCome(r, a, f)
  {
    hide Explains, Total, Failing;
    forall a: nat, f: nat ensures !Explains(r, a, f) {
      OvercompletedUnexplained(r, a, f);
    }
  }

  /** Any disagreement among the counts leaves them unexplained. */
  lemma Disagreement(r: Report)
    requires Readable(r) && !Overcompleted(r) && (!AllSame(AllFailures(r)) || !AllSame(AllAttempts(r)))
    ensures KnowsFailures(r) && forall a: nat, f: nat :: !CountsCome(r, a, f)
  {
    hide Explains, Total, Failing;
    ListsKnow(r);
    forall a: nat, f: nat | KnowsFailures(r) && KnowsAttempts(r) ensures !Explains(r, a, f) {
      AgreementExplains(r, a, f);
    }
  }

  lemma OnlyOne(r: Report)
    requires Readable(r) && !Overcompleted(r) && KnowsFailures(r) && KnowsAttempts(r)
    ensures AllFailures(r) != [] && AllAttempts(r) != []
    ensures forall a: nat, f: nat | Explains(r, a, f) :: a == AllAttempts(r)[0] && f == AllFailures(r)[0]
  {
    hide Explains, Total, Failing;
    ListsKnow(r);
    forall a: nat, f: nat | Explains(r, a, f) ensures a == AllAttempts(r)[0] && f == AllFailures(r)[0] {
      AgreementExplains(r, a, f);
    }
  }

  lemma AttemptsAre(r: Report)
    requires Readable(r) && !Overcompleted(r)
    ensures !KnowsFailures(r) ==> AllAttempts(r) == Listed(r.requests)
  {
    hide Total, Failing;
  }
}
