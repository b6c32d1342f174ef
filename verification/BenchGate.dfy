/**
 The benchmark gate: the runs of a pull request against those of its base. Times are reals; an id's
 runs are a sequence, one value per repeat.
 */
module BenchGate {
  import opened Text
  import opened Collections
  import opened Tolerance

  // --- order statistics ------------------------------------------------------------------------

  predicate Ascending(xs: seq<real>) {
    forall i, j | 0 <= i < j < |xs| :: xs[i] <= xs[j]
  }

  function Place(x: real, xs: seq<real>): (r: seq<real>)
    requires Ascending(xs)
    ensures Ascending(r) && multiset(r) == multiset(xs) + multiset{x}
  {
    if xs == [] then [x]
    else if x <= xs[0] then
      assert forall j | 0 <= j < |xs| :: x <= xs[j];
      [x] + xs
    else
      var rest := Place(x, xs[1..]);
      assert xs == [xs[0]] + xs[1..];
      FrontStays(xs[0], x, xs[1..], rest);
      [xs[0]] + rest
  }

  lemma FrontStays(a: real, x: real, tail: seq<real>, rest: seq<real>)
    requires Ascending([a] + tail) && a <= x && Ascending(rest) && multiset(rest) == multiset(tail) + multiset{x}
    ensures Ascending([a] + rest)
  {
    var all := [a] + tail;
    forall j | 0 <= j < |rest| ensures a <= rest[j] {
      assert rest[j] in multiset(rest);
      if rest[j] != x {
        assert rest[j] in tail;
        var i :| 0 <= i < |tail| && tail[i] == rest[j];
        assert all[0] <= all[i + 1];
      }
    }
  }

  /** `sorted` */
  function Sort(xs: seq<real>): (r: seq<real>)
    ensures Ascending(r) && multiset(r) == multiset(xs) && |r| == |xs|
  {
    if xs == [] then []
    else
      assert xs == [xs[0]] + xs[1..];
      var r := Place(xs[0], Sort(xs[1..]));
      assert |r| == |multiset(r)|;
      r
  }

  /** `statistics.median` */
  function Median(xs: seq<real>): real
    requires xs != []
  {
    var s, n := Sort(xs), |xs|;
    if n % 2 == 1 then s[n / 2] else (s[n / 2 - 1] + s[n / 2]) / 2.0
  }

  function Max(xs: seq<real>): (r: real)
    requires xs != []
    ensures r in xs && forall i | 0 <= i < |xs| :: xs[i] <= r
  {
    if |xs| == 1 then xs[0]
    else
      assert xs == [xs[0]] + xs[1..];
      if xs[0] >= Max(xs[1..]) then xs[0] else Max(xs[1..])
  }

  function Min(xs: seq<real>): (r: real)
    requires xs != []
    ensures r in xs && forall i | 0 <= i < |xs| :: r <= xs[i]
  {
    if |xs| == 1 then xs[0]
    else
      assert xs == [xs[0]] + xs[1..];
      if xs[0] <= Min(xs[1..]) then xs[0] else Min(xs[1..])
  }

  lemma SortedBetween(xs: seq<real>, i: nat)
    requires i < |xs|
    ensures |Sort(xs)| == |xs| && Min(xs) <= Sort(xs)[i] <= Max(xs)
  {
    hide Sort, Min, Max;
    var s := Sort(xs);
    assert |s| == |multiset(s)| == |xs|;
    assert s[i] in multiset(s);
    assert s[i] in xs;
  }

  /** A median lies among its values. */
  lemma MedianBetween(xs: seq<real>)
    requires xs != []
    ensures Min(xs) <= Median(xs) <= Max(xs)
  {
    hide Sort, Min, Max;
    var n := |xs|;
    SortedBetween(xs, n / 2);
    if n % 2 == 0 {
      SortedBetween(xs, n / 2 - 1);
    }
  }

  /** How many values are below, and above. */
  function CountBelow(xs: seq<real>, v: real): (n: nat)
    ensures n <= |xs|
  {
    if xs == [] then 0 else (if xs[0] < v then 1 else 0) + CountBelow(xs[1..], v)
  }

  function CountAbove(xs: seq<real>, v: real): (n: nat)
    ensures n <= |xs|
  {
    if xs == [] then 0 else (if xs[0] > v then 1 else 0) + CountAbove(xs[1..], v)
  }

  /** One of the values, with no more than k of them below it and no more than those after k above it. */
  ghost predicate IsRank(xs: seq<real>, k: nat, v: real) {
    k < |xs| && v in xs && CountBelow(xs, v) <= k && CountAbove(xs, v) <= |xs| - 1 - k
  }

  lemma {:induction false} PlaceCounts(x: real, xs: seq<real>, v: real)
    requires Ascending(xs)
    ensures CountBelow(Place(x, xs), v) == (if x < v then 1 else 0) + CountBelow(xs, v)
    ensures CountAbove(Place(x, xs), v) == (if x > v then 1 else 0) + CountAbove(xs, v)
  {
    if xs == [] {
      assert [x][1..] == [];
    } else if x <= xs[0] {
      assert ([x] + xs)[1..] == xs;
    } else {
      PlaceCounts(x, xs[1..], v);
      assert Place(x, xs)[1..] == Place(x, xs[1..]);
    }
  }

  /** Sorting moves no value past another in the count. */
  lemma {:induction false} SortCounts(xs: seq<real>, v: real)
    ensures CountBelow(Sort(xs), v) == CountBelow(xs, v) && CountAbove(Sort(xs), v) == CountAbove(xs, v)
  {
    if xs != [] {
      SortCounts(xs[1..], v);
      PlaceCounts(xs[0], Sort(xs[1..]), v);
    }
  }

  lemma {:induction false} AscendingCounts(s: seq<real>, k: nat)
    requires Ascending(s) && k < |s|
    ensures CountBelow(s, s[k]) <= k && CountAbove(s, s[k]) <= |s| - 1 - k
  {
    if k == 0 {
      NoneBelow(s, s[0]);
      assert CountAbove(s[1..], s[0]) <= |s| - 1;
    } else {
      assert s[1..][k - 1] == s[k];
      AscendingCounts(s[1..], k - 1);
    }
  }

  lemma {:induction false} NoneBelow(s: seq<real>, v: real)
    requires forall i | 0 <= i < |s| :: v <= s[i]
    ensures CountBelow(s, v) == 0
  {
    if s != [] {
      NoneBelow(s[1..], v);
    }
  }

  lemma SortedRank(xs: seq<real>, k: nat)
    requires k < |xs|
    ensures IsRank(xs, k, Sort(xs)[k])
  {
    hide Sort, CountBelow, CountAbove;
    var s := Sort(xs);
    SortCounts(xs, s[k]);
    AscendingCounts(s, k);
    assert s[k] in multiset(s);
    assert s[k] in multiset(xs);
  }

  /** Whatever is not above the smaller value is below the larger. */
  lemma {:induction false} CountsCover(xs: seq<real>, a: real, b: real)
    requires a < b
    ensures |xs| - CountAbove(xs, a) <= CountBelow(xs, b)
  {
    if xs != [] {
      CountsCover(xs[1..], a, b);
    }
  }

  lemma OneRank(xs: seq<real>, k: nat, a: real, b: real)
    requires IsRank(xs, k, a) && IsRank(xs, k, b)
    ensures a == b
  {
    hide CountBelow, CountAbove;
    if a < b {
      CountsCover(xs, a, b);
    } else if b < a {
      CountsCover(xs, b, a);
    }
  }

  /** The two values in the middle of an even number. */
  ghost predicate Middle(xs: seq<real>, lo: real, hi: real) {
    |xs| > 0 && |xs| % 2 == 0 && IsRank(xs, |xs| / 2 - 1, lo) && IsRank(xs, |xs| / 2, hi)
  }

  /** The median is the middle value by count, or halfway between the two middle ones. */
  lemma MedianIff(xs: seq<real>, v: real)
    requires xs != []
    ensures v == Median(xs) <==>
            if |xs| % 2 == 1 then IsRank(xs, |xs| / 2, v)
            else exists lo, hi :: Middle(xs, lo, hi) && v == (lo + hi) / 2.0
  {
    hide Sort, IsRank;
    var n := |xs|;
    var hi := Sort(xs)[n / 2];
    SortedRank(xs, n / 2);
    if n % 2 == 1 {
      if IsRank(xs, n / 2, v) {
        OneRank(xs, n / 2, v, hi);
      }
    } else {
      var lo := Sort(xs)[n / 2 - 1];
      SortedRank(xs, n / 2 - 1);
      assert Middle(xs, lo, hi);
      forall a, b | Middle(xs, a, b) ensures a == lo && b == hi {
        OneRank(xs, n / 2 - 1, a, lo);
        OneRank(xs, n / 2, b, hi);
      }
    }
  }

  /** Nothing lies between the two middle values. */
  lemma NoneBetween(xs: seq<real>, lo: real, hi: real)
    requires Middle(xs, lo, hi)
    ensures lo <= hi && forall x | x in xs :: !(lo < x < hi)
  {
    hide CountBelow, CountAbove;
    if hi < lo {
      CountsCover(xs, hi, lo);
    }
    forall x | x in xs && lo < x < hi ensures false {
      BetweenCounts(xs, lo, x, hi);
    }
  }

  lemma {:induction false} BetweenCounts(xs: seq<real>, lo: real, x: real, hi: real)
    requires lo < hi
    ensures |xs| - CountAbove(xs, lo) <= CountBelow(xs, hi)
    ensures x in xs && lo < x < hi ==> |xs| - CountAbove(xs, lo) + 1 <= CountBelow(xs, hi)
  {
    if xs != [] {
      BetweenCounts(xs[1..], lo, x, hi);
      assert xs == [xs[0]] + xs[1..];
    }
  }

  // --- the verdict -------------------------------------------------------------------------------

  datatype Row = Row(base: seq<real>, pr: seq<real>, threshold: Option<real>)

  datatype Verdict = Missing | MissingReportOnly | New | ReportOnly | Regression | Suspect | Improvement | Fine

  /** `Row.change` */
  function Change(row: Row): Option<real> {
    if row.base == [] || row.pr == [] || Median(row.base) == 0.0 then None
    else Some((Median(row.pr) - Median(row.base)) / Abs(Median(row.base)))
  }

  /** `Row.separated` */
  predicate Separated(row: Row) {
    row.base != [] && row.pr != [] && (Min(row.pr) > Max(row.base) || Max(row.pr) < Min(row.base))
  }

  /** `judge` */
  function Judge(row: Row): Verdict {
    if row.pr == [] then (if row.threshold.Some? then Missing else MissingReportOnly)
    else if row.base == [] then New
    else if row.threshold.None? then ReportOnly
    else match Change(row)
      case None =>
        if Median(row.pr) > 0.0 then (if Separated(row) then Regression else Suspect)
        else if Median(row.pr) < 0.0 && Separated(row) then Improvement
        else Fine
      case Some(change) =>
        if change > row.threshold.value then (if Separated(row) then Regression else Suspect)
        else if change < -row.threshold.value && Separated(row) then Improvement
        else Fine
  }

  /** A gate file's thresholds are fractions. */
  ghost predicate Gated(row: Row) {
    row.threshold.Some? && 0.0 < row.threshold.value < 1.0
  }

  /** Every value of the one above every value of the other. */
  ghost predicate Above(xs: seq<real>, ys: seq<real>) {
    forall i, j | 0 <= i < |xs| && 0 <= j < |ys| :: xs[i] > ys[j]
  }

  lemma AboveIsMinMax(xs: seq<real>, ys: seq<real>)
    requires xs != [] && ys != []
    ensures Above(xs, ys) <==> Min(xs) > Max(ys)
  {
    if Above(xs, ys) {
      var i :| 0 <= i < |xs| && xs[i] == Min(xs);
      var j :| 0 <= j < |ys| && ys[j] == Max(ys);
    }
  }

  /** The pull request's median is above the base's by more than the threshold. */
  ghost predicate Slower(row: Row)
    requires row.base != [] && row.pr != [] && row.threshold.Some?
  {
    if Median(row.base) == 0.0 then Median(row.pr) > 0.0
    else Median(row.pr) - Median(row.base) > row.threshold.value * Abs(Median(row.base))
  }

  ghost predicate Faster(row: Row)
    requires row.base != [] && row.pr != [] && row.threshold.Some?
  {
    if Median(row.base) == 0.0 then Median(row.pr) < 0.0
    else Median(row.base) - Median(row.pr) > row.threshold.value * Abs(Median(row.base))
  }

  /** Every verdict, exactly: a gated row without pull-request runs is missing; a slower one is a regression when its
      runs are all above, and suspect otherwise; a faster one is an improvement when they are all below. */
  lemma VerdictExact(row: Row)
    requires row.threshold.Some? ==> Gated(row)
    ensures var j, both := Judge(row), row.base != [] && row.pr != [];
            && (j == Missing <==> row.pr == [] && row.threshold.Some?)
            && (j == MissingReportOnly <==> row.pr == [] && row.threshold.None?)
            && (j == New <==> row.base == [] && row.pr != [])
            && (j == ReportOnly <==> both && row.threshold.None?)
            && (j == Regression <==> both && row.threshold.Some? && Slower(row) && Above(row.pr, row.base))
            && (j == Suspect <==> both && row.threshold.Some? && Slower(row) && !Above(row.pr, row.base))
            && (j == Improvement <==> both && row.threshold.Some? && Faster(row) && Above(row.base, row.pr))
  {
    hide Median, Slower, Faster, Change, Separated, Above;
    if row.base != [] && row.pr != [] && row.threshold.Some? {
      SlowerExact(row);
      SidesExact(row);
    }
  }

  /** Slower and faster are what the verdict goes by. */
  lemma SlowerExact(row: Row)
    requires row.base != [] && row.pr != [] && Gated(row)
    ensures var c := Change(row);
            && (Slower(row) <==> if c.None? then Median(row.pr) > 0.0 else c.value > row.threshold.value)
            && (Faster(row) <==> if c.None? then Median(row.pr) < 0.0 else c.value < -row.threshold.value)
            && !(Slower(row) && Faster(row))
  {
    hide Median;
    if Change(row).Some? {
      ThresholdExact(row);
      FasterExact(row);
    }
  }

  /** A slower row that is separated is so upwards, and a faster one downwards. */
  lemma SidesExact(row: Row)
    requires row.base != [] && row.pr != [] && Gated(row)
    ensures Slower(row) ==> (Separated(row) <==> Above(row.pr, row.base))
    ensures Faster(row) ==> (Separated(row) <==> Above(row.base, row.pr))
  {
    hide Median, Max, Min, Change, Above;
    MedianBetween(row.base);
    MedianBetween(row.pr);
    AboveIsMinMax(row.pr, row.base);
    AboveIsMinMax(row.base, row.pr);
    Apart(Median(row.base), Median(row.pr), row.threshold.value);
  }

  /** Medians that are apart by more than a share of the one are apart. */
  lemma Apart(a: real, b: real, t: real)
    requires t > 0.0
    ensures b - a > t * Abs(a) ==> b > a
    ensures a - b > t * Abs(a) ==> a > b
  {
    assert t * Abs(a) >= 0.0;
  }

  lemma FasterExact(row: Row)
    requires Change(row).Some? && row.threshold.Some?
    ensures Change(row).value < -row.threshold.value <==>
            Median(row.base) - Median(row.pr) > row.threshold.value * Abs(Median(row.base))
  {
    hide Median;
    var d, a, t := Median(row.pr) - Median(row.base), Abs(Median(row.base)), row.threshold.value;
    var q := d / a;
    assert q * a == d;
    Scaled(-q, t, a);
    assert (-q) * a == -(q * a);
  }

  /** The gate fails a change exactly when every pull-request run is above every base run and the medians
      are apart by more than the threshold, or the base median is zero and the other above it. */
  lemma RegressionExact(row: Row)
    requires Gated(row)
    ensures Judge(row) == Regression <==>
              && row.base != [] && row.pr != [] && Above(row.pr, row.base)
              && (if Median(row.base) == 0.0 then Median(row.pr) > 0.0
                  else Median(row.pr) - Median(row.base) > row.threshold.value * Abs(Median(row.base)))
  {
    hide Median, Judge, Above;
    VerdictExact(row);
  }

  lemma ThresholdExact(row: Row)
    requires Change(row).Some? && row.threshold.Some?
    ensures Change(row).value > row.threshold.value <==>
            Median(row.pr) - Median(row.base) > row.threshold.value * Abs(Median(row.base))
  {
    hide Median;
    var d, a, t := Median(row.pr) - Median(row.base), Abs(Median(row.base)), row.threshold.value;
    var q := d / a;
    assert q * a == d;
    Scaled(q, t, a);
  }

  lemma Scaled(q: real, t: real, a: real)
    requires a > 0.0
    ensures q > t <==> q * a > t * a
  {
    assert (q - t) * a == q * a - t * a;
    if q > t {
      assert (q - t) * a > 0.0;
    } else {
      assert (t - q) * a >= 0.0;
    }
  }

  /** Swapping the sides of a regression is no regression. */
  lemma SwapNeverRegresses(row: Row)
    requires Gated(row) && Judge(row) == Regression
    ensures Judge(row.(base := row.pr, pr := row.base)) != Regression
  {
    hide Judge, Median;
    RegressionExact(row);
    RegressionExact(row.(base := row.pr, pr := row.base));
    assert row.pr[0] > row.base[0];
  }

  // --- one run cannot fail the job ------------------------------------------------------------------

  /** A base run at or above a pull-request run. */
  ghost predicate Overlap(row: Row, b: int, p: int) {
    0 <= b < |row.base| && 0 <= p < |row.pr| && row.base[b] >= row.pr[p]
  }

  ghost predicate TwoOverlaps(row: Row) {
    exists b, p, c, q :: Overlap(row, b, p) && Overlap(row, c, q) && b != c && p != q
  }

  ghost predicate EqualBut(xs: seq<real>, ys: seq<real>, k: int) {
    |xs| == |ys| && 0 <= k < |xs| && forall i | 0 <= i < |xs| && i != k :: xs[i] == ys[i]
  }

  /** The row with one run of one side at another value. */
  ghost predicate OneRunOff(row: Row, other: Row) {
    && other.threshold == row.threshold
    && (|| (other.pr == row.pr && exists k :: EqualBut(row.base, other.base, k))
        || (other.base == row.base && exists k :: EqualBut(row.pr, other.pr, k)))
  }

  lemma StillOverlaps(row: Row, other: Row)
    requires TwoOverlaps(row) && OneRunOff(row, other)
    ensures !Above(other.pr, other.base)
  {
    var b, p, c, q :| Overlap(row, b, p) && Overlap(row, c, q) && b != c && p != q;
    if other.pr == row.pr && exists k :: EqualBut(row.base, other.base, k) {
      var k :| EqualBut(row.base, other.base, k);
      assert Overlap(other, if k == b then c else b, if k == b then q else p);
    } else {
      var k :| EqualBut(row.pr, other.pr, k);
      assert Overlap(other, if k == p then c else b, if k == p then q else p);
    }
  }

  /** With two overlaps apart from one another, no other value of any one run makes a regression. */
  lemma OneRunCannotRegress(row: Row, other: Row)
    requires Gated(row) && TwoOverlaps(row) && OneRunOff(row, other)
    ensures Judge(other) != Regression
  {
    hide Judge, Median;
    RegressionExact(other);
    StillOverlaps(row, other);
  }

  ghost predicate AllFromBase(row: Row, c: int) {
    0 <= c < |row.base| && forall b, p | Overlap(row, b, p) :: b == c
  }

  ghost predicate AllFromPr(row: Row, q: int) {
    0 <= q < |row.pr| && forall b, p | Overlap(row, b, p) :: p == q
  }

  /** Without two overlaps apart from one another, all of them share a run. */
  lemma OneSource(row: Row)
    requires row.base != [] && row.pr != [] && !TwoOverlaps(row)
    ensures (exists c :: AllFromBase(row, c)) || (exists q :: AllFromPr(row, q))
  {
    if b, p :| Overlap(row, b, p) {
      if c, q :| Overlap(row, c, q) && c != b {
        assert q == p;
        forall d, r | Overlap(row, d, r) ensures r == p {
          assert d == b || d != b;
        }
        assert AllFromPr(row, p);
      } else {
        assert AllFromBase(row, b);
      }
    } else {
      assert AllFromBase(row, 0);
    }
  }

  /** The run all overlaps share, moved out of the way. */
  lemma Pulled(row: Row) returns (other: Row)
    requires row.base != [] && row.pr != [] && !TwoOverlaps(row)
    ensures OneRunOff(row, other) && Above(other.pr, other.base)
  {
    OneSource(row);
    if c :| AllFromBase(row, c) {
      other := row.(base := row.base[c := Min(row.pr) - 1.0]);
      assert EqualBut(row.base, other.base, c);
      forall i, j | 0 <= i < |other.pr| && 0 <= j < |other.base| ensures other.pr[i] > other.base[j] {
        assert j != c ==> !Overlap(row, j, i);
      }
    } else {
      var q :| AllFromPr(row, q);
      other := row.(pr := row.pr[q := Max(row.base) + 1.0]);
      assert EqualBut(row.pr, other.pr, q);
      forall i, j | 0 <= i < |other.pr| && 0 <= j < |other.base| ensures other.pr[i] > other.base[j] {
        assert i != q ==> !Overlap(row, j, i);
      }
    }
  }

  /** Changing one run can bring the sides apart exactly when no two overlaps are apart from one another. */
  lemma OneRunSeparatesIff(row: Row)
    requires row.base != [] && row.pr != []
    ensures (exists other :: OneRunOff(row, other) && Above(other.pr, other.base)) <==> !TwoOverlaps(row)
  {
    if TwoOverlaps(row) {
      forall other | OneRunOff(row, other) ensures !Above(other.pr, other.base) {
        StillOverlaps(row, other);
      }
    } else {
      var other := Pulled(row);
    }
  }

  // --- the false-alarm rate ---------------------------------------------------------------------------

  /** The ways to label `k` of the runs base runs; a run is an index into the timings. */
  ghost function Labelings(runs: set<int>, k: nat): set<set<int>> {
    set base | base <= runs && |base| == k
  }

  /** The binomial coefficient, by Pascal's rule. */
  function Choose(n: nat, k: nat): nat {
    if k == 0 then 1 else if n == 0 then 0 else Choose(n - 1, k - 1) + Choose(n - 1, k)
  }

  lemma NoneChosen(runs: set<int>)
    ensures Labelings(runs, 0) == {{}}
  {
  }

  /** The labelings that take `x`, and those that do not. */
  lemma LabelingsSplit(runs: set<int>, k: nat, x: int)
    requires x in runs && k > 0
    ensures |Labelings(runs, k)| == |Labelings(runs - {x}, k - 1)| + |Labelings(runs - {x}, k)|
  {
    hide Labelings;
    var rest := runs - {x};
    var less, same := Labelings(rest, k - 1), Labelings(rest, k);
    var taking := With(less, x);
    WithIn(runs, k, x);
    assert taking !! same by {
      forall s | s in taking ensures s !in same {
        WithoutIn(rest, k, s);
      }
    }
    WithoutIn(rest, k - 1, {});
    forall s | s in less ensures x !in s {
      WithoutIn(rest, k - 1, s);
    }
    WithSize(less, x);
  }

  ghost function With<T>(ss: set<set<T>>, x: T): set<set<T>> {
    set s | s in ss :: s + {x}
  }

  lemma WithoutIn(runs: set<int>, k: nat, s: set<int>)
    ensures s in Labelings(runs, k) <==> s <= runs && |s| == k
  {
  }

  lemma WithIn(runs: set<int>, k: nat, x: int)
    requires x in runs && k > 0
    ensures Labelings(runs, k) == With(Labelings(runs - {x}, k - 1), x) + Labelings(runs - {x}, k)
  {
    var rest := runs - {x};
    var less, same := Labelings(rest, k - 1), Labelings(rest, k);
    hide Labelings;
    forall s ensures s in Labelings(runs, k) <==> s in With(less, x) || s in same {
      WithoutIn(runs, k, s);
      WithoutIn(rest, k, s);
      WithOut(rest, k - 1, x, s);
    }
  }

  /** The labelings that have the run are those of the others with it put in. */
  lemma WithOut(rest: set<int>, k: nat, x: int, s: set<int>)
    requires x !in rest
    ensures s in With(Labelings(rest, k), x) <==> x in s && s - {x} <= rest && |s| == k + 1
  {
    if x in s {
      assert s == (s - {x}) + {x} && |s - {x}| == |s| - 1;
      WithoutIn(rest, k, s - {x});
      forall t | t in Labelings(rest, k) && s == t + {x} ensures t == s - {x} {
      }
    }
  }

  /** Adding one run to every labeling makes as many. */
  lemma {:induction false} WithSize<T>(ss: set<set<T>>, x: T)
    requires forall s | s in ss :: x !in s
    ensures |With(ss, x)| == |ss|
  {
    hide With;
    if ss == {} {
      WithNone(ss, x);
    } else {
      var s :| s in ss;
      var rest := ss - {s};
      WithSize(rest, x);
      WithNew(rest, s, x);
      assert rest + {s} == ss;
    }
  }

  lemma WithNone<T>(ss: set<set<T>>, x: T)
    ensures ss == {} ==> With(ss, x) == {}
  {
  }

  /** One more labeling makes one more. */
  lemma WithNew<T>(rest: set<set<T>>, s: set<T>, x: T)
    requires s !in rest && x !in s && forall t | t in rest :: x !in t
    ensures |With(rest + {s}, x)| == |With(rest, x)| + 1
  {
    WithOne(rest, s, x);
    forall t | t in rest ensures t + {x} != s + {x} {
      StillApart(s, t, x);
    }
  }

  lemma WithOne<T>(rest: set<set<T>>, s: set<T>, x: T)
    ensures With(rest + {s}, x) == With(rest, x) + {s + {x}}
  {
  }

  lemma StillApart<T>(s: set<T>, t: set<T>, x: T)
    requires x !in s && x !in t && s != t
    ensures s + {x} != t + {x}
  {
    assert (s + {x}) - {x} == s && (t + {x}) - {x} == t;
  }

  lemma {:induction false} LabelingsCounted(runs: set<int>, k: nat)
    ensures |Labelings(runs, k)| == Choose(|runs|, k)
  {
    if k == 0 {
      NoneChosen(runs);
    } else if runs == {} {
      assert Labelings(runs, k) == {};
    } else {
      var x := Member(runs);
      LabelingsSplit(runs, k, x);
      LabelingsCounted(runs - {x}, k - 1);
      LabelingsCounted(runs - {x}, k);
    }
  }

  /** Distinct timings of the runs. */
  ghost predicate Timed(timings: seq<real>, runs: set<int>) {
    && (forall i | i in runs :: 0 <= i < |timings|)
    && (forall i, j | i in runs && j in runs && i != j :: timings[i] != timings[j])
  }

  /** Every run left to the pull request is above every base run. */
  ghost predicate AllAbove(timings: seq<real>, runs: set<int>, base: set<int>)
    requires Timed(timings, runs) && base <= runs
  {
    forall b, p | b in base && p in runs - base :: timings[p] > timings[b]
  }

  lemma {:induction false} HasLeast(timings: seq<real>, runs: set<int>) returns (m: int)
    requires Timed(timings, runs) && runs != {}
    ensures m in runs && forall i | i in runs :: timings[m] <= timings[i]
  {
    m := Member(runs);
    var rest := runs - {m};
    if rest != {} {
      var n := HasLeast(timings, rest);
      assert runs == rest + {m};
      if timings[n] < timings[m] {
        m := n;
      }
    } else {
      assert runs == {m};
    }
  }

  /** One labeling puts every pull-request run above every base run: the smallest are the base. */
  lemma {:induction false} LowestLabeling(timings: seq<real>, runs: set<int>, k: nat) returns (base: set<int>)
    requires Timed(timings, runs) && k <= |runs|
    ensures base <= runs && |base| == k && AllAbove(timings, runs, base)
  {
    if k == 0 {
      base := {};
    } else {
      var m := HasLeast(timings, runs);
      var rest := LowestLabeling(timings, runs - {m}, k - 1);
      base := rest + {m};
      assert runs - base == (runs - {m}) - rest;
      forall b, p | b in base && p in runs - base ensures timings[p] > timings[b] {
        assert p != m;
      }
    }
  }

  /** And only one. */
  lemma LowestIsOnly(timings: seq<real>, runs: set<int>, a: set<int>, b: set<int>)
    requires Timed(timings, runs) && a <= runs && b <= runs && |a| == |b|
    requires AllAbove(timings, runs, a) && AllAbove(timings, runs, b)
    ensures a == b
  {
    if !(a <= b) {
      var x := Outside(a, b);
      assert x in runs - b;
      forall y | y in b ensures y in a {
        assert timings[x] > timings[y];
        assert y in runs - a || y in a;
      }
      ProperIsSmaller(b, a, x);
    } else if !(b <= a) {
      var y := Outside(b, a);
      ProperIsSmaller(a, b, y);
    }
  }

  ghost predicate FalseAlarm(timings: seq<real>, runs: set<int>, k: nat, base: set<int>)
    requires Timed(timings, runs)
  {
    base in Labelings(runs, k) && AllAbove(timings, runs, base)
  }

  /** Of the C(2N, N) ways to label 2N runs with distinct timings, exactly one is a false alarm. */
  lemma FalseAlarmRate(timings: seq<real>, runs: set<int>, n: nat)
    requires Timed(timings, runs) && |runs| == 2 * n
    ensures |Labelings(runs, n)| == Choose(2 * n, n)
    ensures exists base :: FalseAlarm(timings, runs, n, base)
    ensures forall a, b | FalseAlarm(timings, runs, n, a) && FalseAlarm(timings, runs, n, b) :: a == b
  {
    LabelingsCounted(runs, n);
    var base := LowestLabeling(timings, runs, n);
    assert FalseAlarm(timings, runs, n, base);
    forall a, b | FalseAlarm(timings, runs, n, a) && FalseAlarm(timings, runs, n, b) ensures a == b {
      LowestIsOnly(timings, runs, a, b);
    }
  }

  /** The absorption identity, by which the coefficient is computed. */
  lemma {:induction false} Absorb(n: nat, k: nat)
    requires n > 0 && k > 0
    ensures k * Choose(n, k) == n * Choose(n - 1, k - 1)
  {
    if n > 1 && k > 1 {
      Absorb(n - 1, k);
      Absorb(n - 1, k - 1);
      Combine(n, k, Choose(n - 1, k - 1), Choose(n - 1, k), Choose(n - 2, k - 2), Choose(n - 2, k - 1));
    } else if n > 1 {
      Absorb(n - 1, 1);
    }
  }

  lemma Combine(n: int, k: int, a: int, b: int, c: int, d: int)
    requires k * b == (n - 1) * d && (k - 1) * a == (n - 1) * c && a == c + d
    ensures k * (a + b) == n * a
  {
    assert k * (a + b) == a + (k - 1) * a + k * b;
    assert (n - 1) * c + (n - 1) * d == (n - 1) * (c + d);
  }

  /** One in 20 at three runs a side, one in 70 at four, one in 252 at five. */
  lemma ClaimedRates()
    ensures Choose(6, 3) == 20 && Choose(8, 4) == 70 && Choose(10, 5) == 252
  {
    hide Choose;
    Ones();
    Absorb(4, 1);
    Absorb(5, 1);
    Absorb(6, 1);
    Absorb(5, 2);
    Absorb(6, 2);
    Absorb(7, 2);
    Absorb(6, 3);
    Absorb(7, 3);
    Absorb(8, 3);
    Absorb(8, 4);
    Absorb(9, 4);
    Absorb(10, 5);
  }

  lemma Ones()
    ensures forall n: nat :: Choose(n, 0) == 1
  {
  }

  /** The labeling and the gate mean the same: the sides of a labelled row come apart exactly so. */
  lemma LabelledRow(timings: seq<real>, bs: seq<int>, ps: seq<int>, row: Row)
    requires forall i | i in bs || i in ps :: 0 <= i < |timings|
    requires forall i, j | (i in bs || i in ps) && (j in bs || j in ps) && i != j :: timings[i] != timings[j]
    requires forall i | i in bs :: i !in ps
    requires |row.base| == |bs| && forall k | 0 <= k < |bs| :: bs[k] in bs && row.base[k] == timings[bs[k]]
    requires |row.pr| == |ps| && forall k | 0 <= k < |ps| :: ps[k] in ps && row.pr[k] == timings[ps[k]]
    ensures var base, rest := (set i | i in bs), (set i | i in ps);
            Timed(timings, base + rest) && (Above(row.pr, row.base) <==> AllAbove(timings, base + rest, base))
  {
    var base, rest := (set i | i in bs), (set i | i in ps);
    assert base + rest - base == rest;
    if Above(row.pr, row.base) {
      forall b, p | b in base && p in rest ensures timings[p] > timings[b] {
        var i :| 0 <= i < |ps| && ps[i] == p;
        var j :| 0 <= j < |bs| && bs[j] == b;
        assert row.pr[i] > row.base[j];
      }
    }
    if AllAbove(timings, base + rest, base) {
      forall i, j | 0 <= i < |row.pr| && 0 <= j < |row.base| ensures row.pr[i] > row.base[j] {
        assert bs[j] in base && ps[i] in rest;
      }
    }
  }

  // --- collecting the runs ------------------------------------------------------------------------------

  datatype Side = Base | Pr

  /** `interleaved_order`: every repeat runs both sides, and they take turns going first. */
  method InterleavedOrder(repeats: nat) returns (order: seq<(nat, Side)>)
    ensures |order| == 2 * repeats
    ensures forall i: nat | i < repeats ::
              order[2 * i] == (i + 1, if i % 2 == 0 then Base else Pr) &&
                order[2 * i + 1] == (i + 1, if i % 2 == 0 then Pr else Base)
  {
    order := [];
    for i := 1 to repeats + 1
      invariant |order| == 2 * (i - 1)
      invariant forall j: nat | j < i - 1 ::
                  order[2 * j] == (j + 1, if j % 2 == 0 then Base else Pr) &&
                    order[2 * j + 1] == (j + 1, if j % 2 == 0 then Pr else Base)
    {
      order := order + if i % 2 == 1 then [(i, Base), (i, Pr)] else [(i, Pr), (i, Base)];
    }
  }

  type BenchRun = map<string, real>

  /** An id's values, in the order of the runs that have one. */
  function Values(runs: seq<BenchRun>, id: string): seq<real> {
    if runs == [] then []
    else
      var n := |runs| - 1;
      Values(runs[..n], id) + if id in runs[n] then [runs[n][id]] else []
  }

  ghost function Having(runs: seq<BenchRun>, id: string): set<nat> {
    set i: nat | i < |runs| && id in runs[i]
  }

  lemma HavingLast(runs: seq<BenchRun>, id: string)
    requires runs != []
    ensures var n := |runs| - 1;
            |Having(runs, id)| == |Having(runs[..n], id)| + if id in runs[n] then 1 else 0
  {
    var n := |runs| - 1;
    assert Having(runs, id) == Having(runs[..n], id) + if id in runs[n] then {n} else {};
  }

  /** As many values as runs have the id. */
  lemma {:induction false} ValuesCounted(runs: seq<BenchRun>, id: string)
    ensures |Values(runs, id)| == |Having(runs, id)|
  {
    hide Having;
    if runs == [] {
      NoneHave(runs, id);
    } else {
      ValuesCounted(runs[..|runs| - 1], id);
      HavingLast(runs, id);
    }
  }

  lemma NoneHave(runs: seq<BenchRun>, id: string)
    ensures runs == [] ==> Having(runs, id) == {}
  {
  }

  /** A run that has the id gives its value, behind those of the runs before it and of no other. */
  lemma {:induction false} ValuesExact(runs: seq<BenchRun>, id: string, i: nat)
    requires i < |runs| && id in runs[i]
    ensures |Values(runs, id)| == |Having(runs, id)|
    ensures |Having(runs[..i], id)| < |Values(runs, id)| && Values(runs, id)[|Having(runs[..i], id)|] == runs[i][id]
  {
    hide Having;
    var n := |runs| - 1;
    ValuesCounted(runs, id);
    if i < n {
      ValuesExact(runs[..n], id, i);
      assert runs[..n][..i] == runs[..i];
    } else {
      ValuesCounted(runs[..n], id);
    }
  }

  /** One side's values by id. */
  method Collect(runs: seq<BenchRun>) returns (found: map<string, seq<real>>)
    ensures forall id :: (id in found <==> Values(runs, id) != []) && (id in found ==> found[id] == Values(runs, id))
  {
    found := map[];
    for n := 0 to |runs|
      invariant forall id ::
                  (id in found <==> Values(runs[..n], id) != []) &&
                  (id in found ==> found[id] == Values(runs[..n], id))
    {
      assert runs[..n + 1][..n] == runs[..n];
      ghost var before := found;
      var left := runs[n].Keys;
      while left != {}
        invariant left <= runs[n].Keys
        invariant forall id | id in left || id !in runs[n] ::
                    (id in found <==> id in before) && (id in found ==> found[id] == before[id])
        invariant forall id | id in runs[n] && id !in left :: id in found && found[id] == Values(runs[..n + 1], id)
        decreases |left|
      {
        ghost var some := Member(left);
        var id :| id in left;
        assert Values(runs[..n + 1], id) == Values(runs[..n], id) + [runs[n][id]];
        found := found[id := (if id in found then found[id] else []) + [runs[n][id]]];
        left := left - {id};
      }
      assert forall id | id !in runs[n] :: Values(runs[..n + 1], id) == Values(runs[..n], id);
    }
    assert runs[..|runs|] == runs;
  }

  /** `sorted` of a set of ids. */
  method SortedIds(ids: set<string>) returns (r: seq<string>)
    ensures StrictlySorted(r) && forall id :: id in r <==> id in ids
  {
    r := [];
    var left := ids;
    while left != {}
      invariant left <= ids && StrictlySorted(r) && forall id :: id in r <==> id in ids - left
      decreases |left|
    {
      ghost var some := Member(left);
      var id :| id in left;
      r := Insert(id, r);
      left := left - {id};
    }
  }

  function RowFor(base: seq<BenchRun>, pr: seq<BenchRun>, threshold: map<string, real>, id: string): Row {
    Row(Values(base, id), Values(pr, id), if id in threshold then Some(threshold[id]) else None)
  }

  /** The id's row over all runs, with its verdict. */
  ghost predicate Judged(base: seq<BenchRun>, pr: seq<BenchRun>, threshold: map<string, real>,
                         r: (string, Row, Verdict))
  {
    r.1 == RowFor(base, pr, threshold, r.0) && r.2 == Judge(r.1)
  }

  lemma RowBuilt(base: seq<BenchRun>, pr: seq<BenchRun>, threshold: map<string, real>, id: string, row: Row)
    requires row == Row(Values(base, id), Values(pr, id), if id in threshold then Some(threshold[id]) else None)
    ensures Judged(base, pr, threshold, (id, row, Judge(row)))
  {
    hide Judge;
  }

  /** `compare`: a row for every id of either side, in order, judged on all its runs; `threshold` holds what
      the first gate that matches an id says. */
  method Compare(base: seq<BenchRun>, pr: seq<BenchRun>, threshold: map<string, real>)
    returns (rows: seq<(string, Row, Verdict)>)
    ensures forall i, j | 0 <= i < j < |rows| :: Less(rows[i].0, rows[j].0)
    ensures forall id ::
              Values(base, id) != [] || Values(pr, id) != [] <==> exists i :: 0 <= i < |rows| && rows[i].0 == id
    ensures forall i | 0 <= i < |rows| :: Judged(base, pr, threshold, rows[i])
  {
    hide Judge, Values, Judged, Less;
    var b := Collect(base);
    var p := Collect(pr);
    var ids := SortedIds(b.Keys + p.Keys);
    rows := [];
    for n := 0 to |ids|
      invariant |rows| == n
      invariant forall i | 0 <= i < n :: rows[i].0 == ids[i] && Judged(base, pr, threshold, rows[i])
    {
      var id := ids[n];
      var row := Row(if id in b then b[id] else [], if id in p then p[id] else [],
                     if id in threshold then Some(threshold[id]) else None);
      RowBuilt(base, pr, threshold, id, row);
      rows := rows + [(id, row, Judge(row))];
    }
    forall id
      ensures Values(base, id) != [] || Values(pr, id) != [] <==> exists i :: 0 <= i < |rows| && rows[i].0 == id
    {
      IdListed(ids, rows, id);
      assert id in ids <==> id in b || id in p;
    }
  }

  lemma IdListed(ids: seq<string>, rows: seq<(string, Row, Verdict)>, id: string)
    requires |rows| == |ids| && forall i | 0 <= i < |ids| :: rows[i].0 == ids[i]
    ensures id in ids <==> exists i :: 0 <= i < |rows| && rows[i].0 == id
  {
    if id in ids {
      var i :| 0 <= i < |ids| && ids[i] == id;
      assert rows[i].0 == id;
    }
  }
}
