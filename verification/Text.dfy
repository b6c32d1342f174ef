/**
 Strings as the tools read them: searching, decimal numbers, and the code-point
 order Python sorts strings by.
 */
module Text {

  datatype Option<+T> = None | Some(value: T)

  // --- searching ---------------------------------------------------------------

  predicate StartsAt(s: string, pat: string, i: nat) {
    i + |pat| <= |s| && s[i..i + |pat|] == pat
  }

  predicate Contains(s: string, pat: string) {
    exists i: nat | i <= |s| :: StartsAt(s, pat, i)
  }

  /** `s.find(pat, from)` */
  function Find(s: string, pat: string, from: nat): (r: Option<nat>)
    requires from <= |s|
    ensures r.None? ==> forall i: nat | from <= i <= |s| :: !StartsAt(s, pat, i)
    ensures r.Some? ==> from <= r.value <= |s| && StartsAt(s, pat, r.value)
    ensures r.Some? ==> forall i: nat | from <= i < r.value :: !StartsAt(s, pat, i)
    decreases |s| - from
  {
    if StartsAt(s, pat, from) then Some(from)
    else if from == |s| then None
    else Find(s, pat, from + 1)
  }

  /** `s.rfind(pat)`, looking no further right than `upto` */
  function RFind(s: string, pat: string, upto: nat): (r: Option<nat>)
    requires upto <= |s|
    ensures r.None? ==> forall i: nat | i <= upto :: !StartsAt(s, pat, i)
    ensures r.Some? ==> r.value <= upto && StartsAt(s, pat, r.value)
    ensures r.Some? ==> forall i: nat | r.value < i <= upto :: !StartsAt(s, pat, i)
  {
    if StartsAt(s, pat, upto) then Some(upto)
    else if upto == 0 then None
    else RFind(s, pat, upto - 1)
  }

  lemma CharAt(s: string, pat: string, i: nat, k: nat)
    requires StartsAt(s, pat, i) && k < |pat|
    ensures s[i + k] == pat[k]
  {
    assert s[i..i + |pat|][k] == s[i + k];
  }

  lemma SubSlice(s: string, from: nat, to: nat, a: nat, b: nat)
    requires from <= to <= |s| && a <= b <= to - from
    ensures s[from..to][a..b] == s[from + a..from + b]
  {
    forall k | 0 <= k < b - a ensures s[from..to][a..b][k] == s[from + a..from + b][k] {
    }
  }

  /** What is found inside a slice is found there in the whole. */
  lemma InSlice(s: string, from: nat, to: nat, pat: string, i: nat)
    requires from <= to <= |s| && i <= to - from
    ensures i + |pat| <= to - from ==> (StartsAt(s[from..to], pat, i) <==> StartsAt(s, pat, from + i))
  {
    if i + |pat| <= to - from {
      SubSlice(s, from, to, i, i + |pat|);
    }
  }

  /** A pattern cannot straddle a character it does not hold. */
  lemma ContainsAcross(a: string, x: char, b: string, pat: string)
    requires x !in pat && pat != []
    requires Contains(a + [x] + b, pat)
    ensures Contains(a, pat) || Contains(b, pat)
  {
    var s := a + [x] + b;
    var i: nat :| i <= |s| && StartsAt(s, pat, i);
    forall j | i <= j < i + |pat| ensures s[j] != x {
      CharAt(s, pat, i, j - i);
    }
    assert s[|a|] == x;
    if i < |a| {
      assert a == s[0..|a|];
      InSlice(s, 0, |a|, pat, i);
    } else {
      assert b == s[|a| + 1..|s|];
      InSlice(s, |a| + 1, |s|, pat, i - |a| - 1);
    }
  }

  predicate EndsWith(s: string, pat: string) {
    |pat| <= |s| && s[|s| - |pat|..] == pat
  }

  lemma Sliced(a: string, b: string, c: string)
    ensures (a + b + c)[|a|..|a| + |b|] == b
  {
  }

  lemma TooShort(s: string, pat: string)
    requires |s| < |pat|
    ensures !Contains(s, pat)
  {
  }

  // --- decimal numbers ---------------------------------------------------------

  predicate IsDigit(c: char) {
    '0' <= c <= '9'
  }

  predicate AllDigits(s: string) {
    forall i | 0 <= i < |s| :: IsDigit(s[i])
  }

  function Digit(d: nat): (c: char)
    requires d < 10
    ensures IsDigit(c) && c as int == '0' as int + d
  {
    ('0' as int + d) as char
  }

  /** `str(n)` */
  function Decimal(n: nat): (s: string)
    ensures s != [] && AllDigits(s)
  {
    if n < 10 then [Digit(n)] else Decimal(n / 10) + [Digit(n % 10)]
  }

  /** `int(s)` of a run of digits; leading zeros are read, an empty run is refused. */
  function ParseNat(s: string): (r: Option<nat>)
    ensures r.Some? <==> s != [] && AllDigits(s)
  {
    if s == [] then None
    else
      var last := s[|s| - 1];
      if !IsDigit(last) then None
      else if |s| == 1 then Some(last as int - '0' as int)
      else
        assert AllDigits(s[..|s| - 1]) ==> AllDigits(s);
        match ParseNat(s[..|s| - 1])
        case None => None
        case Some(high) => Some(10 * high + (last as int - '0' as int))
  }

  lemma {:induction false} DecimalRoundTrip(n: nat)
    ensures ParseNat(Decimal(n)) == Some(n)
  {
    if n >= 10 {
      DecimalRoundTrip(n / 10);
      assert Decimal(n)[..|Decimal(n)| - 1] == Decimal(n / 10);
    }
  }

  lemma DigitsHoldNo(s: string, pat: string)
    requires AllDigits(s) && pat != [] && !IsDigit(pat[0])
    ensures !Contains(s, pat)
  {
    forall i: nat | i + |pat| <= |s| ensures !StartsAt(s, pat, i) {
      assert s[i..i + |pat|][0] == s[i];
    }
  }

  // --- the order of strings ----------------------------------------------------

  /** Python's `a < b` on strings: by code point, a proper prefix first. */
  predicate Less(a: string, b: string) {
    if b == [] then false
    else if a == [] then true
    else if a[0] != b[0] then a[0] < b[0]
    else Less(a[1..], b[1..])
  }

  lemma {:induction false} LessTotal(a: string, b: string)
    ensures Less(a, b) || Less(b, a) || a == b
    ensures !(Less(a, b) && Less(b, a))
    ensures Less(a, b) ==> a != b
  {
    if a != [] && b != [] && a[0] == b[0] {
      LessTotal(a[1..], b[1..]);
      assert a == [a[0]] + a[1..] && b == [b[0]] + b[1..];
    }
  }

  lemma {:induction false} LessTransitive(a: string, b: string, c: string)
    requires Less(a, b) && Less(b, c)
    ensures Less(a, c)
  {
    if a != [] && a[0] == b[0] && b[0] == c[0] {
      LessTransitive(a[1..], b[1..], c[1..]);
    }
  }

  predicate StrictlySorted(xs: seq<string>) {
    forall i, j | 0 <= i < j < |xs| :: Less(xs[i], xs[j])
  }

  /** `sorted` of a set being filled one element at a time. */
  function Insert(x: string, xs: seq<string>): (r: seq<string>)
    requires StrictlySorted(xs)
    ensures StrictlySorted(r)
    ensures forall y :: y in r <==> y == x || y in xs
  {
    if xs == [] then [x]
    else if x == xs[0] then xs
    else if Less(x, xs[0]) then
      InsertFront(x, xs);
      [x] + xs
    else
      InsertBack(x, xs);
      var r := [xs[0]] + Insert(x, xs[1..]);
      assert forall j | 0 < j < |r| :: r[j] in Insert(x, xs[1..]);
      assert forall y | y in xs[1..] :: Less(xs[0], y);
      r
  }

  lemma InsertFront(x: string, xs: seq<string>)
    requires StrictlySorted(xs) && xs != [] && Less(x, xs[0])
    ensures StrictlySorted([x] + xs)
  {
    forall j | 0 < j < |xs| ensures Less(x, xs[j]) {
      LessTransitive(x, xs[0], xs[j]);
    }
  }

  lemma InsertBack(x: string, xs: seq<string>)
    requires StrictlySorted(xs) && xs != [] && x != xs[0] && !Less(x, xs[0])
    ensures Less(xs[0], x) && StrictlySorted(xs[1..])
    ensures xs == [xs[0]] + xs[1..]
  {
    LessTotal(x, xs[0]);
  }
}
