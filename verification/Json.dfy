/**
 The JSON the monitor leaves in an issue body: `json.dumps` as Python spells it
 (ASCII only, `", "` and `": "` between items) and the part of `json.loads` that
 reads it back. Numbers, arrays and booleans never appear in a marker and are refused.
 Printing puts a value in front of the text that follows it.
 */
module Json {
  import opened Text

  datatype Value = Null | Str(text: string) | Obj(fields: Fields)
  datatype Fields = End | Field(key: string, value: Value, more: Fields)

  // --- printing ------------------------------------------------------------------

  /** The characters `json.dumps` writes as they are. */
  predicate Plain(c: char) {
    ' ' <= c <= '~' && c != '"' && c != '\\'
  }

  function HexDigit(d: nat): char
    requires d < 16
  {
    if d < 10 then ('0' as int + d) as char else ('a' as int + d - 10) as char
  }

  function UnitTo(n: nat, rest: string): string
    requires n < 0x10000
  {
    ['\\', 'u', HexDigit(n / 4096), HexDigit(n / 256 % 16), HexDigit(n / 16 % 16), HexDigit(n % 16)] + rest
  }

  /** The letter of a two-character escape, for the characters that have one. */
  function Short(c: char): Option<char> {
    if c == '"' || c == '\\' then Some(c)
    else if c == '\n' then Some('n')
    else if c == '\r' then Some('r')
    else if c == '\t' then Some('t')
    else if c as int == 8 then Some('b')
    else if c as int == 12 then Some('f')
    else None
  }

  function CharTo(c: char, rest: string): string {
    var n := c as int;
    if Plain(c) then [c] + rest
    else if Short(c).Some? then ['\\', Short(c).value] + rest
    else if n < 0x10000 then UnitTo(n, rest)
    else UnitTo(0xd800 + (n - 0x10000) / 1024, UnitTo(0xdc00 + (n - 0x10000) % 1024, rest))
  }

  function CharsTo(s: string, rest: string): string {
    if s == [] then ['"'] + rest else CharTo(s[0], CharsTo(s[1..], rest))
  }

  function QuoteTo(s: string, rest: string): string {
    ['"'] + CharsTo(s, rest)
  }

  function ValueTo(v: Value, rest: string): string {
    match v
    case Null => ['n', 'u', 'l', 'l'] + rest
    case Str(t) => QuoteTo(t, rest)
    case Obj(fs) => ['{'] + FieldsTo(fs, rest)
  }

  function FieldsTo(fs: Fields, rest: string): string {
    match fs
    case End => ['}'] + rest
    case Field(k, v, more) => QuoteTo(k, [':', ' '] + ValueTo(v, MoreTo(more, rest)))
  }

  /** The fields after the first one. */
  function MoreTo(fs: Fields, rest: string): string {
    match fs
    case End => ['}'] + rest
    case Field(k, v, more) => [',', ' '] + QuoteTo(k, [':', ' '] + ValueTo(v, MoreTo(more, rest)))
  }

  /** `json.dumps` */
  function Dumps(v: Value): string {
    ValueTo(v, [])
  }

  // --- parsing -------------------------------------------------------------------

  function HexVal(c: char): (r: Option<nat>)
    ensures r.Some? ==> r.value < 16
  {
    if '0' <= c <= '9' then Some(c as int - '0' as int)
    else if 'a' <= c <= 'f' then Some(c as int - 'a' as int + 10)
    else if 'A' <= c <= 'F' then Some(c as int - 'A' as int + 10)
    else None
  }

  /** The four digits after `\u`, with `s` starting at the backslash. */
  function Unit(s: string): (r: Option<nat>)
    ensures r.Some? ==> |s| >= 6 && r.value < 0x10000
  {
    if |s| < 6 || s[0] != '\\' || s[1] != 'u' then None
    else match (HexVal(s[2]), HexVal(s[3]), HexVal(s[4]), HexVal(s[5]))
      case (Some(a), Some(b), Some(c), Some(d)) => Some(a * 4096 + b * 256 + c * 16 + d)
      case _ => None
  }

  /** The character a two-character escape stands for. */
  function Long(e: char): Option<char> {
    if e == '"' || e == '\\' || e == '/' then Some(e)
    else if e == 'n' then Some('\n')
    else if e == 'r' then Some('\r')
    else if e == 't' then Some('\t')
    else if e == 'b' then Some(8 as char)
    else if e == 'f' then Some(12 as char)
    else None
  }

  /** The character an escape at the front of `s` stands for, and the text after it. A lone
      surrogate is no character and is refused. */
  function Unescape(s: string): (r: Option<(char, string)>)
    ensures r.Some? ==> |r.value.1| < |s|
  {
    if |s| < 2 || s[0] != '\\' then None
    else if Long(s[1]).Some? then Some((Long(s[1]).value, s[2..]))
    else match Unit(s)
      case None => None
      case Some(u) =>
        if u < 0xd800 || 0xe000 <= u then Some((u as char, s[6..]))
        else match Unit(s[6..])
          case Some(w) =>
            if u < 0xdc00 && 0xdc00 <= w < 0xe000
            then Some(((0x10000 + (u - 0xd800) * 1024 + (w - 0xdc00)) as char, s[12..]))
            else None
          case None => None
  }

  /** The rest of a string literal, up to and past its closing quote. */
  function ParseChars(s: string): (r: Option<(string, string)>)
    ensures r.Some? ==> |r.value.1| < |s|
    decreases |s|
  {
    if s == [] || s[0] < ' ' then None
    else if s[0] == '"' then Some(([], s[1..]))
    else if s[0] == '\\' then
      match Unescape(s)
      case None => None
      case Some((c, tail)) =>
        match ParseChars(tail)
        case None => None
        case Some((text, rest)) => Some(([c] + text, rest))
    else match ParseChars(s[1..])
      case None => None
      case Some((text, rest)) => Some(([s[0]] + text, rest))
  }

  function SkipWs(s: string): (r: string)
    ensures |r| <= |s|
  {
    if s != [] && (s[0] == ' ' || s[0] == '\t' || s[0] == '\n' || s[0] == '\r') then SkipWs(s[1..]) else s
  }

  function ParseValue(s: string): (r: Option<(Value, string)>)
    ensures r.Some? ==> |r.value.1| < |s|
    decreases |s|, 0
  {
    if |s| >= 4 && s[0] == 'n' && s[1] == 'u' && s[2] == 'l' && s[3] == 'l' then Some((Null, s[4..]))
    else if s != [] && s[0] == '"' then
      match ParseChars(s[1..])
      case None => None
      case Some((text, rest)) => Some((Str(text), rest))
    else if s != [] && s[0] == '{' then
      var body := SkipWs(s[1..]);
      if body != [] && body[0] == '}' then Some((Obj(End), body[1..]))
      else match ParseMembers(body)
        case None => None
        case Some((fs, rest)) => Some((Obj(fs), rest))
    else None
  }

  /** One or more `"key": value` items and the closing brace. */
  function ParseMembers(s: string): (r: Option<(Fields, string)>)
    ensures r.Some? ==> |r.value.1| < |s|
    decreases |s|, 2
  {
    if s == [] || s[0] != '"' then None
    else match ParseChars(s[1..])
      case None => None
      case Some((key, afterKey)) =>
        var colon := SkipWs(afterKey);
        if colon == [] || colon[0] != ':' then None
        else match ParseValue(SkipWs(colon[1..]))
          case None => None
          case Some((value, afterValue)) =>
            match ParseMore(SkipWs(afterValue))
            case None => None
            case Some((fs, rest)) => Some((Field(key, value, fs), rest))
  }

  function ParseMore(s: string): (r: Option<(Fields, string)>)
    ensures r.Some? ==> |r.value.1| < |s|
    decreases |s|, 1
  {
    if s == [] then None
    else if s[0] == '}' then Some((End, s[1..]))
    else if s[0] != ',' then None
    else ParseMembers(SkipWs(s[1..]))
  }

  /** `json.loads`: one value, with nothing but blanks around it. */
  function Loads(s: string): Option<Value> {
    match ParseValue(SkipWs(s))
    case Some((v, rest)) => if SkipWs(rest) == [] then Some(v) else None
    case None => None
  }

  // --- parsing undoes printing -----------------------------------------------------

  lemma UnitRoundTrip(n: nat, rest: string)
    requires n < 0x10000
    ensures Unit(UnitTo(n, rest)) == Some(n)
    ensures UnitTo(n, rest)[6..] == rest
  {
    HexRoundTrip(n / 4096); HexRoundTrip(n / 256 % 16); HexRoundTrip(n / 16 % 16); HexRoundTrip(n % 16);
    InBase16(n);
    hide HexVal, HexDigit;
  }

  lemma InBase16(n: nat)
    ensures n / 4096 * 4096 + n / 256 % 16 * 256 + n / 16 % 16 * 16 + n % 16 == n
  {
    assert n == n / 16 * 16 + n % 16;
    assert n / 16 == n / 256 * 16 + n / 16 % 16;
    assert n / 256 == n / 4096 * 16 + n / 256 % 16;
  }

  lemma HexRoundTrip(d: nat)
    requires d < 16
    ensures HexVal(HexDigit(d)) == Some(d)
  {
  }

  lemma ShortRoundTrip(c: char)
    ensures Short(c).Some? ==> Long(Short(c).value) == Some(c)
    ensures Long('u').None?
  {
  }

  /** A code unit that is no surrogate is one character. */
  lemma UnitUnescapes(n: nat, rest: string)
    requires n < 0xd800 || 0xe000 <= n < 0x10000
    ensures Unescape(UnitTo(n, rest)) == Some((n as char, rest))
  {
    hide Unit, Long;
    UnitRoundTrip(n, rest);
    ShortRoundTrip('u');
    UnitFront(n, rest);
  }

  /** A surrogate pair is one character. */
  lemma PairUnescapes(high: nat, low: nat, rest: string)
    requires 0xd800 <= high < 0xdc00 && 0xdc00 <= low < 0xe000
    ensures Unescape(UnitTo(high, UnitTo(low, rest))) ==
            Some(((0x10000 + (high - 0xd800) * 1024 + (low - 0xdc00)) as char, rest))
  {
    hide Unit, Long, UnitTo;
    var tail := UnitTo(low, rest);
    var s := UnitTo(high, tail);
    UnitRoundTrip(high, tail);
    UnitRoundTrip(low, rest);
    ShortRoundTrip('u');
    UnitFront(high, tail);
    UnitFront(low, rest);
    assert s[6..][6..] == s[12..];
  }

  lemma UnitFront(n: nat, rest: string)
    requires n < 0x10000
    ensures var s := UnitTo(n, rest); |s| == 6 + |rest| && s[0] == '\\' && s[1] == 'u'
  {
  }

  lemma CharRoundTrip(c: char, rest: string)
    requires !Plain(c)
    ensures Unescape(CharTo(c, rest)) == Some((c, rest))
    ensures CharTo(c, rest)[0] == '\\'
  {
    hide UnitTo, Unit, Long, Short;
    var n := c as int;
    ShortRoundTrip(c);
    if Short(c).Some? {
    } else if n < 0x10000 {
      UnitUnescapes(n, rest);
      UnitFront(n, rest);
    } else {
      var high, low := 0xd800 + (n - 0x10000) / 1024, 0xdc00 + (n - 0x10000) % 1024;
      PairUnescapes(high, low, rest);
      UnitFront(high, UnitTo(low, rest));
    }
  }

  lemma PlainTo(c: char, rest: string)
    requires Plain(c)
    ensures CharTo(c, rest) == [c] + rest
  {
  }

  lemma {:induction false} CharsRoundTrip(t: string, rest: string)
    ensures ParseChars(CharsTo(t, rest)) == Some((t, rest))
  {
    hide CharTo, Unescape;
    if t != [] {
      CharsRoundTrip(t[1..], rest);
      if Plain(t[0]) {
        PlainTo(t[0], CharsTo(t[1..], rest));
        assert CharsTo(t, rest)[1..] == CharsTo(t[1..], rest);
      } else {
        CharRoundTrip(t[0], CharsTo(t[1..], rest));
      }
      assert t == [t[0]] + t[1..];
    }
  }

  lemma {:induction false} ValueRoundTrip(v: Value, rest: string)
    ensures ParseValue(ValueTo(v, rest)) == Some((v, rest))
    decreases v
  {
    hide ParseChars, ParseMembers, CharsTo, CharTo;
    var s := ValueTo(v, rest);
    match v
    case Null =>
    case Str(t) =>
      CharsRoundTrip(t, rest);
      assert s[1..] == CharsTo(t, rest);
    case Obj(fs) =>
      assert s[1..] == FieldsTo(fs, rest);
      if fs.Field? {
        MembersRoundTrip(fs, rest);
      }
  }

  lemma {:induction false} MembersRoundTrip(fs: Fields, rest: string)
    requires fs.Field?
    ensures ParseMembers(FieldsTo(fs, rest)) == Some((fs, rest))
    decreases fs, 1
  {
    var s := FieldsTo(fs, rest);
    var after := MoreTo(fs.more, rest);
    var colon := [':', ' '] + ValueTo(fs.value, after);
    assert s[1..] == CharsTo(fs.key, colon);
    CharsRoundTrip(fs.key, colon);
    assert colon[1..] == [' '] + ValueTo(fs.value, after);
    assert colon[1..][1..] == ValueTo(fs.value, after);
    assert SkipWs(colon[1..]) == SkipWs(ValueTo(fs.value, after)) == ValueTo(fs.value, after);
    ValueRoundTrip(fs.value, after);
    MoreRoundTrip(fs.more, rest);
  }

  lemma {:induction false} MoreRoundTrip(fs: Fields, rest: string)
    ensures ParseMore(MoreTo(fs, rest)) == Some((fs, rest))
    ensures SkipWs(MoreTo(fs, rest)) == MoreTo(fs, rest)
    decreases fs, 2
  {
    var s := MoreTo(fs, rest);
    if fs.Field? {
      MembersRoundTrip(fs, rest);
      assert s[1..] == [' '] + FieldsTo(fs, rest);
      assert s[1..][1..] == FieldsTo(fs, rest);
      assert SkipWs(s[1..]) == SkipWs(FieldsTo(fs, rest)) == FieldsTo(fs, rest);
    }
  }

  /** `json.loads(json.dumps(v)) == v` */
  lemma LoadsDumps(v: Value)
    ensures Loads(Dumps(v)) == Some(v)
  {
    ValueRoundTrip(v, []);
  }

  // --- what a printed value may contain -----------------------------------------------

  /** A pattern that printing can neither make nor break: plain characters, not starting with
      one that an escape or the syntax writes. */
  ghost predicate Inert(pat: string) {
    && |pat| >= 2
    && (forall i | 0 <= i < |pat| :: Plain(pat[i]))
    && !IsDigit(pat[0]) && !('a' <= pat[0] <= 'z')
    && pat[0] != ':' && pat[0] != ',' && pat[0] != '{' && pat[0] != '}'
    && pat[1] != '{' && pat[1] != 'n'
  }

  /** No string of the value holds the pattern. */
  ghost predicate Clean(v: Value, pat: string) {
    match v
    case Null => true
    case Str(t) => !Contains(t, pat)
    case Obj(fs) => CleanFields(fs, pat)
  }

  ghost predicate CleanFields(fs: Fields, pat: string) {
    match fs
    case End => true
    case Field(k, v, more) => !Contains(k, pat) && Clean(v, pat) && CleanFields(more, pat)
  }

  /** A pattern in `[x] + s` that cannot begin at `x` is in `s`. */
  lemma Peel(x: char, s: string, pat: string)
    requires |pat| >= 2 && Contains([x] + s, pat)
    requires x != pat[0] || s == [] || s[0] != pat[1]
    ensures Contains(s, pat)
  {
    var t := [x] + s;
    var i: nat :| i <= |t| && StartsAt(t, pat, i);
    assert t[i] == t[i..i + |pat|][0] && t[i + 1] == t[i..i + |pat|][1];
    assert s[i - 1..i - 1 + |pat|] == t[i..i + |pat|];
    assert StartsAt(s, pat, i - 1);
  }

  lemma InertFront(pat: string)
    requires Inert(pat)
    ensures |pat| >= 2 && pat[0] != '\\' && !IsDigit(pat[0]) && !('a' <= pat[0] <= 'z')
  {
  }

  lemma HexIsAlnum(d: nat)
    requires d < 16
    ensures IsDigit(HexDigit(d)) || 'a' <= HexDigit(d) <= 'z'
  {
  }

  lemma PeelUnit(n: nat, rest: string, pat: string)
    requires n < 0x10000 && Inert(pat) && Contains(UnitTo(n, rest), pat)
    ensures Contains(rest, pat)
  {
    var d3 := [HexDigit(n % 16)] + rest;
    var d2 := [HexDigit(n / 16 % 16)] + d3;
    var d1 := [HexDigit(n / 256 % 16)] + d2;
    var d0 := [HexDigit(n / 4096)] + d1;
    assert UnitTo(n, rest) == ['\\'] + (['u'] + d0);
    InertFront(pat);
    HexIsAlnum(n / 4096); HexIsAlnum(n / 256 % 16); HexIsAlnum(n / 16 % 16); HexIsAlnum(n % 16);
    hide HexDigit, Inert, Contains;
    Peel('\\', ['u'] + d0, pat);
    Peel('u', d0, pat);
    Peel(HexDigit(n / 4096), d1, pat);
    Peel(HexDigit(n / 256 % 16), d2, pat);
    Peel(HexDigit(n / 16 % 16), d3, pat);
    Peel(HexDigit(n % 16), rest, pat);
  }

  lemma PeelShort(c: char, rest: string, pat: string)
    requires Short(c).Some? && Inert(pat) && Contains(['\\', Short(c).value] + rest, pat)
    ensures Contains(rest, pat)
  {
    var e := Short(c).value;
    assert ['\\', e] + rest == ['\\'] + ([e] + rest);
    assert e != pat[0] && '\\' != pat[0];
    hide Short, Inert, Contains;
    Peel('\\', [e] + rest, pat);
    Peel(e, rest, pat);
  }

  lemma PeelEscape(c: char, rest: string, pat: string)
    requires !Plain(c) && Inert(pat) && Contains(CharTo(c, rest), pat)
    ensures Contains(rest, pat)
  {
    hide UnitTo, Inert, Contains, Short;
    var n := c as int;
    if Short(c).Some? {
      PeelShort(c, rest, pat);
    } else if n < 0x10000 {
      PeelUnit(n, rest, pat);
    } else {
      PeelUnit(0xd800 + (n - 0x10000) / 1024, UnitTo(0xdc00 + (n - 0x10000) % 1024, rest), pat);
      PeelUnit(0xdc00 + (n - 0x10000) % 1024, rest, pat);
    }
  }

  /** A plain pattern at the front of a literal is at the front of its text. */
  lemma {:induction false} FrontOfChars(t: string, rest: string, pat: string)
    requires forall i | 0 <= i < |pat| :: Plain(pat[i])
    requires StartsAt(CharsTo(t, rest), pat, 0)
    ensures StartsAt(t, pat, 0)
  {
    var s := CharsTo(t, rest);
    if pat != [] {
      assert s[0] == s[0..|pat|][0];
      assert t != [] && Plain(t[0]) by {
        if t != [] && !Plain(t[0]) {
          CharRoundTrip(t[0], CharsTo(t[1..], rest));
        }
      }
      assert s[1..] == CharsTo(t[1..], rest);
      assert s[1..][0..|pat| - 1] == s[0..|pat|][1..];
      FrontOfChars(t[1..], rest, pat[1..]);
      assert t[0..|pat|] == [t[0]] + t[1..][0..|pat| - 1];
    }
  }

  lemma {:induction false} PeelChars(t: string, rest: string, pat: string)
    requires Inert(pat) && Contains(CharsTo(t, rest), pat)
    ensures Contains(t, pat) || Contains(rest, pat)
  {
    if t == [] {
      Peel('"', rest, pat);
    } else {
      var s, tail := CharsTo(t, rest), CharsTo(t[1..], rest);
      if StartsAt(s, pat, 0) {
        FrontOfChars(t, rest, pat);
      } else {
        assert Contains(tail, pat) by {
          if Plain(t[0]) {
            PeelAbsent(t[0], tail, pat);
          } else {
            PeelEscape(t[0], tail, pat);
          }
        }
        PeelChars(t[1..], rest, pat);
        if Contains(t[1..], pat) {
          Widen(t, pat);
        }
      }
    }
  }

  lemma PeelAbsent(x: char, s: string, pat: string)
    requires Contains([x] + s, pat) && !StartsAt([x] + s, pat, 0)
    ensures Contains(s, pat)
  {
    var t := [x] + s;
    var i: nat :| i <= |t| && StartsAt(t, pat, i);
    assert s[i - 1..i - 1 + |pat|] == t[i..i + |pat|];
    assert StartsAt(s, pat, i - 1);
  }

  lemma Widen(t: string, pat: string)
    requires t != [] && Contains(t[1..], pat)
    ensures Contains(t, pat)
  {
    var i: nat :| i <= |t[1..]| && StartsAt(t[1..], pat, i);
    assert t[1..][i..i + |pat|] == t[i + 1..i + 1 + |pat|];
    assert StartsAt(t, pat, i + 1);
  }

  lemma PeelQuote(t: string, rest: string, pat: string)
    requires Inert(pat) && Contains(QuoteTo(t, rest), pat)
    ensures Contains(t, pat) || Contains(rest, pat)
  {
    Peel('"', CharsTo(t, rest), pat);
    PeelChars(t, rest, pat);
  }

  /** The blank after `:` starts no pattern. */
  lemma PeelColon(v: Value, rest: string, pat: string)
    requires Inert(pat) && Contains([':', ' '] + ValueTo(v, rest), pat)
    ensures Contains(ValueTo(v, rest), pat)
  {
    var s := ValueTo(v, rest);
    assert [':', ' '] + s == [':'] + ([' '] + s);
    Peel(':', [' '] + s, pat);
    Peel(' ', s, pat);
  }

  /** A pattern found in a printed value is in one of its strings, or after the value. */
  lemma {:induction false} PeelValue(v: Value, rest: string, pat: string)
    requires Inert(pat) && Contains(ValueTo(v, rest), pat)
    ensures !Clean(v, pat) || Contains(rest, pat)
    decreases v
  {
    match v
    case Null =>
      assert ValueTo(v, rest) == ['n'] + (['u'] + (['l'] + (['l'] + rest)));
      Peel('n', ['u'] + (['l'] + (['l'] + rest)), pat);
      Peel('u', ['l'] + (['l'] + rest), pat);
      Peel('l', ['l'] + rest, pat);
      Peel('l', rest, pat);
    case Str(t) =>
      PeelQuote(t, rest, pat);
    case Obj(fs) =>
      Peel('{', FieldsTo(fs, rest), pat);
      PeelFields(fs, rest, pat);
  }

  lemma {:induction false} PeelFields(fs: Fields, rest: string, pat: string)
    requires Inert(pat) && Contains(FieldsTo(fs, rest), pat)
    ensures !CleanFields(fs, pat) || Contains(rest, pat)
    decreases fs, 1
  {
    match fs
    case End =>
      Peel('}', rest, pat);
    case Field(k, v, more) =>
      PeelQuote(k, [':', ' '] + ValueTo(v, MoreTo(more, rest)), pat);
      if !Contains(k, pat) {
        PeelColon(v, MoreTo(more, rest), pat);
        PeelValue(v, MoreTo(more, rest), pat);
        if Clean(v, pat) {
          PeelMore(more, rest, pat);
        }
      }
  }

  lemma {:induction false} PeelMore(fs: Fields, rest: string, pat: string)
    requires Inert(pat) && Contains(MoreTo(fs, rest), pat)
    ensures !CleanFields(fs, pat) || Contains(rest, pat)
    decreases fs, 2
  {
    match fs
    case End =>
      Peel('}', rest, pat);
    case Field(_, _, _) =>
      var s := FieldsTo(fs, rest);
      assert MoreTo(fs, rest) == [','] + ([' '] + s);
      Peel(',', [' '] + s, pat);
      Peel(' ', s, pat);
      PeelFields(fs, rest, pat);
  }
}
