/**
 Tool calls delivered in pieces: the Go bindings' assembler and the end-to-end suite's stream collector.
 However a stream interleaves the calls and batches the pieces, both rebuild the same calls.
 */
module ToolCalls {
  import opened Text
  import opened Collections

  /** One piece of a call; a field it does not carry is empty. */
  datatype Delta = Delta(index: int, id: string, kind: string, name: string, arguments: string)

  datatype Call = Call(id: string, kind: string, name: string, arguments: string)

  const BLANK := Call([], [], [], [])

  type Calls = map<int, Call>

  // --- one piece ---------------------------------------------------------------------------------

  function Grow(c: Call, d: Delta): Call {
    Call(if d.id != [] then d.id else c.id, if d.kind != [] then d.kind else c.kind,
         if d.name != [] then d.name else c.name, c.arguments + d.arguments)
  }

  function Take(calls: Calls, d: Delta): Calls {
    calls[d.index := Grow(if d.index in calls then calls[d.index] else BLANK, d)]
  }

  function TakeAll(calls: Calls, ds: seq<Delta>): Calls {
    if ds == [] then calls else Take(TakeAll(calls, ds[..|ds| - 1]), ds[|ds| - 1])
  }

  /** The pieces of one call, in the order they came. */
  function Of(ds: seq<Delta>, index: int): seq<Delta> {
    if ds == [] then []
    else Of(ds[..|ds| - 1], index) + if ds[|ds| - 1].index == index then [ds[|ds| - 1]] else []
  }

  function Built(ds: seq<Delta>): Call {
    if ds == [] then BLANK else Grow(Built(ds[..|ds| - 1]), ds[|ds| - 1])
  }

  /** What is assembled under an index depends on that index's pieces alone. */
  lemma {:induction false} AssembledByIndex(ds: seq<Delta>, index: int)
    ensures index in TakeAll(map[], ds) <==> Of(ds, index) != []
    ensures index in TakeAll(map[], ds) ==> TakeAll(map[], ds)[index] == Built(Of(ds, index))
  {
    if ds != [] {
      var front, d := ds[..|ds| - 1], ds[|ds| - 1];
      AssembledByIndex(front, index);
      if d.index == index {
        assert Of(ds, index)[..|Of(front, index)|] == Of(front, index);
      } else {
        assert Of(ds, index) == Of(front, index);
      }
    }
  }

  // --- batches -------------------------------------------------------------------------------------

  lemma {:induction false} TakeAllJoin(calls: Calls, a: seq<Delta>, b: seq<Delta>)
    ensures TakeAll(TakeAll(calls, a), b) == TakeAll(calls, a + b)
  {
    if b == [] {
      assert a + b == a;
    } else {
      var n := |b| - 1;
      TakeAllJoin(calls, a, b[..n]);
      assert (a + b)[..|a + b| - 1] == a + b[..n] && (a + b)[|a + b| - 1] == b[n];
    }
  }

  function Flat(batches: seq<seq<Delta>>): seq<Delta> {
    if batches == [] then [] else Flat(batches[..|batches| - 1]) + batches[|batches| - 1]
  }

  function TakeBatches(calls: Calls, batches: seq<seq<Delta>>): Calls {
    if batches == [] then calls else TakeAll(TakeBatches(calls, batches[..|batches| - 1]), batches[|batches| - 1])
  }

  /** Batching does not matter. */
  lemma {:induction false} BatchesJoin(batches: seq<seq<Delta>>)
    ensures TakeBatches(map[], batches) == TakeAll(map[], Flat(batches))
  {
    if batches != [] {
      BatchesJoin(batches[..|batches| - 1]);
      TakeAllJoin(map[], Flat(batches[..|batches| - 1]), batches[|batches| - 1]);
    }
  }

  // --- cutting a call up -------------------------------------------------------------------------------

  function Joined(ds: seq<Delta>): string {
    if ds == [] then [] else Joined(ds[..|ds| - 1]) + ds[|ds| - 1].arguments
  }

  /** A call in pieces: id, type and name on the first, the arguments over all of them. */
  ghost predicate CutOf(ds: seq<Delta>, c: Call) {
    && ds != [] && ds[0].id == c.id && ds[0].kind == c.kind && ds[0].name == c.name
    && (forall k | 0 < k < |ds| :: ds[k].id == [] && ds[k].kind == [] && ds[k].name == [])
    && Joined(ds) == c.arguments
  }

  /** On such pieces the first that carries a field is the last, and the call is built again. */
  lemma {:induction false} CutIsBuilt(ds: seq<Delta>, c: Call)
    requires CutOf(ds, c)
    ensures Built(ds) == c
  {
    var n := |ds| - 1;
    if n == 0 {
      assert ds[..0] == [];
      assert Built(ds) == Grow(BLANK, ds[0]);
      assert Joined(ds) == [] + ds[0].arguments == BLANK.arguments + ds[0].arguments;
    } else {
      CutIsBuilt(ds[..n], c.(arguments := Joined(ds[..n])));
    }
  }

  // --- which piece a field comes from --------------------------------------------------------------------

  /** The first text that is not empty, if any. */
  function FirstOf(xs: seq<string>): string {
    if xs == [] then [] else if xs[0] != [] then xs[0] else FirstOf(xs[1..])
  }

  /** The last one. */
  function LastOf(xs: seq<string>): string {
    if xs == [] then [] else if xs[|xs| - 1] != [] then xs[|xs| - 1] else LastOf(xs[..|xs| - 1])
  }

  datatype Field = Id | Kind | Name

  function Carries(d: Delta, field: Field): string {
    match field
    case Id => d.id
    case Kind => d.kind
    case Name => d.name
  }

  function FieldOf(c: Call, field: Field): string {
    match field
    case Id => c.id
    case Kind => c.kind
    case Name => c.name
  }

  /** What the pieces carry of a field, in order. */
  function Carried(ds: seq<Delta>, field: Field): (r: seq<string>)
    ensures |r| == |ds| && forall k | 0 <= k < |ds| :: r[k] == Carries(ds[k], field)
  {
    seq(|ds|, k requires 0 <= k < |ds| => Carries(ds[k], field))
  }

  /** A call's id, kind and name are each those of the last piece that carries one. */
  lemma {:induction false} BuiltFromLast(ds: seq<Delta>, field: Field)
    ensures FieldOf(Built(ds), field) == LastOf(Carried(ds, field))
  {
    if ds != [] {
      var n := |ds| - 1;
      BuiltFromLast(ds[..n], field);
      assert Carried(ds, field)[..n] == Carried(ds[..n], field);
    }
  }

  /** So the field of an assembled call is the first one carried exactly when the last one carried is the same. */
  lemma FirstCarriedIff(ds: seq<Delta>, index: int, field: Field)
    requires index in TakeAll(map[], ds)
    ensures var texts := Carried(Of(ds, index), field);
            FieldOf(TakeAll(map[], ds)[index], field) == FirstOf(texts) <==> FirstOf(texts) == LastOf(texts)
  {
    hide TakeAll, Of;
    AssembledByIndex(ds, index);
    BuiltFromLast(Of(ds, index), field);
  }

  /** A second id replaces the first. */
  lemma LaterIdWins(index: int, a: string, b: string)
    requires a != b && a != [] && b != []
    ensures var ds := [Delta(index, a, [], [], []), Delta(index, b, [], [], [])];
            && index in TakeAll(map[], ds) && TakeAll(map[], ds)[index].id == b &&
               FirstOf(Carried(Of(ds, index), Id)) == a
  {
    var x, y := Delta(index, a, [], [], []), Delta(index, b, [], [], []);
    assert [x, y][..1] == [x] && [x][..0] == [];
    assert TakeAll(map[], [x]) == Take(map[], x);
    assert Of([x], index) == [] + [x] == [x];
    assert Of([x, y], index) == [x] + [y] == [x, y];
    assert Carried([x, y], Id)[0] == a;
  }

  /** A stream of the pieces of these calls, interleaved in any way. */
  ghost predicate StreamOf(ds: seq<Delta>, wanted: Calls) {
    (forall i | i in wanted :: CutOf(Of(ds, i), wanted[i])) && (forall k | 0 <= k < |ds| :: ds[k].index in wanted)
  }

  lemma {:induction false} OfWithin(ds: seq<Delta>, index: int)
    ensures Of(ds, index) != [] <==> exists k | 0 <= k < |ds| :: ds[k].index == index
  {
    if ds != [] {
      var n := |ds| - 1;
      OfWithin(ds[..n], index);
      if Of(ds[..n], index) != [] {
        var k :| 0 <= k < n && ds[..n][k].index == index;
        assert ds[k].index == index;
      }
      if k :| 0 <= k < |ds| && ds[k].index == index && k < n {
        assert ds[..n][k].index == index;
      }
    }
  }

  /** Cut, interleaved and batched in any way, the calls come back. */
  lemma CallsReassembled(batches: seq<seq<Delta>>, wanted: Calls)
    requires StreamOf(Flat(batches), wanted)
    ensures TakeBatches(map[], batches) == wanted
  {
    hide TakeAll, Of, CutOf;
    var ds := Flat(batches);
    BatchesJoin(batches);
    var got := TakeAll(map[], ds);
    forall i ensures (i in got <==> i in wanted) && (i in got ==> got[i] == wanted[i]) {
      AssembledByIndex(ds, i);
      OfWithin(ds, i);
      if i in wanted {
        CutNotEmpty(Of(ds, i), wanted[i]);
        CutIsBuilt(Of(ds, i), wanted[i]);
      }
    }
  }

  lemma CutNotEmpty(ds: seq<Delta>, c: Call)
    requires CutOf(ds, c)
    ensures ds != []
  {
  }

  // --- the calls in order ---------------------------------------------------------------------------------

  predicate Increasing(xs: seq<int>) {
    forall i, j | 0 <= i < j < |xs| :: xs[i] < xs[j]
  }

  /** The calls by strictly increasing index. */
  ghost predicate InOrder(r: seq<Call>, calls: Calls) {
    exists idx :: Increasing(idx) && (forall i :: i in idx <==> i in calls) && Listed(r, idx, calls)
  }

  ghost predicate Listed(r: seq<Call>, idx: seq<int>, calls: Calls) {
    |r| == |idx| && (forall k | 0 <= k < |idx| :: idx[k] in calls) && forall k | 0 <= k < |idx| :: r[k] == calls[idx[k]]
  }

  function InsertIndex(x: int, xs: seq<int>): (r: seq<int>)
    requires Increasing(xs) && x !in xs
    ensures Increasing(r) && forall y :: y in r <==> y == x || y in xs
  {
    if xs == [] then [x]
    else if x < xs[0] then
      assert forall j | 0 <= j < |xs| :: x < xs[j];
      [x] + xs
    else
      assert xs == [xs[0]] + xs[1..];
      var r := [xs[0]] + InsertIndex(x, xs[1..]);
      assert forall j | 0 < j < |r| :: r[j] in InsertIndex(x, xs[1..]);
      r
  }

  method SortedIndexes(indexes: set<int>) returns (r: seq<int>)
    ensures Increasing(r) && forall i :: i in r <==> i in indexes
  {
    r := [];
    var left := indexes;
    while left != {}
      invariant left <= indexes && Increasing(r) && forall i :: i in r <==> i in indexes - left
      decreases |left|
    {
      ghost var some := Member(left);
      var i :| i in left;
      r := InsertIndex(i, r);
      left := left - {i};
    }
  }

  lemma FirstIsIn(xs: seq<int>)
    ensures xs == [] || xs[0] in xs
  {
  }

  /** Two listings of the same calls in order are the same. */
  lemma {:induction false} OneOrder(a: seq<int>, b: seq<int>)
    requires Increasing(a) && Increasing(b) && forall i :: i in a <==> i in b
    ensures a == b
  {
    if a == [] {
      FirstIsIn(b);
    } else {
      assert a[0] in b && b != [] && b[0] in a;
      assert a[0] == b[0];
      assert a == [a[0]] + a[1..] && b == [b[0]] + b[1..];
      forall i ensures i in a[1..] <==> i in b[1..] {
        assert i in a[1..] <==> i in a && i != a[0];
        assert i in b[1..] <==> i in b && i != b[0];
      }
      OneOrder(a[1..], b[1..]);
    }
  }

  class Assembler {
    var calls: Calls

    constructor ()
      ensures calls == map[]
    {
      calls := map[];
    }

    /** `add` */
    method Add(deltas: seq<Delta>)
      modifies this
      ensures calls == TakeAll(old(calls), deltas)
    {
      for n := 0 to |deltas|
        invariant calls == TakeAll(old(calls), deltas[..n])
      {
        var delta := deltas[n];
        assert deltas[..n + 1][..n] == deltas[..n];
        var call := if delta.index in calls then calls[delta.index] else BLANK;
        if delta.id != [] {
          call := call.(id := delta.id);
        }
        if delta.kind != [] {
          call := call.(kind := delta.kind);
        }
        if delta.name != [] {
          call := call.(name := delta.name);
        }
        call := call.(arguments := call.arguments + delta.arguments);
        calls := calls[delta.index := call];
      }
      assert deltas[..|deltas|] == deltas;
    }

    /** `toolCalls` */
    method Assembled() returns (r: seq<Call>)
      ensures InOrder(r, calls)
    {
      var idx := SortedIndexes(calls.Keys);
      r := [];
      for n := 0 to |idx|
        invariant |r| == n && forall k | 0 <= k < n :: idx[k] in calls && r[k] == calls[idx[k]]
      {
        assert idx[n] in idx;
        r := r + [calls[idx[n]]];
      }
      assert forall k | 0 <= k < |idx| :: idx[k] in idx;
      assert Listed(r, idx, calls);
    }
  }

  // --- the stream collector ---------------------------------------------------------------------------------

  datatype Choice = Choice(index: int, finish: string, content: string, deltas: seq<Delta>)

  /** A call as the suite's collector keeps it: no id until a piece carries one. */
  datatype Streamed = Streamed(id: Option<string>, name: string, arguments: string)

  datatype Chat = Chat(content: string, calls: map<int, Streamed>, deltas: seq<Delta>, finish: string)

  /** The first of a chunk's choices that is choice 0. */
  function ChoiceZero(choices: seq<Choice>): Option<Choice> {
    if choices == [] then None else if choices[0].index == 0 then Some(choices[0]) else ChoiceZero(choices[1..])
  }

  function DeltasOf(choices: seq<Choice>): seq<Delta> {
    var c := ChoiceZero(choices);
    if c.Some? then c.value.deltas else []
  }

  /** Choice 0's pieces over a whole stream. */
  function StreamDeltas(chunks: seq<seq<Choice>>): seq<Delta> {
    if chunks == [] then [] else StreamDeltas(chunks[..|chunks| - 1]) + DeltasOf(chunks[|chunks| - 1])
  }

  function AsStreamed(c: Call): Streamed {
    Streamed(if c.id == [] then None else Some(c.id), c.name, c.arguments)
  }

  /** The collector holds what the assembler holds. */
  ghost predicate Agrees(calls: map<int, Streamed>, ds: seq<Delta>) {
    var go := TakeAll(map[], ds);
    calls.Keys == go.Keys && forall i | i in calls :: calls[i] == AsStreamed(go[i])
  }

  function Contents(chunks: seq<seq<Choice>>): string {
    if chunks == [] then []
    else
      var c := ChoiceZero(chunks[|chunks| - 1]);
      Contents(chunks[..|chunks| - 1]) + if c.Some? then c.value.content else []
  }

  function LastFinish(chunks: seq<seq<Choice>>): string {
    if chunks == [] then []
    else
      var c := ChoiceZero(chunks[|chunks| - 1]);
      if c.Some? && c.value.finish != [] then c.value.finish else LastFinish(chunks[..|chunks| - 1])
  }

  /** The chunk's first choice with index 0. */
  ghost predicate IsZero(choices: seq<Choice>, c: Choice) {
    exists k :: 0 <= k < |choices| && choices[k] == c && c.index == 0 && forall j | 0 <= j < k :: choices[j].index != 0
  }

  lemma {:induction false} ChoiceZeroIff(choices: seq<Choice>, c: Choice)
    ensures ChoiceZero(choices) == Some(c) <==> IsZero(choices, c)
    ensures ChoiceZero(choices).None? <==> forall k | 0 <= k < |choices| :: choices[k].index != 0
  {
    if choices != [] {
      ChoiceZeroIff(choices[1..], c);
      assert forall k | 1 <= k < |choices| :: choices[k] == choices[1..][k - 1];
      if choices[0].index != 0 && IsZero(choices[1..], c) {
        var k :| 0 <= k < |choices[1..]| && choices[1..][k] == c && forall j | 0 <= j < k :: choices[1..][j].index != 0;
        assert choices[k + 1] == c;
      }
      if choices[0].index != 0 && IsZero(choices, c) {
        var k :| 0 <= k < |choices| && choices[k] == c && forall j | 0 <= j < k :: choices[j].index != 0;
        assert choices[1..][k - 1] == c;
      }
    }
  }

  /** Chunks with a choice 0 add its text and its pieces, behind those of the chunks before; others add nothing. */
  lemma CollectedExact(chunks: seq<seq<Choice>>, last: seq<Choice>, c: Choice)
    ensures var all := chunks + [last];
            && (IsZero(last, c) ==>
                  Contents(all) == Contents(chunks) + c.content && StreamDeltas(all) == StreamDeltas(chunks) + c.deltas)
            && ((forall k | 0 <= k < |last| :: last[k].index != 0) ==>
                  Contents(all) == Contents(chunks) && StreamDeltas(all) == StreamDeltas(chunks))
  {
    hide IsZero;
    assert (chunks + [last])[..|chunks|] == chunks;
    ChoiceZeroIff(last, c);
  }

  /** The finish reason is the last one a choice 0 gives. */
  lemma {:induction false} LastFinishIff(chunks: seq<seq<Choice>>, reason: string)
    requires reason != []
    ensures LastFinish(chunks) == reason <==>
            exists n :: 0 <= n < |chunks| && Finishes(chunks[n], reason) &&
                        forall m, other | n < m < |chunks| && Finishes(chunks[m], other) :: false
  {
    hide IsZero, Finishes;
    if chunks != [] {
      var n := |chunks| - 1;
      LastFinishIff(chunks[..n], reason);
      FinishesIff(chunks[n]);
      var c := ChoiceZero(chunks[n]);
      if c.Some? && c.value.finish != [] {
        assert Finishes(chunks[n], c.value.finish);
      }
    }
  }

  ghost predicate Finishes(choices: seq<Choice>, reason: string) {
    reason != [] && exists c :: IsZero(choices, c) && c.finish == reason
  }

  lemma FinishesIff(choices: seq<Choice>)
    ensures forall reason ::
              Finishes(choices, reason) <==>
              reason != [] && ChoiceZero(choices).Some? && ChoiceZero(choices).value.finish == reason
  {
    hide IsZero;
    forall c ensures ChoiceZero(choices) == Some(c) <==> IsZero(choices, c) {
      ChoiceZeroIff(choices, c);
    }
    if ChoiceZero(choices).Some? {
      assert IsZero(choices, ChoiceZero(choices).value);
    }
  }

  /** The calls of choice 0 by strictly increasing index. */
  ghost predicate ListedInOrder(r: seq<(int, Streamed)>, calls: map<int, Streamed>) {
    && (forall i, j | 0 <= i < j < |r| :: r[i].0 < r[j].0)
    && (forall k | 0 <= k < |r| :: r[k].0 in calls && r[k].1 == calls[r[k].0])
    && (forall i | i in calls :: exists k :: 0 <= k < |r| && r[k].0 == i)
  }

  /** `collect_streamed_chat`: the calls of choice 0 are the assembler's, id, name and arguments. */
  method CollectStreamedChat(chunks: seq<seq<Choice>>) returns (chat: Chat, toolCalls: seq<(int, Streamed)>)
    ensures chat.deltas == StreamDeltas(chunks) && chat.content == Contents(chunks) && chat.finish == LastFinish(chunks)
    ensures Agrees(chat.calls, StreamDeltas(chunks)) && ListedInOrder(toolCalls, chat.calls)
  {
    hide ChoiceZero, Agrees;
    chat := Chat([], map[], [], []);
    NothingAgrees();
    for n := 0 to |chunks|
      invariant chat.deltas == StreamDeltas(chunks[..n]) && Agrees(chat.calls, chat.deltas)
      invariant chat.content == Contents(chunks[..n]) && chat.finish == LastFinish(chunks[..n])
    {
      assert chunks[..n + 1][..n] == chunks[..n];
      var choice := ChoiceZero(chunks[n]);
      if choice.None? {
        assert chat.deltas + [] == chat.deltas && chat.content + [] == chat.content;
        continue;
      }
      if choice.value.finish != [] {
        chat := chat.(finish := choice.value.finish);
      }
      chat := chat.(content := chat.content + choice.value.content);
      chat := CollectDeltas(chat, choice.value.deltas);
    }
    assert chunks[..|chunks|] == chunks;
    toolCalls := ListStreamed(chat.calls);
  }

  lemma NothingAgrees()
    ensures Agrees(map[], [])
  {
  }

  method ListStreamed(calls: map<int, Streamed>) returns (r: seq<(int, Streamed)>)
    ensures ListedInOrder(r, calls)
  {
    var idx := SortedIndexes(calls.Keys);
    r := [];
    for n := 0 to |idx|
      invariant |r| == n && forall k | 0 <= k < n :: idx[k] in calls && r[k] == (idx[k], calls[idx[k]])
    {
      assert idx[n] in idx;
      r := r + [(idx[n], calls[idx[n]])];
    }
    forall i | i in calls ensures exists k :: 0 <= k < |r| && r[k].0 == i {
      assert i in idx;
      var k :| 0 <= k < |idx| && idx[k] == i;
      assert r[k].0 == i;
    }
  }

  /** On a stream of cut calls the collector holds the original ids, names and arguments. */
  lemma CollectorReassembles(calls: map<int, Streamed>, ds: seq<Delta>, wanted: Calls)
    requires Agrees(calls, ds) && StreamOf(ds, wanted)
    ensures calls.Keys == wanted.Keys && forall i | i in calls :: calls[i] == AsStreamed(wanted[i])
  {
    hide StreamOf, TakeAll;
    assert [ds][..0] == [] && [] + ds == ds;
    assert Flat([ds]) == ds;
    assert TakeBatches(map[], [ds]) == TakeAll(map[], ds);
    CallsReassembled([ds], wanted);
  }

  lemma AgreesStep(calls: map<int, Streamed>, ds: seq<Delta>, d: Delta, call: Streamed)
    requires Agrees(calls, ds)
    requires var was := if d.index in calls then calls[d.index] else Streamed(None, [], []);
             call == Streamed(if d.id != [] then Some(d.id) else was.id, if d.name != [] then d.name else was.name,
                              was.arguments + d.arguments)
    ensures Agrees(calls[d.index := call], ds + [d])
  {
    assert (ds + [d])[..|ds|] == ds;
    assert TakeAll(map[], ds + [d]) == Take(TakeAll(map[], ds), d);
  }

  method CollectDeltas(chat0: Chat, deltas: seq<Delta>) returns (chat: Chat)
    requires Agrees(chat0.calls, chat0.deltas)
    ensures chat.deltas == chat0.deltas + deltas && Agrees(chat.calls, chat.deltas)
    ensures chat.content == chat0.content && chat.finish == chat0.finish
  {
    hide Agrees;
    chat := chat0;
    assert chat0.deltas + deltas[..0] == chat0.deltas;
    for m := 0 to |deltas|
      invariant chat.deltas == chat0.deltas + deltas[..m] && Agrees(chat.calls, chat.deltas)
      invariant chat.content == chat0.content && chat.finish == chat0.finish
    {
      var d := deltas[m];
      var call := if d.index in chat.calls then chat.calls[d.index] else Streamed(None, [], []);
      if d.id != [] {
        call := call.(id := Some(d.id));
      }
      if d.name != [] {
        call := call.(name := d.name);
      }
      if d.arguments != [] {
        call := call.(arguments := call.arguments + d.arguments);
      }
      AgreesStep(chat.calls, chat.deltas, d, call);
      chat := chat.(calls := chat.calls[d.index := call], deltas := chat.deltas + [d]);
      assert chat0.deltas + deltas[..m] + [d] == chat0.deltas + deltas[..m + 1];
    }
    assert deltas[..|deltas|] == deltas;
  }
}
