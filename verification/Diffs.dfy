/** Streamed messages: compute_diffs turns two successive messages into deltas, and
    a client folds the deltas back into a message. */
module Diffs {
  import opened Options

  datatype Call = Call(name: string, arguments: string, id: string)

  datatype Msg = Msg(reasoning: string, content: string, calls: seq<Call>)

  const EMPTY_MSG := Msg("", "", [])

  datatype Diff = Diff(reasoning: string, content: string, index: Option<nat>, call: Call)

  const NO_CALL := Call("", "", "")

  datatype Error = InvalidDiff | FewerCalls | CallMismatch

  datatype Result<+T> = Ok(value: T) | Err(error: Error)

  /** string_diff: what current adds to last; nothing if it is shorter. */
  function StringDiff(last: string, current: string): Result<string> {
    if last == "" then Ok(current)
    else if !(last <= current) then if current <= last then Ok("") else Err(InvalidDiff)
    else Ok(current[|last|..])
  }

  /** The deltas for calls that the previous message did not have. */
  function NewCalls(calls: seq<Call>, from: nat): (ds: seq<Diff>)
    requires from <= |calls|
    decreases |calls| - from
  {
    if from == |calls| then []
    else [Diff("", "", Some(from), calls[from])] + NewCalls(calls, from + 1)
  }

  /** Names may appear late or grow, not change. */
  predicate NamesMatch(prev: Call, next: Call) {
    prev.name == next.name || prev.name == "" || next.name == "" || prev.name <= next.name
  }

  function TextDiff(prev: string, next: string, wrap: string -> Diff): Result<seq<Diff>> {
    if prev == next then Ok([])
    else
      var d := StringDiff(prev, next);
      if d.Err? then Err(d.error) else Ok([wrap(d.value)])
  }

  function CallDiff(prev: Call, next: Call, index: nat): Result<seq<Diff>> {
    if !NamesMatch(prev, next) then Err(CallMismatch)
    else
      var d := StringDiff(prev.arguments, next.arguments);
      if d.Err? then Err(d.error)
      else if d.value == "" && prev.id == next.id && prev.name == next.name then Ok([])
      else
        var changed := prev.id != next.id || prev.name != next.name;
        Ok([Diff("", "", Some(index),
                 Call(if changed then next.name else "", d.value, if changed then next.id else ""))])
  }

  /** The deltas of compute_diffs, or the exception it throws. */
  function Deltas(prev: Msg, next: Msg): Result<seq<Diff>> {
    var r := TextDiff(prev.reasoning, next.reasoning, d => Diff(d, "", None, NO_CALL));
    if r.Err? then r else
    var c := TextDiff(prev.content, next.content, d => Diff("", d, None, NO_CALL));
    if c.Err? then c else
    if |next.calls| < |prev.calls| then Err(FewerCalls) else
    var n := |prev.calls|;
    var t := if n == 0 then Ok([]) else CallDiff(prev.calls[n - 1], next.calls[n - 1], n - 1);
    if t.Err? then t else Ok(r.value + c.value + t.value + NewCalls(next.calls, n))
  }

  /** The appending loop of the source computes Deltas. */
  method ComputeDiffs(prev: Msg, next: Msg) returns (r: Result<seq<Diff>>)
    ensures r == Deltas(prev, next)
  {
    hide NewCalls, StringDiff;
    var diffs: seq<Diff> := [];
    if prev.reasoning != next.reasoning {
      var d := StringDiff(prev.reasoning, next.reasoning);
      if d.Err? { return Err(d.error); }
      diffs := diffs + [Diff(d.value, "", None, NO_CALL)];
    }
    if prev.content != next.content {
      var d := StringDiff(prev.content, next.content);
      if d.Err? { return Err(d.error); }
      diffs := diffs + [Diff("", d.value, None, NO_CALL)];
    }
    if |next.calls| < |prev.calls| { return Err(FewerCalls); }
    if prev.calls != [] {
      var index := |prev.calls| - 1;
      var pref, newf := prev.calls[index], next.calls[index];
      if pref.name != newf.name && pref.name != "" && newf.name != "" && !(pref.name <= newf.name) {
        return Err(CallMismatch);
      }
      var d := StringDiff(pref.arguments, newf.arguments);
      if d.Err? { return Err(d.error); }
      if d.value != "" || pref.id != newf.id || pref.name != newf.name {
        var delta := Call("", d.value, "");
        if pref.id != newf.id || pref.name != newf.name {
          delta := Call(newf.name, d.value, newf.id);
        }
        diffs := diffs + [Diff("", "", Some(index), delta)];
      }
    }
    ghost var before := diffs;
    assert before + NewCalls(next.calls, |prev.calls|) == Deltas(prev, next).value;
    for i := |prev.calls| to |next.calls|
      invariant diffs + NewCalls(next.calls, i) == before + NewCalls(next.calls, |prev.calls|)
    {
      NewCallsStep(diffs, next.calls, i);
      diffs := diffs + [Diff("", "", Some(i), next.calls[i])];
    }
    NewCallsStep(diffs, next.calls, |next.calls|);
    return Ok(diffs);
  }

  lemma NewCallsStep(ds: seq<Diff>, calls: seq<Call>, i: nat)
    requires i <= |calls|
    ensures ds + NewCalls(calls, i) ==
      if i == |calls| then ds else ds + [Diff("", "", Some(i), calls[i])] + NewCalls(calls, i + 1)
  {
  }

  // ---- the client ----

  /** Empty calls are pushed until there is one at the index. */
  function Pad(calls: seq<Call>, n: nat): (r: seq<Call>)
    ensures |r| == if |calls| < n then n else |calls|
    ensures calls <= r
    decreases n - |calls|
  {
    if |calls| >= n then calls else Pad(calls + [NO_CALL], n)
  }

  /** What a streaming client does with one delta. */
  function Apply(m: Msg, d: Diff): Msg {
    var m' := Msg(m.reasoning + d.reasoning, m.content + d.content, m.calls);
    if d.index.None? then m' else
    var i := d.index.value;
    var calls := Pad(m.calls, i + 1);
    var c := calls[i];
    m'.(calls := calls[i := Call(if d.call.name != "" then d.call.name else c.name,
                                 c.arguments + d.call.arguments,
                                 if d.call.id != "" then d.call.id else c.id)])
  }

  function ApplyAll(m: Msg, ds: seq<Diff>): Msg
    decreases |ds|
  {
    if ds == [] then m else ApplyAll(Apply(m, ds[0]), ds[1..])
  }

  lemma {:induction false} ApplyAppend(m: Msg, ds: seq<Diff>, es: seq<Diff>)
    ensures ApplyAll(m, ds + es) == ApplyAll(ApplyAll(m, ds), es)
    decreases |ds|
  {
    if ds == [] {
      assert ds + es == es;
    } else {
      assert (ds + es)[1..] == ds[1..] + es;
      ApplyAppend(Apply(m, ds[0]), ds[1..], es);
    }
  }

  // ---- extension ----

  /** next is prev with its last call possibly grown. */
  predicate CallExtends(prev: Call, next: Call) {
    && prev.name <= next.name
    && prev.arguments <= next.arguments
    && (prev.id == next.id || next.id != "")
  }

  /** next continues prev: texts and the last call grow, other calls stay. */
  predicate Extends(prev: Msg, next: Msg) {
    && prev.reasoning <= next.reasoning
    && prev.content <= next.content
    && |prev.calls| <= |next.calls|
    && (forall i | 0 <= i < |prev.calls| - 1 :: prev.calls[i] == next.calls[i])
    && (prev.calls != [] ==> CallExtends(prev.calls[|prev.calls| - 1], next.calls[|prev.calls| - 1]))
  }

  /** The prefix order in one direction or the other. */
  predicate Comparable(a: string, b: string) { a <= b || b <= a }

  lemma StringDiffOk(a: string, b: string)
    ensures StringDiff(a, b).Ok? <==> Comparable(a, b)
    ensures StringDiff(a, b).Ok? ==> (a + StringDiff(a, b).value == b <==> a <= b)
    ensures StringDiff(a, b).Ok? && a + StringDiff(a, b).value != b ==> |a| > |b|
  {
    if a <= b { assert a + b[|a|..] == b; }
    assert a + "" == a;
  }

  /** compute_diffs throws exactly when a text or the last call contradicts the
      previous message, or calls have disappeared. */
  lemma DeltasOk(prev: Msg, next: Msg)
    ensures Deltas(prev, next).Ok? <==>
      && Comparable(prev.reasoning, next.reasoning) && Comparable(prev.content, next.content)
      && |prev.calls| <= |next.calls|
      && (prev.calls != [] ==>
            var p, q := prev.calls[|prev.calls| - 1], next.calls[|prev.calls| - 1];
            NamesMatch(p, q) && Comparable(p.arguments, q.arguments))
  {
    StringDiffOk(prev.reasoning, next.reasoning);
    StringDiffOk(prev.content, next.content);
    if 0 < |prev.calls| <= |next.calls| {
      StringDiffOk(prev.calls[|prev.calls| - 1].arguments, next.calls[|prev.calls| - 1].arguments);
    }
  }

  lemma {:induction false} ApplyNewCalls(m: Msg, calls: seq<Call>, from: nat)
    requires from <= |calls| && |m.calls| == from
    ensures ApplyAll(m, NewCalls(calls, from)) == Msg(m.reasoning, m.content, m.calls + calls[from..])
    decreases |calls| - from
  {
    if from == |calls| {
      assert m.calls + calls[from..] == m.calls;
    } else {
      var d := Diff("", "", Some(from), calls[from]);
      var m1 := Apply(m, d);
      assert NewCalls(calls, from)[0] == d && NewCalls(calls, from)[1..] == NewCalls(calls, from + 1);
      assert Pad(m.calls, from + 1) == m.calls + [NO_CALL];
      assert m.reasoning + "" == m.reasoning && m.content + "" == m.content &&
          "" + calls[from].arguments == calls[from].arguments;
      assert m1 == Msg(m.reasoning, m.content, m.calls + [calls[from]]);
      ApplyNewCalls(m1, calls, from + 1);
      assert m.calls + [calls[from]] + calls[from + 1..] == m.calls + calls[from..];
    }
  }

  function Texts(prev: Msg, next: Msg): Result<seq<Diff>> {
    var r := TextDiff(prev.reasoning, next.reasoning, d => Diff(d, "", None, NO_CALL));
    if r.Err? then r else
    var c := TextDiff(prev.content, next.content, d => Diff("", d, None, NO_CALL));
    if c.Err? then c else Ok(r.value + c.value)
  }

  /** The text deltas append to the texts and touch nothing else. */
  lemma ApplyTexts(prev: Msg, next: Msg)
    requires Texts(prev, next).Ok?
    ensures var m := ApplyAll(prev, Texts(prev, next).value);
      && m.calls == prev.calls
      && (m.reasoning == next.reasoning <==> prev.reasoning <= next.reasoning)
      && (m.content == next.content <==> prev.content <= next.content)
  {
    StringDiffOk(prev.reasoning, next.reasoning);
    StringDiffOk(prev.content, next.content);
    var r := TextDiff(prev.reasoning, next.reasoning, d => Diff(d, "", None, NO_CALL)).value;
    var c := TextDiff(prev.content, next.content, d => Diff("", d, None, NO_CALL)).value;
    ApplyAppend(prev, r, c);
    OneDelta(prev, r);
    OneDelta(ApplyAll(prev, r), c);
    assert prev.content + "" == prev.content;
    assert forall s: string :: s + "" == s;
  }

  lemma OneDelta(m: Msg, ds: seq<Diff>)
    requires |ds| <= 1
    ensures ApplyAll(m, ds) == if ds == [] then m else Apply(m, ds[0])
  {
  }

  lemma ApplyCall(m: Msg, prev: Call, next: Call, index: nat)
    requires CallDiff(prev, next, index).Ok? && index < |m.calls| && m.calls[index] == prev
    ensures var m' := ApplyAll(m, CallDiff(prev, next, index).value);
      && m'.reasoning == m.reasoning && m'.content == m.content && |m'.calls| == |m.calls|
      && (forall i | 0 <= i < |m.calls| && i != index :: m'.calls[i] == m.calls[i])
      && (m'.calls[index] == next <==> CallExtends(prev, next))
  {
    StringDiffOk(prev.arguments, next.arguments);
    OneDelta(m, CallDiff(prev, next, index).value);
    assert m.reasoning + "" == m.reasoning && m.content + "" == m.content;
    assert Pad(m.calls, index + 1) == m.calls;
  }

  /** When no exception is thrown, a client that had prev has next after the deltas
      exactly when next extends prev. */
  lemma ClientFollows(prev: Msg, next: Msg)
    requires Deltas(prev, next).Ok?
    ensures ApplyAll(prev, Deltas(prev, next).value) == next <==> Extends(prev, next)
  {
    hide TextDiff, CallDiff;
    var n := |prev.calls|;
    var texts := Texts(prev, next).value;
    var call := if n == 0 then [] else CallDiff(prev.calls[n - 1], next.calls[n - 1], n - 1).value;
    assert Deltas(prev, next).value == texts + call + NewCalls(next.calls, n);
    ApplyAppend(prev, texts + call, NewCalls(next.calls, n));
    ApplyAppend(prev, texts, call);
    ApplyTexts(prev, next);
    var m1 := ApplyAll(prev, texts);
    var m2 := ApplyAll(m1, call);
    if n > 0 {
      ApplyCall(m1, prev.calls[n - 1], next.calls[n - 1], n - 1);
    }
    ApplyNewCalls(m2, next.calls, n);
    assert next.calls == next.calls[..n] + next.calls[n..];
    assert m2.calls + next.calls[n..] == next.calls <==> m2.calls == next.calls[..n] by {
      assert (m2.calls + next.calls[n..])[..n] == m2.calls;
    }
    assert n > 0 ==> next.calls[..n][n - 1] == next.calls[n - 1];
    if m2.calls == next.calls[..n] {
      assert forall i | 0 <= i < n - 1 :: m2.calls[i] == next.calls[..n][i];
    }
  }

  /** A message that extends another one is never rejected. */
  lemma ExtendsAccepted(prev: Msg, next: Msg)
    requires Extends(prev, next)
    ensures Deltas(prev, next).Ok?
  {
    DeltasOk(prev, next);
  }

  lemma ExtendsTransitive(a: Msg, b: Msg, c: Msg)
    requires Extends(a, b) && Extends(b, c)
    ensures Extends(a, c)
  {
    forall i | 0 <= i < |a.calls| - 1 ensures a.calls[i] == c.calls[i] {
    }
  }

  // ---- a whole stream ----

  /** Every message of the stream extends the one before it. */
  predicate Growing(ms: seq<Msg>) {
    forall i | 0 <= i < |ms| - 1 :: Extends(ms[i], ms[i + 1])
  }

  /** A client that sees only the deltas, starting from message m. */
  function Follow(m: Msg, ms: seq<Msg>): Result<Msg>
    decreases |ms|
  {
    if |ms| < 2 then Ok(m) else
    var ds := Deltas(ms[0], ms[1]);
    if ds.Err? then Err(ds.error) else Follow(ApplyAll(m, ds.value), ms[1..])
  }

  /** The client ends with exactly the last message. */
  lemma {:induction false} StreamDelivered(ms: seq<Msg>)
    requires ms != [] && Growing(ms)
    ensures Follow(ms[0], ms) == Ok(ms[|ms| - 1])
    decreases |ms|
  {
    hide Deltas, Extends;
    if |ms| > 1 {
      assert Extends(ms[0], ms[1]);
      ExtendsAccepted(ms[0], ms[1]);
      ClientFollows(ms[0], ms[1]);
      forall i | 0 <= i < |ms[1..]| - 1 ensures Extends(ms[1..][i], ms[1..][i + 1]) {
        assert ms[1..][i] == ms[i + 1] && ms[1..][i + 1] == ms[i + 2];
        assert Extends(ms[i + 1], ms[i + 1 + 1]);
      }
      StreamDelivered(ms[1..]);
    }
  }
}
