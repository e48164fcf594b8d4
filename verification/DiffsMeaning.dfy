/** The deltas of compute_diffs, one by one. */
module DiffsMeaning {
  import opened Options
  import opened Diffs

  /** delta is what next adds to prev; a text that became shorter adds nothing. */
  predicate Adds(prev: string, next: string, delta: string) {
    prev + delta == next || (|next| < |prev| && delta == "")
  }

  /** The name or the id of a call is another than before. */
  predicate Renamed(prev: Call, next: Call) { prev.name != next.name || prev.id != next.id }

  /** Where differencing succeeds: one delta for each text that changed, one for the last
      earlier call if there is something to tell of it, its name and id only if one of them
      changed, and one for each new call with all it has; in this order. */
  lemma DeltasExactly(prev: Msg, next: Msg) returns (r: seq<Diff>, c: seq<Diff>, t: seq<Diff>, new_: seq<Diff>)
    requires Deltas(prev, next).Ok?
    ensures Deltas(prev, next).value == r + c + t + new_
    ensures |r| == (if prev.reasoning == next.reasoning then 0 else 1)
    ensures forall d | d in r ::
      Adds(prev.reasoning, next.reasoning, d.reasoning) && d == Diff(d.reasoning, "", None, Call("", "", ""))
    ensures |c| == (if prev.content == next.content then 0 else 1)
    ensures forall d | d in c ::
      Adds(prev.content, next.content, d.content) && d == Diff("", d.content, None, Call("", "", ""))
    ensures var n := |prev.calls|;
      && n <= |next.calls|
      && |t| == (if n > 0 && (Renamed(prev.calls[n - 1], next.calls[n - 1])
                              || |prev.calls[n - 1].arguments| < |next.calls[n - 1].arguments|) then 1 else 0)
      && (forall d | d in t ::
            var p, q := prev.calls[n - 1], next.calls[n - 1];
            && d.reasoning == d.content == "" && d.index == Some((n - 1) as nat)
            && Adds(p.arguments, q.arguments, d.call.arguments)
            && (if Renamed(p, q) then d.call.name == q.name && d.call.id == q.id
                else d.call.name == d.call.id == ""))
      && |new_| == |next.calls| - n
      && forall i | 0 <= i < |new_| :: new_[i] == Diff("", "", Some(n + i), next.calls[n + i])
  {
    hide NewCalls, StringDiff, CallDiff;
    var n := |prev.calls|;
    StringDiffAdds(prev.reasoning, next.reasoning);
    StringDiffAdds(prev.content, next.content);
    if n > 0 { CallDiffIs(prev.calls[n - 1], next.calls[n - 1], n - 1); }
    r := TextDiff(prev.reasoning, next.reasoning, d => Diff(d, "", None, NO_CALL)).value;
    c := TextDiff(prev.content, next.content, d => Diff("", d, None, NO_CALL)).value;
    t := if n == 0 then [] else CallDiff(prev.calls[n - 1], next.calls[n - 1], n - 1).value;
    new_ := NewCalls(next.calls, n);
    NewCallsAre(next.calls, n);
  }

  lemma StringDiffAdds(prev: string, next: string)
    ensures StringDiff(prev, next).Ok? ==> Adds(prev, next, StringDiff(prev, next).value)
    ensures StringDiff(prev, next).Ok? ==> (StringDiff(prev, next).value != "" <==> |prev| < |next|)
  {
  }

  lemma CallDiffIs(p: Call, q: Call, index: nat)
    requires CallDiff(p, q, index).Ok?
    ensures var t := CallDiff(p, q, index).value;
      && |t| == (if Renamed(p, q) || |p.arguments| < |q.arguments| then 1 else 0)
      && forall d | d in t ::
           && d.reasoning == d.content == "" && d.index == Some(index)
           && Adds(p.arguments, q.arguments, d.call.arguments)
           && (if Renamed(p, q) then d.call.name == q.name && d.call.id == q.id else d.call.name == d.call.id == "")
  {
    hide StringDiff, NamesMatch, Adds;
    StringDiffAdds(p.arguments, q.arguments);
  }

  lemma {:induction false} NewCallsAre(calls: seq<Call>, from: nat)
    requires from <= |calls|
    ensures var ds := NewCalls(calls, from);
      |ds| == |calls| - from && forall i | 0 <= i < |ds| :: ds[i] == Diff("", "", Some(from + i), calls[from + i])
    decreases |calls| - from
  {
    if from < |calls| {
      var rest := NewCalls(calls, from + 1);
      NewCallsAre(calls, from + 1);
      hide NewCalls;
      NewCallsFirst(calls, from);
      forall i | 0 < i < |calls| - from
        ensures NewCalls(calls, from)[i] == Diff("", "", Some(from + i), calls[from + i])
      {
        assert NewCalls(calls, from)[i] == rest[i - 1];
      }
    }
  }

  lemma NewCallsFirst(calls: seq<Call>, from: nat)
    requires from < |calls|
    ensures NewCalls(calls, from) == [Diff("", "", Some(from), calls[from])] + NewCalls(calls, from + 1)
  {
  }
}
