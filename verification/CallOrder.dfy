/** The name of a call may come anywhere among its other events. */
module CallOrder {
  import opened Json
  import opened Quotes
  import opened Diffs
  import opened Mapper
  import opened Stream

  /** Events that may stand between the opening and the closing of a call, other
      than its name. */
  predicate Inner(ev: Event) { !(ev.tag in {ToolOpen, ToolClose, ToolName}) }

  predicate AllInner(evs: seq<Event>) { forall i | 0 <= i < |evs| :: Inner(evs[i]) }

  /** Complete JSON arguments: they replace whatever was written. */
  predicate IsObject(ev: Event) {
    ev.tag == ToolArgs && IsObjectText(ev.text)
  }

  predicate WritesValue(ev: Event) {
    ev.tag == ArgStringValue || (ev.tag == ArgValue && ev.text != "")
  }

  /** How the argument text begins: nothing yet, with a brace, or with a bare value. */
  datatype Status = Empty | Anchored | Loose

  function Advance(s: Status, ev: Event): Status {
    if IsObject(ev) then Anchored
    else if s != Empty then s
    else if ev.tag == ArgName then Anchored
    else if WritesValue(ev) then Loose
    else Empty
  }

  function StatusOf(s: Status, evs: seq<Event>): Status
    decreases |evs|
  {
    if evs == [] then s else StatusOf(Advance(s, evs[0]), evs[1..])
  }

  /** The trace of one call with its name after p of the inner events. */
  function CallTrace(body: seq<Event>, name: string, p: nat): seq<Event>
    requires p <= |body|
  {
    [Event(ToolOpen, "")] + body[..p] + [Event(ToolName, name)] + body[p..] + [Event(ToolClose, "")]
  }

  /** u, whose call has no name yet, and s, whose call already has one, after the
      same inner events. */
  predicate Simulates(s: State, u: State, name: string, status: Status) {
    && u.current == Pending && u.pending.Some? && u.pending.value.name == "" && u.pending.value.arguments == ""
    && s.current == Last && s.pending.None? && s.buffer == ""
    && s.argCount == u.argCount && s.closingQuote == u.closingQuote
    && s.msg.calls != [] && s.msg.calls[|s.msg.calls| - 1].name == name
    && s.msg == u.msg.(calls := u.msg.calls + [Call(name, s.msg.calls[|s.msg.calls| - 1].arguments,
                                                    u.pending.value.id)])
    && (status == Empty ==> !u.closingQuote)
    && ArgsMatch(s.msg.calls[|s.msg.calls| - 1].arguments, u.buffer, status)
  }

  predicate ArgsMatch(args: string, buffer: string, status: Status) {
    match status
    case Empty => buffer == "" && args == "{"
    case Anchored => buffer != "" && args == buffer
    case Loose => buffer != "" && args == "{" + buffer
  }

  lemma TargetSimulates(s: State, u: State, name: string, a: string, b: string, status: Status, before: Status)
    requires name != "" && Simulates(s, u, name, before) && ArgsMatch(a, b, status)
    requires status != Empty || !u.closingQuote
    ensures Simulates(SetTarget(s, a), SetTarget(u, b), name, status)
    ensures Target(s) == s.msg.calls[|s.msg.calls| - 1].arguments && Target(u) == u.buffer
  {
  }

  lemma AppendMatches(a: string, b: string, t: string, status: Status)
    requires ArgsMatch(a, b, status) && t != ""
    ensures ArgsMatch(a + t, b + t, if status == Empty then Loose else status)
  {
    assert "{" + (b + t) == "{" + b + t;
    assert "" + t == t;
  }

  lemma NormalizeWrites(s: string)
    ensures Normalize(s) == "" <==> s == ""
  {
    if s != "" {
      ScanIs(s, Outside, false, Scan(s, Outside, false));
      ScanWrites(s);
    }
  }

  lemma ScanWrites(s: string)
    requires s != ""
    ensures Scan(s, Outside, false).out != ""
  {
    if StartsLiteral(s[0]) { WordStarts(s); }
  }

  /** The buffer simulates direct writes, one event at a time. */
  lemma StepSimulates(s: State, u: State, name: string, status: Status, ev: Event)
    requires name != "" && Simulates(s, u, name, status) && Inner(ev)
    ensures Simulates(Step(s, ev), Step(u, ev), name, Advance(status, ev))
  {
    hide Normalize, Escape, Quote, Trim, TrimTrailing, SetTarget, IdText, Simulates, NameText, Target;
    BothLive(s, u, name, status);
    match ev.tag
    case Reasoning => PlainSimulates(s, u, name, status, ev);
    case Content => PlainSimulates(s, u, name, status, ev);
    case Other => PlainSimulates(s, u, name, status, ev);
    case ToolId => IdSimulates(s, u, name, status, IdText(ev.text));
    case ArgOpen => QuoteSimulates(s, u, name, status, false);
    case ToolArgs =>
      if IsObject(ev) {
        TargetSimulates(s, u, name, TrimTrailing(ev.text), TrimTrailing(ev.text), Anchored, status);
      }
    case ArgName => NameTextSimulates(s, u, name, status, ev.text);
    case ArgValue =>
      NormalizeWrites(ev.text);
      ValueSimulates(s, u, name, status, Normalize(ev.text));
    case ArgStringValue => StringSimulates(s, u, name, status, ev.text);
    case ArgClose =>
      if u.closingQuote {
        ClosingSimulates(s, u, name, status);
      }
  }

  lemma BothLive(s: State, u: State, name: string, status: Status)
    requires Simulates(s, u, name, status)
    ensures Live(s) && Live(u) && s.closingQuote == u.closingQuote && s.argCount == u.argCount
    ensures status == Empty ==> !u.closingQuote
  {
  }

  lemma PlainSimulates(s: State, u: State, name: string, status: Status, ev: Event)
    requires Simulates(s, u, name, status) && ev.tag in {Reasoning, Content, Other}
    ensures Simulates(Step(s, ev), Step(u, ev), name, status)
  {
  }

  lemma IdSimulates(s: State, u: State, name: string, status: Status, id: string)
    requires Simulates(s, u, name, status) && Live(s) && Live(u)
    ensures Simulates(SetTool(s, Tool(s).(id := id)), SetTool(u, Tool(u).(id := id)), name, status)
  {
  }

  lemma QuoteSimulates(s: State, u: State, name: string, status: Status, q: bool)
    requires Simulates(s, u, name, status) && (q ==> status != Empty)
    ensures Simulates(s.(closingQuote := q), u.(closingQuote := q), name, status)
  {
  }

  lemma NameTextSimulates(s: State, u: State, name: string, status: Status, text: string)
    requires name != "" && Simulates(s, u, name, status)
    ensures Simulates(ArgNameStep(s, text), ArgNameStep(u, text), name, if status == Empty then Anchored else status)
  {
    hide NameText, SetTarget, ArgsMatch, Simulates, Target;
    var s1, u1, t := s.(argCount := s.argCount + 1), u.(argCount := u.argCount + 1), NameText(text, s.argCount);
    CountSimulates(s, u, name, status);
    TextsOf(s, u, name, status);
    NameTextWrites(text, s.argCount);
    if status == Empty {
      AnchoredMatch("{" + t);
      TargetSimulates(s1, u1, name, "{" + t, "{" + t, Anchored, status);
    } else {
      AppendMatches(Target(s), Target(u), t, status);
      TargetSimulates(s1, u1, name, Target(s) + t, Target(u) + t, status, status);
    }
  }

  lemma CountSimulates(s: State, u: State, name: string, status: Status)
    requires Simulates(s, u, name, status)
    ensures s.argCount == u.argCount && (status == Empty ==> !u.closingQuote)
    ensures Simulates(s.(argCount := s.argCount + 1), u.(argCount := u.argCount + 1), name, status)
  {
  }

  lemma TextsOf(s: State, u: State, name: string, status: Status)
    requires name != "" && Simulates(s, u, name, status)
    ensures Target(s) == s.msg.calls[|s.msg.calls| - 1].arguments && Target(u) == u.buffer
    ensures ArgsMatch(Target(s), Target(u), status)
    ensures if status == Empty then Target(s) == "{" && Target(u) == "" else Target(s) != "" && Target(u) != ""
  {
  }

  lemma AnchoredMatch(t: string)
    requires t != ""
    ensures ArgsMatch(t, t, Anchored)
  {
  }

  lemma NameTextWrites(text: string, n: nat)
    ensures NameText(text, n) != ""
  {
  }

  lemma ValueSimulates(s: State, u: State, name: string, status: Status, t: string)
    requires name != "" && Simulates(s, u, name, status)
    ensures Simulates(SetTarget(s, Target(s) + t), SetTarget(u, Target(u) + t), name,
                      if t != "" && status == Empty then Loose else status)
  {
    hide SetTarget;
    assert Target(s) == s.msg.calls[|s.msg.calls| - 1].arguments && Target(u) == u.buffer;
    if t == "" {
      assert Target(s) + "" == Target(s) && Target(u) + "" == Target(u);
      TargetSimulates(s, u, name, Target(s), Target(u), status, status);
    } else {
      AppendMatches(Target(s), Target(u), t, status);
      TargetSimulates(s, u, name, Target(s) + t, Target(u) + t, if status == Empty then Loose else status, status);
    }
  }

  lemma StringSimulates(s: State, u: State, name: string, status: Status, text: string)
    requires name != "" && Simulates(s, u, name, status)
    ensures Simulates(StringValueStep(s, text), StringValueStep(u, text), name,
                      if status == Empty then Loose else status)
  {
    hide SetTarget, Escape;
    assert Target(s) == s.msg.calls[|s.msg.calls| - 1].arguments && Target(u) == u.buffer;
    var after := if status == Empty then Loose else status;
    var t := if text == "" then "\"" else (if s.closingQuote then "" else "\"") + Escape(text);
    EscapeWrites(text);
    AppendMatches(Target(s), Target(u), t, status);
    TargetSimulates(s, u, name, Target(s) + t, Target(u) + t, after, status);
    QuoteSimulates(SetTarget(s, Target(s) + t), SetTarget(u, Target(u) + t), name, after, true);
    QuoteCommutes(s, Target(s) + t, true);
    QuoteCommutes(u, Target(u) + t, true);
  }

  lemma QuoteCommutes(s: State, t: string, q: bool)
    ensures SetTarget(s, t).(closingQuote := q) == SetTarget(s.(closingQuote := q), t)
  {
  }

  lemma EscapeWrites(s: string)
    ensures s != "" ==> Escape(s) != ""
  {
  }

  lemma ClosingSimulates(s: State, u: State, name: string, status: Status)
    requires name != "" && Simulates(s, u, name, status) && u.closingQuote
    ensures Simulates(SetTarget(s.(closingQuote := false), Target(s) + "\""),
                      SetTarget(u.(closingQuote := false), Target(u) + "\""), name, status)
  {
    hide SetTarget;
    QuoteSimulates(s, u, name, status, false);
    var s1, u1 := s.(closingQuote := false), u.(closingQuote := false);
    assert Target(s1) == Target(s) && Target(u1) == Target(u);
    ValueSimulates(s1, u1, name, status, "\"");
  }

  lemma {:induction false} RunSimulates(s: State, u: State, name: string, status: Status, evs: seq<Event>)
    requires name != "" && Simulates(s, u, name, status) && AllInner(evs)
    ensures Simulates(Run(s, evs), Run(u, evs), name, StatusOf(status, evs))
    decreases |evs|
  {
    hide Step, Simulates, Inner, Advance;
    if evs != [] {
      StepSimulates(s, u, name, status, evs[0]);
      RunSimulates(Step(s, evs[0]), Step(u, evs[0]), name, Advance(status, evs[0]), evs[1..]);
    }
  }

  // ---- naming the call late ----

  /** s with other arguments in its last call. */
  function WithArgs(s: State, args: string): State
    requires s.msg.calls != []
  {
    var n := |s.msg.calls| - 1;
    s.(msg := s.msg.(calls := s.msg.calls[n := s.msg.calls[n].(arguments := args)]))
  }

  predicate Direct(s: State) {
    && s.current == Last && s.pending.None? && s.buffer == ""
    && s.msg.calls != [] && s.msg.calls[|s.msg.calls| - 1].name != ""
  }

  /** Naming the call turns the simulating state into the simulated one, up to the
      brace that a bare value at the front misses. */
  lemma NameCatchesUp(s: State, u: State, name: string, status: Status)
    requires TrimTrailing(name) != "" && Simulates(s, u, TrimTrailing(name), status)
    ensures Direct(s)
    ensures Step(u, Event(ToolName, name)) ==
            WithArgs(s, if status == Loose then u.buffer else s.msg.calls[|s.msg.calls| - 1].arguments)
  {
    hide TrimTrailing;
    var x := s.msg.calls[|s.msg.calls| - 1].arguments;
    assert u.msg.calls + [Call(TrimTrailing(name), x, u.pending.value.id)] == s.msg.calls;
  }

  lemma WithSameArgs(s: State)
    requires s.msg.calls != []
    ensures WithArgs(s, s.msg.calls[|s.msg.calls| - 1].arguments) == s
  {
  }

  /** What an event that is not a complete object adds to the arguments. */
  function Addition(st: State, ev: Event): string {
    match ev.tag
    case ArgName => NameText(ev.text, st.argCount)
    case ArgValue => Normalize(ev.text)
    case ArgStringValue => if ev.text == "" then "\"" else (if st.closingQuote then "" else "\"") + Escape(ev.text)
    case ArgClose => if st.closingQuote then "\"" else ""
    case _ => ""
  }

  predicate Nonempty(s: State) { s.msg.calls != [] && s.msg.calls[|s.msg.calls| - 1].arguments != "" }

  lemma WithArgsFields(s: State, b: string)
    requires Direct(s)
    ensures Direct(WithArgs(s, b)) && Live(s) && Live(WithArgs(s, b))
    ensures WithArgs(s, b).closingQuote == s.closingQuote && WithArgs(s, b).argCount == s.argCount
    ensures Target(WithArgs(s, b)) == b && Target(s) == s.msg.calls[|s.msg.calls| - 1].arguments
  {
  }

  /** Changing the counters commutes with changing the arguments. */
  lemma CountersCommute(s: State, b: string, n: nat, q: bool)
    requires Direct(s) && Nonempty(s)
    ensures var s' := s.(argCount := n, closingQuote := q);
      Direct(s') && Nonempty(s') && WithArgs(s, b).(argCount := n, closingQuote := q) == WithArgs(s', b)
  {
  }

  lemma TargetAdds(s: State, b: string, t: string)
    requires Direct(s) && Nonempty(s)
    ensures Direct(SetTarget(s, Target(s) + t)) && Nonempty(SetTarget(s, Target(s) + t))
    ensures SetTarget(WithArgs(s, b), b + t) == WithArgs(SetTarget(s, Target(s) + t), b + t)
  {
  }

  lemma NameAdds(s: State, b: string, text: string)
    requires Direct(s) && Nonempty(s) && b != ""
    ensures Direct(ArgNameStep(s, text)) && Nonempty(ArgNameStep(s, text))
    ensures ArgNameStep(WithArgs(s, b), text) == WithArgs(ArgNameStep(s, text), b + NameText(text, s.argCount))
  {
    hide NameText, SetTarget, Target, WithArgs, Direct, Nonempty;
    var s' := s.(argCount := s.argCount + 1, closingQuote := s.closingQuote);
    WithArgsFields(s, b);
    CountersCommute(s, b, s.argCount + 1, s.closingQuote);
    WithArgsFields(s', b);
    TargetAdds(s', b, NameText(text, s.argCount));
    assert Target(s) != "" by { NonemptyTarget(s); }
  }

  lemma NonemptyTarget(s: State)
    requires Direct(s) && Nonempty(s)
    ensures Target(s) != ""
  {
  }

  lemma IdAdds(s: State, b: string, id: string)
    requires Direct(s) && Nonempty(s) && Live(s) && Live(WithArgs(s, b))
    ensures Direct(SetTool(s, Tool(s).(id := id))) && Nonempty(SetTool(s, Tool(s).(id := id)))
    ensures SetTool(WithArgs(s, b), Tool(WithArgs(s, b)).(id := id)) == WithArgs(SetTool(s, Tool(s).(id := id)), b)
  {
  }

  lemma TextAdds(s: State, b: string, ev: Event)
    requires Direct(s) && Nonempty(s) && ev.tag in {Reasoning, Content, Other}
    ensures Direct(Step(s, ev)) && Nonempty(Step(s, ev)) && Step(WithArgs(s, b), ev) == WithArgs(Step(s, ev), b)
  {
  }

  /** Any other event adds the same text to both. */
  lemma StepAdds(s: State, b: string, ev: Event)
    requires Direct(s) && Nonempty(s) && Inner(ev) && b != "" && !IsObject(ev)
    ensures Direct(Step(s, ev)) && Nonempty(Step(s, ev))
    ensures Step(WithArgs(s, b), ev) == WithArgs(Step(s, ev), b + Addition(s, ev))
  {
    hide Normalize, Escape, TrimTrailing, IdText, NameText, SetTarget, Target, ArgNameStep, WithArgs, Direct, Nonempty;
    assert b + "" == b && s.(argCount := s.argCount, closingQuote := s.closingQuote) == s;
    WithArgsFields(s, b);
    match ev.tag
    case Reasoning => TextAdds(s, b, ev);
    case Content => TextAdds(s, b, ev);
    case Other => TextAdds(s, b, ev);
    case ToolId => IdAdds(s, b, IdText(ev.text));
    case ToolArgs =>
    case ArgOpen => CountersCommute(s, b, s.argCount, false);
    case ArgName => NameAdds(s, b, ev.text);
    case ArgValue => TargetAdds(s, b, Normalize(ev.text));
    case ArgStringValue =>
      CountersCommute(s, b, s.argCount, true);
      TargetKept(s, true);
      TargetAdds(s.(closingQuote := true), b, Addition(s, ev));
    case ArgClose =>
      CountersCommute(s, b, s.argCount, false);
      TargetKept(s, false);
      TargetAdds(s.(closingQuote := false), b, "\"");
  }

  lemma TargetKept(s: State, q: bool)
    ensures Target(s.(closingQuote := q)) == Target(s)
    ensures s.(argCount := s.argCount, closingQuote := q) == s.(closingQuote := q)
  {
  }

  /** A complete JSON object makes two runs agree again. */
  lemma ObjectRejoins(s: State, b: string, ev: Event)
    requires Direct(s) && IsObject(ev)
    ensures Step(WithArgs(s, b), ev) == Step(s, ev)
  {
    hide TrimTrailing;
  }

  lemma {:induction false} RunRejoins(s: State, b: string, evs: seq<Event>, status: Status)
    requires Direct(s) && Nonempty(s) && AllInner(evs) && b != ""
    requires status == Loose && StatusOf(status, evs) != Loose
    ensures Run(WithArgs(s, b), evs) == Run(s, evs)
    decreases |evs|
  {
    hide Step, Direct, Inner, IsObject, WithArgs, Addition;
    assert s.msg.calls != [];
    if IsObject(evs[0]) {
      ObjectRejoins(s, b, evs[0]);
      RunFirst(WithArgs(s, b), evs);
      RunFirst(s, evs);
    } else {
      StepAdds(s, b, evs[0]);
      RunRejoins(Step(s, evs[0]), b + Addition(s, evs[0]), evs[1..], status);
    }
  }

  lemma RunFirst(s: State, evs: seq<Event>)
    requires evs != []
    ensures Run(s, evs) == Run(Step(s, evs[0]), evs[1..])
  {
  }

  lemma {:induction false} StatusAppend(s: Status, a: seq<Event>, b: seq<Event>)
    ensures StatusOf(s, a + b) == StatusOf(StatusOf(s, a), b)
    decreases |a|
  {
    hide Advance;
    if a == [] {
      assert a + b == b;
    } else {
      assert (a + b)[1..] == a[1..] + b;
      StatusAppend(Advance(s, a[0]), a[1..], b);
    }
  }

  // ---- the two closings of a loose call differ ----

  /** A leading brace is never made up for by the closing braces. */
  lemma ClosedDiffer(b: string, q: bool)
    ensures |ClosedArguments("{" + b, q)| > |ClosedArguments(b, q)|
  {
    hide BraceScan;
    var a := if q then b + "\"" else b;
    assert (if q then "{" + b + "\"" else "{" + b) == "{" + a;
    ExtraBrace(a);
  }

  lemma CloseDirect(s: State)
    requires Direct(s)
    ensures var c := s.msg.calls[|s.msg.calls| - 1];
      Step(s, Event(ToolClose, "")) ==
      WithArgs(s, ClosedArguments(c.arguments, s.closingQuote)).(closingQuote := false)
  {
    hide ClosedArguments;
  }

  // ---- the theorem ----

  function Opened(st: State): State { Step(st, Event(ToolOpen, "")) }

  lemma OpenedSimulates(st: State, name: string)
    requires TrimTrailing(name) != ""
    ensures Simulates(Step(Opened(st), Event(ToolName, name)), Opened(st), TrimTrailing(name), Empty)
  {
    hide TrimTrailing;
  }

  /** A trace of one call, cut at its name. */
  lemma RunTrace(st: State, body: seq<Event>, name: string, p: nat)
    requires p <= |body|
    ensures Run(st, CallTrace(body, name, p)) ==
      Step(Run(Step(Run(Opened(st), body[..p]), Event(ToolName, name)), body[p..]), Event(ToolClose, ""))
  {
    hide Step;
    var o, n, c := [Event(ToolOpen, "")], [Event(ToolName, name)], [Event(ToolClose, "")];
    RunAppend(st, o + body[..p] + n + body[p..], c);
    RunAppend(st, o + body[..p] + n, body[p..]);
    RunAppend(st, o + body[..p], n);
    RunAppend(st, o, body[..p]);
    RunSingle(st, o[0]);
    RunSingle(Run(Opened(st), body[..p]), n[0]);
    RunSingle(Run(Step(Run(Opened(st), body[..p]), n[0]), body[p..]), c[0]);
  }

  /** The states just before the closing: name first, and name after p events. */
  lemma BeforeClose(st: State, body: seq<Event>, name: string, p: nat) returns (s: State, t: State)
    requires TrimTrailing(name) != "" && AllInner(body) && p <= |body|
    ensures s == Run(Step(Opened(st), Event(ToolName, name)), body)
    ensures t == Run(Step(Run(Opened(st), body[..p]), Event(ToolName, name)), body[p..])
    ensures Simulates(s, Run(Opened(st), body), TrimTrailing(name), StatusOf(Empty, body))
    ensures StatusOf(Empty, body) != Loose ==> s == t
    ensures p == |body| && StatusOf(Empty, body) == Loose ==> t == WithArgs(s, Run(Opened(st), body).buffer)
  {
    hide Step, Run, Simulates, StatusOf, TrimTrailing, Inner, Opened;
    var u0 := Opened(st);
    var s0 := Step(u0, Event(ToolName, name));
    OpenedSimulates(st, name);
    assert body == body[..p] + body[p..];
    RunAppend(s0, body[..p], body[p..]);
    RunAppend(u0, body[..p], body[p..]);
    StatusAppend(Empty, body[..p], body[p..]);
    RunSimulates(s0, u0, TrimTrailing(name), Empty, body[..p]);
    RunSimulates(s0, u0, TrimTrailing(name), Empty, body);
    var sp, up, status := Run(s0, body[..p]), Run(u0, body[..p]), StatusOf(Empty, body[..p]);
    NameCatchesUp(sp, up, name, status);
    s := Run(s0, body);
    t := Run(Step(up, Event(ToolName, name)), body[p..]);
    if status != Loose {
      WithSameArgs(sp);
    } else {
      LooseArgs(sp, up, TrimTrailing(name));
      if StatusOf(Empty, body) != Loose {
        RunRejoins(sp, up.buffer, body[p..], Loose);
      }
    }
    if p == |body| {
      assert body[..p] == body && body[p..] == [];
      RunNothing(Step(up, Event(ToolName, name)));
    }
  }

  lemma RunNothing(st: State)
    ensures Run(st, []) == st
  {
  }

  lemma LooseArgs(s: State, u: State, name: string)
    requires Simulates(s, u, name, Loose)
    ensures u.buffer != "" && s.msg.calls[|s.msg.calls| - 1].arguments == "{" + u.buffer
  {
  }

  /** The place of the name does not matter exactly when the argument text does not
      begin with a bare value (or a complete JSON object replaces it later). */
  lemma NameOrder(st: State, body: seq<Event>, name: string)
    requires TrimTrailing(name) != "" && AllInner(body)
    ensures (forall p: nat | p <= |body| ::
               Run(st, CallTrace(body, name, p)).msg == Run(st, CallTrace(body, name, 0)).msg)
            <==> StatusOf(Empty, body) != Loose
  {
    hide Step, Run, Simulates, StatusOf, TrimTrailing, Inner, CallTrace, Opened;
    if StatusOf(Empty, body) != Loose {
      forall p: nat | p <= |body|
        ensures Run(st, CallTrace(body, name, p)).msg == Run(st, CallTrace(body, name, 0)).msg
      {
        SameOutcome(st, body, name, p);
        SameOutcome(st, body, name, 0);
      }
    } else {
      LooseOutcome(st, body, name);
    }
  }

  lemma SameOutcome(st: State, body: seq<Event>, name: string, p: nat)
    requires TrimTrailing(name) != "" && AllInner(body) && p <= |body|
    requires StatusOf(Empty, body) != Loose
    ensures Run(st, CallTrace(body, name, p)) ==
      Step(Run(Step(Opened(st), Event(ToolName, name)), body), Event(ToolClose, ""))
  {
    hide Step, Run, Simulates, StatusOf, TrimTrailing, Inner, CallTrace, Opened;
    var s, t := BeforeClose(st, body, name, p);
    RunTrace(st, body, name, p);
  }

  /** Such a call: one bare value and nothing else. */
  lemma BareValueMatters(st: State)
    ensures var body := [Event(ArgValue, "1")];
      && AllInner(body) && StatusOf(Empty, body) == Loose
      && Run(st, CallTrace(body, "f", 1)).msg != Run(st, CallTrace(body, "f", 0)).msg
  {
    hide Run, CallTrace;
    var body := [Event(ArgValue, "1")];
    assert body[1..] == [] && Advance(Empty, body[0]) == Loose;
    assert StatusOf(Loose, []) == Loose;
    NotBlank('f');
    LooseOutcome(st, body, "f");
  }

  /** A call whose text begins with a bare value: name first adds a brace in front,
      name last does not. */
  lemma LooseOutcome(st: State, body: seq<Event>, name: string)
    requires TrimTrailing(name) != "" && AllInner(body)
    requires StatusOf(Empty, body) == Loose
    ensures Run(st, CallTrace(body, name, |body|)).msg != Run(st, CallTrace(body, name, 0)).msg
  {
    hide Step, Run, StatusOf, TrimTrailing, Inner, CallTrace, Opened, ClosedArguments;
    var s, t := BeforeClose(st, body, name, |body|);
    var s', t' := BeforeClose(st, body, name, 0);
    assert body[..0] == [] && body[0..] == body;
    RunNothing(Opened(st));
    assert t' == s;
    RunTrace(st, body, name, |body|);
    RunTrace(st, body, name, 0);
    var u := Run(Opened(st), body);
    LooseArgs(s, u, TrimTrailing(name));
    CloseDirect(s);
    CloseDirect(t);
    ClosedDiffer(u.buffer, s.closingQuote);
    var n := |s.msg.calls| - 1;
    assert Step(s, Event(ToolClose, "")).msg.calls[n].arguments == ClosedArguments("{" + u.buffer, s.closingQuote);
    assert Step(t, Event(ToolClose, "")).msg.calls[n].arguments == ClosedArguments(u.buffer, s.closingQuote);
  }
}
