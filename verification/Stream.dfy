/** Whole streams: what every event keeps, and how the message of a truncated parse
    relates to the message of the full one. */
module Stream {
  import opened Options
  import opened Chars
  import opened Json
  import opened Quotes
  import opened Diffs
  import opened Mapper

  // ---- every reachable state ----

  /** A pending call has no name and no arguments yet, and is the current call. */
  predicate Invariant(st: State) {
    && (st.pending.Some? ==> st.pending.value.name == "" && st.pending.value.arguments == "" && st.current == Pending)
    && (st.current == Last ==> st.msg.calls != [])
  }

  lemma StepKeepsInvariant(st: State, ev: Event)
    requires Invariant(st)
    ensures Invariant(Step(st, ev))
  {
    hide Normalize, Escape, Trim, BraceDepth, TrimTrailing, IdText, NameText, SetTarget, NameStep, CloseStep;
    if Live(st) {
      match ev.tag
      case ToolName => NameKeepsInvariant(st, ev.text);
      case ToolClose => CloseKeepsInvariant(st);
      case ToolArgs => TargetKeepsInvariant(st, TrimTrailing(ev.text));
      case ArgName =>
        var t := Target(st);
        TargetKeepsInvariant(st.(argCount := st.argCount + 1),
                             (if t == "" then "{" else t) + NameText(ev.text, st.argCount));
      case ArgValue => TargetKeepsInvariant(st, Target(st) + Normalize(ev.text));
      case ArgStringValue =>
        TargetKeepsInvariant(st.(closingQuote := true), Target(st) + "\"");
        TargetKeepsInvariant(st.(closingQuote := true),
                             Target(st) + ((if st.closingQuote then "" else "\"") + Escape(ev.text)));
      case ArgClose => TargetKeepsInvariant(st.(closingQuote := false), Target(st) + "\"");
      case _ =>
    }
  }

  lemma TargetKeepsInvariant(st: State, s: string)
    requires Invariant(st)
    ensures Invariant(SetTarget(st, s))
  {
  }

  lemma NameKeepsInvariant(st: State, text: string)
    requires Invariant(st) && Live(st)
    ensures Invariant(NameStep(st, text))
  {
    hide TrimTrailing;
  }

  lemma CloseKeepsInvariant(st: State)
    requires Invariant(st) && Live(st)
    ensures Invariant(CloseStep(st))
  {
    hide ClosedArguments;
  }

  lemma {:induction false} RunKeepsInvariant(st: State, evs: seq<Event>)
    requires Invariant(st)
    ensures Invariant(Run(st, evs))
    decreases |evs|
  {
    hide Step, Invariant;
    if evs != [] {
      StepKeepsInvariant(st, evs[0]);
      RunKeepsInvariant(Step(st, evs[0]), evs[1..]);
    }
  }

  /** In every reachable state a pending call is unnamed, so the flush at the end of
      a parse never happens: an unnamed call stays invisible. */
  lemma PendingIsUnnamed(evs: seq<Event>)
    ensures var st := Run(START, evs);
      && (st.pending.Some? ==> st.pending.value.name == "")
      && Message(evs) == Visible(st.msg)
  {
    hide Run, Step;
    RunKeepsInvariant(START, evs);
  }

  // ---- well-formed traces ----

  /** Where a trace stands: inside a call, and what the call has had so far. */
  datatype Phase = Phase(open: bool, named: bool, hasId: bool, written: bool, quoted: bool)

  const BETWEEN := Phase(false, false, false, false, false)

  /** The events a parse may produce next: one non-empty name per call, no empty id after
      another id, complete JSON arguments only where nothing was written, one string
      value per argument. */
  function Next(ph: Phase, ev: Event): Option<Phase> {
    match ev.tag
    case Reasoning => Some(ph)
    case Content => Some(ph)
    case Other => Some(ph)
    case ToolOpen => Some(Phase(true, false, false, false, false))
    case ToolName => if ph.open && !ph.named && TrimTrailing(ev.text) != "" then Some(ph.(named := true)) else None
    case ToolId =>
      if ph.open && (!ph.hasId || IdText(ev.text) != "") then Some(ph.(hasId := ph.hasId || IdText(ev.text) != ""))
      else None
    case ToolArgs => if ph.open && !ph.written then Some(ph.(written := true)) else None
    case ArgOpen => if ph.open then Some(ph.(quoted := false)) else None
    case ArgName => if ph.open then Some(ph.(written := true)) else None
    case ArgValue => if ph.open then Some(ph.(written := true)) else None
    case ArgStringValue => if ph.open && !ph.quoted then Some(ph.(written := true, quoted := true)) else None
    case ArgClose => if ph.open then Some(ph.(quoted := false)) else None
    case ToolClose => if ph.open then Some(BETWEEN) else None
  }

  function RunPhase(ph: Phase, evs: seq<Event>): Option<Phase>
    decreases |evs|
  {
    if evs == [] then Some(ph)
    else
      var next := Next(ph, evs[0]);
      if next.None? then None else RunPhase(next.value, evs[1..])
  }

  predicate WellFormed(evs: seq<Event>) { RunPhase(BETWEEN, evs).Some? }

  /** The mapper's state agrees with the phase of the trace. */
  predicate Agrees(st: State, ph: Phase) {
    && Invariant(st)
    && (ph.quoted ==> ph.written)
    && (ph.open ==>
          && Live(st)
          && (if ph.named then st.current == Last && Tool(st).name != "" && st.buffer == "" else st.pending.Some?)
          && (!ph.hasId ==> Tool(st).id == "")
          && (!ph.written ==> Target(st) == if ph.named then "{" else "")
          && st.closingQuote == ph.quoted)
  }

  lemma StepAgrees(st: State, ph: Phase, ev: Event)
    requires Agrees(st, ph) && Next(ph, ev).Some?
    ensures Agrees(Step(st, ev), Next(ph, ev).value)
  {
    hide Normalize, Escape, Trim, BraceDepth, TrimTrailing, IdText, NameText, SetTarget, Target, NameStep, CloseStep;
    match ev.tag
    case Reasoning => TextAgrees(st, ph, ev);
    case Content => TextAgrees(st, ph, ev);
    case Other =>
    case ToolOpen => OpenAgrees(st);
    case ToolName => NameAgrees(st, ph, ev.text);
    case ToolId => IdAgrees(st, ph, IdText(ev.text));
    case ToolArgs =>
      TargetAgrees(st, ph, TrimTrailing(ev.text));
      WrittenAgrees(st, ph);
    case ArgOpen => QuoteAgrees(st, ph, false);
    case ArgName =>
      var t := Target(st);
      CountAgrees(st, ph);
      TargetAgrees(st.(argCount := st.argCount + 1), ph, (if t == "" then "{" else t) + NameText(ev.text, st.argCount));
    case ArgValue => TargetAgrees(st, ph, Target(st) + Normalize(ev.text));
    case ArgStringValue =>
      WrittenAgrees(st, ph);
      QuoteAgrees(st, ph.(written := true), true);
      TargetAgrees(st.(closingQuote := true), ph.(written := true, quoted := true), Target(st) + "\"");
      TargetAgrees(st.(closingQuote := true), ph.(written := true, quoted := true),
                   Target(st) + ((if st.closingQuote then "" else "\"") + Escape(ev.text)));
    case ArgClose =>
      QuoteAgrees(st, ph, false);
      if st.closingQuote { CloseQuoteAgrees(st, ph); }
    case ToolClose => CloseAgrees(st);
  }

  lemma TextAgrees(st: State, ph: Phase, ev: Event)
    requires Agrees(st, ph) && (ev.tag == Reasoning || ev.tag == Content)
    ensures Agrees(Step(st, ev), ph)
  {
  }

  lemma OpenAgrees(st: State)
    ensures Agrees(State(st.msg, Some(NO_CALL), Pending, 0, false, ""), Phase(true, false, false, false, false))
  {
  }

  lemma NameAgrees(st: State, ph: Phase, text: string)
    requires Agrees(st, ph) && ph.open && !ph.named && TrimTrailing(text) != ""
    ensures Agrees(NameStep(st, text), ph.(named := true))
  {
    hide TrimTrailing;
  }

  lemma IdAgrees(st: State, ph: Phase, id: string)
    requires Agrees(st, ph) && ph.open
    ensures Agrees(SetTool(st, Tool(st).(id := id)), ph.(hasId := ph.hasId || id != ""))
  {
  }

  lemma TargetAgrees(st: State, ph: Phase, s: string)
    requires Agrees(st, ph) && ph.open
    ensures Agrees(SetTarget(st, s), ph.(written := true))
  {
  }

  lemma WrittenAgrees(st: State, ph: Phase)
    requires Agrees(st, ph)
    ensures Agrees(st, ph.(written := true))
  {
  }

  lemma QuoteAgrees(st: State, ph: Phase, quoted: bool)
    requires Agrees(st, ph) && ph.open && (quoted ==> ph.written)
    ensures Agrees(st.(closingQuote := quoted), ph.(quoted := quoted))
  {
  }

  lemma CountAgrees(st: State, ph: Phase)
    requires Agrees(st, ph)
    ensures Agrees(st.(argCount := st.argCount + 1), ph)
  {
  }

  /** A pending quote means that something was written. */
  lemma CloseQuoteAgrees(st: State, ph: Phase)
    requires Agrees(st, ph) && ph.open && ph.quoted
    ensures Agrees(SetTarget(st.(closingQuote := false), Target(st) + "\""), ph.(quoted := false))
  {
    QuoteAgrees(st, ph, false);
    TargetAgrees(st.(closingQuote := false), ph.(quoted := false), Target(st) + "\"");
  }

  lemma CloseAgrees(st: State)
    requires Invariant(st) && Live(st)
    ensures Agrees(CloseStep(st), BETWEEN)
  {
    hide ClosedArguments;
  }

  /** Appending to the target grows the last visible call, or nothing visible. */
  lemma TargetGrows(st: State, s: string)
    requires Live(st) && Invariant(st) && Target(st) <= s
    ensures Extends(st.msg, SetTarget(st, s).msg)
  {
  }

  /** Every event of a well-formed trace extends the message. */
  lemma StepExtends(st: State, ph: Phase, ev: Event)
    requires Agrees(st, ph) && Next(ph, ev).Some?
    ensures Extends(st.msg, Step(st, ev).msg)
  {
    hide Normalize, Escape, Trim, BraceDepth, IdText, NameText, SetTarget, TrimTrailing, NameStep, CloseStep;
    match ev.tag
    case Reasoning =>
    case Content =>
    case Other =>
    case ToolOpen =>
    case ToolName => NameExtends(st, ph, ev.text);
    case ToolId => IdExtends(st, ph, IdText(ev.text));
    case ToolArgs =>
      var t := TrimTrailing(ev.text);
      if t != "" && t[0] == '{' { TargetGrows(st, t); }
    case ArgOpen =>
    case ArgName =>
      var t := Target(st);
      TargetGrows(st.(argCount := st.argCount + 1), (if t == "" then "{" else t) + NameText(ev.text, st.argCount));
    case ArgValue => TargetGrows(st, Target(st) + Normalize(ev.text));
    case ArgStringValue =>
      TargetGrows(st.(closingQuote := true), Target(st) + "\"");
      TargetGrows(st.(closingQuote := true), Target(st) + ((if st.closingQuote then "" else "\"") + Escape(ev.text)));
    case ArgClose => TargetGrows(st.(closingQuote := false), Target(st) + "\"");
    case ToolClose => CloseExtends(st, ph);
  }

  lemma NameExtends(st: State, ph: Phase, text: string)
    requires Agrees(st, ph) && ph.open && !ph.named
    ensures Extends(st.msg, NameStep(st, text).msg)
  {
    hide TrimTrailing;
  }

  lemma IdExtends(st: State, ph: Phase, id: string)
    requires Agrees(st, ph) && ph.open && (!ph.hasId || id != "")
    ensures Extends(st.msg, SetTool(st, Tool(st).(id := id)).msg)
  {
  }

  lemma CloseExtends(st: State, ph: Phase)
    requires Agrees(st, ph) && ph.open
    ensures Extends(st.msg, CloseStep(st).msg)
  {
    hide ClosedArguments;
  }

  lemma {:induction false} RunExtends(st: State, ph: Phase, evs: seq<Event>)
    requires Agrees(st, ph) && RunPhase(ph, evs).Some?
    ensures Agrees(Run(st, evs), RunPhase(ph, evs).value)
    ensures Extends(st.msg, Run(st, evs).msg)
    decreases |evs|
  {
    hide Step, Agrees, Next, Extends;
    if evs != [] {
      StepAgrees(st, ph, evs[0]);
      StepExtends(st, ph, evs[0]);
      RunExtends(Step(st, evs[0]), Next(ph, evs[0]).value, evs[1..]);
      ExtendsTransitive(st.msg, Step(st, evs[0]).msg, Run(st, evs).msg);
    } else {
      ExtendsItself(st.msg);
    }
  }

  lemma ExtendsItself(m: Msg)
    ensures Extends(m, m)
  {
  }

  lemma {:induction false} RunAppend(st: State, a: seq<Event>, b: seq<Event>)
    ensures Run(st, a + b) == Run(Run(st, a), b)
    decreases |a|
  {
    hide Step;
    if a == [] {
      assert a + b == b;
    } else {
      assert (a + b)[1..] == a[1..] + b;
      RunAppend(Step(st, a[0]), a[1..], b);
    }
  }

  lemma {:induction false} RunPhaseAppend(ph: Phase, a: seq<Event>, b: seq<Event>)
    ensures RunPhase(ph, a + b) ==
      if RunPhase(ph, a).None? then None else RunPhase(RunPhase(ph, a).value, b)
    decreases |a|
  {
    hide Next;
    if a == [] {
      assert a + b == b;
    } else {
      assert (a + b)[1..] == a[1..] + b;
      if Next(ph, a[0]).Some? { RunPhaseAppend(Next(ph, a[0]).value, a[1..], b); }
    }
  }

  // ---- truncated parses ----

  /** Tags whose node appears only once it is complete. */
  predicate Atomic(tag: Tag) {
    !(tag in {Reasoning, Content, ToolArgs, ArgValue, ArgStringValue})
  }

  /** A cut before event k, or inside its text. */
  datatype Cut = Cut(k: nat, part: Option<string>)

  predicate ValidCut(evs: seq<Event>, cut: Cut) {
    && cut.k <= |evs|
    && (cut.part.Some? ==> cut.k < |evs| && !Atomic(evs[cut.k].tag) && cut.part.value <= evs[cut.k].text)
  }

  function Truncate(evs: seq<Event>, cut: Cut): seq<Event>
    requires ValidCut(evs, cut)
  {
    if cut.part.None? then evs[..cut.k] else evs[..cut.k] + [Event(evs[cut.k].tag, cut.part.value)]
  }

  /** The cut goes through a non-string argument value of a call that already shows,
      in a place where the value's JSON text is not monotone. */
  predicate VisiblyBad(evs: seq<Event>, cut: Cut)
    requires ValidCut(evs, cut)
  {
    && cut.part.Some? && evs[cut.k].tag == ArgValue
    && RunPhase(BETWEEN, evs[..cut.k]).Some? && RunPhase(BETWEEN, evs[..cut.k]).value.named
    && RunPhase(BETWEEN, evs[..cut.k]).value.open
    && BadCut(cut.part.value, evs[cut.k].text[|cut.part.value|..])
  }

  lemma TargetExtends(st: State, s: string, t: string)
    requires Live(st) && Invariant(st) && s <= t
    ensures Extends(SetTarget(st, s).msg, SetTarget(st, t).msg)
  {
  }

  lemma TrimPrefix(a: string, b: string)
    requires a <= b
    ensures TrimTrailing(a) <= TrimTrailing(b)
  {
  }

  /** Cutting the text of one event gives a message that the whole event extends,
      except at a bad place of a visible value. */
  lemma CutExtends(st: State, ph: Phase, tag: Tag, part: string, text: string)
    requires Agrees(st, ph) && Next(ph, Event(tag, text)).Some? && !Atomic(tag) && part <= text
    requires !(tag == ArgValue && ph.named && BadCut(part, text[|part|..]))
    ensures Extends(Step(st, Event(tag, part)).msg, Step(st, Event(tag, text)).msg)
  {
    hide Normalize, Escape, SetTarget, BadCut, TrimTrailing;
    match tag
    case Reasoning => PrefixAppend(st.msg.reasoning, part, text);
    case Content => PrefixAppend(st.msg.content, part, text);
    case ToolArgs =>
      var a, b := TrimTrailing(part), TrimTrailing(text);
      TrimPrefix(part, text);
      if b != "" && b[0] == '{' {
        if a == "" { TargetGrows(st, b); } else { TargetExtends(st, a, b); }
      }
    case ArgValue =>
      var a, b := Target(st) + Normalize(part), Target(st) + Normalize(text);
      if ph.named {
        NormalizeCut(part, text);
        PrefixAppend(Target(st), Normalize(part), Normalize(text));
        TargetExtends(st, a, b);
      } else {
        HiddenTarget(st, a, b);
      }
    case ArgStringValue =>
      assert !st.closingQuote;
      var st1 := st.(closingQuote := true);
      EscapePrefix(part, text);
      if text == "" {
        TargetExtends(st1, Target(st) + "\"", Target(st) + "\"");
      } else if part == "" {
        PrefixAppend(Target(st), "\"", "\"" + Escape(text));
        TargetExtends(st1, Target(st) + "\"", Target(st) + ("\"" + Escape(text)));
      } else {
        PrefixAppend("\"", Escape(part), Escape(text));
        PrefixAppend(Target(st), "\"" + Escape(part), "\"" + Escape(text));
        TargetExtends(st1, Target(st) + ("\"" + Escape(part)), Target(st) + ("\"" + Escape(text)));
      }
    case _ =>
  }

  /** What is written before the name is not visible. */
  lemma HiddenTarget(st: State, s: string, t: string)
    requires Live(st) && Invariant(st) && st.pending.Some?
    ensures SetTarget(st, s).msg == SetTarget(st, t).msg
    ensures Extends(SetTarget(st, s).msg, SetTarget(st, t).msg)
  {
  }

  /** At a bad place of a visible value the arguments contradict each other. */
  lemma CutConflicts(st: State, ph: Phase, part: string, text: string)
    requires Agrees(st, ph) && ph.open && ph.named && part <= text && BadCut(part, text[|part|..])
    ensures var a, b := Step(st, Event(ArgValue, part)).msg.calls, Step(st, Event(ArgValue, text)).msg.calls;
      |a| == |b| > 0 && Conflict(a[|a| - 1].arguments, b[|b| - 1].arguments)
  {
    hide Normalize, BadCut;
    NormalizeCut(part, text);
    PrefixCons(Target(st), Normalize(part), Normalize(text));
  }

  lemma VisibleExtends(a: Msg, b: Msg)
    requires Extends(a, b)
    ensures Extends(Visible(a), Visible(b))
  {
    if AllFiller(b.reasoning) {
      assert forall i | 0 <= i < |a.reasoning| :: a.reasoning[i] == b.reasoning[i];
    }
  }

  lemma StartAgrees()
    ensures Agrees(START, BETWEEN)
  {
  }

  /** The states on both sides of a cut. */
  lemma CutStates(evs: seq<Event>, cut: Cut) returns (st: State, ph: Phase)
    requires WellFormed(evs) && ValidCut(evs, cut)
    ensures st == Run(START, evs[..cut.k]) && RunPhase(BETWEEN, evs[..cut.k]) == Some(ph) && Agrees(st, ph)
    ensures Run(START, evs) == Run(st, evs[cut.k..]) && RunPhase(ph, evs[cut.k..]).Some?
  {
    hide Run, RunPhase, Agrees;
    assert evs == evs[..cut.k] + evs[cut.k..];
    RunAppend(START, evs[..cut.k], evs[cut.k..]);
    RunPhaseAppend(BETWEEN, evs[..cut.k], evs[cut.k..]);
    st, ph := Run(START, evs[..cut.k]), RunPhase(BETWEEN, evs[..cut.k]).value;
    StartAgrees();
    RunExtends(START, BETWEEN, evs[..cut.k]);
  }

  lemma RunOne(st: State, ph: Phase, evs: seq<Event>)
    requires evs != [] && RunPhase(ph, evs).Some?
    ensures Run(st, evs) == Run(Step(st, evs[0]), evs[1..])
    ensures Next(ph, evs[0]).Some? && RunPhase(ph, evs) == RunPhase(Next(ph, evs[0]).value, evs[1..])
  {
  }

  // ---- enclosing nodes ----

  predicate IsObjectText(text: string) {
    var t := TrimTrailing(text);
    t != "" && t[0] == '{'
  }

  /** The same trace up to the texts of enclosing nodes: those that the mapper does not
      look at, and argument nodes that are no JSON objects. They hold the nodes of the name
      and of the single arguments, and a cut in one of these shortens their texts as well. */
  predicate Resembles(a: seq<Event>, b: seq<Event>) {
    |a| == |b| && forall i | 0 <= i < |a| :: ResemblesEvent(a[i], b[i])
  }

  predicate ResemblesEvent(a: Event, b: Event) {
    || a == b
    || (a.tag == b.tag == Other)
    || (a.tag == b.tag == ToolArgs && !IsObjectText(a.text) && !IsObjectText(b.text))
  }

  /** Shortening the text of an enclosing node never makes it an object. */
  lemma PartIsNoObject(part: string, text: string)
    requires part <= text && !IsObjectText(text)
    ensures ResemblesEvent(Event(ToolArgs, part), Event(ToolArgs, text))
  {
    TrimPrefix(part, text);
  }

  /** Such texts make no difference to the mapper or to what may follow. */
  lemma {:induction false} ResemblingRuns(st: State, ph: Phase, a: seq<Event>, b: seq<Event>)
    requires Resembles(a, b)
    ensures Run(st, a) == Run(st, b) && RunPhase(ph, a) == RunPhase(ph, b)
    decreases |a|
  {
    hide Step, Next;
    if a != [] {
      assert ResemblesEvent(a[0], b[0]);
      ResemblingStep(st, ph, a[0], b[0]);
      assert forall i | 0 <= i < |a[1..]| :: a[1..][i] == a[i + 1] && b[1..][i] == b[i + 1];
      ResemblingRuns(Step(st, a[0]), if Next(ph, a[0]).Some? then Next(ph, a[0]).value else ph, a[1..], b[1..]);
    }
  }

  lemma ResemblingStep(st: State, ph: Phase, a: Event, b: Event)
    requires ResemblesEvent(a, b)
    ensures Step(st, a) == Step(st, b) && Next(ph, a) == Next(ph, b)
  {
  }

  /** What a parse sees of a trace cut short. */
  predicate Seen(seen: seq<Event>, evs: seq<Event>, cut: Cut) {
    ValidCut(evs, cut) && Resembles(seen, Truncate(evs, cut))
  }

  lemma SeenMessage(seen: seq<Event>, evs: seq<Event>, cut: Cut)
    requires Seen(seen, evs, cut)
    ensures Message(seen) == Message(Truncate(evs, cut))
    ensures WellFormed(seen) <==> WellFormed(Truncate(evs, cut))
  {
    hide Run, RunPhase, Resembles, Finish;
    ResemblingRuns(START, BETWEEN, seen, Truncate(evs, cut));
  }

  /** A truncation that is not visibly bad maps to a message that the full trace's
      message extends. */
  lemma TruncationExtends(evs: seq<Event>, cut: Cut, seen: seq<Event>)
    requires WellFormed(evs) && Seen(seen, evs, cut) && !VisiblyBad(evs, cut)
    ensures Extends(Message(seen), Message(evs))
  {
    hide Message, WellFormed, Truncate, VisiblyBad, Extends, Resembles;
    SeenMessage(seen, evs, cut);
    CutExtendsMessage(evs, cut);
  }

  lemma CutExtendsMessage(evs: seq<Event>, cut: Cut)
    requires WellFormed(evs) && ValidCut(evs, cut) && !VisiblyBad(evs, cut)
    ensures Extends(Message(Truncate(evs, cut)), Message(evs))
  {
    hide Run, RunPhase, Agrees, Step, Extends, Next, BadCut, Visible;
    var st, ph := CutStates(evs, cut);
    PendingIsUnnamed(evs);
    PendingIsUnnamed(Truncate(evs, cut));
    var tail := evs[cut.k..];
    if cut.part.None? {
      RunExtends(st, ph, tail);
      VisibleExtends(st.msg, Run(START, evs).msg);
    } else {
      var ev, part := evs[cut.k], Event(evs[cut.k].tag, cut.part.value);
      assert tail[0] == ev;
      RunOne(st, ph, tail);
      RunAppend(START, evs[..cut.k], [part]);
      RunSingle(st, part);
      assert Extends(Step(st, part).msg, Step(st, ev).msg) by {
        if ev.tag == ArgValue { OpenPhase(ph, ev); }
        CutExtends(st, ph, ev.tag, cut.part.value, ev.text);
      }
      StepAgrees(st, ph, ev);
      RunExtends(Step(st, ev), Next(ph, ev).value, tail[1..]);
      ExtendsTransitive(Step(st, part).msg, Step(st, ev).msg, Run(START, evs).msg);
      VisibleExtends(Step(st, part).msg, Run(START, evs).msg);
    }
  }

  lemma OpenPhase(ph: Phase, ev: Event)
    requires ev.tag == ArgValue && Next(ph, ev).Some?
    ensures ph.open
  {
  }

  lemma RunSingle(st: State, ev: Event)
    ensures Run(st, [ev]) == Step(st, ev)
  {
    hide Step;
    assert [ev][1..] == [];
    assert Run(Step(st, ev), []) == Step(st, ev);
  }

  lemma BadCutThrows(evs: seq<Event>, cut: Cut)
    requires WellFormed(evs) && ValidCut(evs, cut) && VisiblyBad(evs, cut)
    ensures Deltas(Message(Truncate(evs, cut)), Message(evs)).Err?
  {
    hide Run, RunPhase, Agrees, Step, Next, BadCut, Deltas;
    var st, ph := CutStates(evs, cut);
    PendingIsUnnamed(evs);
    PendingIsUnnamed(Truncate(evs, cut));
    var tail := evs[cut.k..];
    var ev, part := evs[cut.k], Event(ArgValue, cut.part.value);
    assert tail[0] == ev && ev == Event(ArgValue, ev.text);
    RunOne(st, ph, tail);
    RunAppend(START, evs[..cut.k], [part]);
    RunSingle(st, part);
    CutConflicts(st, ph, cut.part.value, ev.text);
    StepAgrees(st, ph, ev);
    RunExtends(Step(st, ev), Next(ph, ev).value, tail[1..]);
    DeltasOk(Message(Truncate(evs, cut)), Message(evs));
  }

  /** A visibly bad truncation makes compute_diffs throw. */
  lemma BadTruncationThrows(evs: seq<Event>, cut: Cut, seen: seq<Event>)
    requires WellFormed(evs) && Seen(seen, evs, cut) && VisiblyBad(evs, cut)
    ensures Deltas(Message(seen), Message(evs)).Err?
  {
    hide Message, WellFormed, Truncate, VisiblyBad, Deltas, Resembles;
    SeenMessage(seen, evs, cut);
    BadCutThrows(evs, cut);
  }

  /** For every well-formed trace and every truncation of it, compute_diffs accepts
      the two messages exactly when the cut is not visibly bad, and then the full
      message extends the truncated one. */
  lemma StreamStep(evs: seq<Event>, cut: Cut, seen: seq<Event>)
    requires WellFormed(evs) && Seen(seen, evs, cut)
    ensures Deltas(Message(seen), Message(evs)).Ok? <==> !VisiblyBad(evs, cut)
    ensures Extends(Message(seen), Message(evs)) <==> !VisiblyBad(evs, cut)
  {
    hide VisiblyBad, Extends, Deltas, Message, WellFormed, Resembles, Truncate;
    if VisiblyBad(evs, cut) {
      BadTruncationThrows(evs, cut, seen);
      if Extends(Message(seen), Message(evs)) {
        ExtendsAccepted(Message(seen), Message(evs));
      }
    } else {
      TruncationExtends(evs, cut, seen);
      ExtendsAccepted(Message(seen), Message(evs));
    }
  }

  // ---- successive parses of one growing output ----

  lemma TruncateWellFormed(evs: seq<Event>, cut: Cut)
    requires WellFormed(evs) && ValidCut(evs, cut)
    ensures WellFormed(Truncate(evs, cut))
  {
    hide RunPhase, Run, Agrees, Next;
    var st, ph := CutStates(evs, cut);
    if cut.part.Some? {
      var ev, part := evs[cut.k], Event(evs[cut.k].tag, cut.part.value);
      assert evs[cut.k..][0] == ev;
      RunOne(st, ph, evs[cut.k..]);
      NextOfPart(ph, ev.tag, cut.part.value, ev.text);
      RunPhaseAppend(BETWEEN, evs[..cut.k], [part]);
      RunPhaseSingle(ph, part);
    }
  }

  lemma NextOfPart(ph: Phase, tag: Tag, part: string, text: string)
    requires !Atomic(tag)
    ensures Next(ph, Event(tag, part)) == Next(ph, Event(tag, text))
  {
  }

  lemma RunPhaseSingle(ph: Phase, ev: Event)
    ensures RunPhase(ph, [ev]) == Next(ph, ev)
  {
    hide Next;
    assert [ev][1..] == [];
    if Next(ph, ev).Some? {
      assert RunPhase(Next(ph, ev).value, []) == Next(ph, ev);
    }
  }

  /** Each parse is a truncation of the one after it, by a cut that is not visibly bad. */
  predicate Successive(traces: seq<seq<Event>>, cuts: seq<Cut>) {
    && |cuts| + 1 == |traces|
    && forall i | 0 <= i < |cuts| ::
         Seen(traces[i], traces[i + 1], cuts[i]) && !VisiblyBad(traces[i + 1], cuts[i])
  }

  lemma {:induction false} SuccessiveWellFormed(traces: seq<seq<Event>>, cuts: seq<Cut>, i: nat)
    requires Successive(traces, cuts) && WellFormed(traces[|cuts|]) && i < |traces|
    ensures WellFormed(traces[i])
    decreases |traces| - i
  {
    hide WellFormed, VisiblyBad, Truncate, Resembles;
    if i < |cuts| {
      SuccessiveWellFormed(traces, cuts, i + 1);
      TruncateWellFormed(traces[i + 1], cuts[i]);
      SeenMessage(traces[i], traces[i + 1], cuts[i]);
    }
  }

  function Messages(traces: seq<seq<Event>>): (ms: seq<Msg>)
    ensures |ms| == |traces| && forall i | 0 <= i < |traces| :: ms[i] == Message(traces[i])
  {
    seq(|traces|, i requires 0 <= i < |traces| => Message(traces[i]))
  }

  /** The messages of successive parses extend each other. */
  lemma MessagesGrow(traces: seq<seq<Event>>, cuts: seq<Cut>)
    requires Successive(traces, cuts) && WellFormed(traces[|cuts|])
    ensures Growing(Messages(traces))
  {
    hide WellFormed, VisiblyBad, Extends, Message, Truncate, ValidCut;
    var ms := Messages(traces);
    forall i | 0 <= i < |ms| - 1 ensures Extends(ms[i], ms[i + 1]) {
      SuccessiveWellFormed(traces, cuts, i + 1);
      StreamStep(traces[i + 1], cuts[i], traces[i]);
    }
  }

  /** A client that folds the deltas of successive parses, from the empty message on,
      ends with exactly the message of the last parse; nothing throws on the way. */
  lemma StreamedMessageArrives(traces: seq<seq<Event>>, cuts: seq<Cut>)
    requires Successive(traces, cuts) && traces[0] == [] && WellFormed(traces[|cuts|])
    ensures Follow(EMPTY_MSG, Messages(traces)) == Ok(Message(traces[|cuts|]))
  {
    hide WellFormed, VisiblyBad, Extends, Message, Truncate, ValidCut, Follow;
    MessagesGrow(traces, cuts);
    NoEvents();
    StreamDelivered(Messages(traces));
  }

  lemma NoEvents()
    ensures Message([]) == EMPTY_MSG
  {
  }

  /** A cut that splits an ordinary word after three letters makes the next
      compute_diffs throw: the value was read as the beginning of True. */
  lemma BadCutExists()
    ensures var evs := [Event(ToolOpen, ""), Event(ToolName, "f"), Event(ArgName, "k"), Event(ArgValue, "Trump")];
      var cut := Cut(3, Some("Tru"));
      && WellFormed(evs) && ValidCut(evs, cut) && VisiblyBad(evs, cut)
      && Deltas(Message(Truncate(evs, cut)), Message(evs)).Err?
  {
    hide Deltas, Message, BadCut;
    var evs := [Event(ToolOpen, ""), Event(ToolName, "f"), Event(ArgName, "k"), Event(ArgValue, "Trump")];
    var named := Phase(true, true, false, true, false);
    assert evs[..3] == [Event(ToolOpen, ""), Event(ToolName, "f"), Event(ArgName, "k")];
    assert TrimTrailing("f") != "" by { NotBlank('f'); }
    hide TrimTrailing;
    RunPhaseThree(evs[0], evs[1], evs[2]);
    assert evs == evs[..3] + [evs[3]];
    RunPhaseAppend(BETWEEN, evs[..3], [evs[3]]);
    RunPhaseSingle(named, evs[3]);
    assert "Trump"[3..] == "mp";
    WordOfTru();
    BadCutThrows(evs, Cut(3, Some("Tru")));
  }

  /** Why Next allows no empty id after another id: the client keeps the first one. */
  lemma EmptyIdBreaks(st: State, text: string)
    requires Invariant(st) && st.current == Last && Live(st) && Tool(st).id != "" && IdText(text) == ""
    ensures var after := Step(st, Event(ToolId, text)).msg;
      && !Extends(st.msg, after)
      && Deltas(st.msg, after).Ok? && ApplyAll(st.msg, Deltas(st.msg, after).value) != after
  {
    hide Deltas, IdText;
    var after := Step(st, Event(ToolId, text)).msg;
    DeltasOk(st.msg, after);
    ClientFollows(st.msg, after);
  }

  lemma NotBlank(c: char)
    requires !IsBlank(c)
    ensures TrimTrailing([c]) == [c]
  {
  }

  lemma RunPhaseThree(a: Event, b: Event, c: Event)
    ensures RunPhase(BETWEEN, [a, b, c]) ==
      var x := Next(BETWEEN, a);
      if x.None? then None else
      var y := Next(x.value, b);
      if y.None? then None else Next(y.value, c)
  {
    hide Next;
    assert [a, b, c][1..] == [b, c] && [b, c][1..] == [c];
    var x := Next(BETWEEN, a);
    if x.Some? {
      var y := Next(x.value, b);
      if y.Some? { RunPhaseSingle(y.value, c); }
    }
  }

  lemma WordOfTru()
    ensures BadCut("Tru", "mp")
  {
    assert "Tru"[1..] == "ru" && "ru"[1..] == "u" && "u"[1..] == "";
    assert "mp"[1..] == "p" && "p"[1..] == "";
    assert WordLen("u") == 1 && WordLen("ru") == 2 && WordLen("Tru") == 3;
    assert WordLen("p") == 1 && WordLen("mp") == 2;
    assert "Tru"[..3] == "Tru" && "mp"[..2] == "mp";
    assert EndOf("Tru", Outside, false) == OpenWord("Tru");
    assert ("Tru" + "mp")[3] == 'm' && "True"[3] == 'e';
  }
}
