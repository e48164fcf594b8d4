/** What single events do to the message, stated on the texts of a trace. */
module MapperMeaning {
  import opened Options
  import opened Json
  import opened Quotes
  import opened Diffs
  import opened Mapper
  import opened ToolCalls

  // ---- reasoning and content ----

  /** The texts of all events with the tag, in order. */
  function TextOf(evs: seq<Event>, tag: Tag): string {
    if evs == [] then "" else (if evs[0].tag == tag then evs[0].text else "") + TextOf(evs[1..], tag)
  }

  lemma StepTexts(st: State, ev: Event)
    ensures var st' := Step(st, ev);
      && st'.msg.reasoning == st.msg.reasoning + (if ev.tag == Reasoning then ev.text else "")
      && st'.msg.content == st.msg.content + (if ev.tag == Content then ev.text else "")
  {
    hide Step;
    assert st.msg.reasoning + "" == st.msg.reasoning && st.msg.content + "" == st.msg.content;
    if ev.tag == Reasoning || ev.tag == Content { TextStep(st, ev); } else { OtherStep(st, ev); }
  }

  lemma TextStep(st: State, ev: Event)
    requires ev.tag == Reasoning || ev.tag == Content
    ensures Step(st, ev).msg ==
            if ev.tag == Reasoning then st.msg.(reasoning := st.msg.reasoning + ev.text)
            else st.msg.(content := st.msg.content + ev.text)
  {
  }

  lemma OtherStep(st: State, ev: Event)
    requires ev.tag != Reasoning && ev.tag != Content
    ensures SameTexts(Step(st, ev), st)
  {
    hide Normalize, Escape, IdText, NameText, TrimTrailing, SetTarget, SetTool, CloseStep, NameStep;
    forall s: State, t: string ensures SameTexts(SetTarget(s, t), s) { TargetTexts(s, t); }
    if Live(st) {
      CloseTexts(st);
      NameTexts(st, ev.text);
      forall c: Call ensures SameTexts(SetTool(st, c), st) { ToolTexts(st, c); }
    }
  }

  lemma ToolTexts(st: State, c: Call)
    requires Live(st)
    ensures SameTexts(SetTool(st, c), st)
  {
  }

  lemma NameTexts(st: State, text: string)
    requires Live(st)
    ensures SameTexts(NameStep(st, text), st)
  {
    hide TrimTrailing;
  }

  predicate SameTexts(s: State, t: State) {
    s.msg.reasoning == t.msg.reasoning && s.msg.content == t.msg.content
  }

  lemma TargetTexts(st: State, t: string)
    ensures SameTexts(SetTarget(st, t), st)
  {
  }

  lemma CloseTexts(st: State)
    requires Live(st)
    ensures SameTexts(CloseStep(st), st)
  {
    hide ClosedArguments;
  }

  lemma {:induction false} RunTexts(st: State, evs: seq<Event>)
    ensures Run(st, evs).msg.reasoning == st.msg.reasoning + TextOf(evs, Reasoning)
    ensures Run(st, evs).msg.content == st.msg.content + TextOf(evs, Content)
    decreases |evs|
  {
    hide Step;
    if evs != [] {
      StepTexts(st, evs[0]);
      RunTexts(Step(st, evs[0]), evs[1..]);
    }
  }

  /** The message has the content of the trace and its reasoning, unless that is white
      space only. */
  lemma MessageTexts(evs: seq<Event>)
    ensures Message(evs).content == TextOf(evs, Content)
    ensures Message(evs).reasoning ==
            if forall i | 0 <= i < |TextOf(evs, Reasoning)| :: TextOf(evs, Reasoning)[i] in " \n\r\t" then ""
            else TextOf(evs, Reasoning)
  {
    hide Run, TextOf;
    RunTexts(START, evs);
    assert "" + TextOf(evs, Content) == TextOf(evs, Content);
    assert "" + TextOf(evs, Reasoning) == TextOf(evs, Reasoning);
  }

  // ---- trimming ----

  /** White space: a blank, a tab, a line feed, a vertical tab, a form feed or a return. */
  predicate White(s: string) { forall i | 0 <= i < |s| :: s[i] as int in {32, 9, 10, 11, 12, 13} }

  /** A text that is not empty and has no white space at its end. */
  predicate Solid(s: string) { s != "" && s[|s| - 1] as int !in {32, 9, 10, 11, 12, 13} }

  /** Trailing white space goes, and nothing else. */
  lemma {:induction false} TrimIs(s: string, b: string)
    requires (s == "" || Solid(s)) && White(b)
    ensures TrimTrailing(s + b) == s
    decreases |b|
  {
    if b == "" {
      assert s + b == s;
    } else {
      assert (s + b)[..|s + b| - 1] == s + b[..|b| - 1];
      TrimIs(s, b[..|b| - 1]);
    }
  }

  /** An argument name loses trailing white space and one leading character of it. */
  lemma TrimKey(lead: string, key: string, b: string)
    requires White(lead) && White(b) && Solid(key) && key[0] as int !in {32, 9, 10, 11, 12, 13}
    ensures Trim(lead + key + b) == (if lead == "" then key else lead[1..] + key)
  {
    hide TrimTrailing;
    if lead == "" {
      assert lead + key + b == key + b;
      TrimIs(key, b);
    } else {
      var k := lead[1..] + key;
      assert (lead + key + b)[1..] == k + b;
      TrimIs(k, b);
    }
  }

  // ---- calls whose arguments come as one JSON text ----

  lemma QuotedId(id: string, b: string)
    requires White(b)
    ensures IdText("\"" + id + "\"" + b) == id
  {
    hide TrimTrailing;
    var t := "\"" + id + "\"";
    TrimIs(t, b);
    assert t[1..|t| - 1] == id;
  }

  lemma BareId(id: string, b: string)
    requires White(b) && (id == "" || (Solid(id) && id[0] != '"'))
    ensures IdText(id + b) == id
  {
    hide TrimTrailing;
    TrimIs(id, b);
  }

  /** A call with a name, an id and its arguments as one text, whatever came before: the
      call has this name and id, and the arguments, closed if braces are missing. */
  lemma JsonCall(st: State, name: string, id: string, args: string, b: string)
    requires White(b) && Solid(name) && Solid(args) && args[0] == '{'
    ensures var evs := [Event(ToolOpen, ""), Event(ToolName, name + b), Event(ToolId, "\"" + id + "\"" + b),
                        Event(ToolArgs, args + b), Event(ToolClose, "")];
      Run(st, evs).msg ==
      st.msg.(calls := st.msg.calls + [Call(name, args + Repeat('}', BraceDepth(args)), id)])
    ensures Lex(args, false).Some? && NetBraces(Lex(args, false).value) == 0 ==>
            args + Repeat('}', BraceDepth(args)) == args
  {
    hide TrimTrailing, IdText, BraceScan, Lex, NetBraces;
    TrimIs(name, b);
    TrimIs(args, b);
    QuotedId(id, b);
    var st1 := Step(Step(st, Event(ToolOpen, "")), Event(ToolName, name + b));
    var c1 := Call(name, "{", "");
    assert st1 == State(st.msg.(calls := st.msg.calls + [c1]), None, Last, 0, false, "");
    var st2 := Step(st1, Event(ToolId, "\"" + id + "\"" + b));
    assert st2 == st1.(msg := st.msg.(calls := st.msg.calls + [c1.(id := id)]));
    var st3 := Step(st2, Event(ToolArgs, args + b));
    assert st3 == st1.(msg := st.msg.(calls := st.msg.calls + [Call(name, args, id)]));
    var st4 := Step(st3, Event(ToolClose, ""));
    RunFive(st, Event(ToolOpen, ""), Event(ToolName, name + b), Event(ToolId, "\"" + id + "\"" + b),
            Event(ToolArgs, args + b), Event(ToolClose, ""));
    if Lex(args, false).Some? && NetBraces(Lex(args, false).value) == 0 { BraceTokens(0, args); }
  }

  lemma RunFive(st: State, a: Event, b: Event, c: Event, d: Event, e: Event)
    ensures Run(st, [a, b, c, d, e]) == Step(Step(Step(Step(Step(st, a), b), c), d), e)
  {
    hide Step;
    assert [a, b, c, d, e][1..] == [b, c, d, e];
    RunFour(Step(st, a), [b, c, d, e]);
  }
}
