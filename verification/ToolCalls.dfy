/** The argument text of a tagged tool call: the JSON object that its events amount to. */
module ToolCalls {
  import opened Options
  import opened Chars
  import opened Json
  import opened Quotes
  import opened QuotesMeaning
  import opened Diffs
  import opened Mapper
  import opened Stream

  // ---- tagged calls ----

  datatype Value = Text(s: string) | Literal(s: string)

  datatype Arg = Arg(key: string, value: Value)

  function ValueEvent(v: Value): Event {
    if v.Text? then Event(ArgStringValue, v.s) else Event(ArgValue, v.s)
  }

  function ArgEvents(a: Arg): seq<Event> {
    [Event(ArgOpen, ""), Event(ArgName, a.key), ValueEvent(a.value), Event(ArgClose, "")]
  }

  function AllArgEvents(args: seq<Arg>): seq<Event> {
    if args == [] then [] else ArgEvents(args[0]) + AllArgEvents(args[1..])
  }

  /** open, name, one group of events per argument, close. */
  function CallEvents(name: string, args: seq<Arg>): seq<Event> {
    [Event(ToolOpen, ""), Event(ToolName, name)] + AllArgEvents(args) + [Event(ToolClose, "")]
  }

  function ValueText(v: Value): string { if v.Text? then Quote(v.s) else Normalize(v.s) }

  function ArgText(a: Arg): string { Quote(Trim(a.key)) + ":" + ValueText(a.value) }

  /** The arguments as a JSON printer writes them, without the outer braces. */
  function Joined(args: seq<Arg>): string {
    if args == [] then ""
    else if |args| == 1 then ArgText(args[0])
    else ArgText(args[0]) + "," + Joined(args[1..])
  }

  lemma {:induction false} JoinedAppend(args: seq<Arg>, a: Arg)
    ensures Joined(args + [a]) == Joined(args) + (if args == [] then "" else ",") + ArgText(a)
  {
    hide ArgText;
    if |args| == 0 {
      assert args + [a] == [a];
    } else {
      assert (args + [a])[1..] == args[1..] + [a];
      JoinedAppend(args[1..], a);
      if |args| == 1 {
        assert Joined(args[1..] + [a]) == ArgText(a) by { assert args[1..] + [a] == [a]; }
      }
    }
  }

  /** The state after some arguments of a named call. */
  function Building(st: State, name: string, args: seq<Arg>): State {
    State(st.msg.(calls := st.msg.calls + [Call(TrimTrailing(name), "{" + Joined(args), "")]),
          None, Last, |args|, false, "")
  }

  lemma Opened(st: State, name: string)
    ensures Step(Step(st, Event(ToolOpen, "")), Event(ToolName, name)) == Building(st, name, [])
  {
    hide TrimTrailing;
    assert "{" + Joined([]) == "{";
  }

  function Grown(st: State, s: string): State
    requires st.msg.calls != []
  {
    var n := |st.msg.calls| - 1;
    st.(msg := st.msg.(calls := st.msg.calls[n := st.msg.calls[n].(arguments := st.msg.calls[n].arguments + s)]))
  }

  predicate NamedLast(st: State) {
    st.current == Last && st.pending.None? && st.msg.calls != [] && st.msg.calls[|st.msg.calls| - 1].name != ""
  }

  lemma ArgNameGrows(st: State, key: string)
    requires NamedLast(st) && Target(st) != ""
    ensures Step(st, Event(ArgName, key)) == Grown(st.(argCount := st.argCount + 1), NameText(key, st.argCount))
  {
    hide NameText;
  }

  lemma ValueGrows(st: State, v: Value)
    requires NamedLast(st) && !st.closingQuote
    ensures Step(Step(st, ValueEvent(v)), Event(ArgClose, "")) == Grown(st, ValueText(v))
  {
    hide Normalize, Escape;
    var c := Tool(st);
    var st1 := Step(st, ValueEvent(v));
    if v.Text? {
      EscapeNothing();
      var s := if v.s == "" then "\"" else "\"" + Escape(v.s);
      assert st1 == Grown(st.(closingQuote := true), s);
      assert Quote(v.s) == s + "\"";
      assert c.arguments + s + "\"" == c.arguments + Quote(v.s);
      assert Step(st1, Event(ArgClose, "")) == Grown(st1.(closingQuote := false), "\"");
    } else {
      assert st1 == Grown(st, Normalize(v.s));
    }
  }

  lemma EscapeNothing()
    ensures Escape("") == ""
  {
  }

  lemma GrownTwice(st: State, s: string, t: string)
    requires st.msg.calls != []
    ensures Grown(Grown(st, s), t) == Grown(st, s + t)
  {
    var a := st.msg.calls[|st.msg.calls| - 1].arguments;
    assert a + s + t == a + (s + t);
  }

  /** One argument of a named call. */
  lemma OneArg(st: State, name: string, args: seq<Arg>, a: Arg)
    requires TrimTrailing(name) != ""
    ensures Run(Building(st, name, args), ArgEvents(a)) == Building(st, name, args + [a])
  {
    hide TrimTrailing, Step, NameText, Joined, ValueText, Trim, Quote;
    var b := Building(st, name, args);
    var b1 := Step(b, Event(ArgOpen, ""));
    assert b1 == b by { OpenNothing(b); }
    ArgNameGrows(b, a.key);
    var b2 := Step(b, Event(ArgName, a.key));
    ValueGrows(b2, a.value);
    GrownTwice(b.(argCount := b.argCount + 1), NameText(a.key, |args|), ValueText(a.value));
    RunFour(b, ArgEvents(a));
    JoinedAppend(args, a);
    ArgPieces(a, |args|);
    assert "{" + Joined(args) + (NameText(a.key, |args|) + ValueText(a.value)) == "{" + Joined(args + [a]);
    assert Grown(b.(argCount := b.argCount + 1), NameText(a.key, |args|) + ValueText(a.value)) ==
        Building(st, name, args + [a]);
  }

  lemma OpenNothing(st: State)
    requires !st.closingQuote
    ensures Step(st, Event(ArgOpen, "")) == st
  {
  }

  lemma ArgPieces(a: Arg, n: nat)
    ensures NameText(a.key, n) + ValueText(a.value) == (if n == 0 then "" else ",") + ArgText(a)
  {
  }

  lemma RunFour(st: State, evs: seq<Event>)
    requires |evs| == 4
    ensures Run(st, evs) == Step(Step(Step(Step(st, evs[0]), evs[1]), evs[2]), evs[3])
  {
    hide Step;
    assert evs == evs[..2] + evs[2..];
    RunAppend(st, evs[..2], evs[2..]);
    RunTwo(st, evs[..2]);
    RunTwo(Run(st, evs[..2]), evs[2..]);
  }

  lemma RunTwo(st: State, evs: seq<Event>)
    requires |evs| == 2
    ensures Run(st, evs) == Step(Step(st, evs[0]), evs[1])
  {
    hide Step;
    assert evs[1..] == [evs[1]];
    RunSingle(Step(st, evs[0]), evs[1]);
  }

  lemma {:induction false} AllArgs(st: State, name: string, done: seq<Arg>, args: seq<Arg>)
    requires TrimTrailing(name) != ""
    ensures Run(Building(st, name, done), AllArgEvents(args)) == Building(st, name, done + args)
    decreases |args|
  {
    hide TrimTrailing, Step, Building, ArgEvents;
    if args == [] {
      assert done + args == done;
    } else {
      OneArg(st, name, done, args[0]);
      RunAppend(Building(st, name, done), ArgEvents(args[0]), AllArgEvents(args[1..]));
      AllArgs(st, name, done + [args[0]], args[1..]);
      assert done + [args[0]] + args[1..] == done + args;
    }
  }

  // ---- braces and tokens ----

  /** Opening minus closing braces among the tokens. */
  function NetBraces(ts: seq<Token>): int {
    if ts == [] then 0
    else (if ts[0] == Punct('{') then 1 else if ts[0] == Punct('}') then -1 else 0) + NetBraces(ts[1..])
  }

  lemma {:induction false} NetAppend(a: seq<Token>, b: seq<Token>)
    ensures NetBraces(a + b) == NetBraces(a) + NetBraces(b)
  {
    if a == [] {
      assert a + b == b;
    } else {
      assert (a + b)[1..] == a[1..] + b;
      NetAppend(a[1..], b);
    }
  }

  function InText(d: int): Braces { Braces(d, false, false) }

  lemma BraceHexes(d: int, s: string)
    requires HexChar(s).Some?
    ensures BraceScan(Braces(d, true, false), s) == BraceScan(Braces(d, true, false), s[4..])
  {
    var b := Braces(d, true, false);
    BraceHex(b, s);
    BraceHex(b, s[1..]);
    BraceHex(b, s[2..]);
    BraceHex(b, s[3..]);
  }

  lemma BraceHex(b: Braces, s: string)
    requires s != "" && HexValue(s[0]).Some? && b.inString && !b.escaped
    ensures BraceScan(b, s) == BraceScan(b, s[1..])
  {
  }

  /** The brace scan skips the rest of a string. */
  lemma {:induction false} BraceString(d: int, s: string)
    requires StringBody(s, '"').Some?
    ensures BraceScan(Braces(d, true, false), s) == BraceScan(InText(d), StringBody(s, '"').value.rest)
    decreases |s|
  {
    hide HexChar;
    var b := Braces(d, true, false);
    if s[0] == '"' {
    } else if s[0] == '\\' {
      assert s[1..][0] == s[1] && s[1..][1..] == s[2..];
      assert BraceScan(b, s) == BraceScan(b.(escaped := true), s[1..]);
      assert BraceScan(b, s) == BraceScan(b, s[2..]);
      if s[1] == 'u' {
        BraceHexes(d, s[2..]);
        assert s[2..][4..] == s[6..];
        BraceString(d, s[6..]);
      } else {
        BraceString(d, s[2..]);
      }
    } else {
      BraceString(d, s[1..]);
    }
  }

  lemma {:induction false} BraceAtoms(d: int, s: string, k: nat)
    requires k <= |s| && forall i | 0 <= i < k :: IsAtom(s[i])
    ensures BraceScan(InText(d), s) == BraceScan(InText(d), s[k..])
  {
    if k > 0 {
      BraceAtoms(d, s[1..], k - 1);
      assert s[1..][k - 1..] == s[k..];
    }
  }

  /** On JSON text the scan counts exactly the brace tokens, and ends outside strings. */
  lemma {:induction false} BraceTokens(d: int, s: string)
    requires Lex(s, false).Some?
    ensures BraceScan(InText(d), s) == InText(d + NetBraces(Lex(s, false).value))
    decreases |s|
  {
    hide StringBody, AtomToken, BraceScan, NetBraces, AtomLen;
    BraceOne(InText(d), s);
    if s == "" {
      NetNone();
    } else if IsSpace(s[0]) {
      BraceTokens(d, s[1..]);
    } else if IsPunct(s[0]) {
      BraceTokens(if s[0] == '{' then d + 1 else if s[0] == '}' then d - 1 else d, s[1..]);
      NetCons(Punct(s[0]), Lex(s[1..], false).value);
    } else if s[0] == '"' {
      BraceString(d, s[1..]);
      var r := StringBody(s[1..], '"').value;
      BraceTokens(d, r.rest);
      NetCons(Str(r.value), Lex(r.rest, false).value);
    } else {
      var n := AtomLen(s);
      BraceAtoms(d, s, n);
      BraceTokens(d, s[n..]);
      AtomIsNoBrace(s[..n]);
      NetCons(AtomToken(s[..n], false).value, Lex(s[n..], false).value);
    }
  }

  lemma BraceOne(b: Braces, s: string)
    ensures BraceScan(b, s) == if s == "" then b else BraceScan(BraceStep(b, s[0]), s[1..])
  {
  }

  lemma NetNone()
    ensures NetBraces([]) == 0
  {
  }

  lemma NetCons(t: Token, ts: seq<Token>)
    ensures NetBraces([t] + ts) == (if t == Punct('{') then 1 else if t == Punct('}') then -1 else 0) + NetBraces(ts)
  {
    assert ([t] + ts)[1..] == ts;
  }

  lemma AtomIsNoBrace(a: string)
    requires AtomToken(a, false).Some?
    ensures !AtomToken(a, false).value.Punct?
  {
    hide IsNumber;
  }

  // ---- values that end outside strings ----

  /** The scan of the written value ends outside a string. */
  predicate Settled(v: Value) { !BraceScan(NO_BRACES, ValueText(v)).inString }

  /** Opening minus closing braces of the written value, outside its strings. */
  function Surplus(v: Value): int { BraceDepth(ValueText(v)) }

  predicate AllSettled(args: seq<Arg>) { forall i | 0 <= i < |args| :: Settled(args[i].value) }

  function SurplusAll(args: seq<Arg>): int {
    if args == [] then 0 else Surplus(args[0].value) + SurplusAll(args[1..])
  }

  lemma QuoteScan(d: int, s: string)
    ensures BraceScan(InText(d), Quote(s)) == InText(d)
  {
    hide BraceScan, Quote, Lex;
    QuoteReads(s, "");
    LexNothing();
    assert Quote(s) + "" == Quote(s) && [Str(s)] + [] == [Str(s)];
    BraceTokens(d, Quote(s));
    NetOne(Str(s));
  }

  /** Strings are settled, and their braces do not count. */
  lemma TextSettled(s: string)
    ensures Settled(Text(s)) && Surplus(Text(s)) == 0
  {
    hide BraceScan, Quote;
    QuoteScan(0, s);
  }

  lemma SettledScan(d: int, v: Value)
    requires Settled(v)
    ensures BraceScan(InText(d), ValueText(v)) == InText(d + Surplus(v))
  {
    hide BraceScan, ValueText;
    EscapedInside(NO_BRACES, ValueText(v));
    DepthShift(NO_BRACES, d, ValueText(v));
  }

  lemma ArgScan(d: int, a: Arg)
    requires Settled(a.value)
    ensures BraceScan(InText(d), ArgText(a)) == InText(d + Surplus(a.value))
  {
    hide BraceScan, ValueText, Quote, Settled, Surplus;
    var key := Quote(Trim(a.key));
    QuoteScan(d, Trim(a.key));
    PlainScan(d, ':');
    ScanAppend(InText(d), key + ":", ValueText(a.value));
    ScanAppend(InText(d), key, ":");
    SettledScan(d, a.value);
  }

  lemma PlainScan(d: int, c: char)
    requires c == ':' || c == ','
    ensures BraceScan(InText(d), [c]) == InText(d)
  {
    assert [c][1..] == "";
  }

  lemma {:induction false} JoinedScan(d: int, args: seq<Arg>)
    requires AllSettled(args)
    ensures BraceScan(InText(d), Joined(args)) == InText(d + SurplusAll(args))
    decreases |args|
  {
    hide BraceScan, ArgText, Settled, Surplus;
    if args == [] {
      BraceOne(InText(d), "");
    } else {
      ArgScan(d, args[0]);
      var e := d + Surplus(args[0].value);
      if |args| == 1 {
        assert SurplusAll(args[1..]) == 0;
      } else {
        ScanAppend(InText(d), ArgText(args[0]) + ",", Joined(args[1..]));
        ScanAppend(InText(d), ArgText(args[0]), ",");
        PlainScan(e, ',');
        JoinedScan(e, args[1..]);
      }
    }
  }

  /** Raw text without quotation marks is settled, whatever else it holds. */
  lemma RawSettled(s: string)
    requires '"' !in s && '\'' !in s
    ensures Settled(Literal(s))
  {
    NoQuoteNorm(s, false);
    NoQuoteScan(NO_BRACES, Normalize(s));
  }

  lemma {:induction false} NoQuoteNorm(s: string, prev: bool)
    requires '"' !in s && '\'' !in s
    ensures '"' !in Norm(s, Outside, prev)
    decreases |s|
  {
    if s != "" {
      var m := Scan(s, Outside, prev);
      assert s[0] in s;
      assert '"' !in m.out && m.mode == Outside;
      NoQuoteNorm(s[m.n..], m.prev);
    }
  }

  lemma {:induction false} NoQuoteScan(b: Braces, s: string)
    requires '"' !in s && !b.inString && !b.escaped
    ensures !BraceScan(b, s).inString
    decreases |s|
  {
    if s != "" {
      assert s[0] in s;
      NoQuoteScan(BraceStep(b, s[0]), s[1..]);
    }
  }

  // ---- values that are written as JSON ----

  /** A literal is written as JSON text: it is JSON, or a Python literal. */
  predicate Readable(v: Value) { v.Literal? ==> Lex(Normalize(v.s), false).Some? }

  function ValueTokens(v: Value): seq<Token>
    requires Readable(v)
  {
    if v.Text? then [Str(v.s)] else Lex(Normalize(v.s), false).value
  }

  lemma ValueReads(v: Value)
    requires Readable(v)
    ensures Lex(ValueText(v), false) == Some(ValueTokens(v))
  {
    hide Lex, Quote, Normalize;
    if v.Text? {
      assert Quote(v.s) + "" == Quote(v.s) && [Str(v.s)] + [] == [Str(v.s)];
      QuoteReads(v.s, "");
      LexNothing();
    }
  }

  /** Such values are settled, and their surplus is that of their tokens. */
  lemma ReadableSettled(v: Value)
    requires Readable(v)
    ensures Settled(v) && Surplus(v) == NetBraces(ValueTokens(v))
  {
    hide Lex, BraceScan, ValueText, ValueTokens;
    ValueReads(v);
    BraceTokens(0, ValueText(v));
  }

  /** JSON text and Python literals can be read, with the tokens they have. */
  lemma LiteralReadable(s: string)
    ensures Lex(s, false).Some? ==> Readable(Literal(s)) && ValueTokens(Literal(s)) == Lex(s, false).value
    ensures Lex(s, true).Some? ==> Readable(Literal(s)) && ValueTokens(Literal(s)) == Lex(s, true).value
  {
    hide Lex, Normalize;
    NormalizeFixesJson(s);
    if Lex(s, true).Some? { NormalizeKeepsValue(s); }
  }

  function ArgTokens(a: Arg): seq<Token>
    requires Readable(a.value)
  {
    [Str(Trim(a.key)), Punct(':')] + ValueTokens(a.value)
  }

  predicate AllReadable(args: seq<Arg>) { forall i | 0 <= i < |args| :: Readable(args[i].value) }

  function JoinedTokens(args: seq<Arg>): seq<Token>
    requires AllReadable(args)
  {
    if args == [] then []
    else if |args| == 1 then ArgTokens(args[0])
    else ArgTokens(args[0]) + [Punct(',')] + JoinedTokens(args[1..])
  }

  lemma ArgReads(a: Arg)
    requires Readable(a.value)
    ensures Lex(ArgText(a), false) == Some(ArgTokens(a))
  {
    hide Lex, Quote, Trim, ValueText, ValueTokens;
    var v := ValueText(a.value);
    ValueReads(a.value);
    LexPunct(':', v);
    QuoteReads(Trim(a.key), ":" + v);
    assert ArgText(a) == Quote(Trim(a.key)) + (":" + v);
    assert [Str(Trim(a.key))] + ([Punct(':')] + ValueTokens(a.value)) == ArgTokens(a);
  }

  lemma {:induction false} JoinedReads(args: seq<Arg>)
    requires AllReadable(args)
    ensures Lex(Joined(args), false) == Some(JoinedTokens(args))
  {
    hide Lex, ArgText, ArgTokens;
    if args == [] {
      LexNothing();
    } else {
      ArgReads(args[0]);
      if |args| > 1 {
        JoinedReads(args[1..]);
        LexPunct(',', Joined(args[1..]));
        LexAppend(ArgText(args[0]), "," + Joined(args[1..]), false);
        assert ArgText(args[0]) + ("," + Joined(args[1..])) == Joined(args);
        assert ArgTokens(args[0]) + ([Punct(',')] + JoinedTokens(args[1..])) == JoinedTokens(args);
      }
    }
  }

  lemma NetOne(t: Token)
    ensures NetBraces([t]) == if t == Punct('{') then 1 else if t == Punct('}') then -1 else 0
  {
    assert [t][1..] == [];
  }

  lemma {:induction false} ReadableAll(args: seq<Arg>)
    requires AllReadable(args)
    ensures AllSettled(args)
  {
    hide Settled, Readable;
    forall i | 0 <= i < |args| ensures Settled(args[i].value) { ReadableSettled(args[i].value); }
  }

  /** What the brace scanner reports when the call is closed. */
  lemma DepthAtClose(args: seq<Arg>)
    requires AllSettled(args)
    ensures BraceDepth("{" + Joined(args)) == 1 + SurplusAll(args)
  {
    hide BraceScan, Joined, Settled, SurplusAll;
    ExtraBrace(Joined(args));
    JoinedScan(0, args);
  }

  // ---- traces with enclosing nodes ----

  /** Nodes that only enclose others: those the mapper does not look at, and argument nodes
      that are no JSON objects. */
  predicate Encloses(ev: Event) { ev.tag == Other || (ev.tag == ToolArgs && !IsObjectText(ev.text)) }

  function Essential(evs: seq<Event>): seq<Event> {
    if evs == [] then [] else (if Encloses(evs[0]) then [] else [evs[0]]) + Essential(evs[1..])
  }

  lemma EnclosingStep(st: State, ev: Event)
    requires Encloses(ev)
    ensures Step(st, ev) == st
  {
  }

  lemma {:induction false} EssentialRuns(st: State, evs: seq<Event>)
    ensures Run(st, evs) == Run(st, Essential(evs))
    decreases |evs|
  {
    hide Step, Encloses;
    if evs != [] {
      EssentialRuns(Step(st, evs[0]), evs[1..]);
      if Encloses(evs[0]) {
        EnclosingStep(st, evs[0]);
        assert [] + Essential(evs[1..]) == Essential(evs[1..]);
      } else {
        assert ([evs[0]] + Essential(evs[1..]))[1..] == Essential(evs[1..]);
      }
    }
  }

  /** A tagged call, whatever came before it and with whatever nodes around its events: one
      call is added, and its arguments are the printed object exactly when one brace is open
      at the end; for values that end outside strings, exactly when their braces balance. If
      they can be read too, they are the object's, key by key and value by value. */
  lemma TaggedCall(st: State, name: string, args: seq<Arg>, evs: seq<Event>)
    requires TrimTrailing(name) != "" && Essential(evs) == CallEvents(name, args)
    ensures var open := "{" + Joined(args);
      var text := ClosedArguments(open, false);
      && Run(st, evs).msg == st.msg.(calls := st.msg.calls + [Call(TrimTrailing(name), text, "")])
      && (text == open + "}" <==> BraceDepth(open) == 1)
      && (AllSettled(args) ==> (text == open + "}" <==> SurplusAll(args) == 0))
      && (AllReadable(args) ==> AllSettled(args))
      && (AllReadable(args) && SurplusAll(args) == 0 ==>
            Lex(text, false) == Some([Punct('{')] + JoinedTokens(args) + [Punct('}')]))
  {
    hide Lex, Joined, Run, BraceDepth, Settled, Readable, SurplusAll, ClosedArguments, Essential, CallEvents,
         TrimTrailing;
    EssentialRuns(st, evs);
    CallRuns(st, name, args);
    ClosedIs("{" + Joined(args));
    if AllSettled(args) { DepthAtClose(args); }
    if AllReadable(args) {
      ReadableAll(args);
      if SurplusAll(args) == 0 { ObjectReads(args); }
    }
  }

  lemma ClosedIs(open: string)
    ensures ClosedArguments(open, false) == open + "}" <==> BraceDepth(open) == 1
  {
    hide BraceDepth;
    var text, d := ClosedArguments(open, false), BraceDepth(open);
    assert Repeat('}', 1) == Repeat('}', 0) + ['}'];
    if d != 1 { assert |text| != |open + "}"|; }
  }

  lemma ObjectReads(args: seq<Arg>)
    requires AllReadable(args)
    ensures Lex("{" + Joined(args) + "}", false) == Some([Punct('{')] + JoinedTokens(args) + [Punct('}')])
  {
    hide Lex, Joined, JoinedTokens;
    var open, ts := "{" + Joined(args), [Punct('{')] + JoinedTokens(args);
    JoinedReads(args);
    LexPunct('{', Joined(args));
    LexPunct('}', "");
    LexNothing();
    assert "}" + "" == "}" && [Punct('}')] + [] == [Punct('}')];
    LexAppend(open, "}", false);
    assert Join(Some(ts), Some([Punct('}')])) == Some(ts + [Punct('}')]);
  }

  lemma CallRuns(st: State, name: string, args: seq<Arg>)
    requires TrimTrailing(name) != ""
    ensures Run(st, CallEvents(name, args)).msg ==
      st.msg.(calls := st.msg.calls + [Call(TrimTrailing(name), ClosedArguments("{" + Joined(args), false), "")])
  {
    hide Joined, Step, TrimTrailing, AllArgEvents, Run, ClosedArguments;
    var opening := [Event(ToolOpen, ""), Event(ToolName, name)];
    var evs := AllArgEvents(args);
    RunTwo(st, opening);
    Opened(st, name);
    RunAppend(st, opening, evs);
    AllArgs(st, name, [], args);
    assert [] + args == args;
    RunAppend(st, opening + evs, [Event(ToolClose, "")]);
    RunSingle(Building(st, name, args), Event(ToolClose, ""));
    CloseBuilding(st, name, args);
  }

  lemma CloseBuilding(st: State, name: string, args: seq<Arg>)
    requires TrimTrailing(name) != ""
    ensures Step(Building(st, name, args), Event(ToolClose, "")).msg ==
      st.msg.(calls := st.msg.calls + [Call(TrimTrailing(name), ClosedArguments("{" + Joined(args), false), "")])
  {
    hide TrimTrailing, Joined, ClosedArguments;
  }
}
