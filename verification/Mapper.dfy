/** common_chat_peg_mapper: the state machine that builds a message, and the JSON
    argument text of its tool calls, from the events of a parse. */
module Mapper {
  import opened Options
  import opened Chars
  import opened Json
  import opened Quotes
  import opened Diffs

  // ---- text helpers ----

  function TrimTrailing(s: string): (r: string)
    ensures r <= s
    ensures r != "" ==> !IsBlank(r[|r| - 1])
    ensures forall i | |r| <= i < |s| :: IsBlank(s[i])
  {
    if s != "" && IsBlank(s[|s| - 1]) then TrimTrailing(s[..|s| - 1]) else s
  }

  /** trim: at most one leading blank, all trailing ones. */
  function Trim(s: string): string {
    TrimTrailing(if s != "" && IsBlank(s[0]) then s[1..] else s)
  }

  /** The state of json_brace_depth after some characters. */
  datatype Braces = Braces(depth: int, inString: bool, escaped: bool)

  const NO_BRACES := Braces(0, false, false)

  function BraceStep(b: Braces, c: char): Braces {
    if b.escaped then b.(escaped := false)
    else if c == '\\' && b.inString then b.(escaped := true)
    else if c == '"' then b.(inString := !b.inString)
    else if b.inString then b
    else if c == '{' then b.(depth := b.depth + 1)
    else if c == '}' then b.(depth := b.depth - 1)
    else b
  }

  function BraceScan(b: Braces, s: string): Braces
    decreases |s|
  {
    if s == "" then b else BraceScan(BraceStep(b, s[0]), s[1..])
  }

  function BraceDepth(s: string): int { BraceScan(NO_BRACES, s).depth }

  lemma {:induction false} ScanAppend(b: Braces, s: string, t: string)
    ensures BraceScan(b, s + t) == BraceScan(BraceScan(b, s), t)
    decreases |s|
  {
    hide BraceStep;
    if s == "" {
      assert s + t == t;
    } else {
      assert (s + t)[1..] == s[1..] + t && (s + t)[0] == s[0];
      ScanAppend(BraceStep(b, s[0]), s[1..], t);
    }
  }

  lemma {:induction false} DepthShift(b: Braces, d: int, s: string)
    ensures BraceScan(b.(depth := b.depth + d), s) == BraceScan(b, s).(depth := BraceScan(b, s).depth + d)
    decreases |s|
  {
    hide BraceStep;
    if s != "" {
      StepShift(b, d, s[0]);
      DepthShift(BraceStep(b, s[0]), d, s[1..]);
    }
  }

  lemma StepShift(b: Braces, d: int, c: char)
    ensures BraceStep(b.(depth := b.depth + d), c) == BraceStep(b, c).(depth := BraceStep(b, c).depth + d)
  {
  }

  lemma ExtraBrace(s: string)
    ensures BraceDepth("{" + s) == BraceDepth(s) + 1
  {
    assert ("{" + s)[0] == '{' && ("{" + s)[1..] == s;
    DepthShift(NO_BRACES, 1, s);
  }

  /** Outside strings nothing is escaped. */
  lemma {:induction false} EscapedInside(b: Braces, s: string)
    requires b.escaped ==> b.inString
    ensures BraceScan(b, s).escaped ==> BraceScan(b, s).inString
    decreases |s|
  {
    if s != "" { EscapedInside(BraceStep(b, s[0]), s[1..]); }
  }

  /** The counting loop of the source. */
  method JsonBraceDepth(s: string) returns (depth: int)
    ensures depth == BraceDepth(s)
  {
    depth := 0;
    var inString, escaped := false, false;
    var i := 0;
    while i < |s|
      invariant 0 <= i <= |s|
      invariant BraceScan(Braces(depth, inString, escaped), s[i..]) == BraceScan(NO_BRACES, s)
    {
      var c := s[i];
      assert s[i..][0] == c && s[i..][1..] == s[i + 1..];
      i := i + 1;
      if escaped {
        escaped := false;
        continue;
      }
      if c == '\\' && inString {
        escaped := true;
        continue;
      }
      if c == '"' {
        inString := !inString;
        continue;
      }
      if !inString {
        if c == '{' {
          depth := depth + 1;
        } else if c == '}' {
          depth := depth - 1;
        }
      }
    }
  }

  function Repeat(c: char, n: int): (s: string)
    ensures |s| == if n < 0 then 0 else n
    ensures forall i | 0 <= i < |s| :: s[i] == c
  {
    if n <= 0 then "" else Repeat(c, n - 1) + [c]
  }

  /** The loop that appends the missing braces. */
  method CloseBraces(args: string) returns (r: string)
    ensures r == args + Repeat('}', BraceDepth(args))
  {
    var d := JsonBraceDepth(args);
    ghost var depth := d;
    r := args;
    while d > 0
      invariant d <= depth && (depth > 0 ==> d >= 0)
      invariant r == args + Repeat('}', if depth > 0 then depth - d else 0)
    {
      r := r + "}";
      d := d - 1;
    }
  }

  // ---- events and states ----

  datatype Tag =
    | Reasoning | Content | Other
    | ToolOpen | ToolClose | ToolId | ToolName | ToolArgs
    | ArgOpen | ArgClose | ArgName | ArgValue | ArgStringValue

  datatype Event = Event(tag: Tag, text: string)

  /** Where current_tool points: nowhere, at the pending call, or at the last call
      of the result. */
  datatype Current = Nowhere | Pending | Last

  datatype State = State(
    msg: Msg, pending: Option<Call>, current: Current,
    argCount: nat, closingQuote: bool, buffer: string)

  const START := State(EMPTY_MSG, None, Nowhere, 0, false, "")

  /** current_tool points at a call. After an unnamed call is dropped it no longer does. */
  predicate Live(st: State) {
    match st.current
    case Nowhere => false
    case Pending => st.pending.Some?
    case Last => st.msg.calls != []
  }

  function Tool(st: State): Call
    requires Live(st)
  {
    if st.current == Pending then st.pending.value else st.msg.calls[|st.msg.calls| - 1]
  }

  function SetTool(st: State, c: Call): (st': State)
    requires Live(st)
    ensures Live(st') && Tool(st') == c && st'.current == st.current
  {
    if st.current == Pending then st.(pending := Some(c))
    else st.(msg := st.msg.(calls := st.msg.calls[|st.msg.calls| - 1 := c]))
  }

  /** args_target: the named call's arguments, or the buffer before it has a name. */
  function Target(st: State): string {
    if Live(st) && Tool(st).name != "" then Tool(st).arguments else st.buffer
  }

  function SetTarget(st: State, s: string): (st': State)
    ensures Target(st') == s
    ensures Live(st') == Live(st)
  {
    if Live(st) && Tool(st).name != "" then SetTool(st, Tool(st).(arguments := s)) else st.(buffer := s)
  }

  function IdText(text: string): string {
    var t := TrimTrailing(text);
    if |t| >= 2 && t[0] == '"' && t[|t| - 1] == '"' then t[1..|t| - 1] else t
  }

  function NameStep(st: State, text: string): State
    requires Live(st)
  {
    var c := Tool(st);
    var args := if st.buffer != "" then st.buffer else if c.arguments == "" then "{" else c.arguments;
    var st1 := SetTool(st, Call(TrimTrailing(text), args, c.id)).(buffer := "");
    if st1.pending.None? then st1
    else st1.(msg := st1.msg.(calls := st1.msg.calls + [st1.pending.value]), pending := None, current := Last)
  }

  /** What an argument name appends. */
  function NameText(text: string, count: nat): string {
    (if count > 0 then "," else "") + Quote(Trim(text)) + ":"
  }

  function ArgNameStep(st: State, text: string): State {
    var t := Target(st);
    SetTarget(st.(argCount := st.argCount + 1), (if t == "" then "{" else t) + NameText(text, st.argCount))
  }

  function StringValueStep(st: State, text: string): State {
    if text == "" then SetTarget(st.(closingQuote := true), Target(st) + "\"")
    else SetTarget(st.(closingQuote := true),
                   Target(st) + ((if st.closingQuote then "" else "\"") + Escape(text)))
  }

  /** The arguments with the pending quote and the missing braces. */
  function ClosedArguments(args: string, closingQuote: bool): (r: string)
    ensures args <= r
  {
    var a := if closingQuote then args + "\"" else args;
    a + Repeat('}', BraceDepth(a))
  }

  function CloseStep(st: State): State
    requires Live(st)
  {
    var c := Tool(st);
    var flush := c.name == "" && st.buffer != "";
    var args := if flush then st.buffer else c.arguments;
    var st1 := SetTool(st, c.(arguments := ClosedArguments(args, st.closingQuote)))
                 .(buffer := if flush then "" else st.buffer, closingQuote := false);
    if st1.pending.None? then st1
    else
      var msg := if Tool(st1).name != "" then st1.msg.(calls := st1.msg.calls + [st1.pending.value]) else st1.msg;
      st1.(msg := msg, pending := None)
  }

  function Step(st: State, ev: Event): State {
    match ev.tag
    case Reasoning => st.(msg := st.msg.(reasoning := st.msg.reasoning + ev.text))
    case Content => st.(msg := st.msg.(content := st.msg.content + ev.text))
    case Other => st
    case ToolOpen => State(st.msg, Some(NO_CALL), Pending, 0, false, "")
    case ToolId => if Live(st) then SetTool(st, Tool(st).(id := IdText(ev.text))) else st
    case ToolName => if Live(st) then NameStep(st, ev.text) else st
    case ToolArgs =>
      var t := TrimTrailing(ev.text);
      if Live(st) && t != "" && t[0] == '{' then SetTarget(st, t) else st
    case ArgOpen => st.(closingQuote := false)
    case ArgName => if Live(st) then ArgNameStep(st, ev.text) else st
    case ArgValue => if Live(st) then SetTarget(st, Target(st) + Normalize(ev.text)) else st
    case ArgStringValue => if Live(st) then StringValueStep(st, ev.text) else st
    case ArgClose =>
      if Live(st) && st.closingQuote then SetTarget(st.(closingQuote := false), Target(st) + "\"") else st
    case ToolClose => if Live(st) then CloseStep(st) else st
  }

  function Run(st: State, evs: seq<Event>): State
    decreases |evs|
  {
    if evs == [] then st else Run(Step(st, evs[0]), evs[1..])
  }

  predicate AllFiller(s: string) { forall i | 0 <= i < |s| :: IsSpace(s[i]) }

  /** Whitespace-only reasoning is dropped. */
  function Visible(m: Msg): Msg {
    if AllFiller(m.reasoning) then m.(reasoning := "") else m
  }

  /** The end of from_ast: flush a named pending call, then drop blank reasoning. */
  function Finish(st: State): Msg {
    var msg :=
      if st.pending.Some? && st.pending.value.name != "" then
        var c := st.pending.value;
        var args := if st.buffer != "" then st.buffer else c.arguments;
        var args' := if st.closingQuote && args != "" then args + "\"" else args;
        st.msg.(calls := st.msg.calls + [c.(arguments := args')])
      else st.msg;
    Visible(msg)
  }

  /** The message that a sequence of events maps to. */
  function Message(evs: seq<Event>): Msg { Finish(Run(START, evs)) }

  // ---- the mapper object ----

  class PegMapper {
    var result: Msg
    var pendingToolCall: Option<Call>
    var currentTool: Current
    var argCount: nat
    var closingQuotePending: bool
    var argsBuffer: string

    ghost function Abstract(): State
      reads this
    {
      State(result, pendingToolCall, currentTool, argCount, closingQuotePending, argsBuffer)
    }

    constructor ()
      ensures Abstract() == START
    {
      result, pendingToolCall, currentTool := EMPTY_MSG, None, Nowhere;
      argCount, closingQuotePending, argsBuffer := 0, false, "";
    }

    predicate HasTool()
      reads this
      ensures HasTool() == Live(Abstract())
    {
      match currentTool
      case Nowhere => false
      case Pending => pendingToolCall.Some?
      case Last => result.calls != []
    }

    function CurrentCall(): (c: Call)
      requires HasTool()
      reads this
      ensures c == Tool(Abstract())
    {
      if currentTool == Pending then pendingToolCall.value else result.calls[|result.calls| - 1]
    }

    /** A write through the current_tool pointer. */
    method StoreCall(c: Call)
      requires HasTool()
      modifies this`result, this`pendingToolCall
      ensures Abstract() == SetTool(old(Abstract()), c)
    {
      if currentTool == Pending {
        pendingToolCall := Some(c);
      } else {
        result := result.(calls := result.calls[|result.calls| - 1 := c]);
      }
    }

    function ArgsTarget(): (s: string)
      reads this
      ensures s == Target(Abstract())
    {
      if HasTool() && CurrentCall().name != "" then CurrentCall().arguments else argsBuffer
    }

    /** A write through the reference that args_target returns. */
    method StoreArgs(s: string)
      modifies this`result, this`pendingToolCall, this`argsBuffer
      ensures Abstract() == SetTarget(old(Abstract()), s)
    {
      if HasTool() && CurrentCall().name != "" {
        StoreCall(CurrentCall().(arguments := s));
      } else {
        argsBuffer := s;
      }
    }

    method OpenTool()
      modifies this
      ensures Abstract() == State(old(result), Some(NO_CALL), Pending, 0, false, "")
    {
      pendingToolCall := Some(NO_CALL);
      currentTool := Pending;
      argCount := 0;
      argsBuffer := "";
      closingQuotePending := false;
    }

    method NameTool(text: string)
      requires HasTool()
      modifies this
      ensures Abstract() == NameStep(old(Abstract()), text)
    {
      var c := CurrentCall().(name := TrimTrailing(text));
      if argsBuffer != "" {
        c := c.(arguments := argsBuffer);
        argsBuffer := "";
      } else if c.arguments == "" {
        c := c.(arguments := "{");
      }
      StoreCall(c);
      if pendingToolCall.Some? {
        result := result.(calls := result.calls + [pendingToolCall.value]);
        pendingToolCall := None;
        currentTool := Last;
      }
    }

    method AddArgName(text: string)
      requires HasTool()
      modifies this
      ensures Abstract() == ArgNameStep(old(Abstract()), text)
    {
      var entry := "";
      if argCount > 0 {
        entry := ",";
      }
      entry := entry + Quote(Trim(text)) + ":";
      argCount := argCount + 1;
      var target := ArgsTarget();
      if target == "" {
        target := "{";
      }
      StoreArgs(target + entry);
    }

    method AddValue(text: string, isString: bool)
      requires HasTool()
      modifies this
      ensures Abstract() == if isString then StringValueStep(old(Abstract()), text)
                            else SetTarget(old(Abstract()), old(ArgsTarget()) + Normalize(text))
    {
      hide Escape, Normalize;
      var add := "";
      if text == "" && isString {
        add := "\"";
        closingQuotePending := true;
      } else if isString {
        if !closingQuotePending {
          add := "\"";
          closingQuotePending := true;
        }
        add := add + Escape(text);
      } else if text != "" {
        add := NormalizeQuotes(text);
      }
      assert Normalize("") == "" by { NormEmpty(Outside, false); NormalizeNothing(); }
      StoreArgs(ArgsTarget() + add);
    }

    method CloseTool()
      requires HasTool()
      modifies this
      ensures Abstract() == CloseStep(old(Abstract()))
    {
      var c := CurrentCall();
      if c.name == "" && argsBuffer != "" {
        c := c.(arguments := argsBuffer);
        argsBuffer := "";
      }
      if closingQuotePending {
        c := c.(arguments := c.arguments + "\"");
        closingQuotePending := false;
      }
      var closed := CloseBraces(c.arguments);
      StoreCall(c.(arguments := closed));
      if pendingToolCall.Some? {
        if CurrentCall().name != "" {
          result := result.(calls := result.calls + [pendingToolCall.value]);
        }
        pendingToolCall := None;
      }
    }

    /** One parse event. */
    method Map(ev: Event)
      modifies this
      ensures Abstract() == Step(old(Abstract()), ev)
    {
      match ev.tag
      case Reasoning => result := result.(reasoning := result.reasoning + ev.text);
      case Content => result := result.(content := result.content + ev.text);
      case Other =>
      case ToolOpen => OpenTool();
      case ToolId => if HasTool() { StoreCall(CurrentCall().(id := IdText(ev.text))); }
      case ToolName => if HasTool() { NameTool(ev.text); }
      case ToolArgs =>
        var text := TrimTrailing(ev.text);
        if HasTool() && text != "" && text[0] == '{' { StoreArgs(text); }
      case ArgOpen => closingQuotePending := false;
      case ArgName => if HasTool() { AddArgName(ev.text); }
      case ArgValue => if HasTool() { AddValue(ev.text, false); }
      case ArgStringValue => if HasTool() { AddValue(ev.text, true); }
      case ArgClose =>
        if HasTool() && closingQuotePending {
          closingQuotePending := false;
          StoreArgs(ArgsTarget() + "\"");
        }
      case ToolClose => if HasTool() { CloseTool(); }
    }

    /** A whole parse. */
    method FromAst(evs: seq<Event>)
      modifies this
      ensures result == Finish(Run(old(Abstract()), evs))
    {
      hide Step, Normalize;
      var i := 0;
      while i < |evs|
        invariant 0 <= i <= |evs|
        invariant Run(Abstract(), evs[i..]) == Run(old(Abstract()), evs)
      {
        assert evs[i..][0] == evs[i] && evs[i..][1..] == evs[i + 1..];
        Map(evs[i]);
        i := i + 1;
      }
      if pendingToolCall.Some? && pendingToolCall.value.name != "" {
        var c := pendingToolCall.value;
        if argsBuffer != "" {
          c := c.(arguments := argsBuffer);
        }
        if closingQuotePending && c.arguments != "" {
          c := c.(arguments := c.arguments + "\"");
        }
        result := result.(calls := result.calls + [c]);
        pendingToolCall := None;
      }
      if result.reasoning != "" {
        var all := true;
        var k := 0;
        while k < |result.reasoning|
          invariant 0 <= k <= |result.reasoning|
          invariant all ==> AllFiller(result.reasoning[..k])
          invariant !all ==> !AllFiller(result.reasoning)
        {
          if !IsSpace(result.reasoning[k]) {
            all := false;
            break;
          }
          k := k + 1;
        }
        if all {
          result := result.(reasoning := "");
        }
      }
    }
  }

  lemma NormalizeNothing()
    ensures Normalize("") == Norm("", Outside, false)
  {
  }
}
