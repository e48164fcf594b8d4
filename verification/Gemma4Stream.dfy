/** Gemma 4 tool calls while their text grows: the messages of the mapper and the client. */
module Gemma4Stream {
  import opened Options
  import opened Diffs
  import opened Gemma4
  import opened Gemma4Parse
  import opened Json
  import opened Gemma4Meaning
  import opened Gemma4Written

  /** The opening of a tool node: the name, and a brace that is looked at only. */
  function PegOpening(name: string, s: string): (r: Match)
    ensures Fits(r, s)
  {
    var n := Literal(name, s);
    if !n.Done? then n else
    var brace := Literal("{", s[n.n..]);
    if brace.Fail? then Fail else if brace.More? then More(|s|, []) else n
  }

  /** What the rule of one tool gives: None where it fails, else the call that the mapper
      sees. The opening is atomic, so there is no call before the brace. */
  function OneTool(name: string, s: string): Option<Option<Call>> {
    var o := PegOpening(name, s);
    if o.Fail? then None
    else if o.More? then Some(None)
    else
      var args := PegGroup(s[o.n..], true);
      if args.Fail? then None else Some(Some(Call(name, ToJson(args.nodes[0]), "")))
  }

  /** The choice between the tools. */
  function AnyTool(names: seq<string>, s: string): Option<Option<Call>> {
    if names == [] then None
    else if OneTool(names[0], s).Some? then OneTool(names[0], s)
    else AnyTool(names[1..], s)
  }

  function MessageOf(call: Option<Call>): Msg { Msg("", "", if call.Some? then [call.value] else []) }

  /** Function names hold no brace. */
  predicate Named(names: seq<string>) { forall i | 0 <= i < |names| :: '{' !in names[i] }

  predicate CallGrows(c: Option<Call>, d: Option<Call>) {
    c.Some? ==> d.Some? && CallExtends(c.value, d.value)
  }

  lemma OneToolGrows(name: string, p: string, s: string)
    requires p <= s
    ensures OneTool(name, p).None? ==> OneTool(name, s).None?
    ensures OneTool(name, p).Some? && OneTool(name, s).Some? ==>
            CallGrows(OneTool(name, p).value, OneTool(name, s).value)
    ensures OneTool(name, p).Some? && OneTool(name, p).value.Some? ==> name + "{" <= s
  {
    hide PegGroup, ToJson, Literal;
    LiteralGrows(name, p, s);
    var n := Literal(name, p);
    if n.Done? {
      LiteralGrows("{", p[n.n..], s[n.n..]);
      ArgumentsGrow(p[n.n..], s[n.n..]);
      OneGroup(s[n.n..], true);
      OneGroup(p[n.n..], true);
      OpensWith(name, p);
    }
  }

  lemma OpensWith(name: string, s: string)
    ensures PegOpening(name, s).Done? ==> name + "{" <= s
  {
    if PegOpening(name, s).Done? { assert s == name + s[|name|..]; }
  }

  /** Two names with a brace behind them in one text are the same. */
  lemma SameName(a: string, b: string, s: string)
    requires '{' !in a && '{' !in b && a + "{" <= s && b + "{" <= s
    ensures a == b
  {
    FirstBrace(a, s);
    FirstBrace(b, s);
    assert a == s[..|a|] && b == s[..|b|];
  }

  lemma FirstBrace(name: string, s: string)
    requires '{' !in name && name + "{" <= s
    ensures s[|name|] == '{' && forall k | 0 <= k < |name| :: s[k] != '{'
  {
    assert s[|name|] == (name + "{")[|name|];
    assert forall k | 0 <= k < |name| :: s[k] == name[k];
  }

  /** Where a brace stands in the text, an opening that does not fail is complete. */
  lemma OpeningIsDone(name: string, s: string)
    requires '{' !in name && '{' in s && OneTool(name, s).Some?
    ensures name + "{" <= s
  {
    hide PegGroup;
    OpensWith(name, s);
    NoBraceNoPrefix(name, s);
  }

  lemma NoBraceNoPrefix(name: string, s: string)
    requires '{' !in name && '{' in s
    ensures !(s <= name)
  {
    var k :| 0 <= k < |s| && s[k] == '{';
    assert |s| <= |name| ==> name[k] != s[k];
  }

  /** While the text of a call grows, its failing is final, and its call extends what was
      shown before. */
  lemma {:induction false} ToolGrows(names: seq<string>, p: string, s: string)
    requires p <= s && Named(names)
    ensures AnyTool(names, p).None? ==> AnyTool(names, s).None?
    ensures AnyTool(names, p).Some? && AnyTool(names, s).Some? ==>
            CallGrows(AnyTool(names, p).value, AnyTool(names, s).value)
  {
    hide OneTool, CallExtends;
    if names != [] {
      OneToolGrows(names[0], p, s);
      assert Named(names[1..]);
      ToolGrows(names[1..], p, s);
      if OneTool(names[0], p).Some? && OneTool(names[0], p).value.Some? && OneTool(names[0], s).None? {
        NoOther(names[1..], names[0], s);
      }
    }
  }

  /** If the named tool fails, no other one takes its text. */
  lemma {:induction false} NoOther(names: seq<string>, a: string, s: string)
    requires Named(names) && '{' !in a && a + "{" <= s && OneTool(a, s).None?
    ensures AnyTool(names, s).None?
  {
    hide OneTool;
    if names != [] {
      if OneTool(names[0], s).Some? {
        assert (a + "{")[|a|] == s[|a|];
        OpeningIsDone(names[0], s);
        SameName(a, names[0], s);
      }
      assert Named(names[1..]);
      NoOther(names[1..], a, s);
    }
  }

  function Messages(names: seq<string>, texts: seq<string>): (ms: seq<Msg>)
    requires forall i | 0 <= i < |texts| :: AnyTool(names, texts[i]).Some?
    ensures |ms| == |texts|
  {
    seq(|texts|, i requires 0 <= i < |texts| => MessageOf(AnyTool(names, texts[i]).value))
  }

  /** A client that folds the differences of the successive messages of one growing call
      ends with exactly the last message. */
  lemma GemmaCallArrives(names: seq<string>, texts: seq<string>)
    requires Named(names) && texts != [] && texts[0] == ""
    requires forall i | 0 <= i < |texts| - 1 :: texts[i] <= texts[i + 1]
    requires forall i | 0 <= i < |texts| :: AnyTool(names, texts[i]).Some?
    ensures Follow(EMPTY_MSG, Messages(names, texts)) == Ok(Messages(names, texts)[|texts| - 1])
  {
    hide AnyTool, Follow;
    var ms := Messages(names, texts);
    forall i | 0 <= i < |ms| - 1 ensures Extends(ms[i], ms[i + 1]) {
      ToolGrows(names, texts[i], texts[i + 1]);
    }
    NothingShown(names);
    StreamDelivered(ms);
  }

  lemma NothingShown(names: seq<string>)
    requires AnyTool(names, "").Some?
    ensures MessageOf(AnyTool(names, "").value) == EMPTY_MSG
  {
  }

  // ---- a name with a brace ----

  lemma KeyWithoutColon(key: string)
    requires KeyLike(key)
    ensures PegKey(key + "}").Fail?
  {
    hide KeyRun, Literal;
    var s := key + "}";
    KeyRunIs(key, "}");
    KeyRunAll(key);
    assert s[..|key|] == key && s[|key|..] == "}";
    LiteralIs(":", "}");
  }

  lemma GroupWithoutColon(key: string)
    requires KeyLike(key)
    ensures PegGroup("{" + key + "}", true).Fail?
  {
    hide PegKey, KeyRun, Literal, Blanks, PegGroup, PegRest;
    var s, t := "{" + key + "}", key + "}";
    assert s[1..] == t && t[0] == key[0];
    KeyWithoutColon(key);
    NoBlanks(t);
    LiteralIs("}", t);
    assert IsKeyChar(key[0]);
    assert PegKeyValue(t).Fail?;
    assert PegItem(t, true) == PegKeyValue(t);
    assert PegItems(t, true).Fail?;
    assert PegInside(t, true).Fail?;
    GroupIs(s, true);
  }

  /** With the names a and a{b, the second takes over a text that was shown as a call of
      the first. */
  lemma BraceInName()
    ensures var names, p, s := ["a", "a{b"], "a{b{", "a{b{}";
      && AnyTool(names, p).Some? && AnyTool(names, s).Some?
      && !CallGrows(AnyTool(names, p).value, AnyTool(names, s).value)
  {
    hide PegGroup, Literal, ToJson;
    OneWithBrace();
    OtherWithBrace();
    OneThenOther("a", "a{b", "a{b{");
    OneThenOther("a", "a{b", "a{b{}");
    assert "{\""[1] == '"' && "{}"[1] == '}';
  }

  lemma OneThenOther(a: string, b: string, s: string)
    ensures AnyTool([a, b], s) == if OneTool(a, s).Some? then OneTool(a, s) else OneTool(b, s)
  {
    hide OneTool;
    assert [a, b][1..] == [b] && [b][1..] == [];
    assert AnyTool([], s).None?;
    assert AnyTool([b], s) == OneTool(b, s);
  }

  /** What the rule of a does with both texts. */
  lemma OneWithBrace()
    ensures OneTool("a", "a{b{").Some? && OneTool("a", "a{b{").value.Some?
    ensures "{\"" <= OneTool("a", "a{b{").value.value.arguments
    ensures OneTool("a", "a{b{}").None?
  {
    hide PegGroup, ToJson, Escape;
    CutInsideKey("b{");
    GroupWithoutColon("b{");
    assert "{" + "b{" == "{b{" && "{" + "b{" + "}" == "{b{}";
    assert "a{b{"[1..] == "{b{" && "a{b{}"[1..] == "{b{}";
  }

  lemma OtherWithBrace()
    ensures OneTool("a{b", "a{b{}").Some? && OneTool("a{b", "a{b{}").value.Some?
    ensures OneTool("a{b", "a{b{}").value.value.arguments == "{}"
  {
    hide PegGroup;
    assert "a{b{}"[3..] == "{}";
    GroupIsRead([], [], true, "");
    var n := Node(Dict, "{}", [], false);
    assert Gemma4.Commas([]) == "" && ToJson(n) == "{" + "" + "}" == "{}";
    assert Open(true) + Listed([]) + Close(true) == "{}" && "{}" + "" == "{}";
    assert PegGroup("{}", true) == Done(2, [n]);
  }
}
