/** Tagged tool calls whose literals spell one value each: the arguments read back as the
    object of these values. */
module ToolCallsRead {
  import opened Options
  import opened Json
  import opened Quotes
  import opened Diffs
  import opened Mapper
  import opened ToolCalls
  import Gemma4

  /** The value a tagged argument was written for. */
  predicate Spells(a: Arg, m: Gemma4.Member) {
    && m.name == Trim(a.key)
    && if a.value.Text? then m.value == Gemma4.VStr(a.value.s)
       else Lex(Normalize(a.value.s), false) == Some(Gemma4.Tokens(m.value))
  }

  predicate SpellAll(args: seq<Arg>, ms: seq<Gemma4.Member>) {
    |args| == |ms| && forall i | 0 <= i < |args| :: Spells(args[i], ms[i])
  }

  lemma SpelledTokens(a: Arg, m: Gemma4.Member)
    requires Spells(a, m)
    ensures Readable(a.value) && ValueTokens(a.value) == Gemma4.Tokens(m.value)
    ensures ArgTokens(a) == [Str(m.name), Punct(':')] + Gemma4.Tokens(m.value)
  {
    hide Lex;
  }

  // ---- braces balance in the tokens of a value ----

  lemma {:induction false} ValueBalances(v: Gemma4.Value)
    ensures NetBraces(Gemma4.Tokens(v)) == 0
    decreases v
  {
    hide NetBraces, Gemma4.ElemTokens, Gemma4.MemberTokens;
    match v
    case VArr(vs) =>
      ElemsBalance(vs);
      Wrapped('[', ']', Gemma4.ElemTokens(vs));
    case VObj(ms) =>
      MembersBalance(ms);
      Wrapped('{', '}', Gemma4.MemberTokens(ms));
    case VNum(text) => NetOne(Num(text));
    case VBool(b) => NetOne(if b then True else False);
    case VNull => NetOne(Null);
    case VStr(s) => NetOne(Str(s));
  }

  lemma Wrapped(open: char, close: char, ts: seq<Token>)
    ensures NetBraces([Punct(open)] + ts + [Punct(close)]) ==
            NetBraces([Punct(open)]) + NetBraces(ts) + NetBraces([Punct(close)])
    ensures open == '{' && close == '}' ==> NetBraces([Punct(open)]) + NetBraces([Punct(close)]) == 0
    ensures open == '[' && close == ']' ==> NetBraces([Punct(open)]) + NetBraces([Punct(close)]) == 0
  {
    hide NetBraces;
    NetAppend([Punct(open)] + ts, [Punct(close)]);
    NetAppend([Punct(open)], ts);
    NetOne(Punct(open));
    NetOne(Punct(close));
  }

  lemma {:induction false} ElemsBalance(vs: seq<Gemma4.Value>)
    ensures NetBraces(Gemma4.ElemTokens(vs)) == 0
    decreases vs
  {
    hide Gemma4.Tokens;
    if vs != [] {
      var comma := if |vs| > 1 then [Punct(',')] else [];
      ValueBalances(vs[0]);
      ElemsBalance(vs[1..]);
      NetOne(Punct(','));
      hide NetBraces;
      NetAppend(Gemma4.Tokens(vs[0]) + comma, Gemma4.ElemTokens(vs[1..]));
      NetAppend(Gemma4.Tokens(vs[0]), comma);
    }
  }

  lemma {:induction false} MembersBalance(ms: seq<Gemma4.Member>)
    ensures NetBraces(Gemma4.MemberTokens(ms)) == 0
    decreases ms
  {
    hide Gemma4.Tokens;
    if ms != [] {
      var key := [Str(ms[0].name), Punct(':')];
      var comma := if |ms| > 1 then [Punct(',')] else [];
      ValueBalances(ms[0].value);
      MembersBalance(ms[1..]);
      NetOne(Punct(','));
      NetTwo(Str(ms[0].name), Punct(':'));
      hide NetBraces;
      NetAppend(key + Gemma4.Tokens(ms[0].value) + comma, Gemma4.MemberTokens(ms[1..]));
      NetAppend(key + Gemma4.Tokens(ms[0].value), comma);
      NetAppend(key, Gemma4.Tokens(ms[0].value));
    }
  }

  lemma NetTwo(t: Token, u: Token)
    ensures NetBraces([t, u]) == NetBraces([t]) + NetBraces([u])
  {
    assert [t, u] == [t] + [u];
    NetAppend([t], [u]);
  }

  // ---- the whole call ----

  lemma {:induction false} SpelledAll(args: seq<Arg>, ms: seq<Gemma4.Member>)
    requires SpellAll(args, ms)
    ensures AllReadable(args) && JoinedTokens(args) == Gemma4.MemberTokens(ms) && SurplusAll(args) == 0
  {
    hide Readable, ArgTokens, ValueTokens, Gemma4.Tokens, Spells, NetBraces, Surplus;
    forall i | 0 <= i < |args| ensures Readable(args[i].value) { SpelledTokens(args[i], ms[i]); }
    if args != [] {
      SpelledTokens(args[0], ms[0]);
      ValueBalances(ms[0].value);
      ReadableSettled(args[0].value);
      SpelledAll(args[1..], ms[1..]);
      if |args| == 1 {
        assert ms[1..] == [];
        assert ArgTokens(args[0]) + [] + [] == ArgTokens(args[0]);
      }
    }
  }

  /** A tagged call whose arguments spell the members of an object: the call added to the
      message has the printed object as its arguments, and they read back as that object. */
  lemma TaggedCallReads(st: State, name: string, args: seq<Arg>, evs: seq<Event>, ms: seq<Gemma4.Member>)
    requires TrimTrailing(name) != "" && Essential(evs) == CallEvents(name, args) && SpellAll(args, ms)
    ensures var text := "{" + Joined(args) + "}";
      && Run(st, evs).msg == st.msg.(calls := st.msg.calls + [Call(TrimTrailing(name), text, "")])
      && Gemma4.ReadJson(text) == Some(Gemma4.VObj(ms))
  {
    hide Run, Joined, Lex, JoinedTokens, AllReadable, AllSettled, SurplusAll, BraceDepth, Gemma4.ParseValue,
         Gemma4.MemberTokens, TrimTrailing, ClosedArguments, Essential, CallEvents;
    SpelledAll(args, ms);
    TaggedCall(st, name, args, evs);
    var ts := Gemma4.Tokens(Gemma4.VObj(ms));
    assert ts + [] == ts;
    Gemma4.ParseTokens(Gemma4.VObj(ms), []);
  }
}
