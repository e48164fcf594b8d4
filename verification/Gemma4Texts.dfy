/** Gemma 4 tool calls, said on the characters of their text. */
module Gemma4Texts {
  import opened Options
  import opened Chars
  import opened Diffs
  import opened Json
  import opened Gemma4
  import opened Gemma4Parse
  import opened Gemma4Meaning
  import opened Gemma4Written
  import opened Gemma4Stream

  // ---- white space ----

  /** White space, and the text behind it. */
  predicate Apart(w: string, t: string) {
    (forall i | 0 <= i < |w| :: IsBlank(w[i])) && (t == "" || !IsBlank(t[0]))
  }

  lemma {:induction false} BlanksAre(w: string, t: string)
    requires Apart(w, t)
    ensures Blanks(w + t) == |w| && (w + t)[|w|..] == t
  {
    if w == "" {
      assert w + t == t;
    } else {
      assert (w + t)[1..] == w[1..] + t;
      BlanksAre(w[1..], t);
    }
  }

  /** White space behind a comma, or in front of a closing bracket, is only passed over. */
  lemma BlanksInside(w: string, t: string, dict: bool)
    requires Apart(w, t)
    ensures PegNext("," + (w + t), dict) == After(Skip(1 + |w|), PegItem(t, dict))
    ensures PegClose(w + t, dict) == After(Skip(|w|), Literal(if dict then "}" else "]", t))
  {
    hide PegItem, Blanks, Literal;
    var s := "," + (w + t);
    assert s[1..] == w + t;
    BlanksAre(w, t);
    NextIs(s, dict);
  }

  /** White space behind an opening bracket does not change what is inside. */
  lemma BlanksInFront(w: string, t: string, dict: bool)
    requires Apart(w, t)
    ensures var r, i := PegGroup((if dict then "{" else "[") + (w + t), dict), PegInside(t, dict);
      && (r.Fail? <==> i.Fail?) && (r.Done? <==> i.Done?)
      && (!r.Fail? ==> r.n == 1 + |w| + i.n && |r.nodes| == 1 && r.nodes[0].children == i.nodes)
  {
    hide PegInside, PegGroup, Blanks, Literal;
    var s := Open(dict) + (w + t);
    assert s[1..] == w + t;
    BlanksAre(w, t);
    GroupIs(s, dict);
    EmptyInFront(PegInside(t, dict));
  }

  lemma EmptyInFront(r: Match)
    ensures !r.Fail? ==> [] + ([] + r.nodes) == r.nodes
  {
  }

  /** White space behind a colon does not change the value. */
  lemma BlanksInMember(name: string, w: string, t: string)
    requires KeyLike(name) && Apart(w, t)
    ensures var r, v := PegKeyValue(name + (":" + (w + t))), PegValue(t);
      && (r.Fail? <==> v.Fail?) && (r.Done? <==> v.Done?)
      && (!r.Fail? ==> r.n == |name| + 1 + |w| + v.n && |r.nodes| == 1 && |r.nodes[0].children| == 1 + |v.nodes|
                       && r.nodes[0].children[1..] == v.nodes && ToJson(r.nodes[0].children[0]) == Quote(name) + ":")
  {
    hide PegValue, PegKey, PegKeyValue, Blanks, KeyLike, Escape, ToJson;
    var s := name + (":" + (w + t));
    KeyIsRead(name, w + t);
    KeyPrints(name);
    assert s[|name| + 1..] == w + t;
    BlanksAre(w, t);
    KeyValueIs(s);
    EmptyInFront(PegValue(t));
  }

  lemma KeyPrints(name: string)
    requires KeyLike(name)
    ensures ToJson(Node(Key, name + ":", [Node(KeyName, name, [], false)], false)) == Quote(name) + ":"
  {
    hide Escape;
    var n := Node(KeyName, name, [], false);
    assert ToJson(n) == name;
    assert "\"" + Escape(name) + "\":" == Quote(name) + ":";
  }

  // ---- a whole call ----

  /** A call bears the name of one of the tools, the text begins with that name and a brace,
      and its arguments are those that stand behind the name. */
  lemma {:induction false} ToolIs(names: seq<string>, s: string, c: Call)
    requires AnyTool(names, s) == Some(Some(c))
    ensures c.name in names && c.name + "{" <= s && c.id == ""
    ensures var args := PegGroup(s[|c.name|..], true); !args.Fail? && c.arguments == ToJson(args.nodes[0])
  {
    hide PegGroup, ToJson;
    if OneTool(names[0], s).Some? {
      OpensWith(names[0], s);
      assert PegOpening(names[0], s).n == |names[0]|;
      OneGroup(s[|names[0]|..], true);
    } else {
      ToolIs(names[1..], s, c);
    }
  }

  /** A call with one text argument, character by character. */
  lemma OneTextArgument(name: string, key: string, v: string, rest: string)
    requires KeyLike(key) && Plain(v)
    ensures OneTool(name, name + "{" + key + ":<|\"|>" + v + "<|\"|>}" + rest) ==
            Some(Some(Call(name, "{" + Quote(key) + ":" + Quote(v) + "}", "")))
  {
    hide PegGroup, Plain, KeyLike, Escape, ToJson, Inner, Literal;
    var args := [Member(key, VStr(v))];
    var text := Written(VObj(args));
    TextWritten(key, v);
    var s := name + "{" + key + ":<|\"|>" + v + "<|\"|>}" + rest;
    assert s == name + (text + rest) && s[|name|..] == text + rest && text[0] == '{';
    assert forall i | 0 <= i < |args| :: KeyLike(args[i].name) && Writable(args[i].value);
    WrittenArrives(args, rest);
    OpeningReads(name, text + rest);
    TextPrints(key, v);
  }

  lemma OpeningReads(name: string, t: string)
    requires t != "" && t[0] == '{'
    ensures PegOpening(name, name + t) == Skip(|name|)
  {
    assert (name + t)[|name|..] == t;
  }

  lemma TextWritten(key: string, v: string)
    ensures Written(VObj([Member(key, VStr(v))])) == "{" + key + ":<|\"|>" + v + "<|\"|>}"
  {
    var m := Member(key, VStr(v));
    var texts := seq(1, i requires 0 <= i < 1 => WrittenMember([m][i]));
    assert texts == [WrittenMember(m)] && texts[1..] == [];
    assert Listed(texts) == WrittenMember(m) + "" == WrittenMember(m);
    assert WrittenMember(m) == key + ":<|\"|>" + v + "<|\"|>";
  }

  lemma TextPrints(key: string, v: string)
    requires KeyLike(key)
    ensures ToJson(Inner(VObj([Member(key, VStr(v))]))) == "{" + Quote(key) + ":" + Quote(v) + "}"
  {
    hide Escape, Written, NodeOf;
    var m := Member(key, VStr(v));
    TextWritten(key, v);
    StringPrints(v);
    MemberPrints(m);
    assert Inner(VObj([m])).children == [MemberNode(m)] && [MemberNode(m)][1..] == [];
    assert Gemma4.Commas([MemberNode(m)]) == ToJson(MemberNode(m));
  }

  lemma MemberPrints(m: Member)
    requires KeyLike(m.name)
    ensures ToJson(MemberNode(m)) == Quote(m.name) + ":" + ToJson(NodeOf(m.value))
  {
    hide Quote, NodeOf, Written, ToJson;
    KeyPrints(m.name);
    var key := Node(Key, m.name + ":", [Node(KeyName, m.name, [], false)], false);
    PairPrints(WrittenMember(m), key, NodeOf(m.value), false);
  }

  lemma PairPrints(text: string, a: Node, b: Node, partial: bool)
    requires text != ""
    ensures ToJson(Node(KeyValue, text, [a, b], partial)) == ToJson(a) + ToJson(b)
  {
    TwoPrint(a, b);
    hide Concat;
  }

  lemma TwoPrint(a: Node, b: Node)
    ensures Concat([a, b]) == ToJson(a) + ToJson(b)
  {
    hide ToJson;
    assert [a, b][1..] == [b] && [b][1..] == [];
    assert Concat([b]) == ToJson(b) + "";
  }

  lemma StringPrints(v: string)
    ensures ToJson(NodeOf(VStr(v))) == Quote(v)
  {
    var n := Node(StringContent, v, [], false);
    assert Escape("") == "";
    hide Escape;
    assert ToJson(n) == Escape(v);
    var q := Node(StringValue, DELIM + v + DELIM, [n], false);
    assert ToJson(q) == "\"" + Escape(v) + "\"";
  }

  // ---- a call that is not complete ----

  /** Text that stops inside a string value: everything up to there is printed, and nothing
      is closed. */
  lemma CutInsideString(key: string, v: string)
    requires KeyLike(key) && '<' !in v
    ensures var r := PegGroup("{" + key + ":<|\"|>" + v, true);
      r.More? && |r.nodes| == 1 && ToJson(r.nodes[0]) == "{" + Quote(key) + ":\"" + Escape(v)
  {
    hide PegInside, PegKeyValue, Blanks, KeyLike, Escape, ToJson, PegGroup, Literal;
    var t := DELIM + v;
    var text := key + (":" + t);
    var s := "{" + key + ":<|\"|>" + v;
    assert s == "{" + text && s[1..] == text && s[..|s|] == s;
    var kv := Node(KeyValue, text, [KeyNode(key), OpenNode(v)], true);
    OpenMember(key, v);
    KeyStarts(key);
    InsideOpens(text, [kv]);
    NoBlanks(text);
    GroupIs(s, true);
    assert [] + ([] + [kv]) == [kv];
    OpenPrints(key, v);
    hide KeyNode, OpenNode;
    OpenDict(s, kv);
  }

  function KeyNode(key: string): Node { Node(Key, key + ":", [Node(KeyName, key, [], false)], false) }

  lemma KeyNodeIs(key: string)
    ensures KeyNode(key) == Node(Key, key + ":", [Node(KeyName, key, [], false)], false)
  {
  }

  /** The node of a string value that is not closed yet. */
  function OpenNode(v: string): Node {
    Node(AnyValue, DELIM + v, [Node(StringValue, DELIM + v, [Node(StringContent, v, [], true)], true)], true)
  }

  lemma KeyStarts(key: string)
    requires KeyLike(key)
    ensures key != "" && key[0] != '}' && !IsBlank(key[0])
  {
    assert IsKeyChar(key[0]);
  }

  lemma {:induction false} UntilOpen(v: string)
    requires '<' !in v
    ensures PegUntil(v) == More(|v|, [])
  {
    if v != "" {
      assert DELIM[0] == '<' && v[0] != '<';
      UntilOpen(v[1..]);
    }
  }

  lemma OpenString(v: string)
    requires '<' !in v
    ensures PegValue(DELIM + v) == More(|DELIM + v|, [OpenNode(v)])
  {
    hide PegUntil, PegValue;
    var t := DELIM + v;
    UntilOpen(v);
    assert t[|DELIM|..] == v && v[..|v|] == v && t[..|t|] == t;
    var n := Node(StringContent, v, [], true);
    assert PegStringTail(v) == More(|v|, [n]);
    assert Literal(DELIM, t) == Skip(|DELIM|) && [] + [n] == [n];
    assert PegString(t) == More(|t|, [Node(StringValue, t, [n], true)]);
    assert t[0] == '<' && PegByStart(t) == PegString(t);
    ValueIs(t);
  }

  lemma OpenMember(key: string, v: string)
    requires KeyLike(key) && '<' !in v
    ensures var text := key + (":" + (DELIM + v));
      PegKeyValue(text) == More(|text|, [Node(KeyValue, text, [KeyNode(key), OpenNode(v)], true)])
  {
    hide PegKey, PegKeyValue, PegValue, Blanks, KeyLike, OpenNode;
    var t := DELIM + v;
    var text := key + (":" + t);
    KeyIsRead(key, t);
    assert text[|key| + 1..] == t && text[..|text|] == text;
    NoBlanks(t);
    OpenString(v);
    KeyValueIs(text);
    assert [KeyNode(key)] + ([] + [OpenNode(v)]) == [KeyNode(key), OpenNode(v)];
  }

  /** Inside braces, a first member that is not complete is all there is. */
  lemma InsideOpens(text: string, ns: seq<Node>)
    requires text != "" && text[0] != '}' && PegKeyValue(text) == More(|text|, ns)
    ensures PegInside(text, true) == More(|text|, ns)
  {
    hide Literal, PegKeyValue, PegRest;
    LiteralIs("}", text);
    assert PegItem(text, true) == PegKeyValue(text);
    assert PegItems(text, true) == PegItem(text, true);
  }

  lemma OpenPrints(key: string, v: string)
    requires KeyLike(key)
    ensures ToJson(Node(KeyValue, key + (":" + (DELIM + v)), [KeyNode(key), OpenNode(v)], true)) ==
            Quote(key) + ":\"" + Escape(v)
  {
    hide OpenNode, KeyNode, Escape, Quote, ToJson;
    KeyPrints(key);
    assert ToJson(KeyNode(key)) == Quote(key) + ":" by { KeyNodeIs(key); }
    OpenValuePrints(v);
    PairPrints(key + (":" + (DELIM + v)), KeyNode(key), OpenNode(v), true);
  }

  lemma OpenValuePrints(v: string)
    ensures ToJson(OpenNode(v)) == "\"" + Escape(v)
  {
    var n := Node(StringContent, v, [], true);
    assert Escape("") == "";
    hide Escape;
    assert ToJson(n) == Escape(v);
    var q := Node(StringValue, DELIM + v, [n], true);
    assert ToJson(q) == "\"" + Escape(v) + "";
  }

  lemma OpenDict(s: string, kv: Node)
    requires s != ""
    ensures ToJson(Node(Dict, s, [kv], true)) == "{" + ToJson(kv)
  {
    assert [kv][1..] == [];
    assert Gemma4.Commas([kv]) == ToJson(kv) + "" + "";
  }
}
