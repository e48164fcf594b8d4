/** gemma4_to_json: the JSON text of a Gemma 4 value tree, complete or still growing. */
module Gemma4 {
  import opened Options
  import opened Json
  import QuotesMeaning

  datatype Rule =
    | Number | Bool | NullValue | StringContent | StringValue | Array
    | KeyName | Key | KeyValue | Dict | AnyValue | OtherRule

  /** A node of the syntax tree; partial marks the right spine of an unfinished parse. */
  datatype Node = Node(rule: Rule, text: string, children: seq<Node>, partial: bool)

  function Concat(ns: seq<Node>): string {
    if ns == [] then "" else ToJson(ns[0]) + Concat(ns[1..])
  }

  function Commas(ns: seq<Node>): string {
    if ns == [] then ""
    else ToJson(ns[0]) + (if |ns| > 1 then "," else "") + Commas(ns[1..])
  }

  function ToJson(n: Node): string {
    if n.text == "" then ""
    else match n.rule
      case Number => n.text
      case Bool => n.text
      case NullValue => n.text
      case StringContent => Escape(n.text)
      case StringValue =>
        if n.children == [] then "\""
        else "\"" + ToJson(n.children[0]) + (if n.partial then "" else "\"")
      case Array => "[" + Commas(n.children) + (if n.partial then "" else "]")
      case KeyName => n.text
      case Key =>
        "\"" + (if n.children == [] then "" else Escape(ToJson(n.children[0]))) + (if n.partial then "" else "\":")
      case KeyValue => Concat(n.children)
      case Dict => "{" + Commas(n.children) + (if n.partial then "" else "}")
      case AnyValue => if n.children == [] then "" else ToJson(n.children[0])
      case OtherRule => ""
  }

  // ---- growing trees ----

  /** The rules whose nodes print something that closes them. */
  predicate Closes(r: Rule) { r == StringValue || r == Array || r == Key || r == Dict }

  /** c is n cut somewhere along its right spine: the last node kept may be cut again.
      A node before anything was read has no text, and may be of another rule; nodes on
      the cut are partial if they print a closing. */
  predicate CutOf(c: Node, n: Node)
    decreases c
  {
    c == n || c.text == "" ||
    (&& c.rule == n.rule && c.text <= n.text && (Closes(c.rule) ==> c.partial)
     && |c.children| <= |n.children|
     && (forall i | 0 <= i < |c.children| - 1 :: c.children[i] == n.children[i])
     && (c.children != [] ==> CutOf(c.children[|c.children| - 1], n.children[|c.children| - 1])))
  }

  /** cs is ns with some nodes missing at the end and the last kept one cut. */
  predicate CutSeq(cs: seq<Node>, ns: seq<Node>) {
    && |cs| <= |ns|
    && (forall i | 0 <= i < |cs| - 1 :: cs[i] == ns[i])
    && (cs != [] ==> ToJson(cs[|cs| - 1]) <= ToJson(ns[|cs| - 1]))
  }

  lemma {:induction false} CommasCut(cs: seq<Node>, ns: seq<Node>)
    requires CutSeq(cs, ns)
    ensures Commas(cs) <= Commas(ns)
    decreases |cs|
  {
    hide ToJson;
    if |cs| == 1 {
      assert cs[1..] == [];
      assert Commas(cs) == ToJson(cs[0]) + "" + "";
    } else if |cs| > 1 {
      CommasCut(cs[1..], ns[1..]);
      PrefixAppend(ToJson(cs[0]) + ",", Commas(cs[1..]), Commas(ns[1..]));
    }
  }

  lemma {:induction false} ConcatCut(cs: seq<Node>, ns: seq<Node>)
    requires CutSeq(cs, ns)
    ensures Concat(cs) <= Concat(ns)
    decreases |cs|
  {
    hide ToJson;
    if |cs| == 1 {
      assert cs[1..] == [];
      assert Concat(cs) == ToJson(cs[0]) + "";
    } else if |cs| > 1 {
      ConcatCut(cs[1..], ns[1..]);
      PrefixAppend(ToJson(cs[0]), Concat(cs[1..]), Concat(ns[1..]));
    }
  }

  /** A tree cut along its right spine prints a prefix of what the tree prints. */
  lemma {:induction false} CutPrintsPrefix(c: Node, n: Node)
    requires CutOf(c, n)
    ensures ToJson(c) <= ToJson(n)
    decreases c
  {
    if c != n && c.text != "" {
      if c.children != [] {
        CutPrintsPrefix(c.children[|c.children| - 1], n.children[|c.children| - 1]);
      }
      CutNode(c, n);
    }
  }

  lemma CutNode(c: Node, n: Node)
    requires c.rule == n.rule && c.text <= n.text && c.text != "" && (Closes(c.rule) ==> c.partial)
    requires CutSeq(c.children, n.children)
    ensures ToJson(c) <= ToJson(n)
  {
    hide Concat, Commas, Escape;
    if c.rule == Array || c.rule == Dict {
      CutGroup(c, n);
    } else if c.rule == StringValue || c.rule == Key {
      CutQuoted(c, n);
    } else {
      ConcatCut(c.children, n.children);
      EscapePrefix(c.text, n.text);
    }
  }

  lemma CutGroup(c: Node, n: Node)
    requires c.rule == n.rule && (c.rule == Array || c.rule == Dict) && c.partial && c.text != "" && n.text != ""
    requires CutSeq(c.children, n.children)
    ensures ToJson(c) <= ToJson(n)
  {
    hide Commas;
    CommasCut(c.children, n.children);
    PrefixAppend(if c.rule == Array then "[" else "{", Commas(c.children), Commas(n.children));
  }

  lemma CutQuoted(c: Node, n: Node)
    requires c.rule == n.rule && (c.rule == StringValue || c.rule == Key) && c.partial && c.text != "" && n.text != ""
    requires CutSeq(c.children, n.children)
    ensures ToJson(c) <= ToJson(n)
  {
    hide Escape;
    var cs, ns := c.children, n.children;
    if cs != [] {
      EscapePrefix(ToJson(cs[0]), ToJson(ns[0]));
      PrefixAppend("\"", ToJson(cs[0]), ToJson(ns[0]));
      PrefixAppend("\"", Escape(ToJson(cs[0])), Escape(ToJson(ns[0])));
    }
  }

  // ---- complete trees ----

  datatype Value =
    | VNum(text: string) | VBool(b: bool) | VNull | VStr(s: string)
    | VArr(elems: seq<Value>) | VObj(members: seq<Member>)

  datatype Member = Member(name: string, value: Value)

  /** n is the complete parse of v. */
  predicate Represents(n: Node, v: Value)
    decreases n
  {
    n.rule == AnyValue && n.text != "" && |n.children| == 1 &&
    var c := n.children[0];
    c.text != "" && !c.partial &&
    match v
    case VNum(text) => c.rule == Number && c.text == text && IsNumber(text)
    case VBool(b) => c.rule == Bool && c.text == if b then "true" else "false"
    case VNull => c.rule == NullValue && c.text == "null"
    case VStr(s) =>
      c.rule == StringValue && |c.children| == 1 && c.children[0].rule == StringContent && c.children[0].text == s
    case VArr(vs) =>
      c.rule == Array && |c.children| == |vs| && forall i | 0 <= i < |vs| :: Represents(c.children[i], vs[i])
    case VObj(ms) =>
      c.rule == Dict && |c.children| == |ms| && forall i | 0 <= i < |ms| :: RepresentsMember(c.children[i], ms[i])
  }

  predicate RepresentsMember(n: Node, m: Member)
    decreases n
  {
    && n.rule == KeyValue && n.text != "" && |n.children| == 2
    && RepresentsKey(n.children[0], m.name)
    && Represents(n.children[1], m.value)
  }

  predicate RepresentsKey(key: Node, name: string) {
    && key.rule == Key && key.text != "" && !key.partial
    && |key.children| == 1 && key.children[0].rule == KeyName && key.children[0].text == name
  }

  function Tokens(v: Value): seq<Token> {
    match v
    case VNum(text) => [Num(text)]
    case VBool(b) => [if b then True else False]
    case VNull => [Null]
    case VStr(s) => [Str(s)]
    case VArr(vs) => [Punct('[')] + ElemTokens(vs) + [Punct(']')]
    case VObj(ms) => [Punct('{')] + MemberTokens(ms) + [Punct('}')]
  }

  function ElemTokens(vs: seq<Value>): seq<Token> {
    if vs == [] then []
    else Tokens(vs[0]) + (if |vs| > 1 then [Punct(',')] else []) + ElemTokens(vs[1..])
  }

  function MemberTokens(ms: seq<Member>): seq<Token> {
    if ms == [] then []
    else
      var first := [Str(ms[0].name), Punct(':')] + Tokens(ms[0].value);
      first + (if |ms| > 1 then [Punct(',')] else []) + MemberTokens(ms[1..])
  }

  lemma LexClose(c: char)
    requires IsPunct(c)
    ensures Lex([c], false) == Some([Punct(c)])
  {
    LexPunct(c, "");
    LexNothing();
    assert [c] + "" == [c] && [Punct(c)] + [] == [Punct(c)];
  }

  lemma LexWord(a: string)
    requires a != "" && AtomToken(a, false).Some? && forall i | 0 <= i < |a| :: IsAtom(a[i])
    ensures Lex(a, false) == Some([AtomToken(a, false).value])
  {
    hide AtomToken, Lex;
    LexAtom(a, "", false);
    assert a + "" == a;
    LexNothing();
    assert [AtomToken(a, false).value] + [] == [AtomToken(a, false).value];
  }

  lemma LexQuote(s: string)
    ensures Lex(Quote(s), false) == Some([Str(s)])
  {
    QuoteReads(s, "");
    LexNothing();
    assert Quote(s) + "" == Quote(s) && [Str(s)] + [] == [Str(s)];
  }

  /** Brackets around a text that reads as ts. */
  lemma LexWrapped(open: char, close: char, s: string, ts: seq<Token>)
    requires IsPunct(open) && IsPunct(close) && Lex(s, false) == Some(ts)
    ensures Lex([open] + s + [close], false) == Some([Punct(open)] + ts + [Punct(close)])
  {
    hide Lex;
    LexClose(close);
    LexAppend(s, [close], false);
    LexPunct(open, s + [close]);
    assert [open] + s + [close] == [open] + (s + [close]);
    assert [Punct(open)] + (ts + [Punct(close)]) == [Punct(open)] + ts + [Punct(close)];
  }

  /** One item, a comma if more follow, and the rest. */
  lemma LexItem(s: string, ts: seq<Token>, more: bool, rest: string, us: seq<Token>)
    requires Lex(s, false) == Some(ts) && Lex(rest, false) == Some(us) && (!more ==> rest == "")
    ensures Lex(s + (if more then "," else "") + rest, false) == Some(ts + (if more then [Punct(',')] else []) + us)
  {
    hide Lex;
    if more {
      LexPunct(',', rest);
      LexAppend(s, "," + rest, false);
      assert s + "," + rest == s + ("," + rest);
      assert ts + ([Punct(',')] + us) == ts + [Punct(',')] + us;
    } else {
      LexNothing();
      assert s + "" + rest == s && ts + [] + us == ts;
    }
  }

  /** A complete tree prints JSON text with the tokens of its value. */
  lemma {:induction false} TreeReads(n: Node, v: Value)
    requires Represents(n, v)
    ensures Lex(ToJson(n), false) == Some(Tokens(v))
    decreases n
  {
    hide Lex, ElemTokens, MemberTokens, Commas, IsNumber, AtomToken;
    var c := n.children[0];
    assert ToJson(n) == ToJson(c);
    match v
    case VNum(text) => NumberReads(text);
    case VBool(b) =>
      KeywordReads(c.text);
      assert AtomToken(c.text, false) == Some(if b then True else False) by { KeywordToken(c.text); }
    case VNull =>
      KeywordReads(c.text);
      KeywordToken(c.text);
    case VStr(s) => StringReads(c, s);
    case VArr(vs) =>
      ElemsRead(c.children, vs);
      LexWrapped('[', ']', Commas(c.children), ElemTokens(vs));
    case VObj(ms) =>
      MembersRead(c.children, ms);
      LexWrapped('{', '}', Commas(c.children), MemberTokens(ms));
  }

  lemma StringReads(c: Node, s: string)
    requires c.rule == StringValue && c.text != "" && !c.partial
    requires |c.children| == 1 && c.children[0].rule == StringContent && c.children[0].text == s
    ensures Lex(ToJson(c), false) == Some([Str(s)])
  {
    hide Lex;
    assert ToJson(c.children[0]) == Escape(s);
    assert ToJson(c) == Quote(s);
    LexQuote(s);
  }

  predicate IsKeyword(a: string) { a == "true" || a == "false" || a == "null" }

  lemma KeywordReads(a: string)
    requires IsKeyword(a)
    ensures Lex(a, false) == Some([AtomToken(a, false).value])
  {
    hide Lex;
    LexWord(a);
  }

  lemma KeywordToken(a: string)
    requires IsKeyword(a)
    ensures AtomToken(a, false) == Some(if a == "true" then True else if a == "false" then False else Null)
  {
  }

  lemma NumberReads(a: string)
    requires IsNumber(a)
    ensures Lex(a, false) == Some([Num(a)])
  {
    hide Lex;
    NumberToken(a);
    LexWord(a);
  }

  lemma NumberStart(a: string)
    requires IsNumber(a)
    ensures a != "" && (a[0] == '-' || IsDigit(a[0]))
  {
    hide IsFraction;
  }

  lemma NumberToken(a: string)
    requires IsNumber(a)
    ensures a != "" && AtomToken(a, false) == Some(Num(a)) && forall i | 0 <= i < |a| :: IsAtom(a[i])
  {
    hide IsNumber;
    NumberStart(a);
    QuotesMeaning.NumberChars(a);
  }

  lemma {:induction false} ElemsRead(ns: seq<Node>, vs: seq<Value>)
    requires |ns| == |vs| && forall i | 0 <= i < |vs| :: Represents(ns[i], vs[i])
    ensures Lex(Commas(ns), false) == Some(ElemTokens(vs))
    decreases ns
  {
    hide Lex, ToJson, Represents, Tokens;
    if ns == [] {
      LexNothing();
    } else {
      TreeReads(ns[0], vs[0]);
      ElemsRead(ns[1..], vs[1..]);
      LexItem(ToJson(ns[0]), Tokens(vs[0]), |vs| > 1, Commas(ns[1..]), ElemTokens(vs[1..]));
    }
  }

  lemma {:induction false} MembersRead(ns: seq<Node>, ms: seq<Member>)
    requires |ns| == |ms| && forall i | 0 <= i < |ms| :: RepresentsMember(ns[i], ms[i])
    ensures Lex(Commas(ns), false) == Some(MemberTokens(ms))
    decreases ns
  {
    hide Lex, ToJson, RepresentsMember, Tokens;
    if ns == [] {
      LexNothing();
    } else {
      MemberReads(ns[0], ms[0]);
      MembersRead(ns[1..], ms[1..]);
      LexItem(ToJson(ns[0]), [Str(ms[0].name), Punct(':')] + Tokens(ms[0].value), |ms| > 1,
              Commas(ns[1..]), MemberTokens(ms[1..]));
    }
  }

  lemma {:induction false} MemberReads(n: Node, m: Member)
    requires RepresentsMember(n, m)
    ensures Lex(ToJson(n), false) == Some([Str(m.name), Punct(':')] + Tokens(m.value))
    decreases n
  {
    hide Lex, Tokens, ToJson, RepresentsKey, Represents;
    var text := ToJson(n.children[1]);
    TreeReads(n.children[1], m.value);
    KeyPrints(n.children[0], m.name);
    MemberPrints(n);
    LexMember(m.name, text, Tokens(m.value));
  }

  lemma LexMember(name: string, text: string, ts: seq<Token>)
    requires Lex(text, false) == Some(ts)
    ensures Lex(Quote(name) + ":" + text, false) == Some([Str(name), Punct(':')] + ts)
  {
    hide Lex, Quote;
    LexPunct(':', text);
    QuoteReads(name, ":" + text);
    assert Quote(name) + ":" + text == Quote(name) + (":" + text);
    assert [Str(name)] + ([Punct(':')] + ts) == [Str(name), Punct(':')] + ts;
  }

  lemma MemberPrints(n: Node)
    requires n.rule == KeyValue && n.text != "" && |n.children| == 2
    ensures ToJson(n) == ToJson(n.children[0]) + ToJson(n.children[1])
  {
    var value := n.children[1];
    assert n.children[1..] == [value];
    assert Concat([value]) == ToJson(value) by { OneChild(value); }
    assert ToJson(n) == Concat(n.children);
    hide ToJson;
  }

  lemma OneChild(n: Node)
    ensures Concat([n]) == ToJson(n)
  {
    hide ToJson;
    assert [n][1..] == [];
    assert ToJson(n) + "" == ToJson(n);
  }

  lemma KeyPrints(key: Node, name: string)
    requires RepresentsKey(key, name)
    ensures ToJson(key) == Quote(name) + ":"
  {
    assert ToJson(key.children[0]) == name;
    assert "\"" + Escape(name) + "\":" == "\"" + Escape(name) + "\"" + ":";
  }

  // ---- reading tokens back ----

  datatype Parsed<T> = Parsed(value: T, rest: seq<Token>)

  function ParseValue(ts: seq<Token>): (r: Option<Parsed<Value>>)
    ensures r.Some? ==> |r.value.rest| < |ts|
    decreases |ts|, 1
  {
    if ts == [] then None
    else match ts[0]
      case Str(s) => Some(Parsed(VStr(s), ts[1..]))
      case Num(text) => Some(Parsed(VNum(text), ts[1..]))
      case True => Some(Parsed(VBool(true), ts[1..]))
      case False => Some(Parsed(VBool(false), ts[1..]))
      case Null => Some(Parsed(VNull, ts[1..]))
      case Punct(c) =>
        if c == '[' then
          if |ts| > 1 && ts[1] == Punct(']') then Some(Parsed(VArr([]), ts[2..]))
          else
            var r := ParseElems(ts[1..]);
            if r.None? then None else Some(Parsed(VArr(r.value.value), r.value.rest))
        else if c == '{' then
          if |ts| > 1 && ts[1] == Punct('}') then Some(Parsed(VObj([]), ts[2..]))
          else
            var r := ParseMembers(ts[1..]);
            if r.None? then None else Some(Parsed(VObj(r.value.value), r.value.rest))
        else None
  }

  /** One or more elements up to the closing bracket. */
  function ParseElems(ts: seq<Token>): (r: Option<Parsed<seq<Value>>>)
    ensures r.Some? ==> |r.value.rest| < |ts|
    decreases |ts|, 2
  {
    var v := ParseValue(ts);
    if v.None? || v.value.rest == [] then None
    else if v.value.rest[0] == Punct(']') then Some(Parsed([v.value.value], v.value.rest[1..]))
    else if v.value.rest[0] == Punct(',') then
      var more := ParseElems(v.value.rest[1..]);
      if more.None? then None else Some(Parsed([v.value.value] + more.value.value, more.value.rest))
    else None
  }

  function ParseMembers(ts: seq<Token>): (r: Option<Parsed<seq<Member>>>)
    ensures r.Some? ==> |r.value.rest| < |ts|
    decreases |ts|, 2
  {
    if |ts| < 2 || !ts[0].Str? || ts[1] != Punct(':') then None else
    var v := ParseValue(ts[2..]);
    if v.None? || v.value.rest == [] then None
    else
      var m := Member(ts[0].v, v.value.value);
      if v.value.rest[0] == Punct('}') then Some(Parsed([m], v.value.rest[1..]))
      else if v.value.rest[0] == Punct(',') then
        var more := ParseMembers(v.value.rest[1..]);
        if more.None? then None else Some(Parsed([m] + more.value.value, more.value.rest))
      else None
  }

  /** A JSON reader. */
  function ReadJson(s: string): Option<Value> {
    var ts := Lex(s, false);
    if ts.None? then None else
    var r := ParseValue(ts.value);
    if r.None? || r.value.rest != [] then None else Some(r.value.value)
  }

  lemma FirstToken(v: Value)
    ensures Tokens(v) != [] && Tokens(v)[0] != Punct(']') && Tokens(v)[0] != Punct('}')
  {
  }

  lemma {:induction false} ParseTokens(v: Value, rest: seq<Token>)
    ensures ParseValue(Tokens(v) + rest) == Some(Parsed(v, rest))
    decreases v
  {
    hide ElemTokens, MemberTokens, ParseElems, ParseMembers;
    match v
    case VArr(vs) =>
      if vs == [] {
        ParseEmpty(v, rest);
      } else {
        ParseElemTokens(vs, rest);
        ElemsStart(vs, rest);
        ParseArray(vs, rest);
      }
    case VObj(ms) =>
      if ms == [] {
        ParseEmpty(v, rest);
      } else {
        ParseMemberTokens(ms, rest);
        MembersStart(ms, rest);
        ParseObject(ms, rest);
      }
    case _ => assert (Tokens(v) + rest)[1..] == rest;
  }

  lemma ParseEmpty(v: Value, rest: seq<Token>)
    requires v == VArr([]) || v == VObj([])
    ensures ParseValue(Tokens(v) + rest) == Some(Parsed(v, rest))
  {
    var open, close := if v == VArr([]) then '[' else '{', if v == VArr([]) then ']' else '}';
    assert Tokens(v) == [Punct(open), Punct(close)];
    assert ([Punct(open), Punct(close)] + rest)[2..] == rest;
  }

  lemma ParseArray(vs: seq<Value>, rest: seq<Token>)
    requires vs != []
    requires (ElemTokens(vs) + [Punct(']')] + rest)[0] != Punct(']')
    requires ParseElems(ElemTokens(vs) + [Punct(']')] + rest) == Some(Parsed(vs, rest))
    ensures ParseValue(Tokens(VArr(vs)) + rest) == Some(Parsed(VArr(vs), rest))
  {
    hide ElemTokens, ParseElems;
    var ts, inner := Tokens(VArr(vs)) + rest, ElemTokens(vs) + [Punct(']')] + rest;
    assert ts == [Punct('[')] + inner;
    assert ts[1..] == inner && ts[1] == inner[0];
  }

  lemma ParseObject(ms: seq<Member>, rest: seq<Token>)
    requires ms != []
    requires (MemberTokens(ms) + [Punct('}')] + rest)[0] != Punct('}')
    requires ParseMembers(MemberTokens(ms) + [Punct('}')] + rest) == Some(Parsed(ms, rest))
    ensures ParseValue(Tokens(VObj(ms)) + rest) == Some(Parsed(VObj(ms), rest))
  {
    hide MemberTokens, ParseMembers;
    var ts, inner := Tokens(VObj(ms)) + rest, MemberTokens(ms) + [Punct('}')] + rest;
    assert ts == [Punct('{')] + inner;
    assert ts[1..] == inner && ts[1] == inner[0];
  }

  lemma MembersStart(ms: seq<Member>, rest: seq<Token>)
    requires ms != []
    ensures (MemberTokens(ms) + [Punct('}')] + rest)[0] != Punct('}')
  {
    hide Tokens;
    assert MemberTokens(ms)[0] == Str(ms[0].name);
  }

  lemma ElemsStart(vs: seq<Value>, rest: seq<Token>)
    requires vs != []
    ensures (ElemTokens(vs) + [Punct(']')] + rest)[0] != Punct(']')
  {
    hide Tokens;
    FirstToken(vs[0]);
    assert ElemTokens(vs)[0] == Tokens(vs[0])[0];
  }

  lemma {:induction false} ParseElemTokens(vs: seq<Value>, rest: seq<Token>)
    requires vs != []
    ensures ParseElems(ElemTokens(vs) + [Punct(']')] + rest) == Some(Parsed(vs, rest))
    decreases vs
  {
    hide Tokens, ParseValue, ElemTokens, ParseElems;
    ElemsSplit(vs, rest);
    if |vs| == 1 {
      var tail := [Punct(']')] + rest;
      ParseTokens(vs[0], tail);
      ParseElem(vs[0], Tokens(vs[0]), tail);
      assert tail[1..] == rest && [vs[0]] == vs;
    } else {
      var more := ElemTokens(vs[1..]) + [Punct(']')] + rest;
      var tail := [Punct(',')] + more;
      ParseTokens(vs[0], tail);
      ParseElem(vs[0], Tokens(vs[0]), tail);
      assert tail[1..] == more;
      ParseElemTokens(vs[1..], rest);
      assert [vs[0]] + vs[1..] == vs;
    }
  }

  /** What reading elements does with one value followed by tail. */
  lemma ParseElem(v: Value, vts: seq<Token>, tail: seq<Token>)
    requires tail != [] && ParseValue(vts + tail) == Some(Parsed(v, tail))
    ensures var r := ParseElems(vts + tail);
      && (tail[0] == Punct(']') ==> r == Some(Parsed([v], tail[1..])))
      && (tail[0] == Punct(',') && ParseElems(tail[1..]).Some? ==>
          r == Some(Parsed([v] + ParseElems(tail[1..]).value.value, ParseElems(tail[1..]).value.rest)))
  {
    hide ParseValue;
  }

  /** The first value among the tokens of several. */
  lemma ElemsSplit(vs: seq<Value>, rest: seq<Token>)
    requires vs != []
    ensures ElemTokens(vs) + [Punct(']')] + rest ==
            Tokens(vs[0]) +
            (if |vs| == 1 then [Punct(']')] + rest else [Punct(',')] + (ElemTokens(vs[1..]) + [Punct(']')] + rest))
  {
    hide Tokens;
    var first := Tokens(vs[0]);
    if |vs| == 1 {
      assert ElemTokens(vs) == first;
      assert first + [Punct(']')] + rest == first + ([Punct(']')] + rest);
    } else {
      var more := ElemTokens(vs[1..]);
      assert ElemTokens(vs) == first + [Punct(',')] + more;
      CommaSplit(first, more, ']', rest);
    }
  }

  /** What reading members does with one member followed by tail. */
  lemma ParseMember(m: Member, vts: seq<Token>, tail: seq<Token>)
    requires tail != [] && ParseValue(vts + tail) == Some(Parsed(m.value, tail))
    ensures var r := ParseMembers([Str(m.name), Punct(':')] + vts + tail);
      && (tail[0] == Punct('}') ==> r == Some(Parsed([m], tail[1..])))
      && (tail[0] == Punct(',') && ParseMembers(tail[1..]).Some? ==>
          r == Some(Parsed([m] + ParseMembers(tail[1..]).value.value, ParseMembers(tail[1..]).value.rest)))
  {
    hide ParseValue;
    var ts := [Str(m.name), Punct(':')] + vts + tail;
    assert ts[0] == Str(m.name) && ts[1] == Punct(':') && ts[2..] == vts + tail;
    assert Member(m.name, m.value) == m;
  }

  lemma {:induction false} ParseMemberTokens(ms: seq<Member>, rest: seq<Token>)
    requires ms != []
    ensures ParseMembers(MemberTokens(ms) + [Punct('}')] + rest) == Some(Parsed(ms, rest))
    decreases ms
  {
    hide Tokens, ParseValue, ParseMembers, MemberTokens;
    var m, vts := ms[0], Tokens(ms[0].value);
    MembersSplit(ms, rest);
    if |ms| == 1 {
      var tail := [Punct('}')] + rest;
      ParseTokens(m.value, tail);
      ParseMember(m, vts, tail);
      assert tail[1..] == rest && ms == [m];
    } else {
      var more := MemberTokens(ms[1..]) + [Punct('}')] + rest;
      var tail := [Punct(',')] + more;
      ParseTokens(m.value, tail);
      ParseMember(m, vts, tail);
      assert tail[1..] == more;
      ParseMemberTokens(ms[1..], rest);
      assert [m] + ms[1..] == ms;
    }
  }

  /** The first member among the tokens of several. */
  lemma MembersSplit(ms: seq<Member>, rest: seq<Token>)
    requires ms != []
    ensures MemberTokens(ms) + [Punct('}')] + rest ==
            [Str(ms[0].name), Punct(':')] + Tokens(ms[0].value) +
            (if |ms| == 1 then [Punct('}')] + rest else [Punct(',')] + (MemberTokens(ms[1..]) + [Punct('}')] + rest))
  {
    hide Tokens;
    var first := [Str(ms[0].name), Punct(':')] + Tokens(ms[0].value);
    if |ms| == 1 {
      assert MemberTokens(ms) == first;
      assert first + [Punct('}')] + rest == first + ([Punct('}')] + rest);
    } else {
      var more := MemberTokens(ms[1..]);
      assert MemberTokens(ms) == first + [Punct(',')] + more;
      CommaSplit(first, more, '}', rest);
    }
  }

  lemma CommaSplit(first: seq<Token>, more: seq<Token>, close: char, rest: seq<Token>)
    ensures first + [Punct(',')] + more + [Punct(close)] + rest ==
            first + ([Punct(',')] + (more + [Punct(close)] + rest))
  {
  }

  /** The JSON text of a complete tree reads back as the tree's value. */
  lemma TreeReadsBack(n: Node, v: Value)
    requires Represents(n, v)
    ensures ReadJson(ToJson(n)) == Some(v)
  {
    hide ToJson, Tokens, Lex;
    TreeReads(n, v);
    ParseTokens(v, []);
    assert Tokens(v) + [] == Tokens(v);
  }
}
