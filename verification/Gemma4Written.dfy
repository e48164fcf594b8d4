/** Values written in the Gemma 4 syntax are parsed to trees of exactly these values. */
module Gemma4Written {
  import opened Options
  import opened Chars
  import opened Json
  import opened Gemma4
  import opened Gemma4Parse
  import opened Gemma4Meaning

  // ---- writing ----

  function Listed(texts: seq<string>): string {
    if texts == [] then "" else texts[0] + Tail(texts[1..])
  }

  /** Every text with a comma in front. */
  function Tail(texts: seq<string>): string {
    if texts == [] then "" else "," + texts[0] + Tail(texts[1..])
  }

  function Written(v: Value): string {
    match v
    case VNum(text) => text
    case VBool(b) => if b then "true" else "false"
    case VNull => "null"
    case VStr(s) => DELIM + s + DELIM
    case VArr(vs) => "[" + Listed(seq(|vs|, i requires 0 <= i < |vs| => Written(vs[i]))) + "]"
    case VObj(ms) => "{" + Listed(seq(|ms|, i requires 0 <= i < |ms| => WrittenMember(ms[i]))) + "}"
  }

  function WrittenMember(m: Member): string { m.name + ":" + Written(m.value) }

  /** The tree of a written value. */
  function NodeOf(v: Value): Node { Node(AnyValue, Written(v), [Inner(v)], false) }

  function Inner(v: Value): Node
    decreases v, 0
  {
    match v
    case VNum(text) => Leaf(Number, text)
    case VBool(_) => Leaf(Bool, Written(v))
    case VNull => Leaf(NullValue, Written(v))
    case VStr(s) => Node(StringValue, Written(v), [Node(StringContent, s, [], false)], false)
    case VArr(vs) => Node(Array, Written(v), seq(|vs|, i requires 0 <= i < |vs| => NodeOf(vs[i])), false)
    case VObj(ms) => Node(Dict, Written(v), seq(|ms|, i requires 0 <= i < |ms| => MemberNode(ms[i])), false)
  }

  function Leaf(rule: Rule, text: string): Node { Node(rule, text, [Node(OtherRule, text, [], false)], false) }

  function MemberNode(m: Member): Node {
    Node(KeyValue, WrittenMember(m),
         [Node(Key, m.name + ":", [Node(KeyName, m.name, [], false)], false), NodeOf(m.value)], false)
  }

  // ---- lists ----

  predicate Follows(rest: string) { rest != "" && (rest[0] == ',' || rest[0] == ']' || rest[0] == '}') }

  /** In a list, text is read as the item with the tree node. */
  ghost predicate ReadsAs(text: string, node: Node, dict: bool) {
    && text != "" && !IsBlank(text[0]) && text[0] != Close(dict)[0]
    && forall rest | Follows(rest) :: PegItem(text + rest, dict) == Done(|text|, [node])
  }

  ghost predicate AllReadAs(texts: seq<string>, nodes: seq<Node>, dict: bool) {
    |texts| == |nodes| && forall i | 0 <= i < |texts| :: ReadsAs(texts[i], nodes[i], dict)
  }

  lemma NoBlanks(s: string)
    requires s != "" && !IsBlank(s[0])
    ensures Blanks(s) == 0 && s[0..] == s
  {
  }

  lemma NextReads(text: string, node: Node, dict: bool, more: string)
    requires ReadsAs(text, node, dict) && Follows(more)
    ensures PegNext("," + (text + more), dict) == Done(1 + |text|, [node])
  {
    hide PegItem, PegNext, Blanks;
    var s := "," + (text + more);
    assert s[1..] == text + more;
    NoBlanks(text + more);
    NextIs(s, dict);
    assert [] + ([] + [node]) == [node];
  }

  lemma {:induction false} TailReads(texts: seq<string>, nodes: seq<Node>, dict: bool, rest: string)
    requires AllReadAs(texts, nodes, dict) && rest != "" && rest[0] == Close(dict)[0]
    ensures PegMore(Tail(texts) + rest, dict) == Done(|Tail(texts)|, nodes)
  {
    hide PegItem, PegNext, PegMore, ReadsAs, Tail;
    TailText(texts, rest);
    if texts == [] {
      NextStart(rest, dict);
      NoMore(rest, dict);
    } else {
      var more := Tail(texts[1..]) + rest;
      assert ReadsAs(texts[0], nodes[0], dict) && AllReadAs(texts[1..], nodes[1..], dict);
      NextReads(texts[0], nodes[0], dict, more);
      TailReads(texts[1..], nodes[1..], dict, rest);
      OneMore("," + texts[0], more, [nodes[0]], nodes[1..], dict);
      assert [nodes[0]] + nodes[1..] == nodes;
    }
  }

  lemma TailText(texts: seq<string>, rest: string)
    ensures texts == [] ==> Tail(texts) + rest == rest && Tail(texts) == ""
    ensures texts != [] ==> var more := Tail(texts[1..]) + rest;
      && Tail(texts) + rest == "," + texts[0] + more == "," + (texts[0] + more)
      && |Tail(texts)| == |"," + texts[0]| + |Tail(texts[1..])|
      && (Follows(rest) ==> Follows(more))
  {
    if texts == [] {
      assert "" + rest == rest;
    } else {
      var a, b := texts[0], Tail(texts[1..]);
      assert Tail(texts) == "," + a + b;
      CommaText(a, b, rest);
      if Follows(rest) { StartsTail(texts[1..], rest); }
    }
  }

  lemma CommaText(a: string, b: string, rest: string)
    ensures "," + a + b + rest == "," + a + (b + rest) == "," + (a + (b + rest))
    ensures |"," + a + b| == |"," + a| + |b|
  {
  }

  lemma StartsTail(texts: seq<string>, rest: string)
    requires Follows(rest)
    ensures Follows(Tail(texts) + rest)
  {
    if texts == [] { assert Tail(texts) + rest == rest; }
  }

  lemma NoMore(s: string, dict: bool)
    requires PegNext(s, dict).Fail?
    ensures PegMore(s, dict) == Skip(0)
  {
    hide PegNext;
  }

  lemma OneMore(t: string, more: string, ns: seq<Node>, ms: seq<Node>, dict: bool)
    requires t != "" && PegNext(t + more, dict) == Done(|t|, ns)
    requires PegMore(more, dict).Done? && PegMore(more, dict).nodes == ms
    ensures PegMore(t + more, dict) == Done(|t| + PegMore(more, dict).n, ns + ms)
  {
    hide PegNext;
    assert (t + more)[|t|..] == more;
  }

  lemma InsideReads(texts: seq<string>, nodes: seq<Node>, dict: bool, rest: string)
    requires AllReadAs(texts, nodes, dict)
    ensures PegInside(Listed(texts) + (Close(dict) + rest), dict) == Done(|Listed(texts)| + 1, nodes)
  {
    hide PegItems, Literal, ReadsAs;
    var close := Close(dict) + rest;
    var s := Listed(texts) + close;
    LiteralIs(Close(dict), s);
    if texts == [] {
      assert s == close;
    } else {
      assert s[0] != Close(dict)[0] by { FirstChar(texts, nodes, dict); }
      ItemsRead(texts, nodes, dict, rest);
    }
  }

  lemma FirstChar(texts: seq<string>, nodes: seq<Node>, dict: bool)
    requires AllReadAs(texts, nodes, dict) && texts != []
    ensures Listed(texts) != "" && Listed(texts)[0] != Close(dict)[0] && !IsBlank(Listed(texts)[0])
  {
    hide PegItem;
    assert ReadsAs(texts[0], nodes[0], dict);
  }

  lemma ItemsRead(texts: seq<string>, nodes: seq<Node>, dict: bool, rest: string)
    requires AllReadAs(texts, nodes, dict) && texts != []
    ensures PegItems(Listed(texts) + (Close(dict) + rest), dict) == Done(|Listed(texts)| + 1, nodes)
  {
    hide PegItem, PegMore, PegClose;
    var close := Close(dict) + rest;
    var t := Tail(texts[1..]) + close;
    var s := Listed(texts) + close;
    assert s == texts[0] + t;
    assert Follows(t);
    assert ReadsAs(texts[0], nodes[0], dict);
    TailReads(texts[1..], nodes[1..], dict, close);
    CloseReads(dict, rest);
    RestReads(t, Tail(texts[1..]), nodes[1..], dict, rest);
    assert s[|texts[0]|..] == t;
    hide PegRest;
    assert [nodes[0]] + nodes[1..] == nodes;
  }

  lemma RestReads(t: string, tail: string, ns: seq<Node>, dict: bool, rest: string)
    requires t == tail + (Close(dict) + rest) && PegMore(t, dict) == Done(|tail|, ns)
    ensures PegRest(t, dict) == Done(|tail| + 1, ns)
  {
    hide PegMore, PegClose;
    CloseReads(dict, rest);
    assert t[|tail|..] == Close(dict) + rest;
    assert ns + [] == ns;
  }

  lemma CloseReads(dict: bool, rest: string)
    ensures PegClose(Close(dict) + rest, dict) == Skip(1)
  {
    hide Literal;
    var s := Close(dict) + rest;
    NoBlanks(s);
    LiteralIs(Close(dict), s);
  }

  lemma GroupIsRead(texts: seq<string>, nodes: seq<Node>, dict: bool, rest: string)
    requires AllReadAs(texts, nodes, dict)
    ensures var text := Open(dict) + Listed(texts) + Close(dict);
      PegGroup(text + rest, dict) == Done(|text|, [Node(if dict then Dict else Array, text, nodes, false)])
  {
    hide PegInside, Blanks, PegGroup;
    var text := Open(dict) + Listed(texts) + Close(dict);
    var t := Listed(texts) + (Close(dict) + rest);
    assert text + rest == Open(dict) + t && (text + rest)[1..] == t;
    if texts != [] { FirstChar(texts, nodes, dict); }
    NoBlanks(t);
    InsideReads(texts, nodes, dict, rest);
    GroupIs(text + rest, dict);
    assert [] + ([] + nodes) == nodes;
    assert (text + rest)[..|text|] == text;
  }

  // ---- values ----

  lemma {:induction false} UntilFinds(s: string, rest: string)
    requires Plain(s)
    ensures PegUntil(s + (DELIM + rest)) == Skip(|s|)
  {
    var t := s + (DELIM + rest);
    if s == "" {
      assert t == DELIM + rest;
    } else {
      assert s[0..] == s;
      NotYet(s, rest);
      assert t[1..] == s[1..] + (DELIM + rest);
      forall i | 0 <= i <= |s[1..]| ensures !(DELIM <= s[1..][i..]) { assert s[1..][i..] == s[i + 1..]; }
      UntilFinds(s[1..], rest);
    }
  }

  /** The delimiter cannot start inside a text and end behind it. */
  lemma NotYet(s: string, rest: string)
    requires s != "" && !(DELIM <= s)
    ensures var t := s + (DELIM + rest); !(DELIM <= t) && !(t <= DELIM)
  {
    var t := s + (DELIM + rest);
    assert t[|s|] == '<';
    if |s| >= |DELIM| { assert t[..|DELIM|] == s[..|DELIM|]; }
  }

  lemma StringIsRead(s: string, rest: string)
    requires Plain(s)
    ensures var text := DELIM + s + DELIM;
      PegString(text + rest) == Done(|text|, [Node(StringValue, text, [Node(StringContent, s, [], false)], false)])
  {
    hide PegUntil;
    var text, t := DELIM + s + DELIM, s + (DELIM + rest);
    assert text + rest == DELIM + t && (text + rest)[|DELIM|..] == t;
    UntilFinds(s, rest);
    assert t[..|s|] == s && t[|s|..] == DELIM + rest;
    assert (text + rest)[..|text|] == text;
    assert [] + ([Node(StringContent, s, [], false)] + []) == [Node(StringContent, s, [], false)];
  }

  lemma LeafIsRead(rule: Rule, text: string, rest: string, r: Match)
    requires r == Skip(|text|)
    ensures PegLeaf(rule, text + rest, r) == Done(|text|, [Leaf(rule, text)])
  {
    assert (text + rest)[..|text|] == text;
  }

  lemma WordIsRead(w: string, rest: string)
    ensures Literal(w, w + rest) == Skip(|w|)
  {
  }

  /** The alternative for the first character reads the inner node. */
  lemma LeafWritten(v: Value, rest: string)
    requires Writable(v) && !v.VArr? && !v.VObj? && Ends(rest)
    ensures Written(v) != "" && PegByStart(Written(v) + rest) == Done(|Written(v)|, [Inner(v)])
  {
    hide PegNumber, PegString, Literal, IsNumber, Plain, PegLeaf;
    match v
    case VNum(text) =>
      NumberToken(text);
      Gemma4.NumberStart(text);
      NumberIff(text, rest);
      LeafIsRead(Number, text, rest, PegNumber(text + rest));
    case VStr(s) => StringIsRead(s, rest);
    case VBool(b) =>
      var w := if b then "true" else "false";
      WordIsRead(w, rest);
      LeafIsRead(Bool, w, rest, Literal(w, w + rest));
    case VNull =>
      WordIsRead("null", rest);
      LeafIsRead(NullValue, "null", rest, Literal("null", "null" + rest));
  }

  function Texts(v: Value): (texts: seq<string>)
    requires v.VArr? || v.VObj?
    ensures |texts| == if v.VArr? then |v.elems| else |v.members|
  {
    if v.VArr? then seq(|v.elems|, i requires 0 <= i < |v.elems| => Written(v.elems[i]))
    else seq(|v.members|, i requires 0 <= i < |v.members| => WrittenMember(v.members[i]))
  }

  lemma WrittenIs(v: Value)
    requires v.VArr? || v.VObj?
    ensures Written(v) == Open(v.VObj?) + Listed(Texts(v)) + Close(v.VObj?)
    ensures Inner(v) == Node(if v.VObj? then Dict else Array, Written(v), Inner(v).children, false)
    ensures |Inner(v).children| == |Texts(v)|
  {
  }

  /** A written value starts like one. */
  lemma WrittenStart(v: Value)
    requires Writable(v)
    ensures Written(v) != "" && !IsBlank(Written(v)[0]) && Written(v)[0] != ']'
  {
    hide IsNumber, Plain;
    if v.VNum? { Gemma4.NumberStart(v.text); }
  }

  /** A written value is parsed to its tree, whatever follows that does not go on a number. */
  lemma {:induction false} ValueWritten(v: Value, rest: string)
    requires Writable(v) && Ends(rest)
    ensures PegValue(Written(v) + rest) == Done(|Written(v)|, [NodeOf(v)])
    decreases v, 1
  {
    hide PegValue, PegGroup, PegByStart, Writable;
    var s := Written(v) + rest;
    WrittenStart(v);
    if v.VArr? || v.VObj? {
      GroupWritten(v, rest);
      ByBracket(v, rest);
    } else {
      LeafWritten(v, rest);
    }
    ValueIs(s);
    assert s[..|Written(v)|] == Written(v);
  }

  lemma ByBracket(v: Value, rest: string)
    requires v.VArr? || v.VObj?
    ensures var s := Written(v) + rest; s != "" && PegByStart(s) == PegGroup(s, v.VObj?)
  {
    hide PegGroup;
    WrittenIs(v);
  }

  lemma {:induction false} GroupWritten(v: Value, rest: string)
    requires Writable(v) && (v.VArr? || v.VObj?)
    ensures PegGroup(Written(v) + rest, v.VObj?) == Done(|Written(v)|, [Inner(v)])
    decreases v, 0
  {
    hide PegGroup, PegItem, ReadsAs;
    var texts, nodes, dict := Texts(v), Inner(v).children, v.VObj?;
    WrittenIs(v);
    forall i | 0 <= i < |texts| ensures ReadsAs(texts[i], nodes[i], dict) {
      if dict { MemberWritten(v.members[i]); } else { ElementWritten(v.elems[i]); }
    }
    GroupIsRead(texts, nodes, dict, rest);
  }

  lemma {:induction false} ElementWritten(v: Value)
    requires Writable(v)
    ensures ReadsAs(Written(v), NodeOf(v), false)
    decreases v, 2
  {
    hide PegValue, Writable, NodeOf;
    WrittenStart(v);
    forall rest | Follows(rest) ensures PegItem(Written(v) + rest, false) == Done(|Written(v)|, [NodeOf(v)]) {
      ValueWritten(v, rest);
    }
  }

  lemma {:induction false} MemberWritten(m: Member)
    requires KeyLike(m.name) && Writable(m.value)
    ensures ReadsAs(WrittenMember(m), MemberNode(m), true)
    decreases m
  {
    hide PegKeyValue, Writable, MemberNode;
    forall rest | Follows(rest)
      ensures PegItem(WrittenMember(m) + rest, true) == Done(|WrittenMember(m)|, [MemberNode(m)])
    {
      ValueWritten(m.value, rest);
      MemberIsRead(m, rest);
    }
  }

  lemma MemberIsRead(m: Member, rest: string)
    requires KeyLike(m.name) && Writable(m.value)
    requires PegValue(Written(m.value) + rest) == Done(|Written(m.value)|, [NodeOf(m.value)])
    ensures PegKeyValue(WrittenMember(m) + rest) == Done(|WrittenMember(m)|, [MemberNode(m)])
  {
    hide PegKey, PegKeyValue, PegValue, Writable, Blanks, NodeOf, KeyLike, Written;
    var t := Written(m.value) + rest;
    MemberText(m.name, Written(m.value), rest);
    KeyIsRead(m.name, t);
    WrittenStart(m.value);
    NoBlanks(t);
    KeyValueIs(WrittenMember(m) + rest);
    var key := Node(Key, m.name + ":", [Node(KeyName, m.name, [], false)], false);
    assert [key] + ([] + [NodeOf(m.value)]) == [key, NodeOf(m.value)];
  }

  lemma MemberText(name: string, w: string, rest: string)
    ensures var text := name + ":" + w;
      var s := text + rest;
      s == name + (":" + (w + rest)) && s[|name| + 1..] == w + rest && s[..|text|] == text
  {
    var text := name + ":" + w;
    assert text + rest == name + (":" + (w + rest));
  }

  lemma KeyIsRead(name: string, t: string)
    requires KeyLike(name)
    ensures PegKey(name + (":" + t)) ==
            Done(|name| + 1, [Node(Key, name + ":", [Node(KeyName, name, [], false)], false)])
  {
    hide KeyRun, Literal;
    var s := name + (":" + t);
    KeyRunIs(name, ":" + t);
    assert s[..|name|] == name && s[|name|..] == ":" + t && s[..|name| + 1] == name + ":";
    LiteralIs(":", ":" + t);
    assert [Node(KeyName, name, [], false)] + [] == [Node(KeyName, name, [], false)];
  }

  lemma {:induction false} KeyRunIs(name: string, rest: string)
    requires (forall i | 0 <= i < |name| :: IsKeyChar(name[i])) && rest != "" && !IsKeyChar(rest[0])
    ensures KeyRun(name + rest) == |name|
  {
    if name == "" {
      assert name + rest == rest;
    } else {
      assert (name + rest)[1..] == name[1..] + rest;
      KeyRunIs(name[1..], rest);
    }
  }

  // ---- the tree is the value's ----

  lemma {:induction false} NodeRepresents(v: Value)
    requires Writable(v)
    ensures Represents(NodeOf(v), v)
    decreases v
  {
    hide IsNumber, Plain;
    WrittenStart(v);
    match v
    case VArr(vs) => forall i | 0 <= i < |vs| ensures Represents(NodeOf(vs[i]), vs[i]) { NodeRepresents(vs[i]); }
    case VObj(ms) =>
      forall i | 0 <= i < |ms| ensures RepresentsMember(MemberNode(ms[i]), ms[i]) {
        NodeRepresents(ms[i].value);
        MemberRepresents(ms[i]);
      }
    case VNum(text) => Gemma4.NumberStart(text);
    case _ =>
  }

  lemma MemberRepresents(m: Member)
    requires Represents(NodeOf(m.value), m.value)
    ensures RepresentsMember(MemberNode(m), m)
  {
    hide NodeOf, Represents;
  }

  /** Arguments written in the Gemma 4 syntax, whatever follows, are parsed to a tree that
      prints JSON text reading back as the same object. */
  lemma WrittenArrives(ms: seq<Member>, rest: string)
    requires Writable(VObj(ms))
    ensures var text := Written(VObj(ms));
      && PegGroup(text + rest, true) == Done(|text|, [Inner(VObj(ms))])
      && ReadJson(ToJson(Inner(VObj(ms)))) == Some(VObj(ms))
  {
    hide PegGroup, ReadJson, Inner, Represents, Writable;
    var v := VObj(ms);
    GroupWritten(v, rest);
    NodeRepresents(v);
    WrittenStart(v);
    TreeReadsBack(NodeOf(v), v);
  }

  /** The objects that complete arguments can mean are exactly the writable ones. */
  lemma MeaningsAreWritable(ms: seq<Member>)
    ensures Writable(VObj(ms)) <==>
      exists s: string :: PegGroup(s, true).Done? && ReadJson(ToJson(PegGroup(s, true).nodes[0])) == Some(VObj(ms))
  {
    hide PegGroup, ReadJson, ToJson, Writable;
    forall s: string | PegGroup(s, true).Done? ensures |PegGroup(s, true).nodes| == 1 { OneGroup(s, true); }
    if Writable(VObj(ms)) {
      WrittenArrives(ms, "");
      assert Written(VObj(ms)) + "" == Written(VObj(ms));
    }
    if s: string :| PegGroup(s, true).Done? && ReadJson(ToJson(PegGroup(s, true).nodes[0])) == Some(VObj(ms)) {
      var ks := ArgumentsRead(s);
    }
  }

  /** Text that stops inside its first key is not marked there, yet prints what it has. */
  lemma CutInsideKey(key: string)
    requires KeyLike(key)
    ensures var name := Node(KeyName, key, [], false);
      var kv := Node(KeyValue, key, [Node(Key, key, [name], true)], true);
      var n := Node(Dict, "{" + key, [kv], true);
      PegGroup("{" + key, true) == More(|key| + 1, [n]) && ToJson(n) == "{\"" + Escape(key)
  {
    hide PegInside, Literal, Blanks, KeyRun, Escape, PegGroup;
    var s := "{" + key;
    var name := Node(KeyName, key, [], false);
    var k := Node(Key, key, [name], true);
    var kv := Node(KeyValue, key, [k], true);
    KeyOnly(key);
    NoBlanks(key);
    GroupIs(s, true);
    assert s[1..] == key && s[..|s|] == s;
    assert [] + ([] + [kv]) == [kv];
    KeyPrinted(key);
  }

  lemma KeyOnly(key: string)
    requires KeyLike(key)
    ensures var name := Node(KeyName, key, [], false);
      PegInside(key, true) == More(|key|, [Node(KeyValue, key, [Node(Key, key, [name], true)], true)])
  {
    hide Literal, PegKeyValue, PegRest;
    MemberOnly(key);
    LiteralIs("}", key);
    assert IsKeyChar(key[0]);
    assert PegItem(key, true) == PegKeyValue(key);
    assert PegItems(key, true) == PegItem(key, true);
  }

  lemma MemberOnly(key: string)
    requires KeyLike(key)
    ensures var name := Node(KeyName, key, [], false);
      PegKeyValue(key) == More(|key|, [Node(KeyValue, key, [Node(Key, key, [name], true)], true)])
  {
    hide KeyRun, PegKey, PegValue;
    KeyRunAll(key);
    KeyAtEnd(key);
    assert key[..|key|] == key;
  }

  lemma {:induction false} KeyRunAll(key: string)
    requires forall i | 0 <= i < |key| :: IsKeyChar(key[i])
    ensures KeyRun(key) == |key|
  {
    if key != "" { KeyRunAll(key[1..]); }
  }

  lemma KeyPrinted(key: string)
    requires key != ""
    ensures var name := Node(KeyName, key, [], false);
      var kv := Node(KeyValue, key, [Node(Key, key, [name], true)], true);
      ToJson(Node(Dict, "{" + key, [kv], true)) == "{\"" + Escape(key)
  {
    hide Escape;
    var name := Node(KeyName, key, [], false);
    var k := Node(Key, key, [name], true);
    var kv := Node(KeyValue, key, [k], true);
    assert ToJson(name) == key;
    assert ToJson(k) == "\"" + Escape(key) + "" == "\"" + Escape(key);
    OneChild(k);
    assert ToJson(kv) == ToJson(k);
    assert Gemma4.Commas([kv]) == ToJson(kv) + "" + Gemma4.Commas([kv][1..]);
    assert [kv][1..] == [] && ToJson(kv) + "" + "" == ToJson(kv);
  }
}
