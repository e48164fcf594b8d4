/** What a complete parse of Gemma 4 arguments means, and that written values come back. */
module Gemma4Meaning {
  import opened Options
  import opened Chars
  import opened Json
  import opened Gemma4
  import opened Gemma4Parse

  // ---- numbers ----

  /** Text that no number goes on into. */
  predicate Ends(rest: string) { rest != "" && !IsNumChar(rest[0]) }

  lemma {:induction false} DigitsBefore(t: string, rest: string)
    requires Ends(rest)
    ensures Digits(t + rest) == Digits(t)
  {
    if t == "" {
      assert t + rest == rest;
    } else if IsDigit(t[0]) {
      assert (t + rest)[1..] == t[1..] + rest;
      DigitsBefore(t[1..], rest);
    }
  }

  lemma DigitsAre(t: string, rest: string)
    requires Ends(rest)
    ensures PegDigits(t + rest) == if Digits(t) > 0 then Skip(Digits(t)) else Fail
  {
    DigitsBefore(t, rest);
  }

  /** What follows the letter of an exponent and its sign. */
  function AfterSign(t: string): string
    requires t != ""
  {
    if |t| > 1 && (t[1] == '+' || t[1] == '-') then t[2..] else t[1..]
  }

  lemma ExponentIs(t: string, rest: string)
    requires Ends(rest) && t != ""
    ensures PegExponent(t + rest) ==
            if (t[0] == 'e' || t[0] == 'E') && Digits(AfterSign(t)) > 0 then
              Skip(|t| - |AfterSign(t)| + Digits(AfterSign(t)))
            else Fail
  {
    hide PegDigits, Digits, Literal;
    var s := t + rest;
    LiteralIs("e", s);
    LiteralIs("E", s);
    assert s[1..] == t[1..] + rest;
    DigitsAre(t[1..], rest);
    if |t| > 1 {
      assert s[2..] == t[2..] + rest;
      DigitsAre(t[2..], rest);
    } else {
      assert s[1] == rest[0];
    }
  }

  lemma ExponentIff(t: string, rest: string)
    requires Ends(rest)
    ensures PegAfterFraction(t + rest) == Skip(|t|) <==> IsExponent(t)
    ensures t != "" && t[0] != 'e' && t[0] != 'E' && IsNumChar(t[0]) ==> PegAfterFraction(t + rest).Fail?
  {
    hide IsNumChar, Digits, PegExponent;
    var s := t + rest;
    if t == "" {
      NoExponent(rest);
      assert s == rest && rest[0..] == rest;
    } else {
      ExponentIs(t, rest);
      Letters();
      assert s[0..] == s && s[|t|..] == rest;
    }
  }

  lemma Letters()
    ensures IsNumChar('e') && IsNumChar('E') && IsNumChar('.')
  {
  }

  lemma NoExponent(s: string)
    requires Ends(s)
    ensures PegExponent(s).Fail? && PegFraction(s).Fail?
  {
    LiteralIs("e", s);
    LiteralIs("E", s);
    LiteralIs(".", s);
  }

  lemma FractionIff(t: string, rest: string)
    requires Ends(rest)
    ensures PegAfterInt(t + rest) == Skip(|t|) <==> IsFraction(t)
    ensures t != "" && IsDigit(t[0]) ==> PegAfterInt(t + rest).Fail?
  {
    hide IsNumChar, Digits, PegFraction, PegAfterFraction, IsExponent;
    var s := t + rest;
    assert s[0..] == s;
    if t == "" {
      NoExponent(rest);
      ExponentIff("", rest);
      assert s == rest;
    } else {
      FractionIs(t, rest);
      ExponentIff(t, rest);
      DigitIsNumChar(t[0]);
      if t[0] == '.' {
        PointIsLeft(s);
        var k := 1 + Digits(t[1..]);
        assert s[k..] == t[k..] + rest;
        ExponentIff(t[k..], rest);
      }
    }
  }

  lemma DigitIsNumChar(c: char)
    ensures IsDigit(c) ==> IsNumChar(c) && c != 'e' && c != 'E' && c != '.'
  {
  }

  lemma FractionIs(t: string, rest: string)
    requires Ends(rest) && t != ""
    ensures PegFraction(t + rest) == if t[0] == '.' && Digits(t[1..]) > 0 then Skip(1 + Digits(t[1..])) else Fail
  {
    hide PegDigits, Digits, Literal;
    var s := t + rest;
    LiteralIs(".", s);
    assert s[1..] == t[1..] + rest;
    DigitsAre(t[1..], rest);
  }

  lemma UnsignedIff(t: string, rest: string)
    requires Ends(rest)
    ensures PegUnsigned(t + rest) == Skip(|t|) <==>
            var n := Digits(t); n > 0 && (n == 1 || t[0] != '0') && IsFraction(t[n..])
  {
    hide PegInt, PegUnsigned, PegAfterInt, IsFraction, IsNumChar, Digits, After;
    IntIs(t, rest);
    FirstDigit(t);
    UnsignedIs(t, rest);
    if t != "" && IsDigit(t[0]) {
      var n := if t[0] == '0' then 1 else Digits(t);
      FractionIff(t[n..], rest);
      AfterSkip(n, PegAfterInt(t[n..] + rest), |t|);
      if n < Digits(t) { assert IsDigit(t[n..][0]); }
    }
  }

  lemma UnsignedIs(t: string, rest: string)
    ensures PegInt(t + rest).Fail? ==> PegUnsigned(t + rest).Fail?
    ensures forall n: nat | n <= |t| && PegInt(t + rest) == Skip(n) ::
      PegUnsigned(t + rest) == After(Skip(n), PegAfterInt(t[n..] + rest))
  {
    hide PegInt, PegAfterInt;
    forall n: nat | n <= |t| && PegInt(t + rest) == Skip(n)
      ensures PegUnsigned(t + rest) == After(Skip(n), PegAfterInt(t[n..] + rest))
    {
      assert (t + rest)[n..] == t[n..] + rest;
    }
  }

  lemma AfterSkip(k: nat, r: Match, m: nat)
    ensures After(Skip(k), r) == Skip(m) <==> m >= k && r == Skip(m - k)
  {
    if !r.Fail? { assert [] + r.nodes == r.nodes; }
  }

  lemma FirstDigit(t: string)
    ensures Digits(t) > 0 <==> t != "" && IsDigit(t[0])
  {
  }

  lemma IntIs(t: string, rest: string)
    requires Ends(rest)
    ensures PegInt(t + rest) ==
            if t == "" || !IsDigit(t[0]) then Fail else if t[0] == '0' then Skip(1) else Skip(Digits(t))
  {
    if t == "" {
      assert t + rest == rest;
      DigitIsNumChar(rest[0]);
    } else {
      assert (t + rest)[1..] == t[1..] + rest && (t + rest)[0] == t[0];
      DigitsBefore(t[1..], rest);
    }
  }

  /** The parser reads a number, and ends there, exactly where section 6 of RFC 8259 has one. */
  lemma NumberIff(t: string, rest: string)
    requires Ends(rest)
    ensures PegNumber(t + rest) == Skip(|t|) <==> IsNumber(t)
  {
    hide PegUnsigned, IsFraction, Digits;
    var s := t + rest;
    if t != "" && t[0] == '-' {
      assert s[1..] == t[1..] + rest;
      UnsignedIff(t[1..], rest);
    } else {
      UnsignedIff(t, rest);
    }
  }

  lemma NumberMeans(s: string)
    requires PegNumber(s).Done?
    ensures var n := PegNumber(s).n; PegNumber(s) == Skip(n) && n > 0 && IsNumber(s[..n])
  {
    hide PegNumber, IsNumber;
    NumberStops(s);
    var n := PegNumber(s).n;
    assert s[..n] + s[n..] == s;
    NumberIff(s[..n], s[n..]);
    NotEmptyNumber();
  }

  lemma NotEmptyNumber()
    ensures !IsNumber("")
  {
  }

  lemma NumberStops(s: string)
    requires PegNumber(s).Done?
    ensures PegNumber(s).nodes == [] && Ends(s[PegNumber(s).n..])
  {
    hide IsNumChar, PegUnsigned;
    if s != "" && s[0] == '-' {
      UnsignedStops(s[1..]);
      assert s[PegNumber(s).n..] == s[1..][PegUnsigned(s[1..]).n..];
    } else {
      UnsignedStops(s);
    }
  }

  lemma UnsignedStops(s: string)
    requires PegUnsigned(s).Done?
    ensures PegUnsigned(s).nodes == [] && Ends(s[PegUnsigned(s).n..])
  {
    hide IsNumChar, PegAfterInt;
    var i := PegInt(s);
    AfterIntStops(s[i.n..]);
    assert s[PegUnsigned(s).n..] == s[i.n..][PegAfterInt(s[i.n..]).n..];
  }

  lemma AfterIntStops(s: string)
    requires PegAfterInt(s).Done?
    ensures PegAfterInt(s).nodes == [] && Ends(s[PegAfterInt(s).n..])
  {
    hide IsNumChar, PegAfterFraction;
    var f := Optional(s, PegFraction(s));
    AfterFractionStops(s[f.n..]);
    assert s[PegAfterInt(s).n..] == s[f.n..][PegAfterFraction(s[f.n..]).n..];
  }

  lemma AfterFractionStops(s: string)
    requires PegAfterFraction(s).Done?
    ensures PegAfterFraction(s).nodes == [] && Ends(s[PegAfterFraction(s).n..])
  {
    hide IsNumChar, PegExponent;
    var e := Optional(s, PegExponent(s));
    assert s[e.n..][0..] == s[e.n..];
  }

  // ---- values that can be written ----

  /** A text that does not hold the delimiter. */
  predicate Plain(s: string) { forall i | 0 <= i <= |s| :: !(DELIM <= s[i..]) }

  predicate KeyLike(name: string) {
    name != "" && !IsBlank(name[0]) && forall i | 0 <= i < |name| :: IsKeyChar(name[i])
  }

  predicate Writable(v: Value) {
    match v
    case VNum(text) => IsNumber(text)
    case VBool(_) => true
    case VNull => true
    case VStr(s) => Plain(s)
    case VArr(vs) => forall i | 0 <= i < |vs| :: Writable(vs[i])
    case VObj(ms) => forall i | 0 <= i < |ms| :: KeyLike(ms[i].name) && Writable(ms[i].value)
  }

  // ---- complete parses ----

  /** The nodes of a list stand for elements or for members. */
  predicate Holds(ns: seq<Node>, dict: bool, vs: seq<Value>, ms: seq<Member>) {
    if dict then
      && |ns| == |ms| && vs == []
      && forall i | 0 <= i < |ms| :: RepresentsMember(ns[i], ms[i]) && KeyLike(ms[i].name) && Writable(ms[i].value)
    else
      && |ns| == |vs| && ms == []
      && forall i | 0 <= i < |vs| :: Represents(ns[i], vs[i]) && Writable(vs[i])
  }

  lemma {:induction false} UntilPlain(s: string)
    requires PegUntil(s).Done? && DELIM <= s[PegUntil(s).n..]
    ensures Plain(s[..PegUntil(s).n])
  {
    if DELIM <= s || s <= DELIM {
      assert s[..0] == "";
    } else {
      UntilPlain(s[1..]);
      var n := PegUntil(s).n;
      assert s[n..] == s[1..][n - 1..];
      forall i | 0 <= i <= n ensures !(DELIM <= s[..n][i..]) {
        if i == 0 {
          assert s[..n] <= s;
        } else {
          assert s[..n][i..] == s[1..][..n - 1][i - 1..];
        }
      }
    }
  }

  lemma StringMeans(s: string) returns (text: string)
    requires PegString(s).Done?
    ensures var n := PegString(s).n;
      n > 0 && PegString(s).nodes == [Node(StringValue, s[..n], [Node(StringContent, text, [], false)], false)]
    ensures Plain(text)
  {
    hide PegUntil, Plain;
    var t := s[|DELIM|..];
    var n := PegUntil(t).n;
    text := t[..n];
    UntilPlain(t);
    var content := Node(StringContent, text, [], false);
    assert [] + ([content] + []) == [content];
  }

  lemma LeafMeans(s: string) returns (v: Value)
    requires s != "" && s[0] !in "<{[" && PegByStart(s).Done?
    ensures Writable(v) && Represents(Node(AnyValue, s[..PegByStart(s).n], PegByStart(s).nodes, false), v)
  {
    hide PegNumber, IsNumber;
    if s[0] == '-' || IsDigit(s[0]) {
      NumberMeans(s);
      v := VNum(s[..PegNumber(s).n]);
    } else if s[0] == 't' {
      v := VBool(true);
    } else if s[0] == 'f' {
      v := VBool(false);
    } else {
      v := VNull;
    }
  }

  /** Every complete parse of a value represents one. */
  lemma {:induction false} ValueMeans(s: string) returns (v: Value)
    requires PegValue(s).Done?
    ensures |PegValue(s).nodes| == 1 && Represents(PegValue(s).nodes[0], v) && Writable(v)
    decreases |s|, 1
  {
    hide PegValue, PegGroup, PegString, PegNumber, IsNumber, Plain, Writable;
    ValueAtEnd();
    ValueIs(s);
    if s[0] == '<' {
      var text := StringMeans(s);
      v := VStr(text);
      WritableLeaf(v);
    } else if s[0] == '{' || s[0] == '[' {
      var vs, ms := GroupMeans(s, s[0] == '{');
      v := if s[0] == '{' then VObj(ms) else VArr(vs);
      WritableGroup(PegGroup(s, s[0] == '{').nodes[0].children, s[0] == '{', vs, ms);
    } else {
      v := LeafMeans(s);
    }
  }

  lemma WritableLeaf(v: Value)
    requires v.VStr? && Plain(v.s)
    ensures Writable(v)
  {
  }

  lemma WritableGroup(ns: seq<Node>, dict: bool, vs: seq<Value>, ms: seq<Member>)
    requires Holds(ns, dict, vs, ms)
    ensures Writable(if dict then VObj(ms) else VArr(vs))
  {
  }

  lemma {:induction false} GroupMeans(s: string, dict: bool) returns (vs: seq<Value>, ms: seq<Member>)
    requires PegGroup(s, dict).Done?
    ensures PegGroup(s, dict).n > 0 && |PegGroup(s, dict).nodes| == 1
    ensures var c := PegGroup(s, dict).nodes[0];
      && c.rule == (if dict then Dict else Array) && !c.partial && c.text == s[..PegGroup(s, dict).n]
      && Holds(c.children, dict, vs, ms)
    decreases |s|, 0
  {
    hide PegGroup, PegInside, Holds, Blanks;
    GroupIs(s, dict);
    var t := s[1..];
    BlanksSkipped(t);
    vs, ms := InsideMeans(t[Blanks(t)..], dict);
    EmptyInFront(PegInside(t[Blanks(t)..], dict).nodes);
  }

  lemma EmptyInFront(ns: seq<Node>)
    ensures [] + ([] + ns) == ns
  {
  }

  lemma {:induction false} InsideMeans(s: string, dict: bool) returns (vs: seq<Value>, ms: seq<Member>)
    requires PegInside(s, dict).Done? && (s != "" ==> !IsBlank(s[0]))
    ensures Holds(PegInside(s, dict).nodes, dict, vs, ms)
    decreases |s|, 8
  {
    hide PegItems, Literal;
    if Literal(Close(dict), s).Done? {
      vs, ms := [], [];
    } else {
      hide Holds;
      CloseNotMore(s, dict);
      vs, ms := ItemsMean(s, dict);
    }
  }

  lemma CloseNotMore(s: string, dict: bool)
    requires PegInside(s, dict).Done?
    ensures !Literal(Close(dict), s).More?
  {
    hide PegItems;
  }

  lemma {:induction false} ItemsMean(s: string, dict: bool) returns (vs: seq<Value>, ms: seq<Member>)
    requires PegItems(s, dict).Done? && (s != "" ==> !IsBlank(s[0]))
    ensures Holds(PegItems(s, dict).nodes, dict, vs, ms)
    decreases |s|, 7
  {
    hide PegItem, PegMore, PegClose, Holds;
    var i := PegItem(s, dict);
    var t := s[i.n..];
    vs, ms := ItemMeans(s, dict);
    var us, ks := MoreMean(t, dict);
    CloseNodes(t[PegMore(t, dict).n..], dict);
    assert PegMore(t, dict).nodes + [] == PegMore(t, dict).nodes;
    HoldsAppend(i.nodes, PegMore(t, dict).nodes, dict, vs, ms, us, ks);
    vs, ms := vs + us, ms + ks;
  }

  lemma HoldsAppend(ns: seq<Node>, ls: seq<Node>, dict: bool, vs: seq<Value>, ms: seq<Member>, us: seq<Value>,
                    ks: seq<Member>)
    requires Holds(ns, dict, vs, ms) && Holds(ls, dict, us, ks)
    ensures Holds(ns + ls, dict, vs + us, ms + ks)
  {
    hide Represents, RepresentsMember, Writable, KeyLike;
  }

  lemma {:induction false} MoreMean(s: string, dict: bool) returns (vs: seq<Value>, ms: seq<Member>)
    requires PegMore(s, dict).Done?
    ensures Holds(PegMore(s, dict).nodes, dict, vs, ms)
    decreases |s|, 5
  {
    hide PegNext, PegItem, Blanks;
    var i := PegNext(s, dict);
    if s == "" || i.Fail? || i.n == 0 {
      vs, ms := [], [];
    } else {
      hide Holds;
      NextStart(s, dict);
      NextIs(s, dict);
      var t := s[1..];
      var u := t[Blanks(t)..];
      BlanksSkipped(t);
      vs, ms := ItemMeans(u, dict);
      var us, ks := MoreMean(s[i.n..], dict);
      EmptyInFront(PegItem(u, dict).nodes);
      HoldsAppend(i.nodes, PegMore(s[i.n..], dict).nodes, dict, vs, ms, us, ks);
      vs, ms := vs + us, ms + ks;
    }
  }

  lemma NextIs(s: string, dict: bool)
    requires s != "" && s[0] == ','
    ensures var t := s[1..];
      PegNext(s, dict) == After(Skip(1), After(Skip(Blanks(t)), PegItem(t[Blanks(t)..], dict)))
  {
    hide PegItem, Blanks;
    LiteralIs(",", s);
    var t := s[1..];
    assert t[Blanks(t)..] == s[1 + Blanks(t)..];
  }

  lemma {:induction false} BlanksSkipped(s: string)
    ensures Blanks(s) < |s| ==> !IsBlank(s[Blanks(s)])
  {
    if s != "" && IsBlank(s[0]) { BlanksSkipped(s[1..]); }
  }

  lemma {:induction false} ItemMeans(s: string, dict: bool) returns (vs: seq<Value>, ms: seq<Member>)
    requires PegItem(s, dict).Done? && (s != "" ==> !IsBlank(s[0]))
    ensures Holds(PegItem(s, dict).nodes, dict, vs, ms)
    decreases |s|, 3
  {
    hide PegKeyValue, PegValue, Represents, RepresentsMember, Writable, KeyLike;
    if dict {
      var m := KeyValueMeans(s);
      vs, ms := [], [m];
    } else {
      var v := ValueMeans(s);
      vs, ms := [v], [];
    }
  }

  lemma {:induction false} KeyValueMeans(s: string) returns (m: Member)
    requires PegKeyValue(s).Done? && (s != "" ==> !IsBlank(s[0]))
    ensures |PegKeyValue(s).nodes| == 1 && RepresentsMember(PegKeyValue(s).nodes[0], m)
    ensures KeyLike(m.name) && Writable(m.value)
    decreases |s|, 2
  {
    hide PegKey, PegValue, Represents, Writable, KeyLike, Blanks;
    var k := PegKey(s);
    KeyDone(s);
    KeyValueIs(s);
    var t := s[k.n..];
    var name := KeyMeans(s);
    var v := ValueMeans(t[Blanks(t)..]);
    m := Member(name, v);
    assert [] + PegValue(t[Blanks(t)..]).nodes == PegValue(t[Blanks(t)..]).nodes;
  }

  lemma KeyDone(s: string)
    requires PegKeyValue(s).Done?
    ensures PegKey(s).Done?
  {
    hide PegKey, PegValue;
  }

  lemma KeyMeans(s: string) returns (name: string)
    requires PegKey(s).Done? && (s != "" ==> !IsBlank(s[0]))
    ensures |PegKey(s).nodes| == 1 && RepresentsKey(PegKey(s).nodes[0], name) && KeyLike(name)
  {
    hide KeyRun, Literal;
    KeyNode(s);
    KeyChars(s);
    name := s[..KeyRun(s)];
  }

  lemma {:induction false} KeyChars(s: string)
    ensures forall i | 0 <= i < KeyRun(s) :: IsKeyChar(s[i])
  {
    if s != "" && IsKeyChar(s[0]) { KeyChars(s[1..]); }
  }

  /** A complete parse of arguments prints JSON text that reads back as an object. */
  lemma ArgumentsRead(s: string) returns (ms: seq<Member>)
    requires PegGroup(s, true).Done?
    ensures |PegGroup(s, true).nodes| == 1 && ReadJson(ToJson(PegGroup(s, true).nodes[0])) == Some(VObj(ms))
    ensures Writable(VObj(ms))
  {
    hide PegGroup, ToJson, Writable;
    var vs;
    vs, ms := GroupMeans(s, true);
    WritableGroup(PegGroup(s, true).nodes[0].children, true, vs, ms);
    GroupReads(PegGroup(s, true).nodes[0], ms);
  }

  lemma GroupReads(c: Node, ms: seq<Member>)
    requires c.rule == Dict && !c.partial && c.text != "" && Holds(c.children, true, [], ms)
    ensures ReadJson(ToJson(c)) == Some(VObj(ms))
  {
    hide ReadJson;
    var n := Node(AnyValue, c.text, [c], false);
    assert Represents(n, VObj(ms)) by { hide Writable, KeyLike; }
    assert ToJson(n) == ToJson(c);
    TreeReadsBack(n, VObj(ms));
  }
}
