/** The grammar of Gemma 4 arguments, run on text that may still grow. */
module Gemma4Parse {
  import opened Chars
  import opened Json
  import opened Gemma4

  // ---- the combinators ----

  /** A parser fails, would need more input, or is done; n characters are consumed. */
  datatype Match = Fail | More(n: nat, nodes: seq<Node>) | Done(n: nat, nodes: seq<Node>)

  /** What is consumed is there, and more is asked for only at the end of the input. */
  predicate Fits(r: Match, s: string) { (!r.Fail? ==> r.n <= |s|) && (r.More? ==> r.n == |s|) }

  /** The rest of a sequence after a part that is done. */
  function After(a: Match, r: Match): Match
    requires a.Done?
  {
    if r.Fail? then Fail else r.(n := a.n + r.n, nodes := a.nodes + r.nodes)
  }

  function Skip(k: nat): Match { Done(k, []) }

  function Choose(a: Match, b: Match): Match { if a.Fail? then b else a }

  /** At most one repetition. */
  function Optional(s: string, r: Match): Match {
    if s == "" || r.Fail? || (r.Done? && r.n == 0) then Skip(0) else r
  }

  /** A rule puts a node around what its parser read. */
  function Ruled(rule: Rule, s: string, r: Match): (q: Match)
    requires Fits(r, s)
    ensures Fits(q, s)
  {
    if r.Fail? then Fail else r.(nodes := [Node(rule, s[..r.n], r.nodes, r.More?)])
  }

  function Literal(w: string, s: string): (r: Match)
    ensures Fits(r, s) && (!r.Fail? ==> r.nodes == [])
  {
    if w <= s then Skip(|w|) else if s <= w then More(|s|, []) else Fail
  }

  function Blanks(s: string): (n: nat)
    ensures n <= |s|
  {
    if s == "" || !IsBlank(s[0]) then 0 else 1 + Blanks(s[1..])
  }

  // ---- numbers ----

  /** One or more digits. */
  function PegDigits(s: string): (r: Match)
    ensures Fits(r, s) && (s == "" ==> r == More(0, [])) && (!r.Fail? ==> r.nodes == [])
  {
    if Digits(s) > 0 then Skip(Digits(s)) else if s == "" then More(0, []) else Fail
  }

  function PegInt(s: string): (r: Match)
    ensures Fits(r, s) && (!r.Fail? ==> r.nodes == [])
  {
    if s == "" then More(0, [])
    else if s[0] == '0' then Skip(1)
    else if IsDigit(s[0]) then Skip(1 + Digits(s[1..]))
    else Fail
  }

  function PegFraction(s: string): (r: Match)
    ensures Fits(r, s) && (!r.Fail? ==> r.nodes == [])
  {
    var dot := Literal(".", s);
    if dot.Done? then After(dot, PegDigits(s[1..])) else dot
  }

  function PegExponent(s: string): (r: Match)
    ensures Fits(r, s) && (!r.Fail? ==> r.nodes == [])
  {
    var e := Choose(Literal("e", s), Literal("E", s));
    if !e.Done? then e else
    var sign := if |s| > 1 && (s[1] == '+' || s[1] == '-') then 2 else 1;
    After(Skip(sign), PegDigits(s[sign..]))
  }

  /** No character follows that could belong to the number. */
  function PegNumberEnd(s: string): Match {
    if s == "" then More(0, []) else if IsNumChar(s[0]) then Fail else Skip(0)
  }

  function PegAfterFraction(s: string): (r: Match)
    ensures Fits(r, s)
  {
    var e := Optional(s, PegExponent(s));
    if e.Done? then After(e, PegNumberEnd(s[e.n..])) else e
  }

  function PegAfterInt(s: string): (r: Match)
    ensures Fits(r, s)
  {
    var f := Optional(s, PegFraction(s));
    if f.Done? then After(f, PegAfterFraction(s[f.n..])) else f
  }

  function PegUnsigned(s: string): (r: Match)
    ensures Fits(r, s)
  {
    var i := PegInt(s);
    if i.Done? then After(i, PegAfterInt(s[i.n..])) else i
  }

  function PegNumber(s: string): (r: Match)
    ensures Fits(r, s)
  {
    if s != "" && s[0] == '-' then After(Skip(1), PegUnsigned(s[1..])) else PegUnsigned(s)
  }

  // ---- strings and keys ----

  const DELIM := "<|\"|>"

  /** Everything before the delimiter, or before what may become it. */
  function PegUntil(s: string): (r: Match)
    ensures Fits(r, s) && !r.Fail? && r.nodes == []
  {
    if s == "" then More(0, [])
    else if DELIM <= s || s <= DELIM then Skip(0)
    else After(Skip(1), PegUntil(s[1..]))
  }

  function PegString(s: string): (r: Match)
    ensures Fits(r, s)
  {
    var open := Literal(DELIM, s);
    if !open.Done? then Ruled(StringValue, s, open) else
    Ruled(StringValue, s, After(open, PegStringTail(s[|DELIM|..])))
  }

  function PegStringTail(s: string): (r: Match)
    ensures Fits(r, s)
  {
    var c := Ruled(StringContent, s, PegUntil(s));
    if c.Done? then After(c, Literal(DELIM, s[c.n..])) else c
  }

  predicate IsKeyChar(c: char) { c != ':' && c != '}' }

  function KeyRun(s: string): (n: nat)
    ensures n <= |s|
  {
    if s == "" || !IsKeyChar(s[0]) then 0 else 1 + KeyRun(s[1..])
  }

  function PegKey(s: string): (r: Match)
    ensures Fits(r, s) && (r.Done? ==> r.n > 0)
  {
    var name := Ruled(KeyName, s, PegKeyName(s));
    Ruled(Key, s, if name.Done? then After(name, Literal(":", s[name.n..])) else name)
  }

  /** One or more characters of a key. */
  function PegKeyName(s: string): (r: Match)
    ensures Fits(r, s) && (r.Done? ==> r.n > 0) && (!r.Fail? ==> r.nodes == [])
  {
    if KeyRun(s) > 0 then Skip(KeyRun(s)) else if s == "" then More(0, []) else Fail
  }

  // ---- values ----

  function PegLeaf(rule: Rule, s: string, r: Match): (q: Match)
    requires Fits(r, s)
    ensures Fits(q, s)
  {
    Ruled(rule, s, Ruled(OtherRule, s, r))
  }

  function Open(dict: bool): string { if dict then "{" else "[" }

  function Close(dict: bool): string { if dict then "}" else "]" }

  function PegValue(s: string): (r: Match)
    ensures Fits(r, s)
    decreases |s|, 1
  {
    Ruled(AnyValue, s,
          Choose(PegString(s),
          Choose(PegGroup(s, true),
          Choose(PegGroup(s, false),
          Choose(PegLeaf(Number, s, PegNumber(s)),
          Choose(PegLeaf(Bool, s, Choose(Literal("true", s), Literal("false", s))),
                 PegLeaf(NullValue, s, Literal("null", s))))))))
  }

  /** A dictionary or an array. */
  function PegGroup(s: string, dict: bool): (r: Match)
    ensures Fits(r, s)
    decreases |s|, 0
  {
    var rule := if dict then Dict else Array;
    var open := Literal(Open(dict), s);
    if !open.Done? then Ruled(rule, s, open) else
    var b := Blanks(s[1..]);
    var t := s[1 + b..];
    Ruled(rule, s, After(open, After(Skip(b), PegInside(t, dict))))
  }

  function PegInside(s: string, dict: bool): (r: Match)
    ensures Fits(r, s)
    decreases |s|, 8
  {
    Choose(Literal(Close(dict), s), PegItems(s, dict))
  }

  /** The first item, the others, and the closing bracket. */
  function PegItems(s: string, dict: bool): (r: Match)
    ensures Fits(r, s)
    decreases |s|, 7
  {
    var i := PegItem(s, dict);
    if i.Done? then After(i, PegRest(s[i.n..], dict)) else i
  }

  function PegRest(s: string, dict: bool): (r: Match)
    ensures Fits(r, s)
    decreases |s|, 6
  {
    var m := PegMore(s, dict);
    if m.Done? then After(m, PegClose(s[m.n..], dict)) else m
  }

  /** White space and the closing bracket. */
  function PegClose(s: string, dict: bool): (r: Match)
    ensures Fits(r, s)
  {
    After(Skip(Blanks(s)), Literal(Close(dict), s[Blanks(s)..]))
  }

  /** Any number of items with a comma in front. */
  function PegMore(s: string, dict: bool): (r: Match)
    ensures Fits(r, s) && !r.Fail?
    decreases |s|, 5
  {
    var i := PegNext(s, dict);
    if s == "" || i.Fail? then Skip(0)
    else if i.More? then i
    else if i.n == 0 then Skip(0)
    else After(i, PegMore(s[i.n..], dict))
  }

  function PegNext(s: string, dict: bool): (r: Match)
    ensures Fits(r, s)
    decreases |s|, 4
  {
    var comma := Literal(",", s);
    if !comma.Done? then comma else
    var b := Blanks(s[1..]);
    After(comma, After(Skip(b), PegItem(s[1 + b..], dict)))
  }

  function PegItem(s: string, dict: bool): (r: Match)
    ensures Fits(r, s)
    decreases |s|, 3
  {
    if dict then PegKeyValue(s) else PegValue(s)
  }

  function PegKeyValue(s: string): (r: Match)
    ensures Fits(r, s)
    decreases |s|, 2
  {
    var k := PegKey(s);
    if !k.Done? then Ruled(KeyValue, s, k) else
    var b := Blanks(s[k.n..]);
    Ruled(KeyValue, s, After(k, After(Skip(b), PegValue(s[k.n + b..]))))
  }

  // ---- growing text ----

  /** cs is ns with some nodes missing at the end and the last kept one cut. */
  predicate CutNodes(cs: seq<Node>, ns: seq<Node>) {
    && |cs| <= |ns|
    && (forall i | 0 <= i < |cs| - 1 :: cs[i] == ns[i])
    && (cs != [] ==> CutOf(cs[|cs| - 1], ns[|cs| - 1]))
  }

  /** What becomes of a result when the text grows: failing and being done are final, and
      what needed more input fails or goes on from where it was. */
  predicate Grows(r: Match, r': Match) {
    && (r.Fail? ==> r'.Fail?)
    && (r.Done? ==> r' == r)
    && (r.More? && !r'.Fail? ==> r.n <= r'.n && CutNodes(r.nodes, r'.nodes))
  }

  lemma AfterGrows(a: Match, r: Match, r': Match)
    requires a.Done? && Grows(r, r')
    ensures Grows(After(a, r), After(a, r'))
  {
  }

  lemma RuledGrows(rule: Rule, p: string, s: string, r: Match, r': Match)
    requires p <= s && Fits(r, p) && Fits(r', s) && Grows(r, r')
    ensures Grows(Ruled(rule, p, r), Ruled(rule, s, r'))
  {
    if r.Done? {
      assert p[..r.n] == s[..r.n];
    } else if r.More? && !r'.Fail? {
      assert p[..r.n] == p && p <= s[..r'.n];
    }
  }

  lemma LiteralGrows(w: string, p: string, s: string)
    requires p <= s
    ensures Grows(Literal(w, p), Literal(w, s))
  {
  }

  lemma NothingGrows(r: Match)
    ensures Grows(More(0, []), r)
  {
  }

  /** A run of blanks that ends within the text stays, one that does not may go on. */
  lemma {:induction false} BlanksGrow(p: string, s: string)
    requires p <= s
    ensures Blanks(p) <= Blanks(s) && (Blanks(p) < |p| ==> Blanks(s) == Blanks(p))
  {
    if p != "" && IsBlank(p[0]) { BlanksGrow(p[1..], s[1..]); }
  }

  /** A result before anything was read. */
  predicate Unread(r: Match) {
    r.More? && r.n == 0 && |r.nodes| <= 1 && forall i | 0 <= i < |r.nodes| :: r.nodes[i].text == ""
  }

  lemma UnreadGrows(b: nat, b': nat, r: Match, r': Match)
    requires b <= b' && Unread(r) && (!r'.Fail? ==> |r.nodes| <= |r'.nodes|)
    ensures Grows(After(Skip(b), r), After(Skip(b'), r'))
  {
    hide CutOf;
    assert forall n: Node, m: Node :: n.text == "" ==> CutOf(n, m) by { EmptyCut(); }
    assert [] + r.nodes == r.nodes;
    if !r'.Fail? { assert [] + r'.nodes == r'.nodes; }
  }

  lemma EmptyCut()
    ensures forall n: Node, m: Node :: n.text == "" ==> CutOf(n, m)
  {
  }

  /** White space in front of something: r and r' are its results behind the blanks. */
  lemma SpacedGrows(p: string, s: string, r: Match, r': Match)
    requires p <= s
    requires Blanks(p) < |p| ==> Grows(r, r')
    requires Blanks(p) == |p| ==> Unread(r) && (!r'.Fail? ==> |r.nodes| <= |r'.nodes|)
    ensures Grows(After(Skip(Blanks(p)), r), After(Skip(Blanks(s)), r'))
  {
    hide Grows, Unread, Blanks;
    BlanksGrow(p, s);
    if Blanks(p) < |p| {
      AfterGrows(Skip(Blanks(p)), r, r');
    } else {
      UnreadGrows(Blanks(p), Blanks(s), r, r');
    }
  }

  // ---- numbers ----

  lemma {:induction false} DigitsGrow(p: string, s: string)
    requires p <= s
    ensures Digits(p) <= Digits(s) && (Digits(p) < |p| ==> Digits(s) == Digits(p))
  {
    if p != "" && IsDigit(p[0]) { DigitsGrow(p[1..], s[1..]); }
  }

  /** A part of a number that ends before the text does stays; one that reaches the end
      may go on. */
  predicate PartGrows(p: string, r: Match, r': Match) {
    && (r.Fail? ==> r'.Fail?)
    && (r.Done? && r.n < |p| ==> r' == r)
    && (r.Done? && r.n >= |p| ==> r'.Done?)
    && (!r.Fail? && r.n >= |p| && !r'.Fail? ==> r'.n >= |p|)
    && (!r.Fail? ==> r.nodes == [])
  }

  lemma DigitsPart(p: string, s: string)
    requires p <= s
    ensures PartGrows(p, PegDigits(p), PegDigits(s))
  {
    DigitsGrow(p, s);
  }

  lemma IntPart(p: string, s: string)
    requires p <= s
    ensures PartGrows(p, PegInt(p), PegInt(s))
  {
    if p != "" { DigitsGrow(p[1..], s[1..]); }
  }

  lemma FractionPart(p: string, s: string)
    requires p <= s && p != ""
    ensures PartGrows(p, PegFraction(p), PegFraction(s)) && (!PegFraction(p).Fail? ==> s[0] == '.')
  {
    hide PegDigits;
    DigitsPart(p[1..], s[1..]);
  }

  lemma ExponentPart(p: string, s: string)
    requires p <= s && p != ""
    ensures PartGrows(p, PegExponent(p), PegExponent(s)) && (!PegExponent(p).Fail? ==> IsNumChar(s[0]))
  {
    hide PegDigits;
    DigitsPart(p[1..], s[1..]);
    if |p| > 1 { DigitsPart(p[2..], s[2..]); }
  }

  /** An optional part x and what follows it, y. */
  lemma OptionalGrows(p: string, s: string, x: Match, x': Match, y: Match, y': Match)
    requires p <= s && p != "" && PartGrows(p, x, x') && Fits(x, p)
    requires var o, o' := Optional(p, x), Optional(s, x');
      && (o.Done? && o.n < |p| && o' == o ==> Grows(y, y'))
      && (o.Done? && o.n == |p| ==> y == More(0, []))
      && (o.More? && x'.Fail? ==> y'.Fail?)
    ensures var o, o' := Optional(p, x), Optional(s, x');
      Grows(if o.Done? then After(o, y) else o, if o'.Done? then After(o', y') else o')
  {
    var o := Optional(p, x);
    if o.Done? && o.n < |p| { AfterGrows(o, y, y'); }
  }

  lemma EndGrows(p: string, s: string)
    requires p <= s
    ensures Grows(PegNumberEnd(p), PegNumberEnd(s))
    ensures p == "" ==> PegNumberEnd(p) == More(0, [])
    ensures p != "" && IsNumChar(p[0]) ==> PegNumberEnd(p).Fail?
  {
    hide IsNumChar;
  }

  lemma AfterFractionGrows(p: string, s: string)
    requires p <= s
    ensures Grows(PegAfterFraction(p), PegAfterFraction(s))
  {
    hide PegExponent, PegNumberEnd, IsNumChar, Grows;
    EndGrows("", "");
    NothingGrows(PegAfterFraction(s));
    assert ""[0..] == "";
    if p != "" {
      var x, x' := PegExponent(p), PegExponent(s);
      ExponentPart(p, s);
      var o, o' := Optional(p, x), Optional(s, x');
      assert s[0..] == s;
      EndGrows(s, s);
      if o.Done? && o.n < |p| { EndGrows(p[o.n..], s[o.n..]); }
      OptionalGrows(p, s, x, x', if o.Done? then PegNumberEnd(p[o.n..]) else Fail,
                    if o'.Done? then PegNumberEnd(s[o'.n..]) else Fail);
    } else {
      assert p[0..] == "" && PegAfterFraction(p) == More(0, []);
    }
  }

  lemma AfterIntGrows(p: string, s: string)
    requires p <= s
    ensures Grows(PegAfterInt(p), PegAfterInt(s))
  {
    hide PegFraction, PegAfterFraction, Grows;
    AtEnd();
    NothingGrows(PegAfterInt(s));
    if p != "" {
      var x, x' := PegFraction(p), PegFraction(s);
      FractionPart(p, s);
      var o, o' := Optional(p, x), Optional(s, x');
      if o.Done? && o.n < |p| { AfterFractionGrows(p[o.n..], s[o.n..]); }
      PointIsLeft(s);
      assert s[0..] == s;
      OptionalGrows(p, s, x, x', if o.Done? then PegAfterFraction(p[o.n..]) else Fail,
                    if o'.Done? then PegAfterFraction(s[o'.n..]) else Fail);
    }
  }

  lemma AtEnd()
    ensures PegAfterFraction("") == More(0, []) == PegAfterInt("")
  {
  }

  /** A point that no digit follows ends no number. */
  lemma PointIsLeft(s: string)
    requires s != ""
    ensures s[0] == '.' ==> PegAfterFraction(s).Fail?
  {
  }

  lemma UnsignedGrows(p: string, s: string)
    requires p <= s
    ensures Grows(PegUnsigned(p), PegUnsigned(s))
  {
    hide PegInt, PegAfterInt, Grows;
    IntPart(p, s);
    AtEnd();
    var i := PegInt(p);
    if i.Done? && i.n < |p| {
      AfterIntGrows(p[i.n..], s[i.n..]);
      AfterGrows(i, PegAfterInt(p[i.n..]), PegAfterInt(s[i.n..]));
    } else if i.Done? {
      assert p[i.n..] == "";
      ReachesEnd(|p|, PegUnsigned(s));
    } else {
      PartIsGrowth(p, i, PegInt(s), PegUnsigned(s));
    }
  }

  lemma ReachesEnd(n: nat, r': Match)
    requires !r'.Fail? ==> n <= r'.n
    ensures Grows(More(n, []), r')
  {
  }

  /** A first part that is not done decides the whole. */
  lemma PartIsGrowth(p: string, r: Match, r': Match, q: Match)
    requires PartGrows(p, r, r') && Fits(r, p) && !r.Done? && (r'.Fail? ==> q.Fail?) && (!q.Fail? ==> q.n >= r'.n)
    ensures Grows(r, q)
  {
  }

  lemma NumberGrows(p: string, s: string)
    requires p <= s
    ensures Grows(PegNumber(p), PegNumber(s))
  {
    hide PegUnsigned, Grows;
    AtStart();
    if p == "" {
      NothingGrows(PegNumber(s));
    } else if p[0] == '-' {
      UnsignedGrows(p[1..], s[1..]);
      AfterGrows(Skip(1), PegUnsigned(p[1..]), PegUnsigned(s[1..]));
    } else {
      UnsignedGrows(p, s);
    }
  }

  lemma AtStart()
    ensures PegUnsigned("") == More(0, [])
  {
  }

  // ---- strings and keys ----

  /** Where a delimiter stands, the text before it stays. */
  lemma {:induction false} UntilGrows(p: string, s: string)
    requires p <= s
    ensures PegUntil(p).n <= PegUntil(s).n
    ensures PegUntil(p).Done? && DELIM <= p[PegUntil(p).n..] ==> PegUntil(s) == PegUntil(p)
    ensures PegUntil(p).Done? ==> PegUntil(p).n < |p| && (DELIM <= p[PegUntil(p).n..] || p[PegUntil(p).n..] <= DELIM)
  {
    if p != "" && !(DELIM <= p || p <= DELIM) {
      UntilGrows(p[1..], s[1..]);
      assert p[PegUntil(p).n..] == p[1..][PegUntil(p[1..]).n..];
    }
  }

  /** A node that has read no part of itself yet. */
  lemma StartGrows(rule: Rule, p: string, s: string, r: Match, q: Match)
    requires p <= s && Fits(r, p) && Fits(q, s) && !r.Done? && (!r.Fail? ==> r.nodes == [])
    requires r.Fail? ==> q.Fail?
    requires !q.Fail? ==> |q.nodes| == 1 && q.nodes[0].rule == rule && r.n <= q.n && q.nodes[0].text == s[..q.n]
    ensures Grows(Ruled(rule, p, r), q)
  {
    if r.More? && !q.Fail? {
      assert p[..r.n] == p && p <= s[..q.n];
    }
  }

  lemma ContentGrows(p: string, s: string)
    requires p <= s
    ensures Grows(PegStringTail(p), PegStringTail(s))
  {
    hide PegUntil;
    UntilGrows(p, s);
    var c := PegUntil(p);
    if c.Done? && DELIM <= p[c.n..] {
      assert p[..c.n] == s[..c.n];
    }
  }

  lemma StringGrows(p: string, s: string)
    requires p <= s
    ensures Grows(PegString(p), PegString(s))
  {
    hide PegUntil, Grows;
    LiteralGrows(DELIM, p, s);
    var open := Literal(DELIM, p);
    if open.Done? {
      var t, t' := p[|DELIM|..], s[|DELIM|..];
      ContentGrows(t, t');
      AfterGrows(open, PegStringTail(t), PegStringTail(t'));
      RuledGrows(StringValue, p, s, After(open, PegStringTail(t)), After(open, PegStringTail(t')));
    } else {
      StartGrows(StringValue, p, s, open, PegString(s));
    }
  }

  lemma {:induction false} KeyRunGrows(p: string, s: string)
    requires p <= s
    ensures KeyRun(p) <= KeyRun(s) && (KeyRun(p) < |p| ==> KeyRun(s) == KeyRun(p))
  {
    if p != "" && IsKeyChar(p[0]) { KeyRunGrows(p[1..], s[1..]); }
  }

  lemma KeyGrows(p: string, s: string)
    requires p <= s
    ensures Grows(PegKey(p), PegKey(s))
  {
    hide KeyRun, Grows, Literal, PegKeyName;
    KeyRunGrows(p, s);
    NamesGrow(p, s);
    var name, name' := Ruled(KeyName, p, PegKeyName(p)), Ruled(KeyName, s, PegKeyName(s));
    if KeyRun(p) < |p| {
      assert name' == name;
      if name.Done? {
        LiteralGrows(":", p[name.n..], s[name.n..]);
        AfterGrows(name, Literal(":", p[name.n..]), Literal(":", s[name.n..]));
      } else {
        BothFail(name, name');
      }
      RuledGrows(Key, p, s, if name.Done? then After(name, Literal(":", p[name.n..])) else name,
                 if name.Done? then After(name, Literal(":", s[name.n..])) else name);
    } else {
      KeyPart(p, s);
    }
  }

  lemma NamesGrow(p: string, s: string)
    requires p <= s
    ensures KeyRun(p) < |p| ==> Ruled(KeyName, p, PegKeyName(p)) == Ruled(KeyName, s, PegKeyName(s))
    ensures KeyRun(p) < |p| ==> !PegKeyName(p).More?
  {
    hide KeyRun;
    KeyRunGrows(p, s);
    assert p[..KeyRun(p)] == s[..KeyRun(p)];
  }

  /** A key that reaches the end of the text. */
  lemma KeyPart(p: string, s: string)
    requires p <= s && KeyRun(p) == |p|
    ensures Grows(PegKey(p), PegKey(s))
  {
    hide PegKey;
    KeyRunGrows(p, s);
    KeyAtEnd(p);
    KeyNode(s);
    if !PegKey(s).Fail? {
      hide CutOf;
      KeyCut(p, PegKey(s).nodes[0], s[..KeyRun(s)]);
    }
  }

  lemma KeyCut(p: string, n: Node, name: string)
    requires p == "" || (n.rule == Key && p <= n.text && p <= name && n.children == [Node(KeyName, name, [], false)])
    ensures CutOf(Node(Key, p, [Node(KeyName, p, [], p == "")], true), n)
  {
    assert p != "" ==> CutOf(Node(KeyName, p, [], false), Node(KeyName, name, [], false));
  }

  lemma KeyAtEnd(p: string)
    requires KeyRun(p) == |p|
    ensures PegKey(p) == More(|p|, [Node(Key, p, [Node(KeyName, p, [], p == "")], true)])
  {
    hide KeyRun, Literal;
    LiteralIs(":", "");
    assert p[|p|..] == "" && p[..|p|] == p;
    var name := Node(KeyName, p, [], p == "");
    assert [name] + [] == [name];
    assert Ruled(KeyName, p, PegKeyName(p)).nodes == [name];
  }

  lemma KeyNode(s: string)
    ensures var r := PegKey(s);
      r.Fail? ||
      (&& r.n >= KeyRun(s) && |r.nodes| == 1 && r.nodes[0].rule == Key && r.nodes[0].text == s[..r.n]
       && (KeyRun(s) > 0 ==> r.nodes[0].children == [Node(KeyName, s[..KeyRun(s)], [], false)]))
  {
    hide KeyRun;
  }

  // ---- values ----

  /** The alternative that the first character leaves. */
  function PegByStart(s: string): (r: Match)
    requires s != ""
    ensures Fits(r, s)
  {
    if s[0] == '<' then PegString(s)
    else if s[0] == '{' then PegGroup(s, true)
    else if s[0] == '[' then PegGroup(s, false)
    else if s[0] == '-' || IsDigit(s[0]) then PegLeaf(Number, s, PegNumber(s))
    else if s[0] == 't' then PegLeaf(Bool, s, Literal("true", s))
    else if s[0] == 'f' then PegLeaf(Bool, s, Literal("false", s))
    else PegLeaf(NullValue, s, Literal("null", s))
  }

  lemma LiteralIs(w: string, s: string)
    requires |w| == 1
    ensures Literal(w, s) == if s == "" then More(0, []) else if s[0] == w[0] then Skip(1) else Fail
  {
    assert s != "" ==> (s[0] == w[0] <==> w <= s);
  }

  lemma LiteralStart(w: string, s: string)
    requires s != "" && w != "" && s[0] != w[0]
    ensures Literal(w, s).Fail?
  {
  }

  lemma NumberStart(s: string)
    requires s != "" && s[0] != '-' && !IsDigit(s[0])
    ensures PegNumber(s).Fail?
  {
  }

  lemma GroupStart(s: string, dict: bool)
    requires s != "" && s[0] != Open(dict)[0]
    ensures PegGroup(s, dict).Fail?
  {
    LiteralStart(Open(dict), s);
  }

  lemma ValueIs(s: string)
    requires s != ""
    ensures PegValue(s) == Ruled(AnyValue, s, PegByStart(s))
  {
    hide PegGroup, PegNumber, PegString, Literal;
    if s[0] != '<' { StringStart(s); }
    if s[0] != '{' { GroupStart(s, true); }
    if s[0] != '[' { GroupStart(s, false); }
    if s[0] != '-' && !IsDigit(s[0]) { NumberStart(s); }
    if s[0] != 't' { LiteralStart("true", s); }
    if s[0] != 'f' { LiteralStart("false", s); }
    if s[0] != 'n' { LiteralStart("null", s); }
  }

  lemma StringStart(s: string)
    requires s != "" && s[0] != '<'
    ensures PegString(s).Fail?
  {
    LiteralStart(DELIM, s);
  }

  lemma LeafGrows(rule: Rule, p: string, s: string, r: Match, r': Match)
    requires p <= s && Fits(r, p) && Fits(r', s) && Grows(r, r')
    ensures Grows(PegLeaf(rule, p, r), PegLeaf(rule, s, r'))
  {
    hide Grows;
    RuledGrows(OtherRule, p, s, r, r');
    RuledGrows(rule, p, s, Ruled(OtherRule, p, r), Ruled(OtherRule, s, r'));
  }

  lemma ValueAtEnd()
    ensures Unread(PegValue(""))
  {
  }

  lemma {:induction false} ValueGrows(p: string, s: string)
    requires p <= s
    ensures Grows(PegValue(p), PegValue(s))
    decreases |p|, 1
  {
    hide PegGroup, PegNumber, PegString, Literal, Grows, PegLeaf, PegValue;
    if p == "" {
      ValueAtEnd();
      OneNode(s);
      UnreadGrows(0, 0, PegValue(""), PegValue(s));
      SkipNone(PegValue(""));
      SkipNone(PegValue(s));
    } else {
      ValueIs(p);
      ValueIs(s);
      if p[0] == '<' {
        StringGrows(p, s);
      } else if p[0] == '{' || p[0] == '[' {
        GroupGrows(p, s, p[0] == '{');
      } else if p[0] == '-' || IsDigit(p[0]) {
        NumberGrows(p, s);
        LeafGrows(Number, p, s, PegNumber(p), PegNumber(s));
      } else {
        var w := if p[0] == 't' then "true" else if p[0] == 'f' then "false" else "null";
        LiteralGrows(w, p, s);
        LeafGrows(if w == "null" then NullValue else Bool, p, s, Literal(w, p), Literal(w, s));
      }
      RuledGrows(AnyValue, p, s, PegByStart(p), PegByStart(s));
    }
  }

  lemma OneNode(s: string)
    ensures !PegValue(s).Fail? ==> |PegValue(s).nodes| == 1
  {
  }

  lemma SkipNone(r: Match)
    ensures After(Skip(0), r) == r
  {
    if !r.Fail? { assert [] + r.nodes == r.nodes; }
  }

  lemma {:induction false} GroupGrows(p: string, s: string, dict: bool)
    requires p <= s
    ensures Grows(PegGroup(p, dict), PegGroup(s, dict))
    decreases |p|, 0
  {
    hide PegInside, Grows, Literal, Ruled, PegGroup, Blanks;
    GroupIs(p, dict);
    GroupIs(s, dict);
    if p == "" {
      NothingGrows(PegBody(s, dict));
    } else if p[0] == Open(dict)[0] {
      var t, t' := p[1..], s[1..];
      var r, r' := PegInside(t[Blanks(t)..], dict), PegInside(t'[Blanks(t')..], dict);
      BlanksGrow(t, t');
      if Blanks(t) < |t| {
        InsideGrows(t[Blanks(t)..], t'[Blanks(t')..], dict);
      } else {
        assert t[Blanks(t)..] == "";
        InsideAtEnd(dict);
      }
      SpacedGrows(t, t', r, r');
      AfterGrows(Skip(1), After(Skip(Blanks(t)), r), After(Skip(Blanks(t')), r'));
    } else {
      BothFail(PegBody(p, dict), PegBody(s, dict));
    }
    RuledGrows(if dict then Dict else Array, p, s, PegBody(p, dict), PegBody(s, dict));
  }

  /** What a group is made of, without its node. */
  function PegBody(s: string, dict: bool): (r: Match)
    ensures Fits(r, s)
  {
    if s == "" then More(0, [])
    else if s[0] == Open(dict)[0] then
      var t := s[1..];
      After(Skip(1), After(Skip(Blanks(t)), PegInside(t[Blanks(t)..], dict)))
    else Fail
  }

  lemma GroupIs(s: string, dict: bool)
    ensures PegGroup(s, dict) == Ruled(if dict then Dict else Array, s, PegBody(s, dict))
  {
    hide PegInside, Literal, Blanks;
    LiteralIs(Open(dict), s);
    if s != "" { assert s[1..][Blanks(s[1..])..] == s[1 + Blanks(s[1..])..]; }
  }

  lemma InsideAtEnd(dict: bool)
    ensures PegInside("", dict) == More(0, [])
  {
  }

  lemma {:induction false} InsideGrows(p: string, s: string, dict: bool)
    requires p <= s && p != ""
    ensures Grows(PegInside(p, dict), PegInside(s, dict))
    decreases |p|, 8
  {
    hide PegItems, Grows;
    LiteralGrows(Close(dict), p, s);
    ItemsGrow(p, s, dict);
  }

  lemma {:induction false} ItemsGrow(p: string, s: string, dict: bool)
    requires p <= s
    ensures Grows(PegItems(p, dict), PegItems(s, dict))
    decreases |p|, 7
  {
    hide PegItem, PegRest;
    ItemGrows(p, s, dict);
    var i := PegItem(p, dict);
    if i.Done? {
      RestGrows(p[i.n..], s[i.n..], dict);
      AfterGrows(i, PegRest(p[i.n..], dict), PegRest(s[i.n..], dict));
    }
  }

  lemma {:induction false} ItemGrows(p: string, s: string, dict: bool)
    requires p <= s
    ensures Grows(PegItem(p, dict), PegItem(s, dict))
    decreases |p|, 3
  {
    hide PegKeyValue, PegValue, Grows;
    if dict { KeyValueGrows(p, s); } else { ValueGrows(p, s); }
  }

  lemma {:induction false} KeyValueGrows(p: string, s: string)
    requires p <= s
    ensures Grows(PegKeyValue(p), PegKeyValue(s))
    decreases |p|, 2
  {
    hide PegKey, PegValue, Grows;
    KeyGrows(p, s);
    var k := PegKey(p);
    if k.Done? {
      var t, t' := p[k.n..], s[k.n..];
      var r, r' := PegValue(t[Blanks(t)..]), PegValue(t'[Blanks(t')..]);
      assert Grows(k, PegKey(s)) ==> PegKey(s) == k by { DoneStays(k, PegKey(s)); }
      BlanksGrow(t, t');
      if Blanks(t) < |t| {
        ValueGrows(t[Blanks(t)..], t'[Blanks(t')..]);
      } else {
        assert t[Blanks(t)..] == "";
        ValueAtEnd();
        OneNode(t'[Blanks(t')..]);
      }
      SpacedGrows(t, t', r, r');
      AfterGrows(k, After(Skip(Blanks(t)), r), After(Skip(Blanks(t')), r'));
      KeyValueIs(p);
      KeyValueIs(s);
      RuledGrows(KeyValue, p, s, After(k, After(Skip(Blanks(t)), r)), After(k, After(Skip(Blanks(t')), r')));
    } else {
      KeyFirst(p, s, k, PegKey(s));
    }
  }

  lemma DoneStays(r: Match, r': Match)
    requires r.Done? && Grows(r, r')
    ensures r' == r
  {
  }

  lemma KeyValueIs(s: string)
    requires PegKey(s).Done?
    ensures var k := PegKey(s);
      var t := s[k.n..];
      PegKeyValue(s) == Ruled(KeyValue, s, After(k, After(Skip(Blanks(t)), PegValue(t[Blanks(t)..]))))
  {
    hide PegKey, PegValue;
    var k := PegKey(s);
    assert s[k.n..][Blanks(s[k.n..])..] == s[k.n + Blanks(s[k.n..])..];
  }

  /** A member of which the key is not complete. */
  lemma KeyFirst(p: string, s: string, k: Match, k': Match)
    requires p <= s && k == PegKey(p) && k' == PegKey(s) && !k.Done? && Grows(k, k')
    ensures Grows(PegKeyValue(p), PegKeyValue(s))
  {
    hide PegKey, PegValue;
    if k'.Done? {
      var b := Blanks(s[k'.n..]);
      var v := After(Skip(b), PegValue(s[k'.n + b..]));
      FirstGrows(k, k', v);
      RuledGrows(KeyValue, p, s, k, After(k', v));
    } else {
      RuledGrows(KeyValue, p, s, k, k');
    }
  }

  /** More may come behind what goes on. */
  lemma FirstGrows(r: Match, r': Match, q: Match)
    requires !r.Done? && r'.Done? && Grows(r, r')
    ensures Grows(r, After(r', q))
  {
  }

  lemma {:induction false} NextGrows(p: string, s: string, dict: bool)
    requires p <= s
    ensures Grows(PegNext(p, dict), PegNext(s, dict))
    decreases |p|, 4
  {
    hide PegItem, Grows, Literal;
    LiteralIs(",", p);
    LiteralIs(",", s);
    if p == "" {
      NothingGrows(PegNext(s, dict));
    } else if p[0] == ',' {
      var t, t' := p[1..], s[1..];
      var r, r' := PegItem(t[Blanks(t)..], dict), PegItem(t'[Blanks(t')..], dict);
      BlanksGrow(t, t');
      if Blanks(t) < |t| {
        ItemGrows(t[Blanks(t)..], t'[Blanks(t')..], dict);
      } else {
        assert t[Blanks(t)..] == "";
        ItemAtEnd(dict);
        OneItem(t'[Blanks(t')..], dict);
      }
      SpacedGrows(t, t', r, r');
      AfterGrows(Skip(1), After(Skip(Blanks(t)), r), After(Skip(Blanks(t')), r'));
    } else {
      BothFail(PegNext(p, dict), PegNext(s, dict));
    }
  }

  lemma BothFail(r: Match, r': Match)
    requires r.Fail? && r'.Fail?
    ensures Grows(r, r')
  {
  }

  lemma ItemAtEnd(dict: bool)
    ensures Unread(PegItem("", dict)) && |PegItem("", dict).nodes| == 1
  {
  }

  lemma OneItem(s: string, dict: bool)
    ensures !PegItem(s, dict).Fail? ==> |PegItem(s, dict).nodes| == 1
  {
    hide PegKey, PegValue;
    OneNode(s);
  }

  /** What becomes of the items behind the first one: they may go on, or, where the text
      turns out not to be an item, stop in front of its comma. */
  predicate MoreGrows(p: string, s: string, r: Match, r': Match)
    requires !r'.Fail?
  {
    && (r.Done? && r.n < |p| ==> r' == r)
    && (r.Done? && r.n >= |p| ==> r.n <= r'.n && r.nodes <= r'.nodes)
    && (r.More? ==> (r.n <= r'.n && CutNodes(r.nodes, r'.nodes)) || (r'.Done? && r'.n < |s| && s[r'.n] == ','))
  }

  lemma {:induction false} PegMoreGrows(p: string, s: string, dict: bool)
    requires p <= s
    ensures MoreGrows(p, s, PegMore(p, dict), PegMore(s, dict))
    decreases |p|, 5
  {
    hide PegNext;
    if p != "" {
      NextGrows(p, s, dict);
      NextStart(p, dict);
      NextStart(s, dict);
      var i, i' := PegNext(p, dict), PegNext(s, dict);
      if i.Done? {
        PegMoreGrows(p[i.n..], s[i.n..], dict);
        MoreAfter(p, s, i, PegMore(p[i.n..], dict), PegMore(s[i.n..], dict));
      }
    }
  }

  lemma NextStart(s: string, dict: bool)
    requires s != ""
    ensures !PegNext(s, dict).Fail? ==> s[0] == ','
    ensures PegNext(s, dict).Done? ==> PegNext(s, dict).n > 0
  {
    hide PegItem;
    LiteralIs(",", s);
  }

  lemma MoreAfter(p: string, s: string, i: Match, r: Match, r': Match)
    requires p <= s && i.Done? && i.n <= |p| && !r.Fail? && !r'.Fail? && MoreGrows(p[i.n..], s[i.n..], r, r')
    ensures MoreGrows(p, s, After(i, r), After(i, r'))
  {
  }

  lemma {:induction false} RestGrows(p: string, s: string, dict: bool)
    requires p <= s
    ensures Grows(PegRest(p, dict), PegRest(s, dict))
    decreases |p|, 6
  {
    hide PegMore, PegClose;
    PegMoreGrows(p, s, dict);
    var m, m' := PegMore(p, dict), PegMore(s, dict);
    if m.Done? && m.n < |p| {
      CloseGrows(p[m.n..], s[m.n..], dict);
      AfterGrows(m, PegClose(p[m.n..], dict), PegClose(s[m.n..], dict));
    } else if m.Done? {
      assert p[m.n..] == "";
      CloseAtEnd(dict);
      if m'.Done? { CloseNodes(s[m'.n..], dict); }
    } else if m'.Done? {
      if m'.n < |s| && s[m'.n] == ',' { NoClose(s[m'.n..], dict); }
      CloseNodes(s[m'.n..], dict);
    }
  }

  lemma CloseGrows(p: string, s: string, dict: bool)
    requires p <= s
    ensures Grows(PegClose(p, dict), PegClose(s, dict))
  {
    hide Grows, Literal, Blanks, Unread, After;
    BlanksGrow(p, s);
    CloseAtEnd(dict);
    if Blanks(p) < |p| {
      LiteralGrows(Close(dict), p[Blanks(p)..], s[Blanks(p)..]);
    } else {
      assert p[Blanks(p)..] == "";
    }
    SpacedGrows(p, s, Literal(Close(dict), p[Blanks(p)..]), Literal(Close(dict), s[Blanks(s)..]));
  }

  lemma CloseAtEnd(dict: bool)
    ensures Unread(Literal(Close(dict), "")) && Literal(Close(dict), "").nodes == []
    ensures PegClose("", dict) == More(0, [])
  {
    hide Literal;
    LiteralIs(Close(dict), "");
    assert ""[0..] == "";
  }

  lemma CloseNodes(s: string, dict: bool)
    ensures !PegClose(s, dict).Fail? ==> PegClose(s, dict).nodes == []
  {
    hide Literal;
  }

  /** A comma is no closing bracket. */
  lemma NoClose(s: string, dict: bool)
    requires s != "" && s[0] == ','
    ensures PegClose(s, dict).Fail?
  {
    assert s[0..] == s;
    LiteralStart(Close(dict), s);
  }

  /** Text that has not failed yet prints a prefix of what any longer text prints that has
      not failed either; failing is final, and so is being done. */
  lemma ArgumentsGrow(p: string, s: string)
    requires p <= s
    ensures PegGroup(p, true).Fail? ==> PegGroup(s, true).Fail?
    ensures PegGroup(p, true).Done? ==> PegGroup(s, true) == PegGroup(p, true)
    ensures !PegGroup(s, true).Fail? ==>
      var c, n := PegGroup(p, true).nodes, PegGroup(s, true).nodes;
      |c| == |n| == 1 && CutOf(c[0], n[0]) && ToJson(c[0]) <= ToJson(n[0])
  {
    hide ToJson, CutOf;
    GroupGrows(p, s, true);
    OneGroup(p, true);
    OneGroup(s, true);
    if !PegGroup(s, true).Fail? {
      ReflexiveCut(PegGroup(p, true).nodes[0]);
      CutPrintsPrefix(PegGroup(p, true).nodes[0], PegGroup(s, true).nodes[0]);
    }
  }

  lemma OneGroup(s: string, dict: bool)
    ensures !PegGroup(s, dict).Fail? ==> |PegGroup(s, dict).nodes| == 1
  {
  }

  lemma ReflexiveCut(n: Node)
    ensures CutOf(n, n)
  {
  }
}
