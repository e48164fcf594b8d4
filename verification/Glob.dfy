/** Glob patterns: * and ? stay inside a path component, ** does not, [...] is a class. */
module Glob {
  // ---- what a pattern means ----

  datatype Token =
    | AnyPath
    | AnyName
    | AnyChar
    | Class(text: string)
    | Literal(c: char)

  /** Position of the bracket that closes the class p starts, or |p|. A first character
      that is a bracket or a dash does not close it. */
  function ClassEnd(p: string): (e: nat)
    requires p != ""
    ensures 1 <= e <= |p| && (e < |p| ==> p[e] == ']')
    ensures var from := if |p| > 1 && p[1] in "]-" then 2 else 1; from <= e && forall i | from <= i < e :: p[i] != ']'
  {
    var from := if |p| > 1 && p[1] in "]-" then 2 else 1;
    FirstClose(p, from)
  }

  function FirstClose(p: string, from: nat): (e: nat)
    requires from <= |p|
    ensures from <= e <= |p| && (e < |p| ==> p[e] == ']') && forall i | from <= i < e :: p[i] != ']'
    decreases |p| - from
  {
    if from == |p| || p[from] == ']' then from else FirstClose(p, from + 1)
  }

  function Tokens(p: string): seq<Token>
    decreases |p|
  {
    if p == "" then []
    else if p[0] == '*' && |p| > 1 && p[1] == '*' then [AnyPath] + Tokens(p[2..])
    else if p[0] == '*' then [AnyName] + Tokens(p[1..])
    else if p[0] == '?' then [AnyChar] + Tokens(p[1..])
    else if p[0] == '[' && ClassEnd(p) < |p| then [Class(p[1..ClassEnd(p)])] + Tokens(p[ClassEnd(p) + 1..])
    else [Literal(p[0])] + Tokens(p[1..])
  }

  datatype Range = Range(lo: char, hi: char)

  /** Ranges lo-hi and single characters. */
  function Ranges(text: string): seq<Range>
    decreases |text|
  {
    if text == "" then []
    else if |text| >= 3 && text[1] == '-' && text[2] != ']' then [Range(text[0], text[2])] + Ranges(text[3..])
    else [Range(text[0], text[0])] + Ranges(text[1..])
  }

  /** A leading bracket or dash stands for itself and starts no range. */
  function ClassRanges(text: string): seq<Range> {
    if text != "" && text[0] in "]-" then [Range(text[0], text[0])] + Ranges(text[1..]) else Ranges(text)
  }

  /** Whether the platform's char is signed; nothing below depends on it. */
  const SIGNED_CHARS: bool

  /** The number a byte is compared as. */
  function Code(c: char): int {
    if SIGNED_CHARS && 128 <= c as int < 256 then c as int - 256 else c as int
  }

  predicate InRanges(c: char, ranges: seq<Range>) {
    exists i | 0 <= i < |ranges| :: Code(ranges[i].lo) <= Code(c) <= Code(ranges[i].hi)
  }

  /** An exclamation mark in front negates the class. */
  predicate InClass(c: char, text: string) {
    if text != "" && text[0] == '!' then !InRanges(c, ClassRanges(text[1..])) else InRanges(c, ClassRanges(text))
  }

  /** The pieces of a string a token stands for. */
  predicate Takes(t: Token, piece: string) {
    match t
    case AnyPath => true
    case AnyName => '/' !in piece
    case AnyChar => |piece| == 1 && piece[0] != '/'
    case Class(text) => |piece| == 1 && InClass(piece[0], text)
    case Literal(c) => piece == [c]
  }

  function Joined(pieces: seq<string>): string {
    if pieces == [] then "" else pieces[0] + Joined(pieces[1..])
  }

  /** The string is cut into consecutive pieces, one for every token. */
  ghost predicate CutFor(ts: seq<Token>, s: string, pieces: seq<string>) {
    |pieces| == |ts| && Joined(pieces) == s && forall i | 0 <= i < |ts| :: Takes(ts[i], pieces[i])
  }

  ghost predicate Matches(pattern: string, s: string) {
    exists pieces :: CutFor(Tokens(pattern), s, pieces)
  }

  // ---- the same, one token after the other ----

  predicate Accepts(ts: seq<Token>, s: string)
    decreases |ts|
  {
    if ts == [] then s == ""
    else exists k | 0 <= k <= |s| :: Takes(ts[0], s[..k]) && Accepts(ts[1..], s[k..])
  }

  lemma {:induction false} CutFound(ts: seq<Token>, s: string) returns (pieces: seq<string>)
    requires Accepts(ts, s)
    ensures CutFor(ts, s, pieces)
    decreases |ts|
  {
    hide Takes;
    if ts == [] {
      pieces := [];
    } else {
      var k :| 0 <= k <= |s| && Takes(ts[0], s[..k]) && Accepts(ts[1..], s[k..]);
      var rest := CutFound(ts[1..], s[k..]);
      pieces := [s[..k]] + rest;
      assert pieces[1..] == rest && s == s[..k] + s[k..];
    }
  }

  lemma {:induction false} CutAccepted(ts: seq<Token>, s: string, pieces: seq<string>)
    requires CutFor(ts, s, pieces)
    ensures Accepts(ts, s)
    decreases |ts|
  {
    hide Takes;
    if ts != [] {
      var k := |pieces[0]|;
      assert s[..k] == pieces[0] && s[k..] == Joined(pieces[1..]);
      assert forall i | 0 <= i < |ts[1..]| :: ts[1..][i] == ts[i + 1] && pieces[1..][i] == pieces[i + 1];
      CutAccepted(ts[1..], s[k..], pieces[1..]);
    }
  }

  lemma MatchesIs(pattern: string, s: string)
    ensures Matches(pattern, s) <==> Accepts(Tokens(pattern), s)
  {
    hide Tokens, Accepts, CutFor;
    if Accepts(Tokens(pattern), s) {
      var pieces := CutFound(Tokens(pattern), s);
    }
    if Matches(pattern, s) {
      var pieces :| CutFor(Tokens(pattern), s, pieces);
      CutAccepted(Tokens(pattern), s, pieces);
    }
  }

  lemma AcceptsCons(t: Token, ts: seq<Token>, s: string)
    ensures Accepts([t] + ts, s) <==> exists k | 0 <= k <= |s| :: Takes(t, s[..k]) && Accepts(ts, s[k..])
  {
    hide Takes;
    assert ([t] + ts)[1..] == ts;
  }

  lemma AcceptsAnyPath(ts: seq<Token>, s: string)
    ensures Accepts([AnyPath] + ts, s) <==> Accepts(ts, s) || (s != "" && Accepts([AnyPath] + ts, s[1..]))
  {
    hide Accepts;
    AcceptsCons(AnyPath, ts, s);
    assert s[0..] == s;
    if s != "" {
      var u := s[1..];
      AcceptsCons(AnyPath, ts, u);
      if k :| 0 <= k <= |u| && Takes(AnyPath, u[..k]) && Accepts(ts, u[k..]) {
        assert s[k + 1..] == u[k..] && Takes(AnyPath, s[..k + 1]);
      }
      if k :| 0 < k <= |s| && Accepts(ts, s[k..]) {
        assert u[k - 1..] == s[k..] && Takes(AnyPath, u[..k - 1]);
      }
    }
    assert Takes(AnyPath, s[..0]);
  }

  /** A token that takes exactly one character. */
  lemma AcceptsOne(t: Token, ts: seq<Token>, s: string)
    requires t.AnyChar? || t.Class? || t.Literal?
    ensures Accepts([t] + ts, s) <==> s != "" && Takes(t, s[..1]) && Accepts(ts, s[1..])
  {
    hide Accepts, InClass;
    AcceptsCons(t, ts, s);
    assert forall k | 0 <= k <= |s| && Takes(t, s[..k]) :: |s[..k]| == 1;
  }

  lemma TokensClass(p: string, e: nat)
    requires p != "" && p[0] == '[' && e < |p| && p[e] == ']'
    requires var from := if |p| > 1 && p[1] in "]-" then 2 else 1; from <= e && forall i | from <= i < e :: p[i] != ']'
    ensures Tokens(p) == [Class(p[1..e])] + Tokens(p[e + 1..])
  {
    hide InClass, FirstClose;
    var n := ClassEnd(p);
    assert n == e;
  }

  lemma TokensUnclosed(p: string)
    requires p != "" && p[0] == '['
    requires var from := if |p| > 1 && p[1] in "]-" then 2 else 1; forall i | from <= i < |p| :: p[i] != ']'
    ensures Tokens(p) == [Literal('[')] + Tokens(p[1..])
  {
    hide FirstClose, ClassEnd;
    var n := ClassEnd(p);
    assert n == |p|;
  }

  /** A pattern that starts with a class. */
  lemma ClassAccepts(p: string, e: nat, s: string)
    requires p != "" && p[0] == '[' && e < |p| && p[e] == ']'
    requires var from := if |p| > 1 && p[1] in "]-" then 2 else 1; from <= e && forall i | from <= i < e :: p[i] != ']'
    ensures Accepts(Tokens(p), s) <==> s != "" && InClass(s[0], p[1..][..e - 1]) && Accepts(Tokens(p[e + 1..]), s[1..])
  {
    hide Accepts, InClass, Tokens;
    TokensClass(p, e);
    AcceptsOne(Class(p[1..e]), Tokens(p[e + 1..]), s);
    assert p[1..][..e - 1] == p[1..e];
  }

  /** A pattern that starts with a bracket that nothing closes. */
  lemma BracketAccepts(p: string, s: string)
    requires p != "" && p[0] == '['
    requires var from := if |p| > 1 && p[1] in "]-" then 2 else 1; forall i | from <= i < |p| :: p[i] != ']'
    ensures Accepts(Tokens(p), s) <==> s != "" && s[0] == '[' && Accepts(Tokens(p[1..]), s[1..])
  {
    hide Accepts, Tokens;
    TokensUnclosed(p);
    AcceptsOne(Literal('['), Tokens(p[1..]), s);
  }

  // ---- the matcher ----

  lemma InRangesCons(c: char, r: Range, rs: seq<Range>)
    ensures InRanges(c, [r] + rs) <==> Code(r.lo) <= Code(c) <= Code(r.hi) || InRanges(c, rs)
  {
    assert ([r] + rs)[0] == r && forall i | 0 <= i < |rs| :: ([r] + rs)[i + 1] == rs[i];
  }

  /** The class whose text is pattern up to classEnd; a closing bracket stands there. */
  method GlobClassMatch(c: char, pattern: string, classEnd: nat) returns (r: bool)
    requires classEnd < |pattern| && pattern[classEnd] == ']'
    ensures r <==> InClass(c, pattern[..classEnd])
  {
    hide InRanges, Ranges;
    ghost var text := pattern[..classEnd];
    var classStart := 0;
    var negated := false;
    if pattern[classStart] == '!' {
      negated := true;
      classStart := classStart + 1;
    }
    ghost var body := text[classStart..];
    assert !negated ==> body == text;
    assert InClass(c, text) <==> InRanges(c, ClassRanges(body)) != negated;
    assert classStart < classEnd ==> body[0] == pattern[classStart];
    if pattern[classStart] == ']' || pattern[classStart] == '-' {
      if classStart < classEnd { InRangesCons(c, Range(body[0], body[0]), Ranges(body[1..])); }
      if classStart < classEnd && pattern[classStart] == c {
        return !negated;
      }
      classStart := classStart + 1;
    }
    assert classStart <= classEnd ==> (InRanges(c, ClassRanges(body)) <==> InRanges(c, Ranges(text[classStart..])));
    NoRanges(c);

    var matched := false;
    while classStart < classEnd
      invariant classStart <= classEnd ==> (InRanges(c, ClassRanges(body)) <==> InRanges(c, Ranges(text[classStart..])))
      invariant classStart > classEnd ==> !InRanges(c, ClassRanges(body))
      invariant !matched
      decreases classEnd - classStart
    {
      RangesStep(c, text[classStart..]);
      if classStart + 2 < classEnd && pattern[classStart + 1] == '-' && pattern[classStart + 2] != ']' {
        if Code(c) >= Code(pattern[classStart]) && Code(c) <= Code(pattern[classStart + 2]) {
          matched := true;
          break;
        }
        assert text[classStart..][3..] == text[classStart + 3..];
        classStart := classStart + 3;
      } else {
        if pattern[classStart] == c {
          matched := true;
          break;
        }
        assert text[classStart..][1..] == text[classStart + 1..];
        classStart := classStart + 1;
      }
    }
    assert classStart == classEnd ==> text[classStart..] == "";
    r := if negated then !matched else matched;
  }

  lemma NoRanges(c: char)
    ensures !InRanges(c, Ranges(""))
  {
  }

  lemma CodeInjective(c: char, d: char)
    ensures Code(c) == Code(d) <==> c == d
  {
    assert (c as int) as char == c && (d as int) as char == d;
  }

  lemma RangesStep(c: char, text: string)
    requires text != ""
    ensures InRanges(c, Ranges(text)) <==>
            if |text| >= 3 && text[1] == '-' && text[2] != ']'
            then Code(text[0]) <= Code(c) <= Code(text[2]) || InRanges(c, Ranges(text[3..]))
            else c == text[0] || InRanges(c, Ranges(text[1..]))
  {
    hide InRanges, Code;
    CodeInjective(c, text[0]);
    var head := if |text| >= 3 && text[1] == '-' && text[2] != ']' then 3 else 1;
    var r := Range(text[0], if head == 3 then text[2] else text[0]);
    assert Ranges(text) == [r] + Ranges(text[head..]);
    InRangesCons(c, r, Ranges(text[head..]));
  }

  /** Both strings end in a null character, so the character after the last is not a match. */
  method GlobMatch(pattern: string, str: string) returns (r: bool)
    requires '\0' !in pattern && '\0' !in str
    ensures r <==> Accepts(Tokens(pattern), str)
    decreases |pattern|, |str|
  {
    hide Accepts, InClass, FirstClose, ClassEnd;
    if pattern == "" {
      EmptyAccepts(str);
      return str == "";
    }
    if pattern[0] == '*' && |pattern| > 1 && pattern[1] == '*' {
      AcceptsAnyPath(Tokens(pattern[2..]), str);
      r := GlobMatch(pattern[2..], str);
      if r {
        return true;
      }
      if str != "" {
        r := GlobMatch(pattern, str[1..]);
        return r;
      }
      return false;
    }
    if pattern[0] == '*' {
      var p := pattern[1..];
      var i := 0;
      AcceptsCons(AnyName, Tokens(p), str);
      while i < |str| && str[i] != '/'
        invariant 0 <= i <= |str| && '/' !in str[..i]
        invariant forall k | 0 <= k < i :: !Accepts(Tokens(p), str[k..])
      {
        r := GlobMatch(p, str[i..]);
        if r {
          assert Takes(AnyName, str[..i]);
          return true;
        }
        i := i + 1;
      }
      r := GlobMatch(p, str[i..]);
      assert Takes(AnyName, str[..i]);
      assert forall k | i < k <= |str| :: str[i] in str[..k];
      return r;
    }
    if pattern[0] == '?' && str != "" && str[0] != '/' {
      AcceptsOne(AnyChar, Tokens(pattern[1..]), str);
      r := GlobMatch(pattern[1..], str[1..]);
      return r;
    }
    if pattern[0] == '[' {
      var classEnd := 1;
      if classEnd < |pattern| && (pattern[classEnd] == ']' || pattern[classEnd] == '-') {
        classEnd := classEnd + 1;
      }
      ghost var from := classEnd;
      while classEnd < |pattern| && pattern[classEnd] != ']'
        invariant from <= classEnd <= |pattern|
        invariant forall i | from <= i < classEnd :: pattern[i] != ']'
      {
        classEnd := classEnd + 1;
      }
      if classEnd < |pattern| {
        ClassAccepts(pattern, classEnd, str);
        if str == "" {
          return false;
        }
        var matched := GlobClassMatch(str[0], pattern[1..], classEnd - 1);
        if !matched {
          return false;
        }
        r := GlobMatch(pattern[classEnd + 1..], str[1..]);
        return r;
      } else {
        BracketAccepts(pattern, str);
        if str != "" && str[0] == '[' {
          r := GlobMatch(pattern[1..], str[1..]);
          return r;
        }
        return false;
      }
    }
    AcceptsOne(if pattern[0] == '?' then AnyChar else Literal(pattern[0]), Tokens(pattern[1..]), str);
    if str != "" && pattern[0] == str[0] {
      r := GlobMatch(pattern[1..], str[1..]);
      return r;
    }
    return false;
  }

  lemma EmptyAccepts(s: string)
    ensures Accepts(Tokens(""), s) <==> s == ""
  {
  }

  /** The part of a string in front of its first null character. */
  function CString(s: string): (t: string)
    ensures t <= s && '\0' !in t && (|t| < |s| ==> s[|t|] == '\0')
  {
    if s == "" || s[0] == '\0' then "" else [s[0]] + CString(s[1..])
  }

  /** The entry point: a string matches exactly when it can be cut into pieces, one for
      every token of the pattern. */
  method GlobMatchStrings(pattern: string, str: string) returns (r: bool)
    ensures r <==> Matches(CString(pattern), CString(str))
  {
    MatchesIs(CString(pattern), CString(str));
    r := GlobMatch(CString(pattern), CString(str));
  }

  // ---- what follows for patterns ----

  predicate IsSpecial(c: char) { c in "*?[" }

  /** A pattern without special characters matches itself only. */
  lemma {:induction false} LiteralMatches(p: string, s: string)
    requires forall i | 0 <= i < |p| :: !IsSpecial(p[i])
    ensures Accepts(Tokens(p), s) <==> s == p
    decreases |p|
  {
    hide Accepts;
    if p == "" {
      EmptyAccepts(s);
    } else {
      AcceptsOne(Literal(p[0]), Tokens(p[1..]), s);
      if s != "" { LiteralMatches(p[1..], s[1..]); }
    }
  }

  /** A bracket after the exclamation mark closes the class: what is left is a class that
      takes every character. */
  lemma BracketAfterNegation(rest: string, c: char)
    ensures Tokens("[!]" + rest) == [Class("!")] + Tokens(rest)
    ensures InClass(c, "!")
  {
    var p := "[!]" + rest;
    TokensClass(p, 2);
    assert p[1..2] == "!" && p[3..] == rest;
    assert "!"[1..] == "";
    NoRanges(c);
  }

  // ---- what a pattern's characters mean ----

  /** A star in front takes a piece without a slash, two stars any piece, and the rest of
      the pattern takes the rest. */
  lemma StarsTake(p: string, s: string)
    ensures Accepts(Tokens("**" + p), s) <==> exists k | 0 <= k <= |s| :: Accepts(Tokens(p), s[k..])
    ensures p == "" || p[0] != '*' ==>
      (Accepts(Tokens("*" + p), s) <==> exists k | 0 <= k <= |s| :: '/' !in s[..k] && Accepts(Tokens(p), s[k..]))
  {
    hide Accepts, Tokens;
    StarTokens(p);
    AcceptsCons(AnyPath, Tokens(p), s);
    AcceptsCons(AnyName, Tokens(p), s);
    assert forall k | 0 <= k <= |s| :: Takes(AnyPath, s[..k]);
    assert forall k | 0 <= k <= |s| :: Takes(AnyName, s[..k]) <==> '/' !in s[..k];
  }

  lemma StarTokens(p: string)
    ensures Tokens("**" + p) == [AnyPath] + Tokens(p)
    ensures p == "" || p[0] != '*' ==> Tokens("*" + p) == [AnyName] + Tokens(p)
  {
    hide ClassEnd;
    var s, t := "**" + p, "*" + p;
    assert s[0] == '*' && s[1] == '*' && s[2..] == p;
    assert t[0] == '*' && t[1..] == p && (p != "" ==> t[1] == p[0]);
  }

  /** A question mark takes one character that is no slash, and a character that is not
      special takes itself. */
  lemma OneTakes(c: char, p: string, s: string)
    requires c == '?' || c !in "*?["
    ensures Accepts(Tokens([c] + p), s) <==>
            s != "" && (if c == '?' then s[0] != '/' else s[0] == c) && Accepts(Tokens(p), s[1..])
  {
    hide Accepts;
    assert ([c] + p)[1..] == p;
    AcceptsOne(if c == '?' then AnyChar else Literal(c), Tokens(p), s);
  }

  /** A bracket with a range takes one character of the range, and its complement, behind
      an exclamation mark, any other one. */
  lemma RangeTakes(lo: char, hi: char, p: string, s: string)
    requires lo !in "]-!" && hi != ']' && lo as int < 128 && hi as int < 128
    ensures Accepts(Tokens(['[', lo, '-', hi, ']'] + p), s) <==>
            s != "" && lo <= s[0] <= hi && Accepts(Tokens(p), s[1..])
    ensures Accepts(Tokens(['[', '!', lo, '-', hi, ']'] + p), s) <==>
            s != "" && !(lo <= s[0] <= hi) && Accepts(Tokens(p), s[1..])
  {
    hide Accepts, Tokens, InClass;
    var q, n := ['[', lo, '-', hi, ']'] + p, ['[', '!', lo, '-', hi, ']'] + p;
    assert q[1..][..3] == [lo, '-', hi] && q[5..] == p;
    assert n[1..][..4] == "!" + [lo, '-', hi] && n[6..] == p;
    ClassAccepts(q, 4, s);
    ClassAccepts(n, 5, s);
    if s != "" {
      RangeClass(s[0], lo, hi);
      Negation(s[0], [lo, '-', hi]);
    }
  }

  lemma RangeClass(c: char, lo: char, hi: char)
    requires lo !in "]-!" && hi != ']' && lo as int < 128 && hi as int < 128
    ensures InClass(c, [lo, '-', hi]) <==> lo <= c <= hi
  {
    var text := [lo, '-', hi];
    assert text[3..] == "" && ClassRanges(text) == Ranges(text);
    RangesStep(c, text);
    NoRanges(c);
  }

  /** Characters that stand for themselves inside a class. */
  predicate PlainMembers(m: string) { m != "" && forall i | 0 <= i < |m| :: m[i] !in "]-!" }

  /** A bracket with a list of characters takes one of them, and its complement any other. */
  lemma ListTakes(m: string, p: string, s: string)
    requires PlainMembers(m)
    ensures Accepts(Tokens("[" + m + "]" + p), s) <==> s != "" && s[0] in m && Accepts(Tokens(p), s[1..])
    ensures Accepts(Tokens("[!" + m + "]" + p), s) <==> s != "" && s[0] !in m && Accepts(Tokens(p), s[1..])
  {
    hide Accepts, Tokens, InClass;
    var q, n, e := "[" + m + "]" + p, "[!" + m + "]" + p, |m| + 1;
    assert q[1..][..e - 1] == m && q[e + 1..] == p;
    assert n[1..][..e] == "!" + m && n[e + 2..] == p;
    assert forall i | 1 <= i < e :: q[i] == m[i - 1] && n[i + 1] == m[i - 1];
    ClassAccepts(q, e, s);
    ClassAccepts(n, e + 1, s);
    if s != "" {
      ListRanges(s[0], m);
      Negation(s[0], m);
    }
  }

  lemma Negation(c: char, m: string)
    requires m != "" && m[0] != '!'
    ensures InClass(c, "!" + m) <==> !InClass(c, m)
  {
    assert ("!" + m)[1..] == m;
  }

  lemma {:induction false} ListRanges(c: char, m: string)
    requires forall i | 0 <= i < |m| :: m[i] !in "]-!"
    ensures InRanges(c, Ranges(m)) <==> c in m
    ensures InClass(c, m) <==> c in m
  {
    hide InRanges;
    if m == "" {
      NoRanges(c);
    } else {
      RangesStep(c, m);
      ListRanges(c, m[1..]);
    }
  }

  /** A bracket or a dash in front belongs to the class and does not close it. */
  lemma LeadTakes(lead: char, m: string, p: string, s: string)
    requires lead in "]-" && PlainMembers(m)
    ensures Accepts(Tokens("[" + [lead] + m + "]" + p), s) <==>
            s != "" && (s[0] == lead || s[0] in m) && Accepts(Tokens(p), s[1..])
  {
    hide Accepts, Tokens, InClass;
    var q, e := "[" + [lead] + m + "]" + p, |m| + 2;
    assert q[1..][..e - 1] == [lead] + m && q[e + 1..] == p;
    assert forall i | 2 <= i < e :: q[i] == m[i - 2];
    ClassAccepts(q, e, s);
    if s != "" { LeadClass(s[0], lead, m); }
  }

  lemma LeadClass(c: char, lead: char, m: string)
    requires lead in "]-" && PlainMembers(m)
    ensures InClass(c, [lead] + m) <==> c == lead || c in m
  {
    hide InRanges, Ranges;
    assert ([lead] + m)[1..] == m;
    InRangesCons(c, Range(lead, lead), Ranges(m));
    CodeInjective(c, lead);
    ListRanges(c, m);
  }
}
