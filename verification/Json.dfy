/** JSON text as tokens: the escape map of section 7 of RFC 8259, a lexer for JSON
    and for the Python literals that tool-call values may use, and the proof that
    quoted text reads back. */
module Json {
  import opened Chars
  import opened Options

  // ---- escaping ----

  predicate IsControl(c: char) { c as int < 0x20 }

  /** How one character is written inside a JSON string. */
  function EscapeChar(c: char): (s: string)
    ensures |s| > 0
  {
    if c == '"' then "\\\""
    else if c == '\\' then "\\\\"
    else if c == '\n' then "\\n"
    else if c == '\r' then "\\r"
    else if c == '\t' then "\\t"
    else if c as int == 8 then "\\b"
    else if c as int == 12 then "\\f"
    else if IsControl(c) then "\\u00" + [HexDigit(c as int / 16), HexDigit(c as int % 16)]
    else [c]
  }

  /** The inside of the JSON string that holds s. */
  function Escape(s: string): string {
    if s == "" then "" else EscapeChar(s[0]) + Escape(s[1..])
  }

  /** The JSON string that holds s, with its quotes. */
  function Quote(s: string): string { "\"" + Escape(s) + "\"" }

  lemma {:induction false} EscapeAppend(s: string, t: string)
    ensures Escape(s + t) == Escape(s) + Escape(t)
  {
    if s == "" {
      assert s + t == t;
    } else {
      assert (s + t)[1..] == s[1..] + t;
      EscapeAppend(s[1..], t);
    }
  }

  /** A longer text has a longer escaped form. */
  lemma EscapePrefix(s: string, t: string)
    requires s <= t
    ensures Escape(s) <= Escape(t)
  {
    assert t == s + t[|s|..];
    EscapeAppend(s, t[|s|..]);
  }

  // ---- tokens ----

  datatype Token = Punct(c: char) | Str(v: string) | Num(text: string) | True | False | Null

  predicate IsSpace(c: char) { c == ' ' || c == '\t' || c == '\n' || c == '\r' }

  predicate IsPunct(c: char) { c in "{}[]:," }

  predicate IsDigit(c: char) { '0' <= c <= '9' }

  /** Characters of a number, a keyword or an identifier. */
  predicate IsWord(c: char) { 'a' <= c <= 'z' || 'A' <= c <= 'Z' || IsDigit(c) || c == '_' }

  predicate IsAtom(c: char) { IsWord(c) || c == '+' || c == '-' || c == '.' }

  function AtomLen(s: string): (n: nat)
    ensures n <= |s|
    ensures forall i | 0 <= i < n :: IsAtom(s[i])
    ensures n < |s| ==> !IsAtom(s[n])
  {
    if s == "" || !IsAtom(s[0]) then 0 else 1 + AtomLen(s[1..])
  }

  function Digits(s: string): (n: nat)
    ensures n <= |s| && forall i | 0 <= i < n :: IsDigit(s[i])
  {
    if s == "" || !IsDigit(s[0]) then 0 else 1 + Digits(s[1..])
  }

  predicate IsExponent(s: string) {
    s == "" ||
    ((s[0] == 'e' || s[0] == 'E') &&
     var d := if |s| > 1 && (s[1] == '+' || s[1] == '-') then s[2..] else s[1..];
     d != "" && Digits(d) == |d|)
  }

  predicate IsFraction(s: string) {
    if s != "" && s[0] == '.' then Digits(s[1..]) > 0 && IsExponent(s[1 + Digits(s[1..])..])
    else IsExponent(s)
  }

  /** The number grammar of section 6 of RFC 8259. */
  predicate IsNumber(s: string) {
    var u := if s != "" && s[0] == '-' then s[1..] else s;
    var n := Digits(u);
    n > 0 && (n == 1 || u[0] != '0') && IsFraction(u[n..])
  }

  predicate IsNumChar(c: char) { IsDigit(c) || c in "+-.eE" }

  /** Which token an atom is; Python spells three of them differently. */
  function AtomToken(a: string, py: bool): Option<Token> {
    if a == "true" || (py && a == "True") then Some(True)
    else if a == "false" || (py && a == "False") then Some(False)
    else if a == "null" || (py && a == "None") then Some(Null)
    else if IsNumber(a) then Some(Num(a))
    else None
  }

  /** The character a two-character escape stands for, in a string quoted by q; an escaped
      single quote exists only in single-quoted strings. */
  function EscapedChar(e: char, q: char): Option<char> {
    if e == '"' || e == '\\' || e == '/' then Some(e)
    else if e == '\'' && q == '\'' then Some(e)
    else if e == 'n' then Some('\n')
    else if e == 'r' then Some('\r')
    else if e == 't' then Some('\t')
    else if e == 'b' then Some(8 as char)
    else if e == 'f' then Some(12 as char)
    else None
  }

  /** The character written as four hexadecimal digits. Surrogates stand for no character
      and are read as the replacement character. */
  function HexChar(s: string): (c: Option<char>)
    ensures c.Some? ==> |s| >= 4
  {
    if |s| < 4 then None else
    var a, b, c, d := HexValue(s[0]), HexValue(s[1]), HexValue(s[2]), HexValue(s[3]);
    if a.None? || b.None? || c.None? || d.None? then None else
    var n := ((a.value * 16 + b.value) * 16 + c.value) * 16 + d.value;
    Some(if 0xD800 <= n < 0xE000 || n >= 0x1_0000 then '\U{FFFD}' else n as char)
  }

  datatype Read = Read(value: string, rest: string)

  /** The rest of a string after its opening quote q: its value, and what follows it. */
  function StringBody(s: string, q: char): (r: Option<Read>)
    ensures r.Some? ==> |r.value.rest| < |s|
    decreases |s|
  {
    if s == "" then None
    else if s[0] == q then Some(Read("", s[1..]))
    else if s[0] == '\\' then
      if |s| < 2 then None
      else if s[1] == 'u' then
        var c := HexChar(s[2..]);
        if c.None? then None else
        var r := StringBody(s[6..], q);
        if r.None? then None else Some(Read([c.value] + r.value.value, r.value.rest))
      else
        var c := EscapedChar(s[1], q);
        if c.None? then None else
        var r := StringBody(s[2..], q);
        if r.None? then None else Some(Read([c.value] + r.value.value, r.value.rest))
    else if IsControl(s[0]) then None
    else
      var r := StringBody(s[1..], q);
      if r.None? then None else Some(Read([s[0]] + r.value.value, r.value.rest))
  }

  function Cons(t: Token, ts: Option<seq<Token>>): Option<seq<Token>> {
    if ts.None? then None else Some([t] + ts.value)
  }

  /** The tokens of a text: JSON, or (py) Python literals, which also allow single
      quotes and the spellings True, False and None. */
  function Lex(s: string, py: bool): (ts: Option<seq<Token>>)
    decreases |s|
  {
    if s == "" then Some([])
    else if IsSpace(s[0]) then Lex(s[1..], py)
    else if IsPunct(s[0]) then Cons(Punct(s[0]), Lex(s[1..], py))
    else if s[0] == '"' || (py && s[0] == '\'') then
      var r := StringBody(s[1..], s[0]);
      if r.None? then None else Cons(Str(r.value.value), Lex(r.value.rest, py))
    else
      var n := AtomLen(s);
      var t := AtomToken(s[..n], py);
      if n == 0 || t.None? then None else Cons(t.value, Lex(s[n..], py))
  }

  // ---- a quoted text reads back ----

  /** An escaped character is read as that character. */
  lemma EscapeCharBody(c: char, s: string)
    ensures StringBody(EscapeChar(c) + s, '"') == Prepend(c, StringBody(s, '"'))
  {
    hide StringBody;
    var e := EscapeChar(c);
    if |e| == 6 {
      ControlBody(c, s);
    } else if |e| == 2 {
      PairBody(c, s);
    } else {
      PlainBody(c, s);
    }
  }

  lemma PlainBody(c: char, s: string)
    requires |EscapeChar(c)| != 6 && |EscapeChar(c)| != 2
    ensures StringBody(EscapeChar(c) + s, '"') == Prepend(c, StringBody(s, '"'))
  {
    hide HexChar, EscapedChar;
    var e := EscapeChar(c);
    assert e == [c] && (e + s)[1..] == s && (e + s)[0] == c;
  }

  function Prepend(c: char, r: Option<Read>): Option<Read> {
    if r.None? then None else Some(Read([c] + r.value.value, r.value.rest))
  }

  lemma PairBody(c: char, s: string)
    requires |EscapeChar(c)| == 2
    ensures StringBody(EscapeChar(c) + s, '"') == Prepend(c, StringBody(s, '"'))
  {
    var e := EscapeChar(c);
    assert e[0] == '\\' && e[1] != 'u' && EscapedChar(e[1], '"') == Some(c);
    assert (e + s)[2..] == s && (e + s)[0] == e[0] && (e + s)[1] == e[1];
  }

  lemma ControlBody(c: char, s: string)
    requires |EscapeChar(c)| == 6
    ensures StringBody(EscapeChar(c) + s, '"') == Prepend(c, StringBody(s, '"'))
  {
    var e := EscapeChar(c);
    assert IsControl(c) && e == "\\u00" + [HexDigit(c as int / 16), HexDigit(c as int % 16)];
    var u := e + s;
    assert u[2..] == "00" + [HexDigit(c as int / 16), HexDigit(c as int % 16)] + s && u[6..] == s;
    HexOfControl(c, s);
    UnicodeBody(u, s, c);
  }

  lemma UnicodeBody(u: string, s: string, c: char)
    requires |u| >= 6 && u[0] == '\\' && u[1] == 'u' && HexChar(u[2..]) == Some(c) && u[6..] == s
    ensures StringBody(u, '"') == Prepend(c, StringBody(s, '"'))
  {
    hide HexChar;
  }

  lemma HexOfControl(c: char, s: string)
    requires IsControl(c)
    ensures HexChar("00" + [HexDigit(c as int / 16), HexDigit(c as int % 16)] + s) == Some(c)
  {
    HexDigitValue(c as int / 16);
    HexDigitValue(c as int % 16);
  }

  lemma {:induction false} EscapeReads(v: string, rest: string)
    ensures StringBody(Escape(v) + "\"" + rest, '"') == Some(Read(v, rest))
  {
    hide StringBody, EscapeChar;
    if v == "" {
      assert Escape(v) + "\"" + rest == "\"" + rest;
      ClosingQuote(rest);
    } else {
      EscapeReads(v[1..], rest);
      EscapeCharBody(v[0], Escape(v[1..]) + "\"" + rest);
      assert Escape(v) + "\"" + rest == EscapeChar(v[0]) + (Escape(v[1..]) + "\"" + rest);
      assert v == [v[0]] + v[1..];
    }
  }

  lemma ClosingQuote(rest: string)
    ensures StringBody("\"" + rest, '"') == Some(Read("", rest))
  {
    assert ("\"" + rest)[1..] == rest;
  }

  /** A quoted text is one string token whose value is the text. */
  lemma QuoteReads(v: string, rest: string)
    ensures Lex(Quote(v) + rest, false) == Cons(Str(v), Lex(rest, false))
  {
    hide StringBody;
    var s := Quote(v) + rest;
    assert s[1..] == Escape(v) + "\"" + rest;
    EscapeReads(v, rest);
  }

  // ---- lexing a concatenation ----

  predicate AtomFree(s: string) { s == "" || !IsAtom(s[0]) }

  function Join(a: Option<seq<Token>>, b: Option<seq<Token>>): Option<seq<Token>> {
    if a.None? || b.None? then None else Some(a.value + b.value)
  }

  lemma {:induction false} AtomLenAppend(s: string, t: string)
    requires AtomFree(t)
    ensures AtomLen(s + t) == AtomLen(s)
  {
    if s == "" {
      assert s + t == t;
    } else if IsAtom(s[0]) {
      assert (s + t)[1..] == s[1..] + t;
      AtomLenAppend(s[1..], t);
    }
  }

  lemma {:induction false} AtomLenIs(a: string, t: string)
    requires AtomFree(t) && forall i | 0 <= i < |a| :: IsAtom(a[i])
    ensures AtomLen(a + t) == |a|
  {
    if a == "" {
      assert a + t == t;
    } else {
      assert (a + t)[1..] == a[1..] + t;
      AtomLenIs(a[1..], t);
    }
  }

  lemma LexAtom(a: string, t: string, py: bool)
    requires a != "" && AtomFree(t) && (forall i | 0 <= i < |a| :: IsAtom(a[i])) && AtomToken(a, py).Some?
    ensures Lex(a + t, py) == Cons(AtomToken(a, py).value, Lex(t, py))
  {
    hide AtomToken;
    AtomLenIs(a, t);
    var s := a + t;
    assert s[..|a|] == a && s[|a|..] == t && s[0] == a[0];
  }

  lemma HexCharAppend(s: string, t: string)
    requires HexChar(s).Some?
    ensures HexChar(s + t) == HexChar(s)
  {
  }

  lemma {:induction false} StringBodyAppend(s: string, t: string, q: char)
    requires StringBody(s, q).Some?
    ensures StringBody(s + t, q) ==
      Some(Read(StringBody(s, q).value.value, StringBody(s, q).value.rest + t))
    decreases |s|
  {
    hide HexChar, EscapedChar;
    if s[0] == q {
      assert (s + t)[1..] == s[1..] + t;
    } else if s[0] == '\\' {
      if s[1] == 'u' {
        assert (s + t)[2..] == s[2..] + t && (s + t)[6..] == s[6..] + t;
        HexCharAppend(s[2..], t);
        StringBodyAppend(s[6..], t, q);
      } else {
        assert (s + t)[2..] == s[2..] + t;
        StringBodyAppend(s[2..], t, q);
      }
    } else {
      assert (s + t)[1..] == s[1..] + t;
      StringBodyAppend(s[1..], t, q);
    }
  }

  /** A complete text followed by one that does not continue an atom. */
  lemma {:induction false} LexAppend(s: string, t: string, py: bool)
    requires Lex(s, py).Some? && AtomFree(t)
    ensures Lex(s + t, py) == Join(Lex(s, py), Lex(t, py))
    decreases |s|
  {
    hide AtomToken, StringBody;
    if s == "" {
      assert s + t == t;
      assert Lex(t, py).Some? ==> [] + Lex(t, py).value == Lex(t, py).value;
    } else if IsSpace(s[0]) {
      assert (s + t)[1..] == s[1..] + t;
      LexAppend(s[1..], t, py);
    } else if IsPunct(s[0]) {
      assert (s + t)[1..] == s[1..] + t;
      LexAppend(s[1..], t, py);
      JoinCons(Punct(s[0]), Lex(s[1..], py), Lex(t, py));
    } else if s[0] == '"' || (py && s[0] == '\'') {
      assert (s + t)[1..] == s[1..] + t;
      StringBodyAppend(s[1..], t, s[0]);
      var r := StringBody(s[1..], s[0]).value;
      LexAppend(r.rest, t, py);
      JoinCons(Str(r.value), Lex(r.rest, py), Lex(t, py));
    } else {
      var n := AtomLen(s);
      AtomLenAppend(s, t);
      assert (s + t)[..n] == s[..n] && (s + t)[n..] == s[n..] + t;
      LexAppend(s[n..], t, py);
      JoinCons(AtomToken(s[..n], py).value, Lex(s[n..], py), Lex(t, py));
    }
  }

  lemma JoinCons(t: Token, a: Option<seq<Token>>, b: Option<seq<Token>>)
    ensures Join(Cons(t, a), b) == Cons(t, Join(a, b))
  {
    if a.Some? && b.Some? {
      assert [t] + a.value + b.value == [t] + (a.value + b.value);
    }
  }

  // ---- small texts ----

  lemma LexPunct(c: char, s: string)
    requires IsPunct(c)
    ensures Lex([c] + s, false) == Cons(Punct(c), Lex(s, false))
  {
    assert ([c] + s)[1..] == s;
  }

  lemma LexNothing()
    ensures Lex("", false) == Some([])
  {
  }

  lemma PrefixAppend(p: string, a: string, b: string)
    requires a <= b
    ensures p + a <= p + b
  {
    assert p + b == p + a + b[|a|..];
  }

  // ---- the escape table ----

  /** The characters that section 7 of RFC 8259 lets two characters stand for: the second
      of the two, and the code of the character. */
  const TWO_CHARACTER_ESCAPES: seq<(char, nat)> :=
    [('"', 0x22), ('\\', 0x5C), ('/', 0x2F), ('b', 8), ('f', 0xC), ('n', 0xA), ('r', 0xD), ('t', 9)]

  lemma EscapeTable(e: char, c: char)
    ensures EscapedChar(e, '"') == Some(c) <==> (e, c as nat) in TWO_CHARACTER_ESCAPES
    ensures EscapeChar(c) == ['\\', e] <==> e != '/' && (e, c as nat) in TWO_CHARACTER_ESCAPES
  {
    var t := TWO_CHARACTER_ESCAPES;
    assert t == [t[0], t[1], t[2], t[3], t[4], t[5], t[6], t[7]];
  }
}
