/** normalize_quotes_to_json keeps the value of Python literals and leaves JSON alone. */
module QuotesMeaning {
  import opened Options
  import opened Chars
  import opened Json
  import opened Quotes

  /** The scan move at s, spelled out, gives the first step of Norm. */
  lemma NormStep(s: string, mode: Mode, prev: bool, out: string, n: nat, mode': Mode, prev': bool)
    requires s != "" && Scan(s, mode, prev) == Move(out, n, mode', prev')
    ensures Norm(s, mode, prev) == out + Norm(s[n..], mode', prev')
  {
    hide Scan;
    ScanIs(s, mode, prev, Move(out, n, mode', prev'));
  }

  // ---- strings ----

  /** Four hexadecimal digits inside a string are copied. */
  lemma NormHex(s: string, mode: Mode, prev: bool)
    requires mode != Outside && HexChar(s).Some?
    ensures Norm(s, mode, prev) == s[..4] + Norm(s[4..], mode, true)
  {
    NormHexDigits(s, 4, mode, prev);
  }

  lemma {:induction false} NormHexDigits(s: string, k: nat, mode: Mode, prev: bool)
    requires mode != Outside && k <= |s| && forall i | 0 <= i < k :: HexValue(s[i]).Some?
    ensures k > 0 ==> Norm(s, mode, prev) == s[..k] + Norm(s[k..], mode, true)
  {
    hide Norm;
    if k > 0 {
      NormStep(s, mode, prev, [s[0]], 1, mode, true);
      assert s[..1] == [s[0]];
      if k > 1 {
        NormHexDigits(s[1..], k - 1, mode, true);
        assert s[1..][k - 1..] == s[k..];
        assert s[..k] == [s[0]] + s[1..][..k - 1];
        Reassociate([s[0]], s[1..][..k - 1], Norm(s[k..], mode, true));
      }
    }
  }

  lemma HexPrefix(h: string, t: string)
    requires HexChar(h).Some?
    ensures |h[..4] + t| >= 4 && (h[..4] + t)[4..] == t && HexChar(h[..4] + t) == HexChar(h)
  {
    var u := h[..4] + t;
    assert u[0] == h[0] && u[1] == h[1] && u[2] == h[2] && u[3] == h[3];
  }

  function ModeFor(q: char): Mode { if q == '\'' then Single else Double }

  /** The rest of a Python string is rewritten to the rest of a JSON string with
      the same value, and what follows is rewritten outside strings. */
  lemma {:induction false} StringNorm(s: string, q: char, prev: bool)
    requires (q == '\'' || q == '"') && StringBody(s, q).Some?
    ensures var r := StringBody(s, q).value;
      StringBody(Norm(s, ModeFor(q), prev), '"') == Some(Read(r.value, Norm(r.rest, Outside, false)))
    decreases |s|
  {
    hide Norm, HexChar;
    var m := ModeFor(q);
    if s[0] == q {
      NormStep(s, m, prev, "\"", 1, Outside, false);
      QuoteEnds(Norm(s[1..], Outside, false));
    } else if s[0] == '\\' && s[1] == 'u' {
      NormStep(s, m, prev, "\\u", 2, m, true);
      StringNormUnicode(s, q, prev);
    } else if s[0] == '\\' {
      var out := if s[1] == '\'' then "'" else ['\\', s[1]];
      NormStep(s, m, prev, out, 2, m, IsWord(s[1]));
      StringNorm(s[2..], q, IsWord(s[1]));
      CharBody(out, EscapedChar(s[1], q).value, Norm(s[2..], m, IsWord(s[1])));
    } else {
      var out := if s[0] == '"' then "\\\"" else [s[0]];
      NormStep(s, m, prev, out, 1, m, IsWord(s[0]));
      StringNorm(s[1..], q, IsWord(s[0]));
      CharBody(out, s[0], Norm(s[1..], m, IsWord(s[0])));
    }
  }

  lemma QuoteEnds(t: string)
    ensures StringBody("\"" + t, '"') == Some(Read("", t))
  {
    assert ("\"" + t)[1..] == t;
  }

  /** One written character or two-character escape of a JSON string. */
  lemma CharBody(out: string, c: char, t: string)
    requires || (|out| == 1 && out[0] == c && c != '"' && c != '\\' && !IsControl(c))
             || (|out| == 2 && out[0] == '\\' && out[1] != 'u' && EscapedChar(out[1], '"') == Some(c))
    ensures StringBody(out + t, '"') == Prepend(c, StringBody(t, '"'))
  {
    assert (out + t)[|out|..] == t;
  }

  lemma StringNormUnicode(s: string, q: char, prev: bool)
    requires (q == '\'' || q == '"') && StringBody(s, q).Some? && s[0] == '\\' && s[1] == 'u'
    requires Norm(s, ModeFor(q), prev) == "\\u" + Norm(s[2..], ModeFor(q), true)
    ensures var r := StringBody(s, q).value;
      StringBody(Norm(s, ModeFor(q), prev), '"') == Some(Read(r.value, Norm(r.rest, Outside, false)))
    decreases |s|, 0
  {
    hide Norm, HexChar;
    var m, h := ModeFor(q), s[2..];
    NormHex(h, m, true);
    assert h[4..] == s[6..];
    var t := Norm(s[6..], m, true);
    StringNorm(s[6..], q, true);
    HexPrefix(h, t);
    var u := "\\u" + (h[..4] + t);
    assert u[2..] == h[..4] + t && u[6..] == t;
    UnicodeBody(u, t, HexChar(h).value);
  }

  // ---- atoms ----

  lemma ExponentChars(s: string)
    requires IsExponent(s)
    ensures forall i | 0 <= i < |s| :: IsNumChar(s[i])
  {
    if s != "" {
      var signed := |s| > 1 && (s[1] == '+' || s[1] == '-');
      var d := if signed then s[2..] else s[1..];
      forall i | 0 <= i < |s| ensures IsNumChar(s[i]) {
        if signed && i >= 2 { assert s[i] == d[i - 2]; }
        if !signed && i >= 1 { assert s[i] == d[i - 1]; }
      }
    }
  }

  lemma FractionChars(s: string)
    requires IsFraction(s)
    ensures forall i | 0 <= i < |s| :: IsNumChar(s[i])
  {
    hide IsExponent;
    if s != "" && s[0] == '.' {
      var n := Digits(s[1..]);
      var e := s[1 + n..];
      ExponentChars(e);
      forall i | 0 <= i < |s| ensures IsNumChar(s[i]) {
        if 1 <= i < 1 + n { assert s[i] == s[1..][i - 1]; }
        if i >= 1 + n { assert s[i] == e[i - 1 - n]; }
      }
    } else {
      ExponentChars(s);
    }
  }

  lemma NumberChars(s: string)
    requires IsNumber(s)
    ensures s != "" && forall i | 0 <= i < |s| :: IsNumChar(s[i])
  {
    hide IsFraction;
    var u := if s != "" && s[0] == '-' then s[1..] else s;
    var n := Digits(u);
    FractionChars(u[n..]);
    forall i | 0 <= i < |u| ensures IsNumChar(u[i]) {
      if i >= n { assert u[i] == u[n..][i - n]; }
    }
    forall i | 0 <= i < |s| ensures IsNumChar(s[i]) {
      if u != s && i > 0 { assert s[i] == u[i - 1]; }
    }
  }

  predicate Copied(c: char) { IsAtom(c) && !StartsLiteral(c) }

  /** A run of atom characters that start no literal is copied. */
  lemma {:induction false} NormRun(s: string, k: nat, prev: bool)
    requires k <= |s| && forall i | 0 <= i < k :: Copied(s[i])
    ensures Norm(s, Outside, prev) == s[..k] + Norm(s[k..], Outside, if k > 0 then IsWord(s[k - 1]) else prev)
  {
    hide Norm;
    if k > 0 {
      NormStep(s, Outside, prev, [s[0]], 1, Outside, IsWord(s[0]));
      NormRun(s[1..], k - 1, IsWord(s[0]));
      assert s[1..][k - 1..] == s[k..] && s[..k] == [s[0]] + s[1..][..k - 1];
      assert k > 1 ==> s[1..][k - 2] == s[k - 1];
      Reassociate([s[0]], s[1..][..k - 1], Norm(s[k..], Outside, IsWord(s[k - 1])));
    } else {
      assert s[..0] == "" && s[0..] == s;
      assert "" + Norm(s, Outside, prev) == Norm(s, Outside, prev);
    }
  }

  lemma AtomCopied(a: string, py: bool)
    requires AtomToken(a, py).Some? && !(a in {"True", "False", "None"})
    ensures a != "" && AtomToken(a, false) == AtomToken(a, py)
    ensures forall i | 0 <= i < |a| :: Copied(a[i])
  {
    hide IsNumber;
    if !(a in {"true", "false", "null"}) {
      NumberChars(a);
    }
  }

  // ---- whole texts ----

  /** The first character outside strings stays an atom character or not. */
  lemma NormAtomFree(s: string, prev: bool)
    requires AtomFree(s)
    ensures AtomFree(Norm(s, Outside, prev))
  {
    if s != "" {
      var m := Scan(s, Outside, prev);
      assert Norm(s, Outside, prev)[0] == m.out[0];
    }
  }

  /** A text of Python literals is rewritten to JSON text with the same tokens. */
  lemma {:induction false} LexNorm(s: string, prev: bool)
    requires Lex(s, true).Some? && (prev ==> AtomFree(s))
    ensures Lex(Norm(s, Outside, prev), false) == Lex(s, true)
    decreases |s|
  {
    hide Norm, AtomToken, StringBody;
    if s == "" {
      NormEmpty(Outside, prev);
    } else if IsSpace(s[0]) || IsPunct(s[0]) {
      NormStep(s, Outside, prev, [s[0]], 1, Outside, false);
      LexNorm(s[1..], false);
      assert ([s[0]] + Norm(s[1..], Outside, false))[1..] == Norm(s[1..], Outside, false);
    } else if s[0] == '"' || s[0] == '\'' {
      NormStep(s, Outside, prev, "\"", 1, ModeFor(s[0]), false);
      StringNorm(s[1..], s[0], false);
      LexNorm(StringBody(s[1..], s[0]).value.rest, false);
      assert ("\"" + Norm(s[1..], ModeFor(s[0]), false))[1..] == Norm(s[1..], ModeFor(s[0]), false);
    } else {
      LexNormAtom(s, prev);
    }
  }

  lemma {:induction false} LexNormAtom(s: string, prev: bool)
    requires s != "" && Lex(s, true).Some? && (prev ==> AtomFree(s))
    requires !IsSpace(s[0]) && !IsPunct(s[0]) && s[0] != '"' && s[0] != '\''
    ensures Lex(Norm(s, Outside, prev), false) == Lex(s, true)
    decreases |s|, 0
  {
    hide Norm, StringBody;
    var n := AtomLen(s);
    var a := s[..n];
    if a in {"True", "False", "None"} {
      LiteralAtom(s, n);
      NormStep(s, Outside, prev, JsonWord(s[0]), n, Outside, true);
      LexNorm(s[n..], true);
      NormAtomFree(s[n..], true);
      LexAtom(JsonWord(s[0]), Norm(s[n..], Outside, true), false);
    } else {
      AtomCopied(a, true);
      assert forall i | 0 <= i < n :: s[i] == a[i];
      NormRun(s, n, prev);
      LexNorm(s[n..], IsWord(s[n - 1]));
      NormAtomFree(s[n..], IsWord(s[n - 1]));
      LexAtom(a, Norm(s[n..], Outside, IsWord(s[n - 1])), false);
    }
  }

  lemma LiteralAtom(s: string, n: nat)
    requires n == AtomLen(s) && s[..n] in {"True", "False", "None"}
    ensures n > 0 && StartsLiteral(s[0]) && s[..n] == Python(s[0]) && WordLen(s) == n && LiteralWord(s)
    ensures JsonWord(s[0])[..n] == JsonWord(s[0])
    ensures AtomToken(JsonWord(s[0]), false) == AtomToken(s[..n], true)
  {
    hide IsNumber, AtomLen, WordLen;
    var a := s[..n];
    assert s[0] == a[0];
    assert forall i | 0 <= i < n :: s[i] == a[i] && IsWord(a[i]);
    WordLenIs(s, n);
  }

  lemma {:induction false} WordLenIs(s: string, n: nat)
    requires n <= |s| && (forall i | 0 <= i < n :: IsWord(s[i])) && (n < |s| ==> !IsWord(s[n]))
    ensures WordLen(s) == n
  {
    if n > 0 { WordLenIs(s[1..], n - 1); }
  }

  /** Rewriting keeps the value of every text of Python literals. */
  lemma NormalizeKeepsValue(s: string)
    requires Lex(s, true).Some?
    ensures Lex(Normalize(s), false) == Lex(s, true)
  {
    LexNorm(s, false);
  }

  // ---- the escaped slash ----

  /** A string as Python reads it: there a backslash in front of a slash is two characters. */
  function PythonBody(s: string, q: char): string
    requires StringBody(s, q).Some?
    decreases |s|
  {
    if s[0] == q then ""
    else if s[0] == '\\' && s[1] == 'u' then [HexChar(s[2..]).value] + PythonBody(s[6..], q)
    else if s[0] == '\\' then
      (if s[1] == '/' then "\\/" else [EscapedChar(s[1], q).value]) + PythonBody(s[2..], q)
    else [s[0]] + PythonBody(s[1..], q)
  }

  /** How many slashes the string escapes. */
  function Slashes(s: string, q: char): nat
    requires StringBody(s, q).Some?
    decreases |s|
  {
    if s[0] == q then 0
    else if s[0] == '\\' && s[1] == 'u' then Slashes(s[6..], q)
    else if s[0] == '\\' then (if s[1] == '/' then 1 else 0) + Slashes(s[2..], q)
    else Slashes(s[1..], q)
  }

  lemma {:induction false} PythonBodyIs(s: string, q: char)
    requires StringBody(s, q).Some?
    ensures |PythonBody(s, q)| == |StringBody(s, q).value.value| + Slashes(s, q)
    ensures Slashes(s, q) == 0 ==> PythonBody(s, q) == StringBody(s, q).value.value
    decreases |s|
  {
    hide HexChar, EscapedChar;
    if s[0] == q {
    } else if s[0] == '\\' {
      PythonBodyIs(if s[1] == 'u' then s[6..] else s[2..], q);
    } else {
      PythonBodyIs(s[1..], q);
    }
  }

  /** The tokens with the strings as Python reads them. */
  function PythonLex(s: string): Option<seq<Token>>
    requires Lex(s, true).Some?
    decreases |s|
  {
    if s == "" then Some([])
    else if IsSpace(s[0]) then PythonLex(s[1..])
    else if IsPunct(s[0]) then Cons(Punct(s[0]), PythonLex(s[1..]))
    else if s[0] == '"' || s[0] == '\'' then
      Cons(Str(PythonBody(s[1..], s[0])), PythonLex(StringBody(s[1..], s[0]).value.rest))
    else Cons(AtomToken(s[..AtomLen(s)], true).value, PythonLex(s[AtomLen(s)..]))
  }

  /** Some string of the text escapes a slash. */
  predicate EscapesSlash(s: string)
    requires Lex(s, true).Some?
    decreases |s|
  {
    if s == "" then false
    else if IsSpace(s[0]) || IsPunct(s[0]) then EscapesSlash(s[1..])
    else if s[0] == '"' || s[0] == '\'' then
      Slashes(s[1..], s[0]) > 0 || EscapesSlash(StringBody(s[1..], s[0]).value.rest)
    else EscapesSlash(s[AtomLen(s)..])
  }

  lemma {:induction false} PythonReading(s: string)
    requires Lex(s, true).Some?
    ensures PythonLex(s).Some? && (PythonLex(s) == Lex(s, true) <==> !EscapesSlash(s))
    decreases |s|
  {
    hide StringBody, AtomToken, AtomLen, PythonBody, Slashes;
    if s == "" {
    } else if IsSpace(s[0]) || IsPunct(s[0]) {
      PythonReading(s[1..]);
      SameCons(Punct(s[0]), Punct(s[0]), PythonLex(s[1..]).value, Lex(s[1..], true).value);
    } else if s[0] == '"' || s[0] == '\'' {
      var r := StringBody(s[1..], s[0]).value;
      PythonBodyIs(s[1..], s[0]);
      PythonReading(r.rest);
      SameCons(Str(PythonBody(s[1..], s[0])), Str(r.value), PythonLex(r.rest).value, Lex(r.rest, true).value);
    } else {
      var t, n := AtomToken(s[..AtomLen(s)], true).value, AtomLen(s);
      PythonReading(s[n..]);
      SameCons(t, t, PythonLex(s[n..]).value, Lex(s[n..], true).value);
    }
  }

  lemma SameCons(t: Token, u: Token, ts: seq<Token>, us: seq<Token>)
    ensures [t] + ts == [u] + us <==> t == u && ts == us
  {
    assert ([t] + ts)[1..] == ts && ([u] + us)[1..] == us && ([t] + ts)[0] == t && ([u] + us)[0] == u;
  }

  /** Rewriting keeps the value that Python gives a text exactly when no string in it
      escapes a slash: JSON reads such an escape as the slash alone. */
  lemma PythonValueKept(s: string)
    requires Lex(s, true).Some?
    ensures Lex(Normalize(s), false) == PythonLex(s) <==> !EscapesSlash(s)
  {
    hide Lex, Normalize, PythonLex, EscapesSlash;
    NormalizeKeepsValue(s);
    PythonReading(s);
  }

  /** The smallest such text. */
  lemma SlashIsLost()
    ensures var s := "\"\\/\"";
      && PythonLex(s) == Some([Str("\\/")]) && Lex(Normalize(s), false) == Some([Str("/")])
  {
    var s, t := "\"\\/\"", "\\/\"";
    assert s[1..] == t && t[2..] == "\"";
    SlashString(t);
    SlashLex(s);
    NormalizeKeepsValue(s);
  }

  lemma SlashString(t: string)
    requires t == "\\/\""
    ensures StringBody(t, '"') == Some(Read("/", "")) && PythonBody(t, '"') == "\\/"
  {
    assert t[2..] == "\"" && "\""[1..] == "";
    assert StringBody("\"", '"') == Some(Read("", "")) && PythonBody("\"", '"') == "";
    assert EscapedChar('/', '"') == Some('/');
    assert ['/'] + "" == "/" && "\\/" + "" == "\\/";
  }

  lemma SlashLex(s: string)
    requires s != "" && s[0] == '"' && StringBody(s[1..], '"') == Some(Read("/", ""))
    ensures Lex(s, true) == Some([Str("/")]) && PythonLex(s) == Some([Str(PythonBody(s[1..], '"'))])
  {
    hide PythonBody, StringBody;
    assert Lex("", true) == Some([]) && PythonLex("") == Some([]);
    assert [Str("/")] + [] == [Str("/")];
    assert [Str(PythonBody(s[1..], '"'))] + [] == [Str(PythonBody(s[1..], '"'))];
  }

  // ---- JSON text is left alone ----

  lemma {:induction false} StringUnchanged(s: string, prev: bool)
    requires StringBody(s, '"').Some?
    requires Norm(StringBody(s, '"').value.rest, Outside, false) == StringBody(s, '"').value.rest
    ensures Norm(s, Double, prev) == s
    decreases |s|
  {
    hide Norm, HexChar;
    if s[0] == '"' {
      NormStep(s, Double, prev, "\"", 1, Outside, false);
    } else if s[0] == '\\' {
      NormStep(s, Double, prev, [s[0], s[1]], 2, Double, IsWord(s[1]));
      if s[1] == 'u' {
        NormHex(s[2..], Double, IsWord(s[1]));
        assert s[2..][4..] == s[6..];
        StringUnchanged(s[6..], true);
      } else {
        StringUnchanged(s[2..], IsWord(s[1]));
      }
    } else {
      NormStep(s, Double, prev, [s[0]], 1, Double, IsWord(s[0]));
      StringUnchanged(s[1..], IsWord(s[0]));
    }
  }

  lemma {:induction false} JsonUnchanged(s: string, prev: bool)
    requires Lex(s, false).Some?
    ensures Norm(s, Outside, prev) == s
    decreases |s|
  {
    hide Norm, StringBody, AtomToken;
    if s == "" {
      NormEmpty(Outside, prev);
    } else if IsSpace(s[0]) || IsPunct(s[0]) {
      NormStep(s, Outside, prev, [s[0]], 1, Outside, false);
      JsonUnchanged(s[1..], false);
    } else if s[0] == '"' {
      NormStep(s, Outside, prev, "\"", 1, Double, false);
      JsonUnchanged(StringBody(s[1..], '"').value.rest, false);
      StringUnchanged(s[1..], false);
    } else {
      var n := AtomLen(s);
      assert !(s[..n] in {"True", "False", "None"}) by { NotPython(s[..n]); }
      AtomCopied(s[..n], false);
      assert forall i | 0 <= i < n :: s[i] == s[..n][i];
      NormRun(s, n, prev);
      JsonUnchanged(s[n..], IsWord(s[n - 1]));
    }
  }

  lemma NotPython(a: string)
    requires AtomToken(a, false).Some?
    ensures !(a in {"True", "False", "None"})
  {
    if a in {"True", "False", "None"} {
      NumberChars(a);
    }
  }

  /** JSON text is unchanged, and rewriting twice is rewriting once. */
  lemma NormalizeFixesJson(s: string)
    ensures Lex(s, false).Some? ==> Normalize(s) == s
    ensures Lex(s, true).Some? ==> Normalize(Normalize(s)) == Normalize(s)
  {
    if Lex(s, false).Some? { JsonUnchanged(s, false); }
    if Lex(s, true).Some? {
      NormalizeKeepsValue(s);
      JsonUnchanged(Normalize(s), false);
    }
  }

  // ---- words ----

  /** What is written for a word outside strings: a Python literal, or the beginning of one,
      becomes the same beginning of the JSON literal. */
  function JsonWordFor(w: string): string {
    if w <= "True" then "true"[..|w|] else if w <= "False" then "false"[..|w|]
    else if w <= "None" then "null"[..|w|] else w
  }

  lemma WordRewritten(w: string, rest: string)
    requires w != "" && (forall i | 0 <= i < |w| :: IsWord(w[i])) && (rest == "" || !IsWord(rest[0]))
    ensures Normalize(w + rest) == JsonWordFor(w) + Normalize(rest)
  {
    hide Norm, IsWord, Scan, WordLen, JsonWordFor, JsonWord, Python;
    var s := w + rest;
    WordLenIs(s, |w|);
    JsonWordIs(w);
    assert s[..|w|] == w && s[|w|..] == rest && s[0] == w[0];
    SameBehind(rest);
    if StartsLiteral(w[0]) && w <= Python(w[0]) {
      WordMove(s, |w|);
      NormStep(s, Outside, false, JsonWord(w[0])[..|w|], |w|, Outside, true);
    } else {
      FirstMove(s, |w|);
      NormStep(s, Outside, false, [w[0]], 1, Outside, true);
      assert s[1..] == w[1..] + rest;
      BehindWord(w[1..], rest);
    }
  }

  /** Only the first character decides which literal a word can begin. */
  lemma JsonWordIs(w: string)
    requires w != ""
    ensures JsonWordFor(w) == if StartsLiteral(w[0]) && w <= Python(w[0]) then JsonWord(w[0])[..|w|] else w
  {
    assert w <= "True" ==> w[0] == 'T';
    assert w <= "False" ==> w[0] == 'F';
    assert w <= "None" ==> w[0] == 'N';
  }

  lemma SameBehind(rest: string)
    requires rest == "" || !IsWord(rest[0])
    ensures Norm(rest, Outside, true) == Norm(rest, Outside, false)
  {
    hide WordLen, LiteralWord;
  }

  /** Inside a word every character is copied. */
  lemma {:induction false} BehindWord(w: string, rest: string)
    requires (forall i | 0 <= i < |w| :: IsWord(w[i])) && (rest == "" || !IsWord(rest[0]))
    ensures Norm(w + rest, Outside, true) == w + Norm(rest, Outside, true)
  {
    hide Norm, WordLen, LiteralWord;
    if w == "" {
      assert w + rest == rest;
    } else {
      var s := w + rest;
      assert s[1..] == w[1..] + rest && s[0] == w[0];
      NormStep(s, Outside, true, [w[0]], 1, Outside, true);
      BehindWord(w[1..], rest);
    }
  }

  lemma WordMove(s: string, n: nat)
    requires s != "" && WordLen(s) == n && n > 0 && StartsLiteral(s[0]) && s[..n] <= Python(s[0])
    ensures n <= |JsonWord(s[0])| && Scan(s, Outside, false) == Move(JsonWord(s[0])[..n], n, Outside, true)
  {
    hide WordLen;
    WordStarts(s);
  }

  lemma FirstMove(s: string, n: nat)
    requires s != "" && IsWord(s[0]) && WordLen(s) == n && !(StartsLiteral(s[0]) && s[..n] <= Python(s[0]))
    ensures Scan(s, Outside, false) == Move([s[0]], 1, Outside, true)
  {
    hide WordLen;
  }
}
