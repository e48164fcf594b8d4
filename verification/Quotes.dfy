/** normalize_quotes_to_json: Python literals rewritten as JSON text in one pass. */
module Quotes {
  import opened Json

  datatype Mode = Outside | Single | Double

  function WordLen(s: string): (n: nat)
    ensures n <= |s| && forall i | 0 <= i < n :: IsWord(s[i])
    ensures n < |s| ==> !IsWord(s[n])
  {
    if s == "" || !IsWord(s[0]) then 0 else 1 + WordLen(s[1..])
  }

  predicate StartsLiteral(c: char) { c == 'T' || c == 'F' || c == 'N' }

  /** The Python literal that begins with c. */
  function Python(c: char): string
    requires StartsLiteral(c)
  {
    if c == 'T' then "True" else if c == 'F' then "False" else "None"
  }

  function JsonWord(c: char): (s: string)
    requires StartsLiteral(c)
    ensures |s| == |Python(c)|
  {
    if c == 'T' then "true" else if c == 'F' then "false" else "null"
  }

  /** The word at the front of s is a Python literal, or the beginning of one. */
  predicate LiteralWord(s: string)
    requires s != "" && StartsLiteral(s[0])
  {
    s[..WordLen(s)] <= Python(s[0])
  }

  /** One move of the scan: what it writes, how many characters it consumes, and
      the mode and word flag it leaves. */
  datatype Move = Move(out: string, n: nat, mode: Mode, prev: bool)

  function Scan(s: string, mode: Mode, prev: bool): (m: Move)
    requires s != ""
    ensures 1 <= m.n <= |s|
  {
    var c := s[0];
    if c == '\\' && |s| > 1 && mode != Outside then
      Move(if mode == Single && s[1] == '\'' then "'" else [c, s[1]], 2, mode, IsWord(s[1]))
    else if c == '"' then
      if mode == Single then Move("\\\"", 1, Single, false)
      else Move("\"", 1, if mode == Double then Outside else Double, false)
    else if c == '\'' then
      if mode == Double then Move("'", 1, Double, false)
      else Move("\"", 1, if mode == Single then Outside else Single, false)
    else if mode == Outside && StartsLiteral(c) && !prev && LiteralWord(s) then
      WordStarts(s);
      Move(JsonWord(c)[..WordLen(s)], WordLen(s), mode, true)
    else Move([c], 1, mode, IsWord(c))
  }

  /** The rewriting of s when the scan is in the given mode and the character
      before s is (prev) a word character. */
  function Norm(s: string, mode: Mode, prev: bool): string
    decreases |s|
  {
    if s == "" then "" else
    var m := Scan(s, mode, prev);
    m.out + Norm(s[m.n..], m.mode, m.prev)
  }

  lemma WordStarts(s: string)
    requires s != "" && StartsLiteral(s[0])
    ensures WordLen(s) >= 1
    ensures LiteralWord(s) ==> WordLen(s) <= |JsonWord(s[0])|
  {
  }

  function Normalize(s: string): string { Norm(s, Outside, false) }

  function ModeOf(inSingle: bool, inDouble: bool): Mode
    requires !(inSingle && inDouble)
  {
    if inSingle then Single else if inDouble then Double else Outside
  }

  /** The loop of the source computes Normalize. */
  method NormalizeQuotes(input: string) returns (result: string)
    ensures result == Normalize(input)
  {
    hide Norm, Scan;
    result := "";
    var inSingle, inDouble := false, false;
    var i := 0;
    assert input[0..] == input && ModeOf(false, false) == Outside;
    while i < |input|
      invariant 0 <= i <= |input| && !(inSingle && inDouble)
      invariant result + Norm(input[i..], ModeOf(inSingle, inDouble), i > 0 && IsWord(input[i - 1])) == Normalize(input)
    {
      ghost var s, i0, mode, prev := input[i..], i, ModeOf(inSingle, inDouble), i > 0 && IsWord(input[i - 1]);
      var out;
      out, i, inSingle, inDouble := Advance(input, i, inSingle, inDouble);
      assert s[i - i0..] == input[i..];
      ScanIs(s, mode, prev, Move(out, i - i0, ModeOf(inSingle, inDouble), IsWord(input[i - 1])));
      Reassociate(result, out, Norm(input[i..], ModeOf(inSingle, inDouble), IsWord(input[i - 1])));
      result := result + out;
    }
    NormEmpty(ModeOf(inSingle, inDouble), i > 0 && IsWord(input[i - 1]));
    assert input[i..] == "" && result + "" == result;
  }

  /** One round of that loop at position i: the text it appends, and where it leaves
      the position and the two flags. */
  method Advance(input: string, i: nat, single: bool, double: bool)
    returns (out: string, j: nat, inSingle: bool, inDouble: bool)
    requires i < |input| && !(single && double)
    ensures i < j <= |input| && !(inSingle && inDouble)
    ensures Scan(input[i..], ModeOf(single, double), i > 0 && IsWord(input[i - 1])) ==
            Move(out, j - i, ModeOf(inSingle, inDouble), IsWord(input[j - 1]))
  {
    hide LiteralWord, WordLen;
    inSingle, inDouble := single, double;
    var c := input[i];
    j := i + 1;
    ghost var s := input[i..];
    assert s[0] == c && |s| == |input| - i && (|s| > 1 ==> s[1] == input[i + 1]);
    if c == '\\' && i + 1 < |input| {
      var next := input[i + 1];
      out := [c];
      if inSingle {
        if next == '\'' {
          out := "'";
        } else if next == '"' {
          out := "\\\"";
        } else {
          out := [c, next];
        }
        j := j + 1;
      } else if inDouble {
        out := [c, next];
        j := j + 1;
      }
    } else if c == '"' {
      if inSingle {
        out := "\\\"";
      } else {
        inDouble := !inDouble;
        out := [c];
      }
    } else if c == '\'' {
      if inDouble {
        out := [c];
      } else if inSingle {
        inSingle := false;
        out := "\"";
      } else {
        inSingle := true;
        out := "\"";
      }
    } else if !inSingle && !inDouble && StartsLiteral(c) && (i == 0 || !IsWord(input[i - 1])) {
      var n := WordLength(input, i);
      LiteralTest(input, i, n);
      if input[i..i + n] <= Python(c) {
        out := JsonWord(c)[..n];
        j := i + n;
      } else {
        out := [c];
      }
    } else {
      out := [c];
    }
  }

  /** The inner loop that measures a word. */
  method WordLength(input: string, i: nat) returns (n: nat)
    requires i <= |input|
    ensures n == WordLen(input[i..])
  {
    n := 0;
    while i + n < |input| && IsWord(input[i + n])
      invariant i + n <= |input|
      invariant WordLen(input[i..]) == n + WordLen(input[i + n..])
    {
      assert input[i + n..][1..] == input[i + (n + 1)..];
      n := n + 1;
    }
  }

  lemma Reassociate(a: string, b: string, c: string)
    ensures a + (b + c) == a + b + c
  {
  }

  lemma LiteralTest(input: string, i: nat, n: nat)
    requires i < |input| && n == WordLen(input[i..]) && StartsLiteral(input[i])
    ensures input[i..][0] == input[i] && 0 < n && i + n <= |input| && IsWord(input[i + n - 1])
    ensures LiteralWord(input[i..]) <==> input[i..i + n] <= Python(input[i])
    ensures LiteralWord(input[i..]) ==> n <= |JsonWord(input[i])|
  {
    var s := input[i..];
    WordStarts(s);
    assert s[..n] == input[i..i + n] && s[n - 1] == input[i + n - 1];
  }

  lemma ScanIs(s: string, mode: Mode, prev: bool, m: Move)
    requires s != "" && Scan(s, mode, prev) == m
    ensures Norm(s, mode, prev) == m.out + Norm(s[m.n..], m.mode, m.prev)
  {
  }

  // ---- truncated input ----

  /** What the scan of a truncated text leaves open at its end. */
  datatype End = Settled | OpenEscape | OpenWord(word: string)

  predicate IsOpenWord(s: string, mode: Mode, prev: bool) {
    s != "" && mode == Outside && !prev && StartsLiteral(s[0]) && LiteralWord(s) && WordLen(s) == |s|
  }

  function EndOf(s: string, mode: Mode, prev: bool): (e: End)
    decreases |s|
  {
    if s == "" then Settled
    else if s == "\\" && mode == Single then OpenEscape
    else if IsOpenWord(s, mode, prev) then OpenWord(s)
    else
      var m := Scan(s, mode, prev);
      EndOf(s[m.n..], m.mode, m.prev)
  }

  /** The text s, cut in front of more, is cut in a bad place: between the backslash
      and the quote of an escaped single quote, or inside a word that looked like
      the beginning of a Python literal and is not one. */
  predicate BadCut(s: string, more: string) {
    BadEnd(EndOf(s, Outside, false), more)
  }

  predicate BadEnd(e: End, more: string) {
    match e
    case Settled => false
    case OpenEscape => more != "" && more[0] == '\''
    case OpenWord(w) => w != "" && StartsLiteral(w[0]) && !(w + more[..WordLen(more)] <= Python(w[0]))
  }

  /** Neither text continues the other. */
  predicate Conflict(a: string, b: string) { !(a <= b) && !(b <= a) }

  lemma PrefixCons(p: string, a: string, b: string)
    ensures p + a <= p + b <==> a <= b
    ensures Conflict(p + a, p + b) <==> Conflict(a, b)
  {
    if a <= b { assert p + b == (p + a) + b[|a|..]; }
    if b <= a { assert p + a == (p + b) + a[|b|..]; }
    if p + a <= p + b { assert a == (p + a)[|p|..] && b == (p + b)[|p|..]; }
    if p + b <= p + a { assert a == (p + a)[|p|..] && b == (p + b)[|p|..]; }
  }

  lemma {:induction false} WordLenAppend(s: string, more: string)
    ensures WordLen(s + more) == if WordLen(s) == |s| then |s| + WordLen(more) else WordLen(s)
  {
    if s == "" {
      assert s + more == more;
    } else {
      assert (s + more)[1..] == s[1..] + more;
      if IsWord(s[0]) { WordLenAppend(s[1..], more); }
    }
  }

  /** More input does not change a move, except at an open end. */
  lemma ScanStable(s: string, more: string, mode: Mode, prev: bool)
    requires s != "" && !(s == "\\" && mode != Outside) && !IsOpenWord(s, mode, prev)
    ensures Scan(s + more, mode, prev) == Scan(s, mode, prev)
    ensures (s + more)[Scan(s, mode, prev).n..] == s[Scan(s, mode, prev).n..] + more
  {
    hide WordLen, LiteralWord;
    var t := s + more;
    assert t[0] == s[0] && (|s| > 1 ==> t[1] == s[1]);
    if StartsLiteral(s[0]) && !(LiteralWord(s) && WordLen(s) == |s|) {
      LiteralStable(s, more);
    }
  }

  lemma LiteralStable(s: string, more: string)
    requires s != "" && StartsLiteral(s[0]) && !(LiteralWord(s) && WordLen(s) == |s|)
    ensures (s + more)[0] == s[0]
    ensures LiteralWord(s + more) <==> LiteralWord(s)
    ensures LiteralWord(s) ==> WordLen(s + more) == WordLen(s)
  {
    var t := s + more;
    WordLenAppend(s, more);
    assert t[..WordLen(s)] == s[..WordLen(s)];
    assert s[..WordLen(s)] <= t[..WordLen(t)];
  }

  /** A cut text is rewritten to a prefix of what the whole text is rewritten to,
      unless the cut is bad; then the two results contradict each other. */
  lemma {:induction false} NormCut(s: string, more: string, mode: Mode, prev: bool)
    ensures BadEnd(EndOf(s, mode, prev), more) ==> Conflict(Norm(s, mode, prev), Norm(s + more, mode, prev))
    ensures !BadEnd(EndOf(s, mode, prev), more) ==> Norm(s, mode, prev) <= Norm(s + more, mode, prev)
    decreases |s|
  {
    if s == "" {
    } else if s == "\\" && mode != Outside {
      OpenEscapeCut(s, more, mode, prev);
    } else if IsOpenWord(s, mode, prev) {
      LiteralCut(s, more);
    } else {
      hide Scan;
      ScanStable(s, more, mode, prev);
      var m := Scan(s, mode, prev);
      NormCut(s[m.n..], more, m.mode, m.prev);
      PrefixCons(m.out, Norm(s[m.n..], m.mode, m.prev), Norm(s[m.n..] + more, m.mode, m.prev));
    }
  }

  lemma OpenEscapeCut(s: string, more: string, mode: Mode, prev: bool)
    requires s == "\\" && mode != Outside
    ensures BadEnd(EndOf(s, mode, prev), more) ==> Conflict(Norm(s, mode, prev), Norm(s + more, mode, prev))
    ensures !BadEnd(EndOf(s, mode, prev), more) ==> Norm(s, mode, prev) <= Norm(s + more, mode, prev)
  {
    var t := s + more;
    assert s[1..] == "";
    ScanIs(s, mode, prev, Move("\\", 1, mode, false));
    assert Norm(s, mode, prev) == "\\";
    assert EndOf("", mode, false) == Settled;
    if more != "" {
      ScanIs(t, mode, prev, Scan(t, mode, prev));
    } else {
      assert t == s;
    }
  }

  /** The cut falls inside a word that is so far the beginning of a literal. */
  lemma LiteralCut(s: string, more: string)
    requires IsOpenWord(s, Outside, false)
    ensures BadEnd(OpenWord(s), more) ==> Conflict(Norm(s, Outside, false), Norm(s + more, Outside, false))
    ensures !BadEnd(OpenWord(s), more) ==> Norm(s, Outside, false) <= Norm(s + more, Outside, false)
  {
    hide Norm, Scan, WordLen;
    var c, t, n := s[0], s + more, |s|;
    WordStarts(s);
    WordLenAppend(s, more);
    var m := WordLen(t);
    assert t[..m] == s + more[..WordLen(more)] && t[0] == c;
    OpenWordNorm(s);
    if LiteralWord(t) {
      WordStarts(t);
      LiteralNorm(t);
      assert JsonWord(c)[..m][..n] == JsonWord(c)[..n];
      assert Norm(t, Outside, false)[..n] == JsonWord(c)[..n];
    } else {
      OtherWordNorm(t);
      assert JsonWord(c)[..n][0] != c;
    }
  }

  lemma OpenWordNorm(s: string)
    requires IsOpenWord(s, Outside, false)
    ensures |s| <= |JsonWord(s[0])| && Norm(s, Outside, false) == JsonWord(s[0])[..|s|]
  {
    WordStarts(s);
    ScanIs(s, Outside, false, Move(JsonWord(s[0])[..|s|], |s|, Outside, true));
    assert s[|s|..] == "";
    NormEmpty(Outside, true);
  }

  lemma LiteralNorm(s: string)
    requires s != "" && StartsLiteral(s[0]) && LiteralWord(s)
    ensures WordLen(s) <= |JsonWord(s[0])|
    ensures JsonWord(s[0])[..WordLen(s)] <= Norm(s, Outside, false)
  {
    hide LiteralWord, WordLen, Norm;
    WordStarts(s);
    ScanIs(s, Outside, false, Move(JsonWord(s[0])[..WordLen(s)], WordLen(s), Outside, true));
  }

  lemma OtherWordNorm(s: string)
    requires s != "" && StartsLiteral(s[0]) && !LiteralWord(s)
    ensures [s[0]] <= Norm(s, Outside, false)
  {
  }

  lemma NormEmpty(mode: Mode, prev: bool)
    ensures Norm("", mode, prev) == ""
  {
  }

  /** Cutting a value anywhere but in a bad place gives a prefix of its JSON text,
      and in a bad place contradicts it. */
  lemma NormalizeCut(s: string, t: string)
    requires s <= t
    ensures Normalize(s) <= Normalize(t) <==> !BadCut(s, t[|s|..])
    ensures Conflict(Normalize(s), Normalize(t)) <==> BadCut(s, t[|s|..])
  {
    assert t == s + t[|s|..];
    NormCut(s, t[|s|..], Outside, false);
  }
}
