/** Replacing backslash escapes, in one buffer. */
module Escapes {
  import opened Chars
  import opened Options

  // ---- two characters read as a number in base 16 ----

  /** What strtol makes of two characters when it consumes both: two digits, or a digit
      after white space or a sign. */
  function HexPair(x: char, y: char): Option<int> {
    var d := HexValue(y);
    if d.None? then None
    else if HexValue(x).Some? then Some(16 * HexValue(x).value + d.value)
    else if IsBlank(x) || x == '+' then Some(d.value)
    else if x == '-' then Some(0 - d.value)
    else None
  }

  /** A number as a character of eight bits. */
  function ToChar(v: int): char { (v % 256) as char }

  /** The escapes of one letter. */
  function Named(e: char): Option<char> {
    if e == 'n' then Some('\n')
    else if e == 'r' then Some('\r')
    else if e == 't' then Some('\t')
    else if e == '\'' then Some('\'')
    else if e == '"' then Some('"')
    else if e == '\\' then Some('\\')
    else None
  }

  // ---- the text an escaped text stands for ----

  /** How many characters the first unit of s has, and what it stands for; an escape that
      is not known stands for itself. */
  function FirstUnit(s: string): (u: (nat, string))
    requires s != ""
    ensures 0 < u.0 <= |s| && |u.1| <= u.0
  {
    if s[0] != '\\' || |s| == 1 then (1, [s[0]])
    else if Named(s[1]).Some? then (2, [Named(s[1]).value])
    else if s[1] == 'x' && |s| > 3 && HexPair(s[2], s[3]).Some? then (4, [ToChar(HexPair(s[2], s[3]).value)])
    else (2, ['\\', s[1]])
  }

  function Unescape(s: string): string
    decreases |s|
  {
    if s == "" then "" else FirstUnit(s).1 + Unescape(s[FirstUnit(s).0..])
  }

  lemma {:induction false} NeverLonger(s: string)
    ensures |Unescape(s)| <= |s|
    decreases |s|
  {
    hide FirstUnit;
    if s != "" { NeverLonger(s[FirstUnit(s).0..]); }
  }

  // ---- the loop over the buffer ----

  /** The text from position i on, one unit at a time. */
  lemma UnitAt(text: string, i: nat)
    requires i < |text|
    ensures var u := FirstUnit(text[i..]); i + u.0 <= |text| && Unescape(text[i..]) == u.1 + Unescape(text[i + u.0..])
  {
    hide FirstUnit;
    var s := text[i..];
    assert s[FirstUnit(s).0..] == text[i + FirstUnit(s).0..];
  }

  lemma FirstUnitIs(text: string, i: nat)
    requires i < |text|
    ensures FirstUnit(text[i..]) ==
            if text[i] != '\\' || i + 1 == |text| then (1, [text[i]])
            else if Named(text[i + 1]).Some? then (2, [Named(text[i + 1]).value])
            else if text[i + 1] == 'x' && i + 3 < |text| && HexPair(text[i + 2], text[i + 3]).Some? then
              (4, [ToChar(HexPair(text[i + 2], text[i + 3]).value)])
            else (2, ['\\', text[i + 1]])
  {
    hide Named, HexPair, ToChar;
  }

  /** What the unit at i adds to the output, and how many characters it takes. */
  lemma UnitStep(text: string, i: nat, out: string) returns (n: nat, u: string)
    requires i < |text| && Unescape(text) == out + Unescape(text[i..])
    ensures i + n <= |text| && Unescape(text) == out + u + Unescape(text[i + n..])
    ensures (n, u) ==
            if text[i] != '\\' || i + 1 == |text| then (1, [text[i]])
            else if Named(text[i + 1]).Some? then (2, [Named(text[i + 1]).value])
            else if text[i + 1] == 'x' && i + 3 < |text| && HexPair(text[i + 2], text[i + 3]).Some? then
              (4, [ToChar(HexPair(text[i + 2], text[i + 3]).value)])
            else (2, ['\\', text[i + 1]])
  {
    hide Unescape, HexPair, ToChar, FirstUnit, Named;
    UnitAt(text, i);
    FirstUnitIs(text, i);
    n, u := FirstUnit(text[i..]).0, FirstUnit(text[i..]).1;
    assert out + (u + Unescape(text[i + n..])) == out + u + Unescape(text[i + n..]);
  }

  method ProcessEscapes(input: array<char>) returns (length: nat)
    modifies input
    ensures length <= input.Length && input[..length] == Unescape(old(input[..]))
    ensures input[length..] == old(input[..])[length..]
  {
    hide Unescape, HexPair, ToChar, FirstUnit;
    ghost var text := input[..];
    var inputLen := input.Length;
    var outputIdx, inputIdx := 0, 0;
    assert text[0..] == text && [] + Unescape(text) == Unescape(text);
    ghost var out: string := "";
    while inputIdx < inputLen
      invariant 0 <= outputIdx <= inputIdx <= inputLen && |out| == outputIdx
      invariant forall j | 0 <= j < outputIdx :: input[j] == out[j]
      invariant forall j | outputIdx <= j < inputLen :: input[j] == text[j]
      invariant Unescape(text) == out + Unescape(text[inputIdx..])
    {
      ghost var n, u := UnitStep(text, inputIdx, out);
      out := out + u;
      if input[inputIdx] == '\\' && inputIdx + 1 < inputLen {
        inputIdx := inputIdx + 1;
        var e := input[inputIdx];
        if e == 'n' {
          input[outputIdx] := '\n';
          outputIdx := outputIdx + 1;
        } else if e == 'r' {
          input[outputIdx] := '\r';
          outputIdx := outputIdx + 1;
        } else if e == 't' {
          input[outputIdx] := '\t';
          outputIdx := outputIdx + 1;
        } else if e == '\'' {
          input[outputIdx] := '\'';
          outputIdx := outputIdx + 1;
        } else if e == '"' {
          input[outputIdx] := '"';
          outputIdx := outputIdx + 1;
        } else if e == '\\' {
          input[outputIdx] := '\\';
          outputIdx := outputIdx + 1;
        } else {
          var hex: Option<int> := None;
          if e == 'x' && inputIdx + 2 < inputLen {
            hex := HexPair(input[inputIdx + 1], input[inputIdx + 2]);
          }
          if hex.Some? {
            inputIdx := inputIdx + 2;
            input[outputIdx] := ToChar(hex.value);
            outputIdx := outputIdx + 1;
          } else {
            input[outputIdx] := '\\';
            outputIdx := outputIdx + 1;
            input[outputIdx] := input[inputIdx];
            outputIdx := outputIdx + 1;
          }
        }
      } else {
        input[outputIdx] := input[inputIdx];
        outputIdx := outputIdx + 1;
      }
      inputIdx := inputIdx + 1;
    }
    UnescapeNothing();
    assert text[inputIdx..] == "" && out + "" == out;
    assert input[..outputIdx] == out;
    length := outputIdx;
  }

  lemma UnescapeNothing()
    ensures Unescape("") == ""
  {
  }

  // ---- writing escapes ----

  /** A way to write one character of the intended text, or an escape nobody knows. */
  datatype Unit =
    | Plain(c: char)
    | Letter(e: char)
    | Hex(x: char, y: char)
    | Unknown(e: char)

  /** u can be written in front of rest: a plain backslash only at the very end, and an
      unknown x only where rest does not supply the two digits. */
  predicate Writable(u: Unit, rest: string) {
    match u
    case Plain(c) => c != '\\' || rest == ""
    case Letter(e) => Named(e).Some?
    case Hex(x, y) => HexPair(x, y).Some?
    case Unknown(e) => Named(e).None? && !(e == 'x' && |rest| > 1 && HexPair(rest[0], rest[1]).Some?)
  }

  function Spelled(u: Unit): (s: string)
    ensures s != ""
  {
    match u
    case Plain(c) => [c]
    case Letter(e) => ['\\', e]
    case Hex(x, y) => ['\\', 'x', x, y]
    case Unknown(e) => ['\\', e]
  }

  function Meant(u: Unit): string
    requires (u.Letter? ==> Named(u.e).Some?) && (u.Hex? ==> HexPair(u.x, u.y).Some?)
  {
    match u
    case Plain(c) => [c]
    case Letter(e) => [Named(e).value]
    case Hex(x, y) => [ToChar(HexPair(x, y).value)]
    case Unknown(e) => ['\\', e]
  }

  function Written(us: seq<Unit>): string {
    if us == [] then "" else Spelled(us[0]) + Written(us[1..])
  }

  predicate AllWritable(us: seq<Unit>) {
    us == [] || (Writable(us[0], Written(us[1..])) && AllWritable(us[1..]))
  }

  function Meaning(us: seq<Unit>): string
    requires AllWritable(us)
  {
    if us == [] then "" else Meant(us[0]) + Meaning(us[1..])
  }

  lemma UnitReads(u: Unit, rest: string)
    requires Writable(u, rest)
    ensures FirstUnit(Spelled(u) + rest) == (|Spelled(u)|, Meant(u))
  {
    hide HexPair, ToChar;
    var s, n := Spelled(u) + rest, |Spelled(u)|;
    assert forall i | 0 <= i < n :: s[i] == Spelled(u)[i];
    assert forall i | n <= i < |s| :: s[i] == rest[i - n];
  }

  /** Unescaping undoes writing a text with escapes of any kind. */
  lemma {:induction false} UnescapeWritten(us: seq<Unit>)
    requires AllWritable(us)
    ensures Unescape(Written(us)) == Meaning(us)
  {
    hide Spelled, Meant, Writable, FirstUnit;
    if us != [] {
      var rest := Written(us[1..]);
      UnitReads(us[0], rest);
      UnescapeWritten(us[1..]);
      assert (Spelled(us[0]) + rest)[|Spelled(us[0])|..] == rest;
    }
  }

  /** The unit a text begins with. */
  lemma FirstWritten(s: string) returns (u: Unit)
    requires s != ""
    ensures |Spelled(u)| <= |s| && Spelled(u) == s[..|Spelled(u)|] && Writable(u, s[|Spelled(u)|..])
  {
    hide HexPair;
    if s[0] != '\\' || |s| == 1 {
      u := Plain(s[0]);
    } else if Named(s[1]).Some? {
      u := Letter(s[1]);
    } else if s[1] == 'x' && |s| > 3 && HexPair(s[2], s[3]).Some? {
      u := Hex(s[2], s[3]);
    } else {
      u := Unknown(s[1]);
    }
  }

  /** Every text is written from such units, so the meaning of units is all there is. */
  lemma {:induction false} UnitsOf(s: string) returns (us: seq<Unit>)
    ensures AllWritable(us) && Written(us) == s && Unescape(s) == Meaning(us)
    decreases |s|
  {
    hide Spelled, Writable, Meant, Unescape;
    if s == "" {
      us := [];
    } else {
      var u := FirstWritten(s);
      var more := UnitsOf(s[|Spelled(u)|..]);
      us := [u] + more;
      assert us[1..] == more && Spelled(u) + s[|Spelled(u)|..] == s;
    }
    UnescapeWritten(us);
  }

  function DoubleBackslashes(t: string): string {
    if t == "" then "" else (if t[0] == '\\' then "\\\\" else [t[0]]) + DoubleBackslashes(t[1..])
  }

  /** Doubling the backslashes of a text first makes unescaping give the text back. */
  lemma {:induction false} UnescapeDoubled(t: string)
    ensures Unescape(DoubleBackslashes(t)) == t
  {
    hide FirstUnit;
    if t != "" {
      var u := if t[0] == '\\' then Letter('\\') else Plain(t[0]);
      var rest := DoubleBackslashes(t[1..]);
      UnitReads(u, rest);
      UnescapeDoubled(t[1..]);
      assert DoubleBackslashes(t) == Spelled(u) + rest && (Spelled(u) + rest)[|Spelled(u)|..] == rest;
      assert t == [t[0]] + t[1..];
    }
  }

  /** A byte written as two digits in base 16 reads as that byte. */
  lemma HexReads(v: nat)
    requires v < 256
    ensures HexPair(HexDigit(v / 16), HexDigit(v % 16)) == Some(v)
  {
    HexDigitValue(v / 16);
    HexDigitValue(v % 16);
  }

  // ---- the characters themselves ----

  /** A letter behind a backslash, and the code of the character that the two stand for. */
  const LETTERS: seq<(char, nat)> := [('n', 10), ('r', 13), ('t', 9), ('\'', 39), ('"', 34), ('\\', 92)]

  lemma UnescapeLetter(e: char, code: nat, rest: string)
    requires (e, code) in LETTERS
    ensures Unescape(['\\', e] + rest) == [code as char] + Unescape(rest)
  {
    hide HexPair, ToChar;
    var s := ['\\', e] + rest;
    assert Named(e) == Some(code as char) && s[0] == '\\' && s[1] == e && s[2..] == rest;
  }

  /** Two digits in base 16 behind \x stand for the byte with that number. */
  lemma UnescapeHex(high: nat, low: nat, rest: string)
    requires high < 16 && low < 16
    ensures Unescape(['\\', 'x', "0123456789ABCDEF"[high], "0123456789abcdef"[low]] + rest) ==
            [(16 * high + low) as char] + Unescape(rest)
  {
    hide FirstUnit;
    var x, y := "0123456789ABCDEF"[high], "0123456789abcdef"[low];
    PairOf(x, y, high, low);
    UnitReads(Hex(x, y), rest);
    assert Spelled(Hex(x, y)) == ['\\', 'x', x, y] && (Spelled(Hex(x, y)) + rest)[4..] == rest;
  }

  lemma PairOf(x: char, y: char, high: nat, low: nat)
    requires high < 16 && low < 16 && x == "0123456789ABCDEF"[high] && y == "0123456789abcdef"[low]
    ensures HexPair(x, y) == Some(16 * high + low) && ToChar(16 * high + low) == (16 * high + low) as char
  {
    hide HexValue;
    HexTable(x, high);
    HexTable(y, low);
  }

  /** Any other letter keeps its backslash. */
  lemma UnescapeUnknown(e: char, rest: string)
    requires e != 'x' && forall p | p in LETTERS :: p.0 != e
    ensures Unescape(['\\', e] + rest) == ['\\', e] + Unescape(rest)
  {
    hide HexPair, ToChar;
    assert LETTERS[0].0 != e && LETTERS[1].0 != e && LETTERS[2].0 != e;
    assert LETTERS[3].0 != e && LETTERS[4].0 != e && LETTERS[5].0 != e;
    var s := ['\\', e] + rest;
    assert s[0] == '\\' && s[1] == e && s[2..] == rest;
  }

  /** A digit alone, behind white space or a sign, is its own number; a minus sign counts
      down from 256. */
  lemma UnescapeSigned(x: char, low: nat, rest: string)
    requires low < 16 && (IsBlank(x) || x in "+-")
    ensures Unescape(['\\', 'x', x, "0123456789abcdef"[low]] + rest) ==
            [(if x == '-' && low > 0 then 256 - low else low) as char] + Unescape(rest)
  {
    hide FirstUnit;
    var y := "0123456789abcdef"[low];
    SignedPair(x, y, low);
    UnitReads(Hex(x, y), rest);
    assert Spelled(Hex(x, y)) == ['\\', 'x', x, y] && (Spelled(Hex(x, y)) + rest)[4..] == rest;
  }

  lemma SignedPair(x: char, y: char, low: nat)
    requires low < 16 && y == "0123456789abcdef"[low] && (IsBlank(x) || x in "+-")
    ensures HexPair(x, y) == Some(if x == '-' then 0 - low else low)
    ensures ToChar(if x == '-' then 0 - low else low) == (if x == '-' && low > 0 then 256 - low else low) as char
  {
    HexTable(y, low);
  }
}
