/** Markers and text between them, stated on the characters of a template. */
module SegmentsMeaning {
  import opened Segments

  /** A text in which no marker opens. */
  predicate Bare(s: string) { '<' !in s && '[' !in s }

  /** x opens with a bracket and ends at the first one that closes it. */
  predicate Bracketed(x: string) {
    && |x| >= 2
    && ((x[0] == '<' && x[|x| - 1] == '>' && '>' !in x[..|x| - 1])
        || (x[0] == '[' && x[|x| - 1] == ']' && ']' !in x[..|x| - 1]))
  }

  lemma SquareFirst(name: string, rest: string)
    requires ']' !in name
    ensures SegmentsOf("[" + name + "]" + rest) == [Segment(MARKER, "[" + name + "]")] + SegmentsOf(rest)
  {
    BracketFirst('[', name, ']', rest);
  }

  lemma AngleFirst(name: string, rest: string)
    requires '>' !in name
    ensures SegmentsOf("<" + name + ">" + rest) == [Segment(MARKER, "<" + name + ">")] + SegmentsOf(rest)
  {
    BracketFirst('<', name, '>', rest);
  }

  lemma BracketFirst(open: char, name: string, close: char, rest: string)
    requires (open == '[' && close == ']') || (open == '<' && close == '>')
    requires close !in name
    ensures SegmentsOf([open] + name + [close] + rest) ==
            [Segment(MARKER, [open] + name + [close])] + SegmentsOf(rest)
  {
    var m := [open] + name + [close];
    var s := m + rest;
    forall i | 0 <= i < |name| + 1 ensures !IsCloser(open, s[i]) {
      if i > 0 { assert s[i] == name[i - 1]; }
    }
    assert s[|name| + 1] == close && s[0] == open;
    FirstCloserAt(open, s, |name| + 1);
    assert s[..|name| + 2] == m && s[|name| + 2..] == rest;
  }

  /** Text in front of a marker, or all there is. */
  lemma TextFirst(text: string, rest: string)
    requires text != "" && Bare(text) && (rest == "" || rest[0] == '<' || rest[0] == '[')
    ensures SegmentsOf(text + rest) == [Segment(TEXT, text)] + SegmentsOf(rest)
  {
    var s := text + rest;
    forall i | 0 <= i < |text| ensures !IsOpener(s[i]) { assert s[i] == text[i] && text[i] in text; }
    FirstOpenerAt(s, |text|);
    assert s[0] == text[0] && text[0] in text;
    assert s[..|text|] == text && s[|text|..] == rest;
  }

  lemma TextOnly(text: string)
    requires text != "" && Bare(text)
    ensures SegmentsOf(text) == [Segment(TEXT, text)]
  {
    TextFirst(text, "");
    assert text + "" == text && SegmentsOf("") == [];
  }

  /** A bracket that nothing closes starts a last piece of text. */
  lemma UnclosedIsText(s: string)
    requires s != "" && ((s[0] == '<' && '>' !in s) || (s[0] == '[' && ']' !in s))
    ensures SegmentsOf(s) == [Segment(TEXT, s)]
  {
    forall i | 0 <= i < |s| ensures !IsCloser(s[0], s[i]) { assert s[i] in s; }
    FirstCloserAt(s[0], s, |s|);
  }

  /** The markers among the segments are exactly those that open with a bracket and end at
      the first one that closes it. */
  lemma {:induction false} MarkersExactly(s: string)
    ensures forall x | x in SegmentsOf(s) :: x.kind == MARKER <==> Bracketed(x.value)
    decreases |s|
  {
    if s != "" {
      hide FirstCloser, FirstOpener, Bracketed;
      if s[0] == '<' || s[0] == '[' {
        var k := FirstCloser(s[0], s);
        ClosedBracket(s, k);
        if k < |s| { MarkersExactly(s[k + 1..]); }
      } else {
        var k := FirstOpener(s);
        assert !Bracketed(s[..k]) by { NotBracketed(s[..k]); }
        MarkersExactly(s[k..]);
      }
    }
  }

  lemma NotBracketed(x: string)
    requires x != "" && x[0] != '<' && x[0] != '['
    ensures !Bracketed(x)
  {
  }

  lemma ClosedBracket(s: string, k: nat)
    requires s != "" && (s[0] == '<' || s[0] == '[') && k <= |s|
    requires (forall i | 0 <= i < k :: !IsCloser(s[0], s[i])) && (k < |s| ==> IsCloser(s[0], s[k]))
    ensures k < |s| ==> Bracketed(s[..k + 1])
    ensures k == |s| ==> !Bracketed(s)
  {
    if k < |s| {
      var x := s[..k + 1];
      assert x[|x| - 1] == s[k] && forall i | 0 <= i < k :: x[..|x| - 1][i] == s[i];
    } else {
      assert !IsCloser(s[0], s[|s| - 1]);
    }
  }
}
