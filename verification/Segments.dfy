/** Cutting a rendered template into markers and the text between them. */
module Segments {
  datatype SegmentType = TEXT | MARKER

  datatype Segment = Segment(kind: SegmentType, value: string)

  predicate IsOpener(c: char) { c == '<' || c == '[' }

  predicate IsCloser(opener: char, c: char) {
    (opener == '<' && c == '>') || (opener == '[' && c == ']')
  }

  /** The first position of s at which an opener stands, or |s|. */
  function FirstOpener(s: string): (k: nat)
    ensures k <= |s| && (forall i | 0 <= i < k :: !IsOpener(s[i])) && (k < |s| ==> IsOpener(s[k]))
  {
    if s == "" || IsOpener(s[0]) then 0 else 1 + FirstOpener(s[1..])
  }

  function FirstCloser(opener: char, s: string): (k: nat)
    ensures k <= |s| && (forall i | 0 <= i < k :: !IsCloser(opener, s[i])) && (k < |s| ==> IsCloser(opener, s[k]))
  {
    if s == "" || IsCloser(opener, s[0]) then 0 else 1 + FirstCloser(opener, s[1..])
  }

  /** The segments of s: a marker runs from an opener to its first closer, text runs up
      to the next opener, and an opener that is never closed starts a last piece of text. */
  function SegmentsOf(s: string): seq<Segment>
    decreases |s|
  {
    if s == "" then []
    else if IsOpener(s[0]) then
      var k := FirstCloser(s[0], s);
      if k == |s| then [Segment(TEXT, s)] else [Segment(MARKER, s[..k + 1])] + SegmentsOf(s[k + 1..])
    else
      var k := FirstOpener(s);
      [Segment(TEXT, s[..k])] + SegmentsOf(s[k..])
  }

  function Joined(segments: seq<Segment>): string {
    if segments == [] then "" else segments[0].value + Joined(segments[1..])
  }

  lemma OneMore(x: Segment, rest: seq<Segment>)
    ensures Joined([x] + rest) == x.value + Joined(rest)
    ensures (forall y | y in [x] + rest :: y.value != "") <==> x.value != "" && forall y | y in rest :: y.value != ""
  {
    assert ([x] + rest)[1..] == rest;
    assert x in [x] + rest && forall y | y in rest :: y in [x] + rest;
  }

  lemma NoSegments(x: Segment)
    ensures [x] + SegmentsOf("") == [x]
  {
  }

  /** The first segment of a text that is not empty, and the text after it. */
  lemma FirstSegment(s: string) returns (x: Segment, rest: string)
    requires s != ""
    ensures SegmentsOf(s) == [x] + SegmentsOf(rest)
    ensures x.value != "" && x.value + rest == s
  {
    hide FirstCloser, FirstOpener;
    var k := if IsOpener(s[0]) then FirstCloser(s[0], s) else FirstOpener(s);
    if IsOpener(s[0]) && k == |s| {
      x, rest := Segment(TEXT, s), "";
      NoSegments(x);
    } else if IsOpener(s[0]) {
      x, rest := Segment(MARKER, s[..k + 1]), s[k + 1..];
    } else {
      x, rest := Segment(TEXT, s[..k]), s[k..];
    }
  }

  /** The segments tile the text, and none of them is empty. */
  lemma {:induction false} SegmentsTile(s: string)
    ensures Joined(SegmentsOf(s)) == s
    ensures forall x | x in SegmentsOf(s) :: x.value != ""
    ensures SegmentsOf(s) == [] <==> s == ""
    decreases |s|
  {
    if s == "" {
      assert SegmentsOf(s) == [];
    } else {
      hide SegmentsOf, Joined;
      var x, rest := FirstSegment(s);
      SegmentsTile(rest);
      OneMore(x, SegmentsOf(rest));
    }
  }

  lemma FirstCloserAt(opener: char, s: string, k: nat)
    requires k <= |s| && (forall i | 0 <= i < k :: !IsCloser(opener, s[i])) && (k < |s| ==> IsCloser(opener, s[k]))
    ensures FirstCloser(opener, s) == k
  {
    hide IsCloser;
  }

  lemma FirstOpenerAt(s: string, k: nat)
    requires k <= |s| && (forall i | 0 <= i < k :: !IsOpener(s[i])) && (k < |s| ==> IsOpener(s[k]))
    ensures FirstOpener(s) == k
  {
    hide IsOpener;
  }

  /** Text up to the opener at position pos. */
  lemma TextStep(text: string, border: nat, pos: nat)
    requires border < pos < |text| && IsOpener(text[pos])
    requires forall i | border <= i < pos :: !IsOpener(text[i])
    ensures SegmentsOf(text[border..]) == [Segment(TEXT, text[border..pos])] + SegmentsOf(text[pos..])
  {
    var s := text[border..];
    forall i | 0 <= i < pos - border ensures !IsOpener(s[i]) { assert s[i] == text[border + i]; }
    FirstOpenerAt(s, pos - border);
    assert s[..pos - border] == text[border..pos] && s[pos - border..] == text[pos..];
  }

  /** A marker closed at position pos. */
  lemma MarkerStep(text: string, border: nat, pos: nat)
    requires border < pos < |text| && IsOpener(text[border]) && IsCloser(text[border], text[pos])
    requires forall i | border <= i < pos :: !IsCloser(text[border], text[i])
    ensures SegmentsOf(text[border..]) == [Segment(MARKER, text[border..pos + 1])] + SegmentsOf(text[pos + 1..])
  {
    var s := text[border..];
    forall i | 0 <= i < pos - border ensures !IsCloser(s[0], s[i]) { assert s[i] == text[border + i]; }
    FirstCloserAt(s[0], s, pos - border);
    assert s[..pos - border + 1] == text[border..pos + 1] && s[pos - border + 1..] == text[pos + 1..];
  }

  /** What is left when the text ends outside a marker, or inside one never closed. */
  lemma LastStep(text: string, border: nat, inMarker: bool)
    requires border <= |text|
    requires inMarker ==> border < |text| && IsOpener(text[border])
    requires inMarker ==> forall i | border <= i < |text| :: !IsCloser(text[border], text[i])
    requires !inMarker ==> forall i | border <= i < |text| :: !IsOpener(text[i])
    ensures SegmentsOf(text[border..]) == if border < |text| then [Segment(TEXT, text[border..])] else []
  {
    var s := text[border..];
    if s != "" {
      if inMarker {
        FirstCloserAt(s[0], s, |s|);
      } else {
        FirstOpenerAt(s, |s|);
        assert s[..|s|] == s && s[|s|..] == "";
        assert SegmentsOf("") == [];
      }
    }
  }

  method SegmentizeMarkers(text: string) returns (segments: seq<Segment>)
    ensures segments == SegmentsOf(text)
  {
    hide SegmentsOf, FirstOpener, FirstCloser;
    segments := [];
    var inMarker, markerOpener, lastBorder := false, '\0', 0;
    var curPos := 0;
    assert text[0..] == text;
    while curPos < |text|
      invariant 0 <= lastBorder <= curPos <= |text|
      invariant SegmentsOf(text) == segments + SegmentsOf(text[lastBorder..])
      invariant inMarker ==> lastBorder < curPos && IsOpener(markerOpener) && text[lastBorder] == markerOpener
      invariant inMarker ==> forall i | lastBorder <= i < curPos :: !IsCloser(markerOpener, text[i])
      invariant !inMarker ==> forall i | lastBorder <= i < curPos :: !IsOpener(text[i])
    {
      if !inMarker && IsOpener(text[curPos]) {
        if lastBorder < curPos {
          TextStep(text, lastBorder, curPos);
          segments := segments + [Segment(TEXT, text[lastBorder..curPos])];
        }
        lastBorder := curPos;
        inMarker := true;
        markerOpener := text[curPos];
      } else if inMarker && IsCloser(markerOpener, text[curPos]) {
        MarkerStep(text, lastBorder, curPos);
        segments := segments + [Segment(MARKER, text[lastBorder..curPos + 1])];
        lastBorder := curPos + 1;
        inMarker := false;
        markerOpener := '\0';
      }
      curPos := curPos + 1;
    }
    LastStep(text, lastBorder, inMarker);
    if lastBorder < |text| {
      segments := segments + [Segment(TEXT, text[lastBorder..])];
    }
  }
}
