/** Splitting two renderings, stated on the characters of some plain cases. */
module DiffSplitTexts {
  import opened Segments
  import opened SegmentsMeaning
  import opened DiffSplit
  import opened DiffSplitMeaning

  /** Two texts without markers: if the left one starts the right one, the rest of the right
      one is the difference. Otherwise both are put together again; the suffix is the longest
      one that they share, and of what it leaves, the prefix is the longest one shared. */
  lemma TextsSplit(left: string, right: string)
    requires Bare(left) && Bare(right) && left != "" && right != ""
    ensures var d := DiffSplitOf(left, right);
      if left <= right then
        d == if left == right then Split(left, "", "", "") else Split(left, "", "", right[|left|..])
      else
        && d.prefix + d.left + d.suffix == left && d.prefix + d.right + d.suffix == right
        && (var s := |d.suffix|; s < |left| && s < |right| ==> left[|left| - 1 - s] != right[|right| - 1 - s])
        && (d.left != "" && d.right != "" ==> d.left[0] != d.right[0])
  {
    hide CutStrings, DiffSplitOf, Tidy;
    TextsJoined(left, right);
    TextsCut(left, right);
    TextsTidied(left, right, CutStrings("", left, right, "", true, true));
  }

  /** The end segments are not matched when both are text; both sides are cut as text. */
  lemma TextsJoined(left: string, right: string)
    requires Bare(left) && Bare(right) && left != "" && right != ""
    ensures DiffSplitOf(left, right) == Tidy(left, right, CutStrings("", left, right, "", true, true))
  {
    hide SegmentsOf, Joined, CommonPrefix, CommonSuffix, Tidy;
    TextOnly(left);
    TextOnly(right);
    JoinedOne(Segment(TEXT, left));
    JoinedOne(Segment(TEXT, right));
    var l, r := [Segment(TEXT, left)], [Segment(TEXT, right)];
    assert MatchEnds(l, r) == Ends([], l, r, [], false, false) && Settle(MatchEnds(l, r)) == MatchEnds(l, r);
    JoinedNone();
  }

  lemma TextsCut(left: string, right: string)
    ensures var d := CutStrings("", left, right, "", true, true);
      && d.prefix + d.left + d.suffix == left && d.prefix + d.right + d.suffix == right
      && (var s := |d.suffix|; s < |left| && s < |right| ==> left[|left| - 1 - s] != right[|right| - 1 - s])
      && (d.left != "" && d.right != "" ==> d.left[0] != d.right[0])
      && (left <= right ==> d.left == "")
  {
    hide CutStrings, Rebuilds;
    CutStringsRebuild("", left, right, "", true, true);
    assert "" + left + "" == left && "" + right + "" == right;
    RebuiltIs(CutStrings("", left, right, "", true, true), left, right);
    CutEnd(left, right);
    CutFront(left, right);
  }

  lemma RebuiltIs(d: Split, left: string, right: string)
    requires Rebuilds(d, left, right)
    ensures d.prefix + d.left + d.suffix == left && d.prefix + d.right + d.suffix == right
  {
  }

  lemma CutEnd(left: string, right: string)
    ensures var s := |CutStrings("", left, right, "", true, true).suffix|;
      s < |left| && s < |right| ==> left[|left| - 1 - s] != right[|right| - 1 - s]
  {
    hide CommonPrefix, CommonSuffix;
    CommonSuffixShared(left, right);
    assert |left[|left| - CommonSuffix(left, right)..] + ""| == CommonSuffix(left, right);
  }

  lemma CutFront(left: string, right: string)
    ensures var d := CutStrings("", left, right, "", true, true);
      && (d.left != "" && d.right != "" ==> d.left[0] != d.right[0])
      && (left <= right ==> d.left == "")
  {
    hide CommonPrefix, CommonSuffix;
    var s := CommonSuffix(left, right);
    var a, b := left[..|left| - s], right[..|right| - s];
    var p := CommonPrefix(a, b);
    var d := CutStrings("", left, right, "", true, true);
    assert d.left == left[p..|left| - s] && d.right == right[p..|right| - s];
    if left <= right {
      assert a == b[..|a|];
      CommonPrefixAt(a, b, |a|);
    }
    if p < |a| && p < |b| { assert a[p] == left[p] && b[p] == right[p]; }
  }

  lemma TextsTidied(left: string, right: string, d: Split)
    requires d.prefix + d.left + d.suffix == left && d.prefix + d.right + d.suffix == right
    requires left <= right ==> d.left == ""
    ensures Tidy(left, right, d) ==
            if left == right then Split(left, "", "", "")
            else if left <= right then Split(left, "", "", right[|left|..]) else d
  {
    assert |d.left| - |d.right| == |left| - |right|;
    if d.left == "" && d.right == "" { assert left == right; }
  }

  /** Two different markers share nothing, not even their brackets. */
  lemma MarkersSplit(a: string, b: string)
    requires Bracketed(a) && Bracketed(b) && a != b
    ensures DiffSplitOf(a, b) == Split("", "", a, b)
  {
    hide SegmentsOf, Joined, CommonPrefix, CommonSuffix, Bracketed;
    OneMarker(a);
    OneMarker(b);
    JoinedOne(Segment(MARKER, a));
    JoinedOne(Segment(MARKER, b));
    JoinedNone();
    var l, r := [Segment(MARKER, a)], [Segment(MARKER, b)];
    assert MatchEnds(l, r) == Ends([], l, r, [], false, false) && Settle(MatchEnds(l, r)) == MatchEnds(l, r);
    MarkerCut(a, b);
  }

  lemma MarkerCut(a: string, b: string)
    requires Bracketed(a) && Bracketed(b)
    ensures CutStrings("", a, b, "", false, false) == Split("", "", a, b)
    ensures Tidy(a, b, Split("", "", a, b)) == Split("", "", a, b)
  {
    assert a[|a|..] + "" == "" && "" + a[..0] == "" && a[0..|a| - 0] == a && b[0..|b| - 0] == b;
  }

  lemma OneMarker(a: string)
    requires Bracketed(a)
    ensures SegmentsOf(a) == [Segment(MARKER, a)]
  {
    MarkerFirst(a, "");
    assert a + "" == a && SegmentsOf("") == [];
  }

  lemma MarkerFirst(a: string, rest: string)
    requires Bracketed(a)
    ensures SegmentsOf(a + rest) == [Segment(MARKER, a)] + SegmentsOf(rest)
  {
    hide SegmentsOf;
    var name := a[1..|a| - 1];
    assert a == [a[0]] + name + [a[|a| - 1]];
    assert forall i | 0 <= i < |name| :: name[i] == a[..|a| - 1][i + 1];
    BracketFirst(a[0], name, a[|a| - 1], rest);
  }

  /** A marker that the right side repeats around some text is matched behind. */
  lemma RepeatGoesBehind(p: string, a: string, t: string, q: string)
    requires Bracketed(p) && Bracketed(a) && Bracketed(q) && t != "" && Bare(t)
    ensures DiffSplitOf(p + a + q, p + a + t + a + q) == Split(p, a + q, "", a + t)
  {
    hide SegmentsOf, Joined, CommonPrefix, CommonSuffix, Bracketed, Tidy, MatchEnds, SplitText;
    var mp, ma, mt, mq := Segment(MARKER, p), Segment(MARKER, a), Segment(TEXT, t), Segment(MARKER, q);
    RepeatSegments(p, a, t, q);
    RepeatMatch(mp, ma, mt, mq);
    var e := Ends([mp], [ma], [ma, mt], [ma, mq], true, false);
    assert DiffSplitOf(p + a + q, p + a + t + a + q) == Tidy(p + a + q, p + a + t + a + q, SplitText(e));
    RepeatText(mp, ma, mt, mq);
    RepeatTidy(p, a, t, q);
  }

  lemma RepeatSegments(p: string, a: string, t: string, q: string)
    requires Bracketed(p) && Bracketed(a) && Bracketed(q) && t != "" && Bare(t)
    ensures SegmentsOf(p + a + q) == [Segment(MARKER, p), Segment(MARKER, a), Segment(MARKER, q)]
    ensures SegmentsOf(p + a + t + a + q) ==
            [Segment(MARKER, p), Segment(MARKER, a), Segment(TEXT, t), Segment(MARKER, a), Segment(MARKER, q)]
  {
    hide SegmentsOf;
    OneMarker(q);
    MarkerFirst(a, q);
    MarkerFirst(p, a + q);
    assert p + a + q == p + (a + q);
    TextFirst(t, a + q);
    MarkerFirst(a, t + (a + q));
    MarkerFirst(p, a + (t + (a + q)));
    assert p + a + t + a + q == p + (a + (t + (a + q)));
  }

  lemma RepeatMatch(p: Segment, a: Segment, t: Segment, q: Segment)
    ensures Settle(MatchEnds([p, a, q], [p, a, t, a, q])) == Ends([p], [a], [a, t], [a, q], true, false)
  {
    var l, r := [p, a, q], [p, a, t, a, q];
    assert l[1..] == [a, q] && r[1..] == [a, t, a, q];
    assert Init([a, q]) == [a] && Init([a, t, a, q]) == [a, t, a] && Init([a, t, a]) == [a, t];
    assert MatchEnds([a], [a, t, a]) == Ends([], [a], [a, t, a], [], false, false);
    assert MatchBack([a, q], [a, t, a, q], true) == Around([], MatchEnds([a], [a, t, a]), [q]);
    assert MatchEnds(l, r) == Ends([p], [a], [a, t, a], [q], false, false);
    assert [a] + [q] == [a, q];
  }

  lemma RepeatText(p: Segment, a: Segment, t: Segment, q: Segment)
    requires p.kind == a.kind == MARKER
    ensures SplitText(Ends([p], [a], [a, t], [a, q], true, false)) ==
            Split(p.value, a.value + q.value, "", a.value + t.value)
  {
    hide Joined, CommonPrefix, CommonSuffix;
    JoinedOne(p);
    JoinedOne(q);
    JoinedOne(t);
    JoinedCons(a, [q]);
    JoinedCons(a, [t]);
    JoinedNone();
    assert [a] + [q] == [a, q] && [a] + [t] == [a, t] && Init([a]) == [];
    assert Rest([a], true) == [] && Rest([a, t], false) == [a, t];
    var x := a.value + t.value;
    assert p.value + ""[..0] == p.value && ""[|""|..] + (a.value + q.value) == a.value + q.value && x[0..|x| - 0] == x;
  }

  lemma RepeatTidy(p: string, a: string, t: string, q: string)
    requires Bracketed(q) && Bare(t) && t != ""
    ensures Tidy(p + a + q, p + a + t + a + q, Split(p, a + q, "", a + t)) == Split(p, a + q, "", a + t)
  {
    var left, right := p + a + q, p + a + t + a + q;
    assert left[|p + a|] == q[0] && right[|p + a|] == t[0] && t[0] in t;
  }
}
