/** When the parts of a split put both renderings back together. */
module DiffSplitMeaning {
  import opened Segments
  import opened DiffSplit

  predicate Rebuilds(d: Split, left: string, right: string) {
    d.prefix + d.left + d.suffix == left && d.prefix + d.right + d.suffix == right
  }

  /** Nothing is lost and nothing counted twice between e and the segments of both sides. */
  predicate Covers(e: Ends, l: seq<Segment>, r: seq<Segment>) {
    && e.l != [] && e.r != []
    && l == e.pre + Rest(e.l, e.lUsed) + e.post
    && r == e.pre + Rest(e.r, e.rUsed) + e.post
  }

  /** A used side is down to one segment, the first of those matched behind. */
  predicate Shape(e: Ends) {
    && (e.lUsed ==> |e.l| == 1 && e.post != [] && e.post[0] == e.l[0])
    && (e.rUsed ==> |e.r| == 1 && e.post != [] && e.post[0] == e.r[0])
  }

  lemma AroundCovers(a: seq<Segment>, e: Ends, b: seq<Segment>, l: seq<Segment>, r: seq<Segment>)
    requires Covers(e, l, r) && Shape(e)
    ensures Covers(Around(a, e, b), a + l + b, a + r + b) && Shape(Around(a, e, b))
  {
    hide Rest;
    var x, y := Rest(e.l, e.lUsed), Rest(e.r, e.rUsed);
    assert a + (e.pre + x + e.post) + b == a + e.pre + x + (e.post + b);
    assert a + (e.pre + y + e.post) + b == a + e.pre + y + (e.post + b);
  }

  lemma HeadJoins(l: seq<Segment>)
    requires l != []
    ensures [l[0]] + l[1..] + [] == l
  {
  }

  lemma {:induction false} MatchCovers(l: seq<Segment>, r: seq<Segment>)
    requires l != [] && r != []
    ensures Covers(MatchEnds(l, r), l, r) && Shape(MatchEnds(l, r))
    decreases |l|, 1
  {
    hide MatchBack;
    if |l| == 1 || |r| == 1 {
      assert [] + l + [] == l && [] + r + [] == r;
    } else if l[0] == r[0] {
      hide Covers, Shape;
      BackCovers(l[1..], r[1..], true);
      AroundCovers([l[0]], MatchBack(l[1..], r[1..], true), [], l[1..], r[1..]);
      HeadJoins(l);
      HeadJoins(r);
    } else {
      hide Covers, Shape;
      BackCovers(l, r, false);
    }
  }

  lemma {:induction false} BackCovers(l: seq<Segment>, r: seq<Segment>, advanced: bool)
    requires l != [] && r != [] && (!advanced ==> |l| > 1 && |r| > 1)
    ensures Covers(MatchBack(l, r, advanced), l, r) && Shape(MatchBack(l, r, advanced))
    decreases |l|, if advanced then 2 else 0
  {
    hide MatchEnds, Covers, Shape;
    if Last(l) == Last(r) {
      if |l| > 1 && |r| > 1 {
        MatchCovers(Init(l), Init(r));
        AroundCovers([], MatchEnds(Init(l), Init(r)), [Last(l)], Init(l), Init(r));
        Whole(l);
        Whole(r);
      } else {
        MetCovers(l, r);
      }
    } else if advanced {
      MatchCovers(l, r);
    } else {
      StuckCovers(l, r);
    }
  }

  lemma Whole(l: seq<Segment>)
    requires l != []
    ensures [] + Init(l) + [Last(l)] == l
  {
  }

  lemma StuckCovers(l: seq<Segment>, r: seq<Segment>)
    requires l != [] && r != []
    ensures Covers(Ends([], l, r, [], false, false), l, r) && Shape(Ends([], l, r, [], false, false))
  {
    assert [] + l + [] == l && [] + r + [] == r;
  }

  lemma MetCovers(l: seq<Segment>, r: seq<Segment>)
    requires l != [] && r != [] && Last(l) == Last(r) && (|l| == 1 || |r| == 1)
    ensures Covers(MatchBack(l, r, true), l, r) && Shape(MatchBack(l, r, true))
  {
    hide MatchEnds;
    Whole(l);
    Whole(r);
  }

  /** Moving the last segment of x to what follows it, or the first to what precedes it. */
  lemma MoveOne(p: seq<Segment>, x: seq<Segment>, q: seq<Segment>)
    requires x != []
    ensures p + Rest(x, true) + ([Last(x)] + q) == p + x + q
    ensures p + [x[0]] + x[1..] + q == p + x + q
    ensures |x| == 1 ==> p + [x[0]] + Rest(x, true) + q == p + x + q
  {
    assert Init(x) + [Last(x)] == x && [x[0]] + x[1..] == x;
    assert p + Init(x) + ([Last(x)] + q) == p + (Init(x) + [Last(x)]) + q;
    assert p + [x[0]] + x[1..] + q == p + ([x[0]] + x[1..]) + q;
    assert |x| == 1 ==> Init(x) == x[1..];
  }

  lemma SettleCovers(e: Ends, l: seq<Segment>, r: seq<Segment>)
    requires Covers(e, l, r) && !e.lUsed && !e.rUsed
    ensures Covers(Settle(e), l, r)
  {
    assert Rest(e.l, false) == e.l && Rest(e.r, false) == e.r && Rest(Init(e.l) + [Last(e.l)], true) == Init(e.l);
    MoveOne(e.pre, e.l, e.post);
    MoveOne(e.pre, e.r, e.post);
    if |e.l| > 1 { assert Init(e.l) != [] && Rest(Init(e.l), false) == Init(e.l) && Rest(e.l[1..], false) == e.l[1..]; }
    if |e.r| > 1 { assert Init(e.r) != [] && Rest(Init(e.r), false) == Init(e.r) && Rest(e.r[1..], false) == e.r[1..]; }
    assert Rest(e.l, true) == Init(e.l) && Rest(e.r, true) == Init(e.r);
    hide Rest, Init;
  }

  lemma JoinedThree(a: seq<Segment>, b: seq<Segment>, c: seq<Segment>)
    ensures Joined(a + b + c) == Joined(a) + Joined(b) + Joined(c)
  {
    hide Joined;
    JoinedAppend(a + b, c);
    JoinedAppend(a, b);
  }

  /** Cutting the same p characters in front and s behind off both remainders. */
  lemma CutRebuilds(pre: string, a: string, b: string, post: string, p: nat, s: nat)
    requires p + s <= |a| && p + s <= |b| && a[..p] == b[..p] && a[|a| - s..] == b[|b| - s..]
    ensures Rebuilds(Split(pre + a[..p], a[|a| - s..] + post, a[p..|a| - s], b[p..|b| - s]), pre + a + post,
                     pre + b + post)
  {
    CutJoins(pre, a, post, p, s);
    CutJoins(pre, b, post, p, s);
  }

  lemma CutJoins(pre: string, a: string, post: string, p: nat, s: nat)
    requires p + s <= |a|
    ensures pre + a[..p] + a[p..|a| - s] + (a[|a| - s..] + post) == pre + a + post
  {
    var x, y, z := a[..p], a[p..|a| - s], a[|a| - s..];
    assert a == x + y + z;
    assert pre + x + y + (z + post) == pre + (x + y + z) + post;
  }

  lemma SplitTextRebuilds(e: Ends, l: seq<Segment>, r: seq<Segment>)
    requires Covers(e, l, r)
    ensures Rebuilds(SplitText(e), Joined(l), Joined(r))
  {
    hide Joined, Rest, CutStrings, Rebuilds;
    JoinedThree(e.pre, Rest(e.l, e.lUsed), e.post);
    JoinedThree(e.pre, Rest(e.r, e.rUsed), e.post);
    CutStringsRebuild(Joined(e.pre), Joined(Rest(e.l, e.lUsed)), Joined(Rest(e.r, e.rUsed)), Joined(e.post),
                      e.l[0].kind == TEXT && e.r[0].kind == TEXT, Last(e.l).kind == TEXT && Last(e.r).kind == TEXT);
  }

  lemma CutStringsRebuild(pre: string, a: string, b: string, post: string, front: bool, back: bool)
    ensures Rebuilds(CutStrings(pre, a, b, post, front, back), pre + a + post, pre + b + post)
  {
    hide CommonPrefix, CommonSuffix, Rebuilds;
    var s := if back then CommonSuffix(a, b) else 0;
    var p := if front then CommonPrefix(a[..|a| - s], b[..|b| - s]) else 0;
    CommonSuffixShared(a, b);
    assert a[..p] == a[..|a| - s][..p] && b[..p] == b[..|b| - s][..p];
    CutRebuilds(pre, a, b, post, p, s);
  }

  lemma TidyRebuilds(left: string, right: string, d: Split)
    requires Rebuilds(d, left, right)
    ensures Rebuilds(Tidy(left, right, d), left, right)
  {
    if d.left == "" && d.right == "" {
      assert d.prefix + "" + d.suffix == left == right && left + "" + "" == left;
    } else if d.left == "" && d.right != "" && left <= right {
      assert left + "" + "" == left && left + right[|left|..] + "" == right;
    }
  }

  // ---- a segment counted twice ----

  /** The first half of short starts long and the second half ends it. */
  predicate HalvesMatch(short: seq<Segment>, long: seq<Segment>) {
    var h := |short| / 2;
    && |short| >= 2 && |short| % 2 == 0 && |short| <= |long|
    && short[..h] == long[..h] && short[h..] == long[|long| - h..]
  }

  /** What the loop then leaves. */
  predicate Met(e: Ends, short: seq<Segment>, long: seq<Segment>)
    requires HalvesMatch(short, long)
  {
    var h := |short| / 2;
    && e.pre == short[..h] && e.l == [short[h]] && e.post == short[h..]
    && e.lUsed && e.rUsed == (|short| == |long|)
    && e.r == if |short| == |long| then [short[h]] else long[h..|long| - h]
  }

  /** Two sequences agree on a range exactly when they agree on its first or last element
      and on the rest of it. */
  lemma RangesShrink(l: seq<Segment>, a: nat, r: seq<Segment>, b: nat, n: nat)
    requires n >= 1 && a + n <= |l| && b + n <= |r|
    ensures l[a..a + n] == r[b..b + n] <==> l[a] == r[b] && l[a + 1..a + n] == r[b + 1..b + n]
    ensures l[a..a + n] == r[b..b + n] <==> l[a + n - 1] == r[b + n - 1] && l[a..a + n - 1] == r[b..b + n - 1]
  {
    assert l[a..a + n] == [l[a]] + l[a + 1..a + n] == l[a..a + n - 1] + [l[a + n - 1]];
    assert r[b..b + n] == [r[b]] + r[b + 1..b + n] == r[b..b + n - 1] + [r[b + n - 1]];
    assert l[a + 1..a + n] == l[a..a + n][1..] && r[b + 1..b + n] == r[b..b + n][1..];
    assert l[a..a + n - 1] == l[a..a + n][..n - 1] && r[b..b + n - 1] == r[b..b + n][..n - 1];
  }

  lemma SliceOfSlice(l: seq<Segment>, lo: nat, hi: nat, a: nat, b: nat)
    requires a <= b <= hi - lo && lo <= hi <= |l|
    ensures l[lo..hi][a..b] == l[lo + a..lo + b]
  {
    assert forall k | 0 <= k < b - a :: l[lo..hi][a..b][k] == l[lo + a..lo + b][k];
  }

  /** HalvesMatch between positions lo and to of l, split at mid, and positions lo and hi of r. */
  lemma HalvesAsRanges(l: seq<Segment>, r: seq<Segment>, lo: nat, mid: nat, to: nat, hi: nat)
    requires lo < mid < to <= |l| && mid - lo == to - mid && to <= hi <= |r|
    ensures HalvesMatch(l[lo..to], r[lo..hi]) <==> l[lo..mid] == r[lo..mid] && l[mid..to] == r[hi - (to - mid)..hi]
  {
    var n := mid - lo;
    var x, y := l[lo..to], r[lo..hi];
    var h := |x| / 2;
    assert h == n && |x| % 2 == 0 && |x| >= 2;
    assert HalvesMatch(x, y) <==> x[..h] == y[..h] && x[h..] == y[|y| - h..];
    assert x[..h] == l[lo..mid] && y[..h] == r[lo..mid];
    assert x[h..] == l[mid..to] && y[|y| - h..] == r[hi - (to - mid)..hi];
  }

  lemma HalvesShrink(l: seq<Segment>, r: seq<Segment>)
    requires 2 < |l| <= |r| && l[0] == r[0] && l[|l| - 1] == r[|r| - 1]
    ensures HalvesMatch(l, r) <==> HalvesMatch(l[1..|l| - 1], r[1..|r| - 1])
  {
    if |l| % 2 == 0 { EvenShrinks(l, r, |l| / 2, |r| - |l| / 2); }
  }

  lemma EvenShrinks(l: seq<Segment>, r: seq<Segment>, h: nat, k: nat)
    requires 2 < |l| <= |r| && |l| == 2 * h && |r| == k + h && l[0] == r[0] && l[|l| - 1] == r[|r| - 1]
    ensures HalvesMatch(l, r) <==> HalvesMatch(l[1..|l| - 1], r[1..|r| - 1])
  {
    hide HalvesMatch;
    WholeHalves(l, r, h, k);
    InnerRanges(l, r, h, k);
    RangesShrink(l, 0, r, 0, h);
    RangesShrink(l, h, r, k, h);
  }

  lemma WholeHalves(l: seq<Segment>, r: seq<Segment>, h: nat, k: nat)
    requires 2 < |l| <= |r| && |l| == 2 * h && |r| == k + h
    ensures HalvesMatch(l, r) <==> l[0..h] == r[0..h] && l[h..h + h] == r[k..k + h]
  {
    hide HalvesMatch;
    assert l[0..|l|] == l && r[0..|r|] == r;
    HalvesAsRanges(l, r, 0, h, |l|, |r|);
  }

  lemma InnerRanges(l: seq<Segment>, r: seq<Segment>, h: nat, k: nat)
    requires 2 < |l| <= |r| && |l| == 2 * h && |r| == k + h
    ensures HalvesMatch(l[1..|l| - 1], r[1..|r| - 1]) <==> l[1..h] == r[1..h] && l[h..h + h - 1] == r[k..k + h - 1]
  {
    hide HalvesMatch;
    HalvesAsRanges(l, r, 1, h, |l| - 1, |r| - 1);
  }

  lemma MetAround(l: seq<Segment>, r: seq<Segment>, e: Ends)
    requires 2 < |l| <= |r| && l[0] == r[0] && l[|l| - 1] == r[|r| - 1]
    requires HalvesMatch(l, r) && HalvesMatch(l[1..|l| - 1], r[1..|r| - 1]) && Met(e, l[1..|l| - 1], r[1..|r| - 1])
    ensures Met(Around([l[0]], Around([], e, [l[|l| - 1]]), []), l, r)
  {
    hide HalvesMatch;
    var x, y := l[1..|l| - 1], r[1..|r| - 1];
    var h := |l| / 2;
    assert |l| % 2 == 0 && h - 1 == |x| / 2 by { EvenLength(l, r); }
    InnerHalves(l, h);
    MetParts(l[0], l[|l| - 1], x, h - 1, e);
    if |l| < |r| { SliceOfSlice(r, 1, |r| - 1, h - 1, |y| - (h - 1)); }
  }

  /** The parts in front and behind, once the outer segments are back. */
  lemma MetParts(first: Segment, last: Segment, x: seq<Segment>, h: nat, e: Ends)
    requires h < |x| && e.pre == x[..h] && e.post == x[h..]
    ensures var f := Around([first], Around([], e, [last]), []);
      f.pre == [first] + ([] + x[..h]) && f.post == x[h..] + [last] + [] && f == e.(pre := f.pre, post := f.post)
  {
  }

  /** The halves of a list, put together from those of its inner part. */
  lemma InnerHalves(l: seq<Segment>, h: nat)
    requires 1 <= h < |l|
    ensures var x := l[1..|l| - 1];
      [l[0]] + ([] + x[..h - 1]) == l[..h] && x[h - 1..] + [l[|l| - 1]] + [] == l[h..]
  {
    var x := l[1..|l| - 1];
    SliceOfSlice(l, 1, |l| - 1, 0, h - 1);
    SliceOfSlice(l, 1, |l| - 1, h - 1, |x|);
    assert x[..h - 1] == x[0..h - 1] && x[h - 1..] == x[h - 1..|x|];
  }

  lemma EvenLength(l: seq<Segment>, r: seq<Segment>)
    requires HalvesMatch(l, r)
    ensures |l| % 2 == 0
  {
  }

  lemma HalvesEnds(l: seq<Segment>, r: seq<Segment>)
    requires HalvesMatch(l, r)
    ensures l[0] == r[0] && l[|l| - 1] == r[|r| - 1]
  {
    var h := |l| / 2;
    assert l[0] == l[..h][0] && r[0] == r[..h][0];
    assert l[|l| - 1] == l[h..][h - 1] && r[|r| - 1] == r[|r| - h..][h - 1];
  }

  lemma MetPair(l: seq<Segment>, r: seq<Segment>)
    requires |l| == 2 <= |r| && l[0] == r[0] && l[1] == r[|r| - 1]
    ensures HalvesMatch(l, r) && Met(MatchEnds(l, r), l, r)
  {
    assert l[..1] == [l[0]] == r[..1] && l[1..] == [l[1]] == r[|r| - 1..];
    assert [l[0]] + [] == [l[0]] && [l[1]] + [] == [l[1]];
    assert Init(r[1..]) == r[1..|r| - 1];
  }

  /** The loop uses up the shorter side exactly when its halves match the longer side's ends. */
  lemma {:induction false} MeetExactly(l: seq<Segment>, r: seq<Segment>)
    requires l != [] && |l| <= |r|
    ensures MatchEnds(l, r).lUsed <==> HalvesMatch(l, r)
    ensures MatchEnds(l, r).rUsed ==> MatchEnds(l, r).lUsed
    ensures HalvesMatch(l, r) ==> Met(MatchEnds(l, r), l, r)
    decreases |l|
  {
    hide HalvesMatch, Met;
    if HalvesMatch(l, r) { HalvesEnds(l, r); }
    if |l| == 1 {
      OddDoesNotMatch(l, r);
    } else if l[0] == r[0] {
      if l[|l| - 1] == r[|r| - 1] {
        if |l| == 2 {
          MetPair(l, r);
          assert MatchEnds(l, r).lUsed && MatchEnds(l, r).rUsed ==> true;
        } else {
          var x, y := l[1..|l| - 1], r[1..|r| - 1];
          assert Init(l[1..]) == x && Init(r[1..]) == y;
          MeetExactly(x, y);
          HalvesShrink(l, r);
          if HalvesMatch(l, r) { MetAround(l, r, MatchEnds(x, y)); }
        }
      } else {
        MeetExactly(l[1..], r[1..]);
        if HalvesMatch(l[1..], r[1..]) { HalvesEnds(l[1..], r[1..]); }
      }
    } else if l[|l| - 1] == r[|r| - 1] {
      MeetExactly(Init(l), Init(r));
      if HalvesMatch(Init(l), Init(r)) { HalvesEnds(Init(l), Init(r)); }
    }
  }

  lemma OddDoesNotMatch(l: seq<Segment>, r: seq<Segment>)
    requires |l| == 1
    ensures !HalvesMatch(l, r)
  {
  }

  function Flip(e: Ends): Ends { Ends(e.pre, e.r, e.l, e.post, e.rUsed, e.lUsed) }

  /** The loop treats both sides alike. */
  lemma {:induction false} MatchFlips(l: seq<Segment>, r: seq<Segment>)
    requires l != [] && r != []
    ensures MatchEnds(r, l) == Flip(MatchEnds(l, r))
    decreases |l|
  {
    if |l| > 1 && |r| > 1 {
      var x := if l[0] == r[0] then l[1..] else l;
      var y := if l[0] == r[0] then r[1..] else r;
      if Last(x) == Last(y) && |x| > 1 && |y| > 1 {
        MatchFlips(Init(x), Init(y));
      } else if Last(x) != Last(y) && l[0] == r[0] {
        MatchFlips(x, y);
      }
    }
  }

  /** Whether the last segment of short, already matched behind, matches again what the
      loop left of long. */
  predicate MatchesTwice(short: seq<Segment>, long: seq<Segment>) {
    && HalvesMatch(short, long) && |short| < |long|
    && var h := |short| / 2;
       var again := short[h];
       (if |long| == |short| + 1 then again == long[h] && again.kind == MARKER
        else again == long[h] || again == long[|long| - h - 1])
  }

  /** The inputs on which a segment is counted twice and nothing makes up for it. */
  predicate Doubled(left: string, right: string) {
    var l, r := SegmentsOf(left), SegmentsOf(right);
    || (MatchesTwice(l, r) && (|r| == |l| + 1 || !(left <= right)))
    || MatchesTwice(r, l)
  }

  lemma TwiceSettles(l: seq<Segment>, r: seq<Segment>, e: Ends)
    requires HalvesMatch(l, r) && |l| < |r| && Met(e, l, r)
    ensures Settle(e) != e <==> MatchesTwice(l, r)
    ensures Settle(Flip(e)) != Flip(e) <==> MatchesTwice(l, r)
  {
    var h := |l| / 2;
    assert e.l == [l[h]] && |e.r| == |r| - |l|;
    assert e.r[0] == r[h] && Last(e.r) == r[|r| - h - 1];
    if |e.r| > 1 {
      assert |Init(e.r)| < |e.r| && |e.r[1..]| < |e.r|;
    }
  }

  predicate NoneEmpty(s: seq<Segment>) { forall x | x in s :: x.value != "" }

  lemma {:induction false} SomeText(s: seq<Segment>)
    requires s != [] && NoneEmpty(s)
    ensures Joined(s) != ""
  {
    assert s == [s[0]] + s[1..] && s[0] in s;
  }

  /** The text split of a side that is used up has nothing to compare. */
  lemma UsedSplit(f: Ends)
    requires f.l != [] && f.r != [] && (f.lUsed || f.rUsed)
    requires (f.lUsed ==> |f.l| == 1) && (f.rUsed ==> |f.r| == 1)
    ensures SplitText(f) == Split(Joined(f.pre), Joined(f.post), if f.lUsed then "" else Joined(f.l),
                                  if f.rUsed then "" else Joined(f.r))
  {
    hide Joined, CommonPrefix, CommonSuffix;
    JoinedNone();
    var a, b := Joined(Rest(f.l, f.lUsed)), Joined(Rest(f.r, f.rUsed));
    assert f.lUsed ==> Rest(f.l, true) == [];
    assert f.rUsed ==> Rest(f.r, true) == [];
    assert a == "" || b == "";
    NothingToCut(Joined(f.pre), a, b, Joined(f.post));
  }

  lemma NothingToCut(pre: string, a: string, b: string, post: string)
    ensures pre + a[..0] == pre && a[|a|..] + post == post && a[0..|a|] == a && b[0..|b|] == b
  {
  }

  /** Matching a segment x again adds it to what is shared. */
  lemma SettleAdds(e: Ends) returns (x: Segment)
    requires e.l != [] && e.r != [] && Settle(e) != e
    ensures x in e.l && x in e.r
    ensures |Joined(Settle(e).pre)| + |Joined(Settle(e).post)| == |Joined(e.pre)| + |Joined(e.post)| + |x.value|
  {
    hide Joined;
    x := if |e.l| == 1 then e.l[0] else e.r[0];
    JoinedSnoc(e.pre, x);
    JoinedCons(x, e.post);
  }

  lemma PartIn(p: seq<Segment>, m: seq<Segment>, q: seq<Segment>)
    requires NoneEmpty(p + m + q)
    ensures NoneEmpty(p) && NoneEmpty(m) && NoneEmpty(q)
  {
    assert forall x | x in p || x in m || x in q :: x in p + m + q;
  }

  /** When one side is used up and Settle fires, the shared part is longer than that side. */
  lemma TwiceIsLonger(e: Ends, l: seq<Segment>, r: seq<Segment>)
    requires Covers(e, l, r) && Shape(e) && Settle(e) != e && e.lUsed != e.rUsed && NoneEmpty(l) && NoneEmpty(r)
    ensures var f := Settle(e);
      |Joined(f.pre)| + |Joined(f.post)| > |Joined(if e.lUsed then l else r)|
      && NoneEmpty(f.l) && NoneEmpty(f.r)
      && (e.lUsed ==> |Joined(r)| > |Joined(l)|) && (e.rUsed ==> |Joined(l)| > |Joined(r)|)
  {
    hide Joined;
    JoinedThree(e.pre, Rest(e.l, e.lUsed), e.post);
    JoinedThree(e.pre, Rest(e.r, e.rUsed), e.post);
    JoinedNone();
    PartIn(e.pre, Rest(e.l, e.lUsed), e.post);
    PartIn(e.pre, Rest(e.r, e.rUsed), e.post);
    if e.lUsed {
      assert Rest(e.l, true) == [] && e.l == [e.post[0]];
      SomeText(e.r);
    } else {
      assert Rest(e.r, true) == [] && e.r == [e.post[0]];
      SomeText(e.l);
    }
    var x := SettleAdds(e);
    assert NoneEmpty(e.l) && NoneEmpty(e.r);
  }

  lemma SettleShape(e: Ends)
    requires e.l != [] && e.r != [] && Shape(e) && Settle(e) != e && e.lUsed != e.rUsed
    ensures var f := Settle(e);
      && (f.lUsed ==> |f.l| == 1) && (f.rUsed ==> |f.r| == 1) && (f.lUsed || f.rUsed)
      && (e.lUsed ==> f.lUsed && f.rUsed == (|e.r| == 1))
      && (e.rUsed ==> f.rUsed && f.lUsed == (|e.l| == 1))
  {
  }

  /** The left side is used up and its last segment matches once more. */
  lemma LeftTwice(left: string, right: string, e: Ends, l: seq<Segment>, r: seq<Segment>)
    requires left == Joined(l) && right == Joined(r) && NoneEmpty(l) && NoneEmpty(r)
    requires Covers(e, l, r) && Shape(e) && e.lUsed && !e.rUsed && Settle(e) != e
    ensures Rebuilds(Tidy(left, right, SplitText(Settle(e))), left, right) <==> |e.r| > 1 && left <= right
  {
    hide Joined, SplitText, Settle;
    var f := Settle(e);
    SettleShape(e);
    TwiceIsLonger(e, l, r);
    UsedSplit(f);
    if |e.r| > 1 {
      SomeText(f.r);
      assert left <= right ==> left + "" + "" == left && left + right[|left|..] + "" == right;
    } else {
      assert left + "" + "" == left;
    }
  }

  lemma RightTwice(left: string, right: string, e: Ends, l: seq<Segment>, r: seq<Segment>)
    requires left == Joined(l) && right == Joined(r) && NoneEmpty(l) && NoneEmpty(r)
    requires Covers(e, l, r) && Shape(e) && !e.lUsed && e.rUsed && Settle(e) != e
    ensures !Rebuilds(Tidy(left, right, SplitText(Settle(e))), left, right)
  {
    hide Joined, SplitText, Settle;
    var f := Settle(e);
    SettleShape(e);
    TwiceIsLonger(e, l, r);
    UsedSplit(f);
    if |e.l| > 1 {
      SomeText(f.l);
    } else {
      assert left + "" + "" == left;
    }
  }

  /** Both sides used up: the inputs are equal. */
  lemma BothUsed(left: string, right: string, e: Ends, l: seq<Segment>, r: seq<Segment>)
    requires left == Joined(l) && right == Joined(r)
    requires Covers(e, l, r) && Shape(e) && e.lUsed && e.rUsed
    ensures Tidy(left, right, SplitText(Settle(e))) == Split(left, "", "", "") && left == right
  {
    hide Joined, SplitText;
    assert Rest(e.l, true) == [] && Rest(e.r, true) == [];
    UsedSplit(Settle(e));
  }

  /** The parts of a split put both inputs back together exactly when no segment is
      counted twice. */
  lemma RebuildsExactly(left: string, right: string)
    ensures Rebuilds(DiffSplitOf(left, right), left, right) <==> !Doubled(left, right)
  {
    hide MatchEnds, Settle, SplitText, Tidy, SegmentsOf, Joined, HalvesMatch, MatchesTwice, Covers, Shape, Rebuilds,
         Met;
    var l, r := SegmentsOf(left), SegmentsOf(right);
    SegmentsTile(left);
    SegmentsTile(right);
    if l == [] || r == [] {
      NoDiff(left, right);
      NothingDoubled(l, r);
      EmptySide(left, right);
    } else {
      var e := MatchEnds(l, r);
      DiffIs(left, right, Settle(e));
      MatchCovers(l, r);
      WhichUsed(l, r);
      if e.lUsed && e.rUsed {
        BothUsed(left, right, e, l, r);
        Same(left);
      } else if e.lUsed && Settle(e) != e {
        LeftTwice(left, right, e, l, r);
      } else if e.rUsed && Settle(e) != e {
        RightTwice(left, right, e, l, r);
      } else {
        if !e.lUsed && !e.rUsed { SettleCovers(e, l, r); }
        SplitTextRebuilds(Settle(e), l, r);
        TidyRebuilds(left, right, SplitText(Settle(e)));
      }
    }
  }

  lemma Same(s: string)
    ensures Rebuilds(Split(s, "", "", ""), s, s)
  {
    assert s + "" + "" == s;
  }

  lemma EmptySide(left: string, right: string)
    ensures Rebuilds(Split("", "", "", right), "", right) && Rebuilds(Split("", "", left, ""), left, "")
  {
    assert "" + right + "" == right && "" + left + "" == left;
  }

  lemma NothingDoubled(l: seq<Segment>, r: seq<Segment>)
    requires l == [] || r == []
    ensures !MatchesTwice(l, r) && !MatchesTwice(r, l)
  {
  }

  /** Which side the loop uses up, and whether that side's last segment then matches again. */
  lemma WhichUsed(l: seq<Segment>, r: seq<Segment>)
    requires l != [] && r != []
    ensures var e := MatchEnds(l, r);
      && (e.lUsed && e.rUsed ==> |l| == |r|)
      && (e.lUsed && !e.rUsed ==> |l| < |r|)
      && (!e.lUsed && e.rUsed ==> |r| < |l|)
      && (MatchesTwice(l, r) <==> e.lUsed && !e.rUsed && Settle(e) != e)
      && (MatchesTwice(r, l) <==> !e.lUsed && e.rUsed && Settle(e) != e)
      && (e.lUsed && !e.rUsed && Settle(e) != e ==> (|r| == |l| + 1 <==> |e.r| == 1))
  {
    hide MatchEnds, Settle;
    var e := MatchEnds(l, r);
    if |l| <= |r| {
      MeetExactly(l, r);
      if HalvesMatch(l, r) && |l| < |r| { TwiceSettles(l, r, e); }
    } else {
      MatchFlips(r, l);
      MeetExactly(r, l);
      var m := MatchEnds(r, l);
      assert e == Flip(m);
      if HalvesMatch(r, l) { TwiceSettles(r, l, m); }
    }
  }

  // ---- what follows for callers ----

  predicate NoRepeats(s: seq<Segment>) { forall i, j | 0 <= i < j < |s| :: s[i] != s[j] }

  /** A segment of long that is counted twice occurs in it twice. */
  lemma TwiceRepeats(short: seq<Segment>, long: seq<Segment>)
    requires MatchesTwice(short, long)
    ensures !NoRepeats(long)
  {
    var h := |short| / 2;
    assert short[h] == short[h..][0] == long[|long| - h..][0] == long[|long| - h];
  }

  /** Renderings whose longer one repeats no segment are always rebuilt. */
  lemma DistinctRebuilds(left: string, right: string)
    requires NoRepeats(SegmentsOf(left)) && NoRepeats(SegmentsOf(right))
    ensures Rebuilds(DiffSplitOf(left, right), left, right)
  {
    hide SegmentsOf, DiffSplitOf, NoRepeats, MatchesTwice, Rebuilds;
    RebuildsExactly(left, right);
    if MatchesTwice(SegmentsOf(left), SegmentsOf(right)) { TwiceRepeats(SegmentsOf(left), SegmentsOf(right)); }
    if MatchesTwice(SegmentsOf(right), SegmentsOf(left)) { TwiceRepeats(SegmentsOf(right), SegmentsOf(left)); }
  }

  /** A rendering compared with itself is all prefix. */
  lemma SelfSplit(x: string)
    ensures DiffSplitOf(x, x) == Split(x, "", "", "")
  {
    hide MatchEnds, Settle, SplitText, SegmentsOf, Joined, Covers, Shape;
    var l := SegmentsOf(x);
    SegmentsTile(x);
    if l == [] {
      NoDiff(x, x);
    } else {
      var e := MatchEnds(l, l);
      DiffIs(x, x, Settle(e));
      MatchCovers(l, l);
      SelfMatches(l);
      if e.lUsed {
        BothUsed(x, x, e, l, l);
      } else {
        SelfRemainder(e);
      }
    }
  }

  lemma {:induction false} SelfMatches(l: seq<Segment>)
    requires l != []
    ensures var e := MatchEnds(l, l); e.l == e.r && |e.l| == 1 && e.lUsed == e.rUsed
    decreases |l|
  {
    if |l| > 2 { SelfMatches(Init(l[1..])); }
  }

  lemma SelfRemainder(e: Ends)
    requires |e.l| == 1 && e.l == e.r && !e.lUsed && !e.rUsed
    ensures SplitText(Settle(e)).left == "" && SplitText(Settle(e)).right == ""
  {
    hide Joined;
    if e.l[0].kind == MARKER {
      UsedSplit(Settle(e));
    } else {
      var a := Joined(e.l);
      CommonSuffixAt(a, a, |a|);
    }
  }

  lemma Untidied(left: string, right: string, d: Split)
    requires Tidy(left, right, d).left != "" && Tidy(left, right, d).right != ""
    ensures Tidy(left, right, d) == d
  {
  }

  lemma {:induction false} StuckDiffers(l: seq<Segment>, r: seq<Segment>)
    requires l != [] && r != []
    ensures var e := MatchEnds(l, r); |e.l| > 1 && |e.r| > 1 ==> e.l[0] != e.r[0] && Last(e.l) != Last(e.r)
    decreases |l|
  {
    if |l| > 1 && |r| > 1 {
      var x := if l[0] == r[0] then l[1..] else l;
      var y := if l[0] == r[0] then r[1..] else r;
      if Last(x) == Last(y) && |x| > 1 && |y| > 1 {
        StuckDiffers(Init(x), Init(y));
      } else if Last(x) != Last(y) && l[0] == r[0] {
        StuckDiffers(x, y);
      }
    }
  }

  /** Text left on both sides means no side was used up and no end matches. */
  lemma BothRemain(e: Ends)
    requires e.l != [] && e.r != [] && Shape(e)
    requires |e.l| > 1 && |e.r| > 1 ==> e.l[0] != e.r[0] && Last(e.l) != Last(e.r)
    requires SplitText(Settle(e)).left != "" && SplitText(Settle(e)).right != ""
    ensures Settle(e) == e && !e.lUsed && !e.rUsed && e.l[0] != e.r[0] && Last(e.l) != Last(e.r)
  {
    hide Joined;
    var f := Settle(e);
    if e.lUsed || e.rUsed || f != e {
      UsedSplit(f);
    } else if |e.l| == 1 && |e.r| == 1 && e.l[0] == e.r[0] {
      SelfRemainder(e);
    }
  }

  /** What is left when both sides differ, as segments. */
  lemma Remainders(left: string, right: string) returns (e: Ends)
    requires DiffSplitOf(left, right).left != "" && DiffSplitOf(left, right).right != ""
    ensures Covers(e, SegmentsOf(left), SegmentsOf(right)) && !e.lUsed && !e.rUsed
    ensures e.l[0] != e.r[0] && Last(e.l) != Last(e.r)
    ensures DiffSplitOf(left, right) == SplitText(e)
  {
    hide MatchEnds, Settle, SplitText, SegmentsOf, Joined, Shape;
    var l, r := SegmentsOf(left), SegmentsOf(right);
    if l == [] || r == [] {
      NoDiff(left, right);
    } else {
      e := MatchEnds(l, r);
      DiffIs(left, right, Settle(e));
      MatchCovers(l, r);
      StuckDiffers(l, r);
      Untidied(left, right, SplitText(Settle(e)));
      BothRemain(e);
    }
  }

  predicate EndsWith(s: string, t: string) { |t| <= |s| && s[|s| - |t|..] == t }

  lemma JoinedPrefix(s: seq<Segment>, i: nat)
    requires i <= |s|
    ensures Joined(s[..i]) <= Joined(s)
    ensures EndsWith(Joined(s), Joined(s[i..]))
  {
    hide Joined;
    assert s == s[..i] + s[i..];
    JoinedAppend(s[..i], s[i..]);
  }

  /** When text is left on both sides, the prefix holds every run of segments both inputs
      start with; and where text then meets text, what is left starts with different characters. */
  lemma PrefixIsFull(left: string, right: string, i: nat)
    requires DiffSplitOf(left, right).left != "" && DiffSplitOf(left, right).right != ""
    requires i <= |SegmentsOf(left)| && i <= |SegmentsOf(right)| && SegmentsOf(left)[..i] == SegmentsOf(right)[..i]
    ensures Joined(SegmentsOf(left)[..i]) <= DiffSplitOf(left, right).prefix
    ensures var d, l, r := DiffSplitOf(left, right), SegmentsOf(left), SegmentsOf(right);
      i < |l| && i < |r| && l[i] != r[i] && l[i].kind == TEXT && r[i].kind == TEXT ==> d.left[0] != d.right[0]
  {
    hide SegmentsOf, Joined, DiffSplitOf, SplitText;
    var e := Remainders(left, right);
    var l, r := SegmentsOf(left), SegmentsOf(right);
    var n := |e.pre|;
    assert l[n] == e.l[0] && r[n] == e.r[0];
    if i <= n {
      assert l[..i] == e.pre[..i];
      JoinedPrefix(e.pre, i);
      PrefixText(e);
      assert i < n ==> l[i] == e.pre[i] == r[i];
    }
  }

  lemma PrefixText(e: Ends)
    requires e.l != [] && e.r != []
    ensures Joined(e.pre) <= SplitText(e).prefix
    ensures var d := SplitText(e);
      e.l[0].kind == TEXT && e.r[0].kind == TEXT && d.left != "" && d.right != "" ==> d.left[0] != d.right[0]
  {
    hide Joined;
  }

  /** The same from behind; the characters compared are those the suffix stops at. */
  lemma SuffixIsFull(left: string, right: string, i: nat)
    requires DiffSplitOf(left, right).left != "" && DiffSplitOf(left, right).right != ""
    requires i <= |SegmentsOf(left)| && i <= |SegmentsOf(right)|
    requires SegmentsOf(left)[|SegmentsOf(left)| - i..] == SegmentsOf(right)[|SegmentsOf(right)| - i..]
    ensures EndsWith(DiffSplitOf(left, right).suffix, Joined(SegmentsOf(left)[|SegmentsOf(left)| - i..]))
    ensures var d, l, r := DiffSplitOf(left, right), SegmentsOf(left), SegmentsOf(right);
      i < |l| && i < |r| && l[|l| - 1 - i] != r[|r| - 1 - i]
      && l[|l| - 1 - i].kind == TEXT && r[|r| - 1 - i].kind == TEXT
      ==> d.left[|d.left| - 1] != d.right[|d.right| - 1]
  {
    hide SegmentsOf, Joined, DiffSplitOf, SplitText;
    var e := Remainders(left, right);
    hide EndsWith;
    SuffixOf(e, SegmentsOf(left), SegmentsOf(right), i);
  }

  lemma SuffixOf(e: Ends, l: seq<Segment>, r: seq<Segment>, i: nat)
    requires e.l != [] && e.r != [] && l == e.pre + e.l + e.post && r == e.pre + e.r + e.post && Last(e.l) != Last(e.r)
    requires i <= |l| && i <= |r| && l[|l| - i..] == r[|r| - i..]
    ensures EndsWith(SplitText(e).suffix, Joined(l[|l| - i..]))
    ensures var d := SplitText(e);
      i < |l| && i < |r| && l[|l| - 1 - i] != r[|r| - 1 - i]
      && l[|l| - 1 - i].kind == TEXT && r[|r| - 1 - i].kind == TEXT && d.left != "" && d.right != ""
      ==> d.left[|d.left| - 1] != d.right[|d.right| - 1]
  {
    hide Joined, SplitText, EndsWith, Last;
    var n := |e.post|;
    BehindIs(l, e.pre, e.l, e.post, i);
    BehindIs(r, e.pre, e.r, e.post, i);
    SuffixText(e);
    JoinedPrefix(e.post, n - i);
    EndsWithin(SplitText(e).suffix, Joined(e.post), Joined(e.post[n - i..]));
  }

  lemma EndsWithin(s: string, t: string, u: string)
    requires EndsWith(s, t) && EndsWith(t, u)
    ensures EndsWith(s, u)
  {
  }

  /** The segments at the end of a list that closes with post. */
  lemma BehindIs(l: seq<Segment>, pre: seq<Segment>, rest: seq<Segment>, post: seq<Segment>, i: nat)
    requires rest != [] && l == pre + rest + post && i <= |l|
    ensures l[|l| - 1 - |post|] == Last(rest)
    ensures i > |post| ==> l[|l| - i..][i - 1 - |post|] == Last(rest)
    ensures i <= |post| ==> l[|l| - i..] == post[|post| - i..]
    ensures i < |post| ==> l[|l| - 1 - i] == post[|post| - 1 - i]
  {
  }

  lemma SuffixText(e: Ends)
    requires e.l != [] && e.r != []
    ensures EndsWith(SplitText(e).suffix, Joined(e.post))
    ensures var d := SplitText(e);
      Last(e.l).kind == TEXT && Last(e.r).kind == TEXT && d.left != "" && d.right != ""
      ==> d.left[|d.left| - 1] != d.right[|d.right| - 1]
  {
    hide Joined, Rest, CutStrings, EndsWith;
    CutBehind(Joined(e.pre), Joined(Rest(e.l, e.lUsed)), Joined(Rest(e.r, e.rUsed)), Joined(e.post),
              e.l[0].kind == TEXT && e.r[0].kind == TEXT, Last(e.l).kind == TEXT && Last(e.r).kind == TEXT);
  }

  lemma CutBehind(pre: string, a: string, b: string, post: string, front: bool, back: bool)
    ensures var d := CutStrings(pre, a, b, post, front, back);
      EndsWith(d.suffix, post)
      && (back && d.left != "" && d.right != "" ==> d.left[|d.left| - 1] != d.right[|d.right| - 1])
  {
    hide CommonPrefix, CommonSuffix, EndsWith;
    var s := if back then CommonSuffix(a, b) else 0;
    var p := if front then CommonPrefix(a[..|a| - s], b[..|b| - s]) else 0;
    EndsWithTail(a[|a| - s..], post);
    if back {
      CommonSuffixShared(a, b);
      LastKept(a, b, p, s);
    }
  }

  lemma LastKept(a: string, b: string, p: nat, s: nat)
    requires p + s <= |a| && p + s <= |b|
    requires s < |a| && s < |b| ==> a[|a| - 1 - s] != b[|b| - 1 - s]
    ensures p + s < |a| && p + s < |b| ==> a[p..|a| - s][|a| - s - p - 1] != b[p..|b| - s][|b| - s - p - 1]
  {
  }

  lemma EndsWithTail(s: string, t: string)
    ensures EndsWith(s + t, t)
  {
  }

  // ---- a pair of inputs that is not rebuilt ----

  lemma MarkerFirst(name: string, rest: string)
    requires '>' !in name
    ensures SegmentsOf("<" + name + ">" + rest) == [Segment(MARKER, "<" + name + ">")] + SegmentsOf(rest)
  {
    var s, k := "<" + name + ">" + rest, |name| + 1;
    FirstCloserAt('<', s, k);
    assert s[..k + 1] == "<" + name + ">" && s[k + 1..] == rest;
  }

  lemma OneMarker(name: string)
    requires '>' !in name
    ensures SegmentsOf("<" + name + ">") == [Segment(MARKER, "<" + name + ">")]
  {
    MarkerFirst(name, "");
    assert "<" + name + ">" + "" == "<" + name + ">" && SegmentsOf("") == [];
  }

  /** A rendering that ends in one more copy of its last marker than the other. */
  lemma RepeatIsLost()
    ensures !Rebuilds(DiffSplitOf("<a><b>", "<a><b><b>"), "<a><b>", "<a><b><b>")
  {
    hide DiffSplitOf, SegmentsOf, Rebuilds;
    var a, b := Segment(MARKER, "<" + "a" + ">"), Segment(MARKER, "<" + "b" + ">");
    OneMarker("b");
    MarkerFirst("b", "<b>");
    MarkerFirst("a", "<b>");
    MarkerFirst("a", "<b><b>");
    assert "<" + "b" + ">" == "<b>";
    assert "<" + "b" + ">" + "<b>" == "<b><b>" && "<" + "a" + ">" + "<b>" == "<a><b>" &&
        "<" + "a" + ">" + "<b><b>" == "<a><b><b>";
    assert [a] + [b] == [a, b] && [b] + [b] == [b, b] && [a] + [b, b] == [a, b, b];
    assert SegmentsOf("<a><b>") == [a, b] && SegmentsOf("<a><b><b>") == [a, b, b];
    assert [a, b][..1] == [a] == [a, b, b][..1] && [a, b][1..] == [b] == [a, b, b][2..];
    assert MatchesTwice([a, b], [a, b, b]);
    RebuildsExactly("<a><b>", "<a><b><b>");
  }
}
