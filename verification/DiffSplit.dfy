/** Splitting two renderings into a shared prefix, a shared suffix and what differs. */
module DiffSplit {
  import opened Segments

  datatype Split = Split(prefix: string, suffix: string, left: string, right: string)

  // ---- lengths of common ends ----

  function CommonPrefix(a: string, b: string): (k: nat)
    ensures k <= |a| && k <= |b| && a[..k] == b[..k]
    ensures k < |a| && k < |b| ==> a[k] != b[k]
  {
    if a == "" || b == "" || a[0] != b[0] then 0 else 1 + CommonPrefix(a[1..], b[1..])
  }

  function CommonSuffix(a: string, b: string): (k: nat)
    ensures k <= |a| && k <= |b|
    decreases |a|
  {
    if a == "" || b == "" || a[|a| - 1] != b[|b| - 1] then 0
    else 1 + CommonSuffix(a[..|a| - 1], b[..|b| - 1])
  }

  lemma {:induction false} CommonSuffixShared(a: string, b: string)
    ensures var k := CommonSuffix(a, b);
      a[|a| - k..] == b[|b| - k..] && (k < |a| && k < |b| ==> a[|a| - 1 - k] != b[|b| - 1 - k])
    decreases |a|
  {
    if a != "" && b != "" && a[|a| - 1] == b[|b| - 1] {
      var x, y := a[..|a| - 1], b[..|b| - 1];
      CommonSuffixShared(x, y);
      var k := CommonSuffix(x, y);
      SuffixGrows(a, |a| - 1 - k);
      SuffixGrows(b, |b| - 1 - k);
    }
  }

  lemma SuffixGrows(a: string, i: nat)
    requires i < |a|
    ensures a[i..] == a[..|a| - 1][i..] + [a[|a| - 1]]
  {
  }

  lemma SameAt(a: string, b: string, k: nat, i: nat)
    requires i < k <= |a| && k <= |b| && a[..k] == b[..k]
    ensures a[i] == b[i]
  {
    assert a[i] == a[..k][i] && b[i] == b[..k][i];
  }

  lemma CommonPrefixAt(a: string, b: string, k: nat)
    requires k <= |a| && k <= |b| && a[..k] == b[..k]
    requires k < |a| && k < |b| ==> a[k] != b[k]
    ensures CommonPrefix(a, b) == k
  {
    var n := CommonPrefix(a, b);
    if n < k {
      SameAt(a, b, k, n);
    } else if k < n {
      SameAt(a, b, n, k);
    }
  }

  lemma CommonSuffixAt(a: string, b: string, k: nat)
    requires k <= |a| && k <= |b| && a[|a| - k..] == b[|b| - k..]
    requires k < |a| && k < |b| ==> a[|a| - 1 - k] != b[|b| - 1 - k]
    ensures CommonSuffix(a, b) == k
  {
    hide CommonSuffix;
    CommonSuffixShared(a, b);
  }

  method CommonPrefixLen(left: string, right: string) returns (prefixLen: nat)
    ensures prefixLen == CommonPrefix(left, right)
  {
    prefixLen := 0;
    var minLen := if |left| < |right| then |left| else |right|;
    while prefixLen < minLen && left[prefixLen] == right[prefixLen]
      invariant prefixLen <= minLen && left[..prefixLen] == right[..prefixLen]
    {
      prefixLen := prefixLen + 1;
    }
    CommonPrefixAt(left, right, prefixLen);
  }

  method CommonSuffixLen(left: string, right: string) returns (suffixLen: nat)
    ensures suffixLen == CommonSuffix(left, right)
  {
    suffixLen := 0;
    var minLen := if |left| < |right| then |left| else |right|;
    while suffixLen < minLen && left[|left| - 1 - suffixLen] == right[|right| - 1 - suffixLen]
      invariant suffixLen <= minLen && left[|left| - suffixLen..] == right[|right| - suffixLen..]
    {
      assert left[|left| - suffixLen - 1..] == [left[|left| - suffixLen - 1]] + left[|left| - suffixLen..];
      suffixLen := suffixLen + 1;
    }
    CommonSuffixAt(left, right, suffixLen);
  }

  // ---- matching segments from both ends ----

  /** Segments matched in front and behind, and what stands between them on either side.
      A used side has one segment left, and that one is already among those matched behind. */
  datatype Ends = Ends(pre: seq<Segment>, l: seq<Segment>, r: seq<Segment>, post: seq<Segment>, lUsed: bool,
                       rUsed: bool)

  function Last(s: seq<Segment>): Segment
    requires s != []
  {
    s[|s| - 1]
  }

  function Init(s: seq<Segment>): seq<Segment>
    requires s != []
  {
    s[..|s| - 1]
  }

  function Around(a: seq<Segment>, e: Ends, b: seq<Segment>): Ends {
    e.(pre := a + e.pre, post := e.post + b)
  }

  /** Segments are matched in turn in front and behind until neither end matches or one
      side has a single segment left. */
  function MatchEnds(l: seq<Segment>, r: seq<Segment>): (e: Ends)
    requires l != [] && r != []
    ensures e.l != [] && e.r != []
    decreases |l|, 1
  {
    if |l| == 1 || |r| == 1 then Ends([], l, r, [], false, false)
    else if l[0] == r[0] then Around([l[0]], MatchBack(l[1..], r[1..], true), [])
    else MatchBack(l, r, false)
  }

  /** The half of a round that looks behind; advanced says whether the front half matched. */
  function MatchBack(l: seq<Segment>, r: seq<Segment>, advanced: bool): (e: Ends)
    requires l != [] && r != [] && (!advanced ==> |l| > 1 && |r| > 1)
    ensures e.l != [] && e.r != []
    decreases |l|, if advanced then 2 else 0
  {
    if Last(l) == Last(r) then
      if |l| == 1 || |r| == 1 then
        Ends([], if |l| == 1 then l else Init(l), if |r| == 1 then r else Init(r), [Last(l)], |l| == 1, |r| == 1)
      else Around([], MatchEnds(Init(l), Init(r)), [Last(l)])
    else if advanced then MatchEnds(l, r)
    else Ends([], l, r, [], false, false)
  }

  /** One side down to its last segment: match that against the other side's ends. */
  function Settle(e: Ends): (f: Ends)
    requires e.l != [] && e.r != []
    ensures f.l != [] && f.r != []
  {
    if |e.l| == 1 && |e.r| > 1 then
      if e.l[0] == Last(e.r) then Ends(e.pre, e.l, Init(e.r), [Last(e.r)] + e.post, true, e.rUsed)
      else if e.l[0] == e.r[0] then Ends(e.pre + [e.r[0]], e.l, e.r[1..], e.post, true, e.rUsed)
      else e
    else if |e.r| == 1 && |e.l| > 1 then
      if Last(e.l) == e.r[0] then Ends(e.pre, Init(e.l), e.r, [Last(e.l)] + e.post, e.lUsed, true)
      else if e.l[0] == e.r[0] then Ends(e.pre + [e.l[0]], e.l[1..], e.r, e.post, e.lUsed, true)
      else e
    else if |e.l| == 1 && |e.r| == 1 && e.l[0] == e.r[0] && e.l[0].kind == MARKER then
      Ends(e.pre + [e.r[0]], e.l, e.r, e.post, true, true)
    else e
  }

  function Rest(s: seq<Segment>, used: bool): seq<Segment>
    requires s != []
  {
    if used then Init(s) else s
  }

  /** Character by character where text meets text. */
  function SplitText(e: Ends): Split
    requires e.l != [] && e.r != []
  {
    CutStrings(Joined(e.pre), Joined(Rest(e.l, e.lUsed)), Joined(Rest(e.r, e.rUsed)), Joined(e.post),
               e.l[0].kind == TEXT && e.r[0].kind == TEXT, Last(e.l).kind == TEXT && Last(e.r).kind == TEXT)
  }

  /** What a and b share in front and behind, where that is looked for; the suffix goes first. */
  function CutStrings(pre: string, a: string, b: string, post: string, front: bool, back: bool): Split {
    var s := if back then CommonSuffix(a, b) else 0;
    var p := if front then CommonPrefix(a[..|a| - s], b[..|b| - s]) else 0;
    Split(pre + a[..p], a[|a| - s..] + post, a[p..|a| - s], b[p..|b| - s])
  }

  function Tidy(left: string, right: string, d: Split): Split {
    var d1 := if d.left == "" && d.right == "" then d.(prefix := left, suffix := "") else d;
    if d1.left == "" && d1.right != "" && left <= right then Split(left, "", "", right[|left|..]) else d1
  }

  function DiffSplitOf(left: string, right: string): Split {
    var l := SegmentsOf(left);
    var r := SegmentsOf(right);
    if l == [] then Split("", "", "", right)
    else if r == [] then Split("", "", left, "")
    else Tidy(left, right, SplitText(Settle(MatchEnds(l, r))))
  }

  // ---- the loop ----

  lemma JoinedAppend(a: seq<Segment>, b: seq<Segment>)
    ensures Joined(a + b) == Joined(a) + Joined(b)
  {
    if a == [] {
      assert a + b == b;
    } else {
      assert (a + b)[1..] == a[1..] + b;
      JoinedAppend(a[1..], b);
    }
  }

  lemma JoinedOne(x: Segment)
    ensures Joined([x]) == x.value
  {
    assert [x][1..] == [] && Joined([]) == "";
  }

  lemma JoinedSnoc(a: seq<Segment>, x: Segment)
    ensures Joined(a + [x]) == Joined(a) + x.value
  {
    JoinedAppend(a, [x]);
    JoinedOne(x);
  }

  lemma JoinedCons(x: Segment, b: seq<Segment>)
    ensures Joined([x] + b) == x.value + Joined(b)
  {
    assert ([x] + b)[1..] == b;
  }

  lemma AroundTwice(a: seq<Segment>, b: seq<Segment>, e: Ends, c: seq<Segment>, d: seq<Segment>)
    ensures Around(a, Around(b, e, c), d) == Around(a + b, e, c + d)
  {
    assert a + (b + e.pre) == a + b + e.pre && e.post + c + d == e.post + (c + d);
  }

  lemma NoDiff(left: string, right: string)
    requires SegmentsOf(left) == [] || SegmentsOf(right) == []
    ensures DiffSplitOf(left, right) ==
            if SegmentsOf(left) == [] then Split("", "", "", right) else Split("", "", left, "")
  {
    hide Tidy, SplitText, Settle, MatchEnds, SegmentsOf;
  }

  lemma AroundNothing(e: Ends)
    ensures Around([], e, []) == e
  {
    assert [] + e.pre == e.pre && e.post + [] == e.post;
  }

  // ---- where the loop stands: what is left is between a and b, and between c and d ----

  /** At the start of a round. */
  predicate Ahead(l: seq<Segment>, r: seq<Segment>, a: nat, b: nat, c: nat, d: nat, pre: seq<Segment>,
                  post: seq<Segment>)
    requires a <= b < |l| && c <= d < |r|
  {
    MatchEnds(l, r) == Around(pre, MatchEnds(l[a..b + 1], r[c..d + 1]), post)
  }

  /** In the middle of a round. */
  predicate Halfway(l: seq<Segment>, r: seq<Segment>, a: nat, b: nat, c: nat, d: nat, pre: seq<Segment>,
                    post: seq<Segment>, advanced: bool)
    requires a <= b < |l| && c <= d < |r|
  {
    && (!advanced ==> a < b && c < d)
    && MatchEnds(l, r) == Around(pre, MatchBack(l[a..b + 1], r[c..d + 1], advanced), post)
  }

  /** When no round follows. */
  predicate Stopped(l: seq<Segment>, r: seq<Segment>, a: nat, b: nat, c: nat, d: nat, pre: seq<Segment>,
                    post: seq<Segment>, lUsed: bool, rUsed: bool)
    requires a <= b < |l| && c <= d < |r|
  {
    MatchEnds(l, r) == Ends(pre, l[a..b + 1], r[c..d + 1], post, lUsed, rUsed)
  }

  lemma MatchStart(l: seq<Segment>, r: seq<Segment>)
    requires l != [] && r != []
    ensures Ahead(l, r, 0, |l| - 1, 0, |r| - 1, [], [])
  {
    hide MatchEnds, Around;
    AroundNothing(MatchEnds(l, r));
    assert l[0..|l|] == l && r[0..|r|] == r;
  }

  lemma JoinedNone()
    ensures Joined([]) == ""
  {
  }

  /** What a round does in front. */
  lemma FrontStep(l: seq<Segment>, r: seq<Segment>, a: nat, b: nat, c: nat, d: nat, pre: seq<Segment>,
                  post: seq<Segment>)
    requires a < b < |l| && c < d < |r| && Ahead(l, r, a, b, c, d, pre, post)
    ensures if l[a] == r[c] then Halfway(l, r, a + 1, b, c + 1, d, pre + [l[a]], post, true)
            else Halfway(l, r, a, b, c, d, pre, post, false)
  {
    hide MatchBack;
    var x, y := l[a..b + 1], r[c..d + 1];
    assert x[1..] == l[a + 1..b + 1] && y[1..] == r[c + 1..d + 1];
    if l[a] == r[c] {
      AroundTwice(pre, [l[a]], MatchBack(x[1..], y[1..], true), [], post);
      assert [] + post == post;
    }
  }

  /** What a round does behind. */
  lemma BackStep(l: seq<Segment>, r: seq<Segment>, a: nat, b: nat, c: nat, d: nat, pre: seq<Segment>,
                 post: seq<Segment>, advanced: bool)
    requires a <= b < |l| && c <= d < |r| && Halfway(l, r, a, b, c, d, pre, post, advanced)
    ensures var post' := [l[b]] + post;
      if l[b] == r[d] then
        if a == b || c == d then
          Stopped(l, r, a, if a == b then b else b - 1, c, if c == d then d else d - 1, pre, post', a == b, c == d)
        else Ahead(l, r, a, b - 1, c, d - 1, pre, post')
      else if advanced then Ahead(l, r, a, b, c, d, pre, post)
      else Stopped(l, r, a, b, c, d, pre, post, false, false)
  {
    hide MatchEnds;
    var x, y := l[a..b + 1], r[c..d + 1];
    assert Init(x) == l[a..b] && Init(y) == r[c..d];
    assert pre + [] == pre && [] + post == post;
    if l[b] == r[d] && a < b && c < d {
      AroundTwice(pre, [], MatchEnds(l[a..b], r[c..d]), [l[b]], post);
    }
  }

  lemma StopStep(l: seq<Segment>, r: seq<Segment>, a: nat, b: nat, c: nat, d: nat, pre: seq<Segment>,
                 post: seq<Segment>)
    requires a <= b < |l| && c <= d < |r| && (a == b || c == d) && Ahead(l, r, a, b, c, d, pre, post)
    ensures Stopped(l, r, a, b, c, d, pre, post, false, false)
  {
    hide MatchBack;
    assert pre + [] == pre && [] + post == post;
    var x, y := l[a..b + 1], r[c..d + 1];
    assert MatchEnds(x, y) == Ends([], x, y, [], false, false);
  }

  lemma StoppedIs(left: string, right: string, a: nat, b: nat, c: nat, d: nat, pre: seq<Segment>, post: seq<Segment>,
                  lUsed: bool, rUsed: bool)
    requires var l, r := SegmentsOf(left), SegmentsOf(right);
      a <= b < |l| && c <= d < |r| && Stopped(l, r, a, b, c, d, pre, post, lUsed, rUsed)
    ensures var l, r := SegmentsOf(left), SegmentsOf(right);
      DiffSplitOf(left, right) ==
        Tidy(left, right, SplitText(Settle(Ends(pre, l[a..b + 1], r[c..d + 1], post, lUsed, rUsed))))
  {
    hide SegmentsOf, MatchEnds, Settle, SplitText, Tidy;
    DiffIs(left, right, Settle(MatchEnds(SegmentsOf(left), SegmentsOf(right))));
  }

  lemma SettleStep(l: seq<Segment>, r: seq<Segment>, a: nat, b: nat, c: nat, d: nat, pre: seq<Segment>,
                   post: seq<Segment>, lUsed: bool, rUsed: bool)
    requires a <= b < |l| && c <= d < |r|
    ensures Settle(Ends(pre, l[a..b + 1], r[c..d + 1], post, lUsed, rUsed)) ==
            if a == b && c < d then
              if l[a] == r[d] then Ends(pre, l[a..b + 1], r[c..d], [r[d]] + post, true, rUsed)
              else if l[a] == r[c] then Ends(pre + [r[c]], l[a..b + 1], r[c + 1..d + 1], post, true, rUsed)
              else Ends(pre, l[a..b + 1], r[c..d + 1], post, lUsed, rUsed)
            else if c == d && a < b then
              if l[b] == r[c] then Ends(pre, l[a..b], r[c..d + 1], [l[b]] + post, lUsed, true)
              else if l[a] == r[c] then Ends(pre + [l[a]], l[a + 1..b + 1], r[c..d + 1], post, lUsed, true)
              else Ends(pre, l[a..b + 1], r[c..d + 1], post, lUsed, rUsed)
            else if a == b && c == d && l[a] == r[c] && l[a].kind == MARKER then
              Ends(pre + [r[c]], l[a..b + 1], r[c..d + 1], post, true, true)
            else Ends(pre, l[a..b + 1], r[c..d + 1], post, lUsed, rUsed)
  {
    var x, y := l[a..b + 1], r[c..d + 1];
    assert x[1..] == l[a + 1..b + 1] && y[1..] == r[c + 1..d + 1] && Init(x) == l[a..b] && Init(y) == r[c..d];
  }

  lemma RestOf(l: seq<Segment>, a: nat, b: nat, used: bool)
    requires a <= b < |l|
    ensures Rest(l[a..b + 1], used) == l[a..if used then b else b + 1]
  {
    assert Init(l[a..b + 1]) == l[a..b];
  }

  lemma DiffIs(left: string, right: string, e: Ends)
    requires SegmentsOf(left) != [] && SegmentsOf(right) != []
    requires e == Settle(MatchEnds(SegmentsOf(left), SegmentsOf(right)))
    ensures DiffSplitOf(left, right) == Tidy(left, right, SplitText(e))
  {
    hide Tidy, SplitText, Settle, MatchEnds, SegmentsOf;
  }

  lemma SplitTextIs(e: Ends, a: string, b: string, s: nat, p: nat)
    requires e.l != [] && e.r != [] && a == Joined(Rest(e.l, e.lUsed)) && b == Joined(Rest(e.r, e.rUsed))
    requires s == (if e.l[|e.l| - 1].kind == TEXT && e.r[|e.r| - 1].kind == TEXT then CommonSuffix(a, b) else 0)
    requires s <= |a| && s <= |b|
    requires p == (if e.l[0].kind == TEXT && e.r[0].kind == TEXT then CommonPrefix(a[..|a| - s], b[..|b| - s]) else 0)
    requires p <= |a| - s && p <= |b| - s
    ensures SplitText(e) == Split(Joined(e.pre) + a[..p], a[|a| - s..] + Joined(e.post), a[p..|a| - s], b[p..|b| - s])
  {
    hide Joined, CommonPrefix, CommonSuffix, Rest;
  }

  lemma TidyIs(left: string, right: string, d: Split, d1: Split)
    requires d1 == if d.left == "" && d.right == "" then d.(prefix := left, suffix := "") else d
    ensures Tidy(left, right, d) ==
            if d1.left == "" && d1.right != "" && |left| <= |right| && right[..|left|] == left
            then Split(left, "", "", right[|left|..])
            else d1
  {
    assert left <= right <==> |left| <= |right| && right[..|left|] == left;
  }

  /** The values of segments from up to to, one after the other. */
  method EatSegments(segments: seq<Segment>, from: nat, to: nat) returns (text: string)
    requires from <= to <= |segments|
    ensures text == Joined(segments[from..to])
  {
    text := "";
    var i := from;
    while i < to
      invariant from <= i <= to
      invariant text == Joined(segments[from..i])
    {
      JoinedSnoc(segments[from..i], segments[i]);
      assert segments[from..i] + [segments[i]] == segments[from..i + 1];
      text := text + segments[i].value;
      i := i + 1;
    }
  }

  /** The last part of CalculateDiffSplit, from where no whole segment can be matched. */
  method SplitRemainders(left: string, right: string,
                         leftSeg: seq<Segment>, leftStart: nat, leftEnd: nat, leftFullyConsumed: bool,
                         rightSeg: seq<Segment>, rightStart: nat, rightEnd: nat, rightFullyConsumed: bool,
                         matched: Split, ghost e: Ends) returns (result: Split)
    requires leftStart <= leftEnd < |leftSeg| && rightStart <= rightEnd < |rightSeg|
    requires e.l == leftSeg[leftStart..leftEnd + 1] && e.lUsed == leftFullyConsumed
    requires e.r == rightSeg[rightStart..rightEnd + 1] && e.rUsed == rightFullyConsumed
    requires matched == Split(Joined(e.pre), Joined(e.post), "", "")
    ensures result == Tidy(left, right, SplitText(e))
  {
    hide *;
    result := matched;
    var canHaveTextSuffix := leftSeg[leftEnd].kind == TEXT && rightSeg[rightEnd].kind == TEXT;
    var canHaveTextPrefix := rightSeg[rightStart].kind == TEXT && leftSeg[leftStart].kind == TEXT;
    var remainderLeft := EatSegments(leftSeg, leftStart, if leftFullyConsumed then leftEnd else leftEnd + 1);
    var remainderRight := EatSegments(rightSeg, rightStart, if rightFullyConsumed then rightEnd else rightEnd + 1);
    RestOf(leftSeg, leftStart, leftEnd, leftFullyConsumed);
    RestOf(rightSeg, rightStart, rightEnd, rightFullyConsumed);

    var suffixLen := 0;
    if canHaveTextSuffix {
      suffixLen := CommonSuffixLen(remainderLeft, remainderRight);
    }
    var prefixLen := 0;
    if canHaveTextPrefix {
      prefixLen := CommonPrefixLen(remainderLeft[..|remainderLeft| - suffixLen],
                                   remainderRight[..|remainderRight| - suffixLen]);
    }
    SplitTextIs(e, remainderLeft, remainderRight, suffixLen, prefixLen);
    result := Split(result.prefix + remainderLeft[..prefixLen],
                    remainderLeft[|remainderLeft| - suffixLen..] + result.suffix,
                    remainderLeft[prefixLen..|remainderLeft| - suffixLen],
                    remainderRight[prefixLen..|remainderRight| - suffixLen]);
    ghost var d := result;
    if result.left == "" && result.right == "" {
      result := result.(prefix := left, suffix := "");
    }
    TidyIs(left, right, d, result);
    if result.left == "" && result.right != "" && |left| <= |right| && right[..|left|] == left {
      result := Split(left, "", result.left, right[|left|..]);
    }
  }

  /** The middle part of CalculateDiffSplit: one side may be down to its last segment. */
  method MatchLastSegment(left: string, right: string,
                          leftSeg: seq<Segment>, leftFrom: nat, leftTo: nat, leftUsed: bool,
                          rightSeg: seq<Segment>, rightFrom: nat, rightTo: nat, rightUsed: bool,
                          matched: Split, ghost front: seq<Segment>, ghost back: seq<Segment>) returns (result: Split)
    requires leftFrom <= leftTo < |leftSeg| && rightFrom <= rightTo < |rightSeg|
    requires matched == Split(Joined(front), Joined(back), "", "")
    ensures result == Tidy(left, right, SplitText(Settle(
              Ends(front, leftSeg[leftFrom..leftTo + 1], rightSeg[rightFrom..rightTo + 1], back, leftUsed, rightUsed))))
  {
    hide *;
    result := matched;
    var leftStart, leftEnd, leftFullyConsumed := leftFrom, leftTo, leftUsed;
    var rightStart, rightEnd, rightFullyConsumed := rightFrom, rightTo, rightUsed;
    ghost var pre, post := front, back;
    SettleStep(leftSeg, rightSeg, leftStart, leftEnd, rightStart, rightEnd, pre, post, leftFullyConsumed,
               rightFullyConsumed);

    if leftStart == leftEnd && rightStart != rightEnd {
      if leftSeg[leftStart] == rightSeg[rightEnd] {
        JoinedCons(rightSeg[rightEnd], post);
        post := [rightSeg[rightEnd]] + post;
        result := result.(suffix := rightSeg[rightEnd].value + result.suffix);
        rightEnd := rightEnd - 1;
        leftFullyConsumed := true;
      } else if leftSeg[leftStart] == rightSeg[rightStart] {
        JoinedSnoc(pre, rightSeg[rightStart]);
        pre := pre + [rightSeg[rightStart]];
        result := result.(prefix := result.prefix + rightSeg[rightStart].value);
        rightStart := rightStart + 1;
        leftFullyConsumed := true;
      }
    } else if rightStart == rightEnd && leftStart != leftEnd {
      if leftSeg[leftEnd] == rightSeg[rightStart] {
        JoinedCons(leftSeg[leftEnd], post);
        post := [leftSeg[leftEnd]] + post;
        result := result.(suffix := leftSeg[leftEnd].value + result.suffix);
        leftEnd := leftEnd - 1;
        rightFullyConsumed := true;
      } else if leftSeg[leftStart] == rightSeg[rightStart] {
        JoinedSnoc(pre, leftSeg[leftStart]);
        pre := pre + [leftSeg[leftStart]];
        result := result.(prefix := result.prefix + leftSeg[leftStart].value);
        leftStart := leftStart + 1;
        rightFullyConsumed := true;
      }
    } else if leftStart == leftEnd && rightStart == rightEnd && leftSeg[leftStart] == rightSeg[rightStart]
              && leftSeg[leftStart].kind == MARKER {
      JoinedSnoc(pre, rightSeg[rightStart]);
      pre := pre + [rightSeg[rightStart]];
      result := result.(prefix := result.prefix + rightSeg[rightStart].value);
      leftFullyConsumed := true;
      rightFullyConsumed := true;
    }
    ghost var e :=
      Ends(pre, leftSeg[leftStart..leftEnd + 1], rightSeg[rightStart..rightEnd + 1], post, leftFullyConsumed,
           rightFullyConsumed);
    result := SplitRemainders(left, right, leftSeg, leftStart, leftEnd, leftFullyConsumed,
                              rightSeg, rightStart, rightEnd, rightFullyConsumed, result, e);
  }

  method CalculateDiffSplit(left: string, right: string) returns (result: Split)
    ensures result == DiffSplitOf(left, right)
  {
    hide *;
    result := Split("", "", "", "");
    var leftSeg := SegmentizeMarkers(left);
    var rightSeg := SegmentizeMarkers(right);
    if leftSeg == [] {
      result := result.(right := right);
      NoDiff(left, right);
      return;
    }
    if rightSeg == [] {
      result := result.(left := left);
      NoDiff(left, right);
      return;
    }
    var leftStart, leftEnd, rightStart, rightEnd := 0, |leftSeg| - 1, 0, |rightSeg| - 1;
    var leftFullyConsumed, rightFullyConsumed := false, false;
    ghost var pre, post: seq<Segment> := [], [];
    MatchStart(leftSeg, rightSeg);
    JoinedNone();
    while leftStart != leftEnd && rightStart != rightEnd
      invariant 0 <= leftStart <= leftEnd < |leftSeg| && 0 <= rightStart <= rightEnd < |rightSeg|
      invariant result == Split(Joined(pre), Joined(post), "", "")
      invariant leftFullyConsumed || rightFullyConsumed ==>
        && (leftStart == leftEnd || rightStart == rightEnd)
        && Stopped(leftSeg, rightSeg, leftStart, leftEnd, rightStart, rightEnd, pre, post, leftFullyConsumed,
                   rightFullyConsumed)
      invariant !leftFullyConsumed && !rightFullyConsumed ==>
        Ahead(leftSeg, rightSeg, leftStart, leftEnd, rightStart, rightEnd, pre, post)
    {
      var advanced := false;
      FrontStep(leftSeg, rightSeg, leftStart, leftEnd, rightStart, rightEnd, pre, post);
      if leftSeg[leftStart] == rightSeg[rightStart] {
        JoinedSnoc(pre, leftSeg[leftStart]);
        pre := pre + [leftSeg[leftStart]];
        result := result.(prefix := result.prefix + leftSeg[leftStart].value);
        leftStart := leftStart + 1;
        rightStart := rightStart + 1;
        advanced := true;
      }
      BackStep(leftSeg, rightSeg, leftStart, leftEnd, rightStart, rightEnd, pre, post, advanced);
      if leftSeg[leftEnd] == rightSeg[rightEnd] {
        JoinedCons(leftSeg[leftEnd], post);
        post := [leftSeg[leftEnd]] + post;
        result := result.(suffix := leftSeg[leftEnd].value + result.suffix);
        if leftStart != leftEnd {
          leftEnd := leftEnd - 1;
        } else {
          leftFullyConsumed := true;
        }
        if rightStart != rightEnd {
          rightEnd := rightEnd - 1;
        } else {
          rightFullyConsumed := true;
        }
        advanced := true;
      }
      if !advanced {
        break;
      }
    }
    if !leftFullyConsumed && !rightFullyConsumed && (leftStart == leftEnd || rightStart == rightEnd) {
      StopStep(leftSeg, rightSeg, leftStart, leftEnd, rightStart, rightEnd, pre, post);
    }
    StoppedIs(left, right, leftStart, leftEnd, rightStart, rightEnd, pre, post, leftFullyConsumed, rightFullyConsumed);
    result := MatchLastSegment(left, right, leftSeg, leftStart, leftEnd, leftFullyConsumed,
                               rightSeg, rightStart, rightEnd, rightFullyConsumed, result, pre, post);
  }
}
