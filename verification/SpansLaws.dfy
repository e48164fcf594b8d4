/** What splitting promises: the spans tile the tokens and start exactly at the delimiters. */
module SpansLaws {
  import opened Options
  import opened Spans

  /** Whether a span with this role has to start at i: outside the skips that take effect,
      and role belongs to the first delimiter that matches there. */
  predicate StartsAt(delims: seq<Delimiter>, tokens: seq<int>, skips: seq<Skip>, role: Role, i: nat) {
    && i < |tokens| && !Skipped(skips[..Effective(skips)], i)
    && exists k | 0 <= k < |delims| ::
         && delims[k].role == role && Matches(delims[k], tokens, i)
         && forall j | 0 <= j < k :: !Matches(delims[j], tokens, i)
  }

  /** Where the k-th span has to end. */
  function EndOf(spans: seq<Span>, n: nat, k: nat): nat
    requires k < |spans|
  {
    if k + 1 < |spans| then spans[k + 1].pos else n
  }

  predicate NoGaps(spans: seq<Span>, n: nat) {
    forall k | 0 <= k < |spans| :: spans[k].len > 0 && spans[k].pos + spans[k].len == EndOf(spans, n, k)
  }

  /** Spans that are not empty, follow each other without gaps up to the end of the tokens,
      and start exactly where they have to. */
  ghost predicate IsSplit(delims: seq<Delimiter>, tokens: seq<int>, skips: seq<Skip>, spans: seq<Span>) {
    && NoGaps(spans, |tokens|)
    && (forall role, i: nat :: StartsAt(delims, tokens, skips, role, i) <==>
          exists k | 0 <= k < |spans| :: spans[k].role == role && spans[k].pos == i)
  }

  lemma {:induction false} FirstMatchExactly(delims: seq<Delimiter>, tokens: seq<int>, i: nat, role: Role)
    ensures FirstMatch(delims, tokens, i) == Some(role) <==>
            exists k | 0 <= k < |delims| ::
              && delims[k].role == role && Matches(delims[k], tokens, i)
              && forall j | 0 <= j < k :: !Matches(delims[j], tokens, i)
  {
    hide Matches;
    if delims != [] && !Matches(delims[0], tokens, i) {
      var rest := delims[1..];
      FirstMatchExactly(rest, tokens, i, role);
      if k :| 0 <= k < |rest| && rest[k].role == role && Matches(rest[k], tokens, i)
              && forall j | 0 <= j < k :: !Matches(rest[j], tokens, i) {
        assert delims[k + 1] == rest[k];
        assert forall j | 0 < j < k + 1 :: delims[j] == rest[j - 1];
      }
      if k :| 0 <= k < |delims| && delims[k].role == role && Matches(delims[k], tokens, i)
              && forall j | 0 <= j < k :: !Matches(delims[j], tokens, i) {
        assert delims[k] == rest[k - 1];
        assert forall j | 0 <= j < k - 1 :: rest[j] == delims[j + 1];
      }
    }
  }

  lemma StartsAtIs(delims: seq<Delimiter>, tokens: seq<int>, skips: seq<Skip>, role: Role, i: nat)
    ensures StartsAt(delims, tokens, skips, role, i) <==>
            i < |tokens| && !Skipped(skips[..Effective(skips)], i) && FirstMatch(delims, tokens, i) == Some(role)
  {
    hide Matches, Skipped, FirstMatch, Effective;
    FirstMatchExactly(delims, tokens, i, role);
  }

  /** Disjoint skips are all jumped over. */
  lemma DisjointStarts(delims: seq<Delimiter>, tokens: seq<int>, skips: seq<Skip>, role: Role, i: nat)
    requires Disjoint(skips)
    ensures StartsAt(delims, tokens, skips, role, i) <==>
            i < |tokens| && !Skipped(skips, i) && FirstMatch(delims, tokens, i) == Some(role)
  {
    hide Skipped, FirstMatch;
    DisjointAllEffective(skips);
    StartsAtIs(delims, tokens, skips, role, i);
  }

  /** Marks in order, one at exactly each position below n that calls for one. */
  ghost predicate MarksAll(delims: seq<Delimiter>, tokens: seq<int>, used: seq<Skip>, n: nat, marks: seq<Mark>) {
    && InOrder(marks, n)
    && forall m: Mark :: m in marks <==>
        m.pos < n && !Skipped(used, m.pos) && FirstMatch(delims, tokens, m.pos) == Some(m.role)
  }

  lemma {:induction false} MarksAreAll(delims: seq<Delimiter>, tokens: seq<int>, used: seq<Skip>, n: nat)
    ensures MarksAll(delims, tokens, used, n, Marks(delims, tokens, used, n))
  {
    hide FirstMatch, Skipped;
    MarksOrdered(delims, tokens, used, n);
    if n > 0 { MarksAreAll(delims, tokens, used, n - 1); }
  }

  /** Nothing else marks them all. */
  lemma {:induction false} MarksUnique(delims: seq<Delimiter>, tokens: seq<int>, used: seq<Skip>, n: nat,
                                       marks: seq<Mark>)
    requires MarksAll(delims, tokens, used, n, marks)
    ensures marks == Marks(delims, tokens, used, n)
  {
    hide FirstMatch, Skipped, InOrder;
    if n == 0 {
      MarksNeedRoom(marks, n);
    } else {
      var m := FirstMatch(delims, tokens, n - 1);
      if Skipped(used, n - 1) || m.None? {
        assert forall x | x in marks :: x.pos != n - 1;
        OrderBelow(marks, n);
        MarksUnique(delims, tokens, used, n - 1, marks);
      } else {
        var x := Mark(m.value, n - 1);
        assert x in marks;
        LastMark(marks, n, x);
        var init := marks[..|marks| - 1];
        WithoutLast(marks, n, x);
        MarksUnique(delims, tokens, used, n - 1, init);
      }
    }
  }

  lemma MarksNeedRoom(marks: seq<Mark>, n: nat)
    requires InOrder(marks, n)
    ensures marks != [] ==> n > 0
  {
    if marks != [] { assert marks[0].pos < n; }
  }

  lemma OrderBelow(marks: seq<Mark>, n: nat)
    requires n > 0 && InOrder(marks, n) && forall x | x in marks :: x.pos != n - 1
    ensures InOrder(marks, n - 1)
  {
    assert forall k | 0 <= k < |marks| :: marks[k] in marks;
  }

  lemma LastMark(marks: seq<Mark>, n: nat, x: Mark)
    requires InOrder(marks, n) && x in marks && x.pos == n - 1
    ensures marks[|marks| - 1] == x
  {
    var k :| 0 <= k < |marks| && marks[k] == x;
  }

  lemma WithoutLast(marks: seq<Mark>, n: nat, x: Mark)
    requires InOrder(marks, n) && marks != [] && marks[|marks| - 1] == x && x.pos == n - 1
    ensures InOrder(marks[..|marks| - 1], n - 1) && marks == marks[..|marks| - 1] + [x]
    ensures forall m :: m in marks[..|marks| - 1] <==> m in marks && m.pos < n - 1
  {
    var init := marks[..|marks| - 1];
    forall k | 0 <= k < |init| ensures init[k].pos < n - 1 {
      assert marks[k].pos < marks[|marks| - 1].pos;
    }
    assert marks == init + [x];
  }

  /** What split returns is the one list of spans that splits the tokens. */
  lemma SplitExactly(delims: seq<Delimiter>, tokens: seq<int>, skips: seq<Skip>, spans: seq<Span>)
    ensures IsSplit(delims, tokens, skips, spans) <==> spans == SplitOf(delims, tokens, skips)
  {
    hide StartsAt, FirstMatch, Skipped, Effective, Marks;
    var used, n := skips[..Effective(skips)], |tokens|;
    var marks := Marks(delims, tokens, used, n);
    MarksAreAll(delims, tokens, used, n);
    forall role, i: nat
      ensures StartsAt(delims, tokens, skips, role, i) <==> Mark(role, i) in marks
    {
      StartsAtIs(delims, tokens, skips, role, i);
    }
    if spans == SplitOf(delims, tokens, skips) {
      SpansFit(marks, n);
    }
    if IsSplit(delims, tokens, skips, spans) {
      var ms := MarksOf(spans);
      SpansInOrder(spans, n);
      forall m: Mark
        ensures m in ms <==> m in marks
      {
        InMarksOf(spans, m);
        assert StartsAt(delims, tokens, skips, m.role, m.pos) <==> Mark(m.role, m.pos) in marks;
      }
      MarksUnique(delims, tokens, used, n, ms);
    }
  }

  function MarksOf(spans: seq<Span>): (ms: seq<Mark>)
    ensures |ms| == |spans|
  {
    seq(|spans|, k requires 0 <= k < |spans| => Mark(spans[k].role, spans[k].pos))
  }

  lemma InMarksOf(spans: seq<Span>, m: Mark)
    ensures m in MarksOf(spans) <==> exists k | 0 <= k < |spans| :: spans[k].role == m.role && spans[k].pos == m.pos
  {
    if k :| 0 <= k < |spans| && spans[k].role == m.role && spans[k].pos == m.pos {
      assert MarksOf(spans)[k] == m;
    }
  }

  /** Spans without gaps are in order and are given by where they start. */
  lemma SpansInOrder(spans: seq<Span>, n: nat)
    requires NoGaps(spans, n)
    ensures InOrder(MarksOf(spans), n) && SpansOf(MarksOf(spans), n) == spans
  {
    var ms := MarksOf(spans);
    forall j, k | 0 <= j < k < |spans| ensures ms[j].pos < ms[k].pos { Ascending(spans, n, j, k); }
    forall k | 0 <= k < |spans| ensures ms[k].pos < n {
      assert spans[|spans| - 1].pos + spans[|spans| - 1].len == n;
      if k < |spans| - 1 { Ascending(spans, n, k, |spans| - 1); }
    }
  }

  lemma {:induction false} Ascending(spans: seq<Span>, n: nat, j: nat, k: nat)
    requires NoGaps(spans, n)
    requires j < k < |spans|
    ensures spans[j].pos < spans[k].pos
    decreases k - j
  {
    if j + 1 < k { Ascending(spans, n, j + 1, k); }
  }

  lemma SpansFit(marks: seq<Mark>, n: nat)
    requires InOrder(marks, n)
    ensures var spans := SpansOf(marks, n);
      && NoGaps(spans, n)
      && (forall role, i: nat :: Mark(role, i) in marks <==>
            exists k | 0 <= k < |spans| :: spans[k].role == role && spans[k].pos == i)
  {
    var spans := SpansOf(marks, n);
    assert forall k | 0 <= k < |marks| :: spans[k].role == marks[k].role && spans[k].pos == marks[k].pos;
    assert NoGaps(spans, n);
    forall role, i: nat
      ensures Mark(role, i) in marks <==> exists k | 0 <= k < |spans| :: spans[k].role == role && spans[k].pos == i
    {
      MarkAmong(marks, spans, role, i);
    }
  }

  lemma MarkAmong(marks: seq<Mark>, spans: seq<Span>, role: Role, i: nat)
    requires |spans| == |marks|
    requires forall k | 0 <= k < |marks| :: spans[k].role == marks[k].role && spans[k].pos == marks[k].pos
    ensures Mark(role, i) in marks <==> exists k | 0 <= k < |spans| :: spans[k].role == role && spans[k].pos == i
  {
    if Mark(role, i) in marks {
      var k :| 0 <= k < |marks| && marks[k] == Mark(role, i);
      assert spans[k].role == role && spans[k].pos == i;
    }
    if k :| 0 <= k < |spans| && spans[k].role == role && spans[k].pos == i {
      assert marks[k] == Mark(role, i);
    }
  }

  /** A user message is found to start at exactly the unskipped positions where a user
      delimiter is the first to match, and the last of them is the last user message. */
  lemma UserMessages(delims: seq<Delimiter>, tokens: seq<int>, skips: seq<Skip>, pos: int)
    requires |tokens| < 0x8000_0000
    ensures var spans := SplitOf(delims, tokens, skips);
      && ((exists k | 0 <= k < |spans| :: spans[k].role == User && pos == ToInt32(spans[k].pos)) <==>
           pos >= 0 && StartsAt(delims, tokens, skips, User, pos))
      && (pos >= 0 && StartsAt(delims, tokens, skips, User, pos) ==> LastUser(spans) >= pos)
      && (LastUser(spans) >= 0 ==> StartsAt(delims, tokens, skips, User, LastUser(spans)))
      && LastUser(spans) >= -1
  {
    hide StartsAt, SplitOf, ToInt32;
    var spans := SplitOf(delims, tokens, skips);
    SplitExactly(delims, tokens, skips, spans);
    SpansInOrder(spans, |tokens|);
    forall k | 0 <= k < |spans| ensures spans[k].pos < |tokens| && ToInt32(spans[k].pos) == spans[k].pos {
      assert MarksOf(spans)[k].pos < |tokens|;
      ToInt32Small(spans[k].pos);
    }
    forall j, k | 0 <= j < k < |spans| ensures spans[j].pos < spans[k].pos {
      assert MarksOf(spans)[j].pos < MarksOf(spans)[k].pos;
    }
    LastUserIs(spans);
    if pos >= 0 {
      assert StartsAt(delims, tokens, skips, User, pos) <==>
        exists k | 0 <= k < |spans| :: spans[k].role == User && spans[k].pos == pos;
    }
  }

  lemma ToInt32Small(n: nat)
    requires n < 0x8000_0000
    ensures ToInt32(n) == n
  {
  }

  lemma {:induction false} LastUserIs(spans: seq<Span>)
    requires forall k | 0 <= k < |spans| :: spans[k].pos < 0x8000_0000
    requires forall j, k | 0 <= j < k < |spans| :: spans[j].pos < spans[k].pos
    ensures LastUser(spans) != -1 ==>
            exists k | 0 <= k < |spans| :: spans[k].role == User && spans[k].pos == LastUser(spans)
    ensures forall k | 0 <= k < |spans| && spans[k].role == User :: spans[k].pos <= LastUser(spans)
    decreases |spans|
  {
    hide ToInt32;
    if spans != [] {
      var init, last := spans[..|spans| - 1], spans[|spans| - 1];
      ToInt32Small(last.pos);
      if last.role != User {
        LastUserIs(init);
        assert forall k | 0 <= k < |init| :: init[k] == spans[k];
      }
    }
  }

  // ---- the two small readings ----

  /** A delimiter stands at a position if its tokens follow each other from there on. */
  lemma MatchesExactly(d: Delimiter, tokens: seq<int>, i: nat)
    requires i < |tokens|
    ensures Matches(d, tokens, i) <==>
            forall k | 0 <= k < |d.tokens| :: i + k < |tokens| && tokens[i + k] == d.tokens[k]
  {
    if forall k | 0 <= k < |d.tokens| :: i + k < |tokens| && tokens[i + k] == d.tokens[k] {
      if d.tokens != [] {
        var last := d.tokens[|d.tokens| - 1];
        assert i + (|d.tokens| - 1) < |tokens|;
      }
    }
  }

  /** A position is compared as the one signed 32-bit number it is congruent to. */
  lemma ToInt32Exactly(n: nat, r: int)
    ensures ToInt32(n) == r <==> -0x8000_0000 <= r < 0x8000_0000 && (n - r) % 0x1_0000_0000 == 0
  {
  }
}
