/** Splitting a token list into message spans at delimiters, jumping over skip regions. */
module Spans {
  import opened Options

  datatype Role = Unknown | System | Assistant | User | Tool

  datatype Span = Span(role: Role, pos: nat, len: nat)

  datatype Delimiter = Delimiter(role: Role, tokens: seq<int>)

  /** A region to jump over, from start for len tokens. */
  datatype Skip = Skip(start: nat, len: nat)

  datatype Mark = Mark(role: Role, pos: nat)

  // ---- what a position means ----

  predicate Matches(d: Delimiter, tokens: seq<int>, i: nat) {
    i + |d.tokens| <= |tokens| && tokens[i..i + |d.tokens|] == d.tokens
  }

  /** The role of the first delimiter, in list order, that matches at i. */
  function FirstMatch(delims: seq<Delimiter>, tokens: seq<int>, i: nat): Option<Role> {
    if delims == [] then None
    else if Matches(delims[0], tokens, i) then Some(delims[0].role)
    else FirstMatch(delims[1..], tokens, i)
  }

  /** Skips come in the order of their starts, as the keys of a map do. */
  predicate Sorted(skips: seq<Skip>) { forall i, j | 0 <= i < j < |skips| :: skips[i].start < skips[j].start }

  predicate Disjoint(skips: seq<Skip>) {
    forall i | 0 <= i < |skips| - 1 :: skips[i].start + skips[i].len <= skips[i + 1].start
  }

  /** How many skips take effect: one that starts inside the one before it is never
      reached, and then neither is any later one. */
  function Effective(skips: seq<Skip>): (n: nat)
    ensures n <= |skips|
  {
    if |skips| <= 1 then |skips|
    else if skips[0].start + skips[0].len > skips[1].start then 1
    else 1 + Effective(skips[1..])
  }

  predicate Skipped(skips: seq<Skip>, i: nat) {
    exists k | 0 <= k < |skips| :: skips[k].start <= i < skips[k].start + skips[k].len
  }

  /** The positions before n, outside the skips, at which some delimiter matches. */
  function Marks(delims: seq<Delimiter>, tokens: seq<int>, skips: seq<Skip>, n: nat): seq<Mark> {
    if n == 0 then []
    else
      var before := Marks(delims, tokens, skips, n - 1);
      var m := FirstMatch(delims, tokens, n - 1);
      if Skipped(skips, n - 1) || m.None? then before else before + [Mark(m.value, n - 1)]
  }

  /** Marks stand in order before n. */
  predicate InOrder(marks: seq<Mark>, n: nat) {
    && (forall k | 0 <= k < |marks| :: marks[k].pos < n)
    && (forall j, k | 0 <= j < k < |marks| :: marks[j].pos < marks[k].pos)
  }

  /** The span the k-th mark starts: it reaches to the next mark, the last one to the end. */
  function SpanFrom(marks: seq<Mark>, n: nat, k: nat): Span
    requires InOrder(marks, n) && k < |marks|
  {
    Span(marks[k].role, marks[k].pos, (if k + 1 < |marks| then marks[k + 1].pos else n) - marks[k].pos)
  }

  function SpansOf(marks: seq<Mark>, n: nat): (spans: seq<Span>)
    requires InOrder(marks, n)
    ensures |spans| == |marks|
  {
    seq(|marks|, k requires 0 <= k < |marks| => SpanFrom(marks, n, k))
  }

  lemma {:induction false} MarksOrdered(delims: seq<Delimiter>, tokens: seq<int>, skips: seq<Skip>, n: nat)
    ensures InOrder(Marks(delims, tokens, skips, n), n)
  {
    hide FirstMatch, Skipped;
    if n > 0 { MarksOrdered(delims, tokens, skips, n - 1); }
  }

  function SplitOf(delims: seq<Delimiter>, tokens: seq<int>, skips: seq<Skip>): seq<Span> {
    MarksOrdered(delims, tokens, skips[..Effective(skips)], |tokens|);
    SpansOf(Marks(delims, tokens, skips[..Effective(skips)], |tokens|), |tokens|)
  }

  // ---- the skips that take effect ----

  /** They are disjoint, and the next one, if any, starts inside the last of them. */
  lemma {:induction false} EffectiveExactly(skips: seq<Skip>)
    ensures var n := Effective(skips);
      && Disjoint(skips[..n])
      && (n < |skips| ==> n > 0 && skips[n].start < skips[n - 1].start + skips[n - 1].len)
  {
    if |skips| > 1 && skips[0].start + skips[0].len <= skips[1].start {
      EffectiveExactly(skips[1..]);
      var n := Effective(skips[1..]);
      assert skips[..n + 1] == [skips[0]] + skips[1..][..n];
      assert n > 0;
    } else if |skips| > 0 {
      assert |skips[..1]| == 1;
    }
  }

  /** Disjoint skips all take effect. */
  lemma DisjointAllEffective(skips: seq<Skip>)
    requires Disjoint(skips)
    ensures Effective(skips) == |skips| && skips[..Effective(skips)] == skips
  {
    EffectiveExactly(skips);
  }

  lemma {:induction false} SkipEnds(skips: seq<Skip>, i: nat, j: nat)
    requires Disjoint(skips) && i < j < |skips|
    ensures skips[i].start + skips[i].len <= skips[j].start
    decreases j - i
  {
    if i + 1 < j { SkipEnds(skips, i + 1, j); }
  }

  // ---- the scan ----

  /** k skips have been passed and the next one, if it takes effect, lies ahead. */
  predicate Passed(skips: seq<Skip>, k: nat, i: nat) {
    && k <= Effective(skips)
    && (forall j | 0 <= j < k :: skips[j].start + skips[j].len <= i)
    && (k < Effective(skips) ==> i <= skips[k].start)
    && (k == Effective(skips) < |skips| ==> skips[k].start < i)
  }

  lemma NotSkipped(skips: seq<Skip>, k: nat, i: nat)
    requires Passed(skips, k, i) && !(k < |skips| && skips[k].start == i)
    ensures !Skipped(skips[..Effective(skips)], i)
    ensures Passed(skips, k, i + 1)
  {
    EffectiveExactly(skips);
    var n := Effective(skips);
    forall j | 0 <= j < n
      ensures !(skips[j].start <= i < skips[j].start + skips[j].len)
    {
      if k < j {
        SkipEnds(skips[..n], k, j);
      }
    }
  }

  lemma SkipPassed(skips: seq<Skip>, k: nat, i: nat)
    requires Passed(skips, k, i) && k < |skips| && skips[k].start == i
    ensures k < Effective(skips) && Passed(skips, k + 1, i + skips[k].len)
    ensures forall p | i <= p < i + skips[k].len :: Skipped(skips[..Effective(skips)], p)
  {
    EffectiveExactly(skips);
    var n := Effective(skips);
    forall j | 0 <= j < k + 1
      ensures skips[j].start + skips[j].len <= i + skips[k].len
    {
    }
    assert skips[..n][k] == skips[k];
    if k + 1 < n { assert skips[..n][k + 1] == skips[k + 1]; }
  }

  lemma {:induction false} MarksSkip(delims: seq<Delimiter>, tokens: seq<int>, skips: seq<Skip>, i: nat, n: nat)
    requires i <= n && forall p | i <= p < n :: Skipped(skips, p)
    ensures Marks(delims, tokens, skips, n) == Marks(delims, tokens, skips, i)
    decreases n
  {
    hide FirstMatch, Skipped;
    if i < n { MarksSkip(delims, tokens, skips, i, n - 1); }
  }

  lemma FirstMatchStep(delims: seq<Delimiter>, tokens: seq<int>, i: nat, j: nat)
    requires j < |delims|
    ensures FirstMatch(delims[j..], tokens, i) ==
            if Matches(delims[j], tokens, i) then Some(delims[j].role) else FirstMatch(delims[j + 1..], tokens, i)
  {
    hide Matches;
    assert delims[j..][1..] == delims[j + 1..];
  }

  /** The spans of a conversation, in order. */
  class MsgSpans {
    var spans: seq<Span>

    constructor ()
      ensures spans == []
    {
      spans := [];
    }

    method Add(role: Role, pos: nat, len: nat)
      modifies this
      ensures spans == old(spans) + [Span(role, pos, len)]
    {
      spans := spans + [Span(role, pos, len)];
    }

    method IsUserStart(pos: int) returns (found: bool)
      ensures found <==> exists k | 0 <= k < |spans| :: spans[k].role == User && pos == ToInt32(spans[k].pos)
    {
      var k := 0;
      while k < |spans|
        invariant 0 <= k <= |spans|
        invariant forall j | 0 <= j < k :: !(spans[j].role == User && pos == ToInt32(spans[j].pos))
      {
        if spans[k].role == User && pos == ToInt32(spans[k].pos) {
          return true;
        }
        k := k + 1;
      }
      return false;
    }

    method LastUserMessagePos() returns (pos: int)
      ensures pos == LastUser(spans)
    {
      var k := |spans|;
      assert spans[..k] == spans;
      while k > 0
        invariant 0 <= k <= |spans|
        invariant LastUser(spans) == LastUser(spans[..k])
      {
        if spans[k - 1].role == User {
          return ToInt32(spans[k - 1].pos);
        }
        assert spans[..k][..k - 1] == spans[..k - 1];
        k := k - 1;
      }
      return -1;
    }
  }

  /** A position as the signed 32-bit number it is compared as. */
  function ToInt32(n: nat): int {
    var m := n % 0x1_0000_0000;
    if m >= 0x8000_0000 then m - 0x1_0000_0000 else m
  }

  function LastUser(spans: seq<Span>): int
    decreases |spans|
  {
    if spans == [] then -1
    else if spans[|spans| - 1].role == User then ToInt32(spans[|spans| - 1].pos)
    else LastUser(spans[..|spans| - 1])
  }

  method Split(delims: seq<Delimiter>, tokens: seq<int>, skips: seq<Skip>) returns (result: MsgSpans)
    requires Sorted(skips)
    ensures fresh(result) && result.spans == SplitOf(delims, tokens, skips)
  {
    hide Passed, Skipped, Effective, FirstMatch, Sorted, SpansOf;
    var matches: seq<Mark> := [];
    var skip := 0;
    var i := 0;
    ghost var used := skips[..Effective(skips)];
    StartPassed(skips);
    while i < |tokens|
      invariant skip <= |skips| && Passed(skips, skip, i)
      invariant matches == Marks(delims, tokens, used, if i < |tokens| then i else |tokens|)
      decreases |tokens| - i, |skips| - skip
    {
      if skip < |skips| && i == skips[skip].start {
        SkipPassed(skips, skip, i);
        var to := i + skips[skip].len;
        MarksSkip(delims, tokens, used, i, if to < |tokens| then to else |tokens|);
        i := to;
        skip := skip + 1;
        continue;
      }
      NotSkipped(skips, skip, i);
      var j := 0;
      ghost var before := matches;
      assert delims[0..] == delims;
      while j < |delims|
        invariant 0 <= j <= |delims| && matches == before
        invariant FirstMatch(delims, tokens, i) == FirstMatch(delims[j..], tokens, i)
      {
        var d := delims[j];
        FirstMatchStep(delims, tokens, i, j);
        if i + |d.tokens| > |tokens| {
          j := j + 1;
          continue;
        }
        if tokens[i..i + |d.tokens|] == d.tokens {
          matches := matches + [Mark(d.role, i)];
          break;
        }
        j := j + 1;
      }
      if j == |delims| { NoDelimiter(delims, tokens, i); }
      i := i + 1;
    }
    ghost var marks := matches;
    MarksOrdered(delims, tokens, used, |tokens|);
    matches := matches + [Mark(Unknown, |tokens|)];

    result := new MsgSpans();
    var k := 0;
    while k + 1 < |matches|
      invariant 0 <= k <= |marks| && fresh(result)
      invariant result.spans == SpansOf(marks, |tokens|)[..k]
    {
      SpanAt(marks, |tokens|, k);
      result.Add(matches[k].role, matches[k].pos, matches[k + 1].pos - matches[k].pos);
      k := k + 1;
    }
    assert SpansOf(marks, |tokens|)[..k] == SpansOf(marks, |tokens|);
  }

  lemma StartPassed(skips: seq<Skip>)
    requires Sorted(skips)
    ensures Passed(skips, 0, 0)
  {
    EffectiveExactly(skips);
  }

  lemma NoDelimiter(delims: seq<Delimiter>, tokens: seq<int>, i: nat)
    ensures FirstMatch(delims[|delims|..], tokens, i) == None
  {
  }

  lemma SpanAt(marks: seq<Mark>, n: nat, k: nat)
    requires InOrder(marks, n) && k < |marks|
    ensures SpansOf(marks, n)[..k + 1] == SpansOf(marks, n)[..k] + [SpanFrom(marks, n, k)]
  {
    hide SpanFrom;
  }
}
