/** The longest common substring of two strings, by a table of common suffixes. */
module Lcs {
  /** Length of the longest common suffix of a[..i] and b[..j]. */
  function SuffixLen(a: string, b: string, i: nat, j: nat): (k: nat)
    requires i <= |a| && j <= |b|
    ensures k <= i && k <= j
  {
    if i == 0 || j == 0 || a[i - 1] != b[j - 1] then 0 else 1 + SuffixLen(a, b, i - 1, j - 1)
  }

  /** The k characters before i in a are the k characters before j in b. */
  predicate SharedAt(a: string, b: string, i: nat, j: nat, k: nat) {
    k <= i <= |a| && k <= j <= |b| && a[i - k..i] == b[j - k..j]
  }

  predicate OccursAt(t: string, s: string, p: nat) { p + |t| <= |s| && s[p..p + |t|] == t }

  ghost predicate OccursIn(t: string, s: string) { exists p :: OccursAt(t, s, p) }

  /** r stands in a before end, and nothing as long is shared that ends earlier in a. */
  predicate EndsFirst(a: string, b: string, r: string, end: nat) {
    && |r| <= end <= |a| && r == a[end - |r|..end]
    && forall i, j | 0 <= i < end && 0 <= j <= |b| :: !SharedAt(a, b, i, j, |r|)
  }

  lemma SnocEqual(u: string, c: char, v: string, d: char)
    ensures u + [c] == v + [d] <==> u == v && c == d
  {
    assert u + [c] == v + [d] ==>
        (u + [c])[..|u|] == u && (v + [d])[..|v|] == v && (u + [c])[|u|] == c && (v + [d])[|v|] == d;
  }

  lemma {:induction false} SuffixExactly(a: string, b: string, i: nat, j: nat, k: nat)
    requires i <= |a| && j <= |b|
    ensures SharedAt(a, b, i, j, k) <==> k <= SuffixLen(a, b, i, j)
    decreases i
  {
    if 0 < k <= i && k <= j {
      SuffixExactly(a, b, i - 1, j - 1, k - 1);
      assert a[i - k..i] == a[i - 1 - (k - 1)..i - 1] + [a[i - 1]];
      assert b[j - k..j] == b[j - 1 - (k - 1)..j - 1] + [b[j - 1]];
      SnocEqual(a[i - k..i - 1], a[i - 1], b[j - k..j - 1], b[j - 1]);
    }
  }

  /** A string that occurs in both is shared where its two occurrences end. */
  lemma OccurrencesShared(a: string, b: string, t: string) returns (i: nat, j: nat)
    requires OccursIn(t, a) && OccursIn(t, b)
    ensures SharedAt(a, b, i, j, |t|)
  {
    var p: nat :| OccursAt(t, a, p);
    var q: nat :| OccursAt(t, b, q);
    i, j := p + |t|, q + |t|;
  }

  /** A run shared at some place of the right text occurs in both texts. */
  lemma CutOccurs(a: string, b: string, len: nat, end: nat)
    requires end <= |a| && len <= end
    requires exists j | 0 <= j <= |b| :: SharedAt(a, b, end, j, len)
    ensures OccursIn(a[end - len..end], a) && OccursIn(a[end - len..end], b)
  {
    var r := a[end - len..end];
    assert OccursAt(r, a, end - len);
    var j :| 0 <= j <= |b| && SharedAt(a, b, end, j, len);
    assert OccursAt(r, b, j - len);
  }

  /** The best length over all pairs of positions is the best over all strings. */
  lemma BestIsLongest(a: string, b: string, len: nat, end: nat)
    requires end <= |a| && len <= end
    requires forall i, j | 0 <= i <= |a| && 0 <= j <= |b| :: SuffixLen(a, b, i, j) <= len
    requires exists j | 0 <= j <= |b| :: SharedAt(a, b, end, j, len)
    ensures OccursIn(a[end - len..end], a) && OccursIn(a[end - len..end], b)
    ensures forall t :: OccursIn(t, a) && OccursIn(t, b) ==> |t| <= len
  {
    hide SuffixLen, OccursIn;
    CutOccurs(a, b, len, end);
    forall t | OccursIn(t, a) && OccursIn(t, b)
      ensures |t| <= len
    {
      var i, k := OccurrencesShared(a, b, t);
      SuffixExactly(a, b, i, k, |t|);
    }
  }

  method StringLcs(a: string, b: string) returns (r: string)
    ensures OccursIn(r, a) && OccursIn(r, b)
    ensures forall t :: OccursIn(t, a) && OccursIn(t, b) ==> |t| <= |r|
    ensures r != "" ==> exists end :: EndsFirst(a, b, r, end)
  {
    hide SharedAt, OccursIn, SuffixLen, EndsFirst;
    if a == "" || b == "" {
      EmptyLongest(a, b);
      return "";
    }
    var dp := new nat[|a| + 1, |b| + 1]((i, j) => 0);
    var bestLen: nat, bestEndA: nat := 0, 0;
    var i: nat := 1;
    NothingShared(a, b);
    while i <= |a|
      invariant 1 <= i <= |a| + 1
      invariant forall x, y | 0 <= x < i && 0 <= y <= |b| :: dp[x, y] == SuffixLen(a, b, x, y)
      invariant forall x, y | i <= x <= |a| && 0 <= y <= |b| :: dp[x, y] == 0
      invariant bestLen <= bestEndA < i
      invariant exists y | 0 <= y <= |b| :: SharedAt(a, b, bestEndA, y, bestLen)
      invariant forall x, y | 0 <= x < i && 0 <= y <= |b| :: SuffixLen(a, b, x, y) <= bestLen
      invariant forall x, y | 0 <= x < bestEndA && 0 <= y <= |b| :: SuffixLen(a, b, x, y) < bestLen
    {
      var j: nat := 1;
      SuffixEdge(a, b, i);
      while j <= |b|
        invariant 1 <= j <= |b| + 1
        invariant forall x, y | 0 <= x < i && 0 <= y <= |b| :: dp[x, y] == SuffixLen(a, b, x, y)
        invariant forall y | 0 <= y < j :: dp[i, y] == SuffixLen(a, b, i, y)
        invariant forall y | j <= y <= |b| :: dp[i, y] == 0
        invariant forall x, y | i < x <= |a| && 0 <= y <= |b| :: dp[x, y] == 0
        invariant bestLen <= bestEndA <= i
        invariant exists y | 0 <= y <= |b| :: SharedAt(a, b, bestEndA, y, bestLen)
        invariant forall x, y | 0 <= x < i && 0 <= y <= |b| :: SuffixLen(a, b, x, y) <= bestLen
        invariant forall y | 0 <= y < j :: SuffixLen(a, b, i, y) <= bestLen
        invariant forall x, y | 0 <= x < bestEndA && 0 <= y <= |b| :: SuffixLen(a, b, x, y) < bestLen
      {
        SuffixStep(a, b, i, j);
        if a[i - 1] == b[j - 1] {
          dp[i, j] := dp[i - 1, j - 1] + 1;
          if dp[i, j] > bestLen {
            bestLen := dp[i, j];
            bestEndA := i;
            SuffixExactly(a, b, i, j, bestLen);
          }
        }
        j := j + 1;
      }
      i := i + 1;
    }
    BestIsLongest(a, b, bestLen, bestEndA);
    r := a[bestEndA - bestLen..bestEndA];
    forall x, y | 0 <= x < bestEndA && 0 <= y <= |b| ensures !SharedAt(a, b, x, y, |r|) {
      SuffixExactly(a, b, x, y, |r|);
    }
    FirstEnd(a, b, r, bestEndA);
  }

  lemma SuffixStep(a: string, b: string, i: nat, j: nat)
    requires 0 < i <= |a| && 0 < j <= |b|
    ensures SuffixLen(a, b, i, j) == if a[i - 1] == b[j - 1] then SuffixLen(a, b, i - 1, j - 1) + 1 else 0
  {
  }

  lemma SuffixEdge(a: string, b: string, i: nat)
    requires i <= |a|
    ensures SuffixLen(a, b, i, 0) == 0
  {
  }

  lemma FirstEnd(a: string, b: string, r: string, end: nat)
    requires |r| <= end <= |a| && r == a[end - |r|..end]
    requires forall i, j | 0 <= i < end && 0 <= j <= |b| :: !SharedAt(a, b, i, j, |r|)
    ensures EndsFirst(a, b, r, end)
  {
  }

  lemma NothingShared(a: string, b: string)
    ensures SharedAt(a, b, 0, 0, 0) && forall y | 0 <= y <= |b| :: SuffixLen(a, b, 0, y) == 0
  {
  }

  lemma EmptyLongest(a: string, b: string)
    requires a == "" || b == ""
    ensures OccursIn("", a) && OccursIn("", b)
    ensures forall t :: OccursIn(t, a) && OccursIn(t, b) ==> |t| <= 0
  {
    assert OccursAt("", a, 0) && OccursAt("", b, 0);
    forall t | OccursIn(t, a) && OccursIn(t, b)
      ensures |t| <= 0
    {
      var i, j := OccurrencesShared(a, b, t);
    }
  }
}
