/** The low-rank tensor W = B A kept as its two factors, and the proof that
    every operation on the factors is the plain operation on the product. */
module Lora {
  import opened Options
  import opened Tensors

  datatype Lora = Lora(A: Tensor, B: Tensor) {
    function Ndim(): nat { |B.shape| }

    function Rank(): nat
      requires |B.shape| > 0
    {
      B.shape[|B.shape| - 1]
    }

    /** What the constructor asserts, together with well-formed factors. */
    predicate Constructed() {
      && A.Valid() && B.Valid()
      && |A.shape| == |B.shape| >= 2
      && A.shape[|A.shape| - 2] == B.shape[|B.shape| - 1]
    }

    /** Sizes of the axes before the last two. */
    function LeadA(): (s: seq<nat>)
      requires |A.shape| >= 2
    {
      A.shape[..|A.shape| - 2]
    }

    function LeadB(): (s: seq<nat>)
      requires |B.shape| >= 2
    {
      B.shape[..|B.shape| - 2]
    }

    /** The shape property: B's sizes but the last, then A's last. */
    function Shape(): (s: seq<nat>)
      requires Constructed()
    {
      B.shape[..|B.shape| - 1] + [A.shape[|A.shape| - 1]]
    }

    /** The shape torch.matmul(B, A) has, if it has one. */
    function MatmulShape(): (s: Option<seq<nat>>)
      requires Constructed()
    {
      var lead := BroadcastShape(LeadB(), LeadA());
      if lead.None? then None
      else Some(lead.value + [B.shape[|B.shape| - 2], A.shape[|A.shape| - 1]])
    }

    /** The factors really denote a tensor of the advertised shape. */
    predicate Wf() {
      Constructed() && BroadcastableTo(LeadA(), LeadB())
    }

    function Cols(): nat
      requires Constructed()
    {
      A.shape[|A.shape| - 1]
    }
  }

  /** The constructor. */
  function Make(A: Tensor, B: Tensor): (l: Option<Lora>)
    ensures l.Some? <==> Lora(A, B).Constructed()
    ensures l.Some? ==> l.value == Lora(A, B)
  {
    if Lora(A, B).Constructed() then Some(Lora(A, B)) else None
  }

  predicate SameShapes(l: Lora, m: Lora) { l.A.shape == m.A.shape && l.B.shape == m.B.shape }

  /** Wf is exactly: the product exists and has the shape that shape reports. */
  lemma WfIsMatmul(l: Lora)
    requires l.Constructed()
    ensures l.Wf() <==> l.MatmulShape() == Some(l.Shape())
  {
    var n := l.Ndim();
    assert l.Shape() == l.LeadB() + [l.B.shape[n - 2], l.Cols()];
    if l.MatmulShape() == Some(l.Shape()) {
      var z := BroadcastShape(l.LeadB(), l.LeadA()).value;
      assert z == l.MatmulShape().value[..n - 2] == l.LeadB();
    }
    if l.Wf() {
      assert BroadcastShape(l.LeadB(), l.LeadA()).value == l.LeadB();
    }
  }

  /** Sum over the first k rank positions of one row of B against one column of A. */
  function RankSum(b: Tensor, a: Tensor, row: seq<nat>, lead: seq<nat>, j: nat, k: nat): int {
    if k == 0 then 0
    else RankSum(b, a, row, lead, j, k - 1) + b.At(row + [k - 1]) * a.At(lead + [k - 1, j])
  }

  function Entry(l: Lora, idx: seq<nat>): int
    requires l.Constructed()
  {
    var n := |idx|;
    if n != l.Ndim() then 0
    else RankSum(l.B, l.A, idx[..n - 1], Bcast(l.LeadA(), idx[..n - 2]), idx[n - 1], l.Rank())
  }

  /** The dense tensor that the factors stand for. */
  function Product(l: Lora): (w: Tensor)
    requires l.Constructed()
    ensures w.Valid() && w.shape == l.Shape()
  {
    Build(l.Shape(), idx => Entry(l, idx))
  }

  lemma ProductEntry(l: Lora, idx: seq<nat>)
    requires l.Constructed() && InBounds(l.Shape(), idx)
    ensures Product(l).At(idx) == Entry(l, idx)
  {
    BuildAt(l.Shape(), idx => Entry(l, idx), idx);
  }

  /** At rank 0 there is nothing to add up. */
  lemma RankZero(l: Lora, idx: seq<nat>)
    requires l.Constructed() && l.Rank() == 0 && InBounds(l.Shape(), idx)
    ensures Product(l).At(idx) == 0
  {
    hide Product, Tensor.At;
    ProductEntry(l, idx);
  }

  /** Two rank sums whose terms agree up to a common scale. */
  lemma {:induction false} RankSumScaled(s: int,
      b: Tensor, a: Tensor, row: seq<nat>, lead: seq<nat>, j: nat,
      b': Tensor, a': Tensor, row': seq<nat>, lead': seq<nat>, j': nat, k: nat)
    requires forall t: nat | t < k :: b'.At(row' + [t]) == b.At(row + [t]) * s
    requires forall t: nat | t < k :: a'.At(lead' + [t, j']) == a.At(lead + [t, j])
    ensures RankSum(b', a', row', lead', j', k) == RankSum(b, a, row, lead, j, k) * s
  {
    hide Tensor.At;
    if k > 0 {
      RankSumScaled(s, b, a, row, lead, j, b', a', row', lead', j', k - 1);
      MulSwap(b.At(row + [k - 1]), s, a.At(lead + [k - 1, j]), RankSum(b, a, row, lead, j, k - 1));
    }
  }

  lemma MulSwap(x: int, s: int, y: int, sum: int)
    ensures sum * s + (x * s) * y == (sum + x * y) * s
  {
  }

  /** Splitting a multi-index of the product into lead, row and column. */
  lemma IndexParts(l: Lora, idx: seq<nat>)
    requires l.Constructed() && InBounds(l.Shape(), idx)
    ensures var n := l.Ndim();
      && |idx| == n && InBounds(l.LeadB(), idx[..n - 2])
      && idx[..n - 1] == idx[..n - 2] + [idx[n - 2]]
      && idx == idx[..n - 2] + [idx[n - 2], idx[n - 1]]
      && idx[n - 2] < l.B.shape[n - 2] && idx[n - 1] < l.Cols()
  {
    var n := l.Ndim();
    assert forall i | 0 <= i < n - 1 :: l.Shape()[i] == l.B.shape[i];
    assert l.Shape()[n - 1] == l.Cols();
  }

  // ---- selection ----

  /** On one leading axis: the index used for A's axis of size a agrees, after
      broadcasting, with the one used for B's axis of size b. */
  predicate Compatible(a: nat, b: nat, sa: Sel, sb: Sel) {
    && sa.Fits(a) && sb.Fits(b)
    && (a == b || a == 1)
    && if sb.Pick? then
         sa == Pick(if a == 1 then 0 else sb.i)
       else
         && sa.Span? && (sa.len == 1 || sa.len == sb.len)
         && forall o: nat | o < sb.len ::
              sa.SrcOf(if sa.len == 1 then 0 else o) == if a == 1 then 0 else sb.SrcOf(o)
  }

  predicate CompatibleAll(a: seq<nat>, b: seq<nat>, sa: seq<Sel>, sb: seq<Sel>) {
    |a| == |b| == |sa| == |sb| &&
    forall i | 0 <= i < |a| :: Compatible(a[i], b[i], sa[i], sb[i])
  }

  lemma {:induction false} SelectLead(a: seq<nat>, b: seq<nat>, sa: seq<Sel>, sb: seq<Sel>, o: seq<nat>)
    requires CompatibleAll(a, b, sa, sb) && InBounds(OutShape(sb), o)
    ensures BroadcastableTo(OutShape(sa), OutShape(sb))
    ensures Source(sa, Bcast(OutShape(sa), o)) == Bcast(a, Source(sb, o))
  {
    hide Prod;
    SelectLeadShape(a, b, sa, sb);
    if a != [] {
      var o' := if sb[0].Pick? then o else o[1..];
      assert Compatible(a[0], b[0], sa[0], sb[0]);
      SelectLead(a[1..], b[1..], sa[1..], sb[1..], o');
      LeadAxis(a[0], b[0], sa[0], sb[0], if sb[0].Pick? then 0 else o[0]);
      hide Compatible, CompatibleAll;
      var x, y := Source(sa[1..], Bcast(OutShape(sa[1..]), o')), Source(sb[1..], o');
      BcastCons(a, sb[0].SrcOf(if sb[0].Pick? then 0 else o[0]), y);
      if sb[0].Span? {
        BcastCons(OutShape(sa), o[0], o');
        assert o == [o[0]] + o' && OutShape(sa)[1..] == OutShape(sa[1..]);
      }
    }
  }

  /** The positions that one axis of A and of B read for output position i. */
  lemma LeadAxis(a: nat, b: nat, sa: Sel, sb: Sel, i: nat)
    requires Compatible(a, b, sa, sb) && (sb.Span? ==> i < sb.len)
    ensures sa.Pick? <==> sb.Pick?
    ensures sa.SrcOf(if sa.Span? && sa.len == 1 then 0 else i) == if a == 1 then 0 else sb.SrcOf(i)
  {
  }

  lemma BcastCons(shape: seq<nat>, i: nat, o: seq<nat>)
    requires |shape| == |o| + 1
    ensures Bcast(shape, [i] + o) == [if shape[0] == 1 then 0 else i] + Bcast(shape[1..], o)
  {
    assert ([i] + o)[1..] == o;
  }

  lemma {:induction false} SelectLeadShape(a: seq<nat>, b: seq<nat>, sa: seq<Sel>, sb: seq<Sel>)
    requires CompatibleAll(a, b, sa, sb)
    ensures BroadcastableTo(OutShape(sa), OutShape(sb))
  {
    if a != [] {
      assert Compatible(a[0], b[0], sa[0], sb[0]);
      SelectLeadShape(a[1..], b[1..], sa[1..], sb[1..]);
    }
  }

  /** The factors after selecting: A by sa on its leading axes and col on its last,
      B by sb on its leading axes and row on its rows. */
  function SelectFactors(l: Lora, sa: seq<Sel>, sb: seq<Sel>, row: Sel, col: Sel): (r: Lora)
    requires l.Constructed()
  {
    Lora(Select(l.A, sa + [Full(l.Rank()), col]), Select(l.B, sb + [row, Full(l.Rank())]))
  }

  lemma SpanShapes(l: Lora, sa: seq<Sel>, sb: seq<Sel>, row: Sel, col: Sel)
    requires l.Constructed() && row.Span? && col.Span?
    ensures var r := SelectFactors(l, sa, sb, row, col);
      && r.A.shape == OutShape(sa) + [l.Rank(), col.len]
      && r.B.shape == OutShape(sb) + [row.len, l.Rank()]
      && r.Constructed() && r.LeadA() == OutShape(sa) && r.LeadB() == OutShape(sb)
    ensures OutShape(sb + [row, col]) == OutShape(sb) + [row.len, col.len]
    // The ranks agree whenever the leading axes do.
    requires |OutShape(sa)| == |OutShape(sb)|
  {
    OutShapeSpans(sa, Full(l.Rank()), col);
    OutShapeSpans(sb, row, Full(l.Rank()));
    OutShapeSpans(sb, row, col);
  }

  /** Forming the product commutes with any compatible selection. */
  lemma SelectCommutes(l: Lora, sa: seq<Sel>, sb: seq<Sel>, row: Sel, col: Sel)
    requires l.Wf() && CompatibleAll(l.LeadA(), l.LeadB(), sa, sb)
    requires row.Span? && col.Span? && row.Fits(l.B.shape[l.Ndim() - 2]) && col.Fits(l.Cols())
    ensures SelectFactors(l, sa, sb, row, col).Wf()
    ensures Product(SelectFactors(l, sa, sb, row, col)) == Select(Product(l), sb + [row, col])
  {
    hide Select, Product, Tensor.At, Prod, Source, OutShape;
    var r, sels := SelectFactors(l, sa, sb, row, col), sb + [row, col];
    assert r.Wf() && r.Shape() == OutShape(sels) by {
      SelectLeadShape(l.LeadA(), l.LeadB(), sa, sb);
      SpanShapes(l, sa, sb, row, col);
    }
    var w, u := Product(r), Select(Product(l), sels);
    forall idx | InBounds(w.shape, idx) ensures w.At(idx) == u.At(idx) {
      SelectIndex(l, sa, sb, row, col, idx);
      SelectAt(Product(l), sels, idx);
    }
    Extensional(w, u);
  }

  lemma SelectIndex(l: Lora, sa: seq<Sel>, sb: seq<Sel>, row: Sel, col: Sel, idx: seq<nat>)
    requires l.Wf() && CompatibleAll(l.LeadA(), l.LeadB(), sa, sb)
    requires row.Span? && col.Span? && row.Fits(l.B.shape[l.Ndim() - 2]) && col.Fits(l.Cols())
    requires SelectFactors(l, sa, sb, row, col).Wf()
    requires InBounds(SelectFactors(l, sa, sb, row, col).Shape(), idx)
    ensures |idx| == |OutShape(sb + [row, col])|
    ensures Product(SelectFactors(l, sa, sb, row, col)).At(idx) == Product(l).At(Source(sb + [row, col], idx))
  {
    hide Product, Tensor.At, Prod, Select;
    var r, n := SelectFactors(l, sa, sb, row, col), |idx|;
    IndexParts(r, idx);
    SelectLeadShape(l.LeadA(), l.LeadB(), sa, sb);
    SpanShapes(l, sa, sb, row, col);
    SelectEntry(l, sa, sb, row, col, idx[..n - 2], idx[n - 2], idx[n - 1]);
  }

  lemma SelectEntry(l: Lora, sa: seq<Sel>, sb: seq<Sel>, row: Sel, col: Sel, o: seq<nat>, i: nat, j: nat)
    requires l.Wf() && CompatibleAll(l.LeadA(), l.LeadB(), sa, sb)
    requires row.Span? && col.Span? && row.Fits(l.B.shape[l.Ndim() - 2]) && col.Fits(l.Cols())
    requires InBounds(OutShape(sb), o) && i < row.len && j < col.len
    requires SelectFactors(l, sa, sb, row, col).Wf()
    ensures |o + [i, j]| == |OutShape(sb + [row, col])|
    ensures Product(SelectFactors(l, sa, sb, row, col)).At(o + [i, j]) ==
            Product(l).At(Source(sb + [row, col], o + [i, j]))
  {
    hide Select, Product, Tensor.At, Prod;
    var r, src := SelectFactors(l, sa, sb, row, col), Source(sb, o);
    var i', j' := row.SrcOf(i), col.SrcOf(j);
    SelectParts(l, sa, sb, row, col, o);
    SelectRankSum(l, sa, sb, row, col, o, i, Bcast(r.LeadA(), o), j);
    EntryParts(r, o, i, j);
    EntryParts(l, src, i', j');
    SourceSpans(sb, row, col, o, i, j);
  }

  lemma SelectRankSum(l: Lora, sa: seq<Sel>, sb: seq<Sel>, row: Sel, col: Sel, o: seq<nat>, i: nat, lead: seq<nat>,
                      j: nat)
    requires l.Constructed() && row.Span? && col.Span?
    requires InBounds(OutShape(sb), o) && InBounds(OutShape(sa), lead) && i < row.len && j < col.len
    ensures var r := SelectFactors(l, sa, sb, row, col);
      RankSum(r.B, r.A, o + [i], lead, j, l.Rank()) ==
      RankSum(l.B, l.A, Source(sb, o) + [row.SrcOf(i)], Source(sa, lead), col.SrcOf(j), l.Rank())
  {
    hide Select, Tensor.At, Prod, OutShape, Source;
    var r, src, lead', i', j' :=
        SelectFactors(l, sa, sb, row, col), Source(sb, o), Source(sa, lead), row.SrcOf(i), col.SrcOf(j);
    forall t: nat | t < l.Rank() ensures r.B.At(o + [i] + [t]) == l.B.At(src + [i'] + [t]) * 1 {
      SelectRowAt(l.B, sb, row, Full(l.Rank()), o, i, t);
    }
    forall t: nat | t < l.Rank() ensures r.A.At(lead + [t, j]) == l.A.At(lead' + [t, j']) {
      SelectPairAt(l.A, sa, Full(l.Rank()), col, lead, t, j);
    }
    RankSumScaled(1, l.B, l.A, src + [i'], lead', j', r.B, r.A, o + [i], lead, j, l.Rank());
  }

  lemma SelectParts(l: Lora, sa: seq<Sel>, sb: seq<Sel>, row: Sel, col: Sel, o: seq<nat>)
    requires l.Wf() && CompatibleAll(l.LeadA(), l.LeadB(), sa, sb)
    requires row.Span? && col.Span? && InBounds(OutShape(sb), o)
    requires SelectFactors(l, sa, sb, row, col).Wf()
    ensures InBounds(l.LeadB(), Source(sb, o))
    ensures var r := SelectFactors(l, sa, sb, row, col);
      && r.LeadA() == OutShape(sa) && r.LeadB() == OutShape(sb) && r.Rank() == l.Rank()
      && r.B.shape[r.Ndim() - 2] == row.len && r.Cols() == col.len
      && InBounds(OutShape(sa), Bcast(r.LeadA(), o))
      && Source(sa, Bcast(r.LeadA(), o)) == Bcast(l.LeadA(), Source(sb, o))
  {
    hide Select, Product, Prod;
    SourceInBounds(l.LeadB(), sb, o);
    SelectLeadShape(l.LeadA(), l.LeadB(), sa, sb);
    SpanShapes(l, sa, sb, row, col);
    SelectLead(l.LeadA(), l.LeadB(), sa, sb, o);
  }

  lemma SelectPairAt(t: Tensor, s: seq<Sel>, x: Sel, y: Sel, o: seq<nat>, i: nat, j: nat)
    requires x.Span? && y.Span? && InBounds(OutShape(s), o) && i < x.len && j < y.len
    ensures Select(t, s + [x, y]).At(o + [i, j]) == t.At(Source(s, o) + [x.SrcOf(i), y.SrcOf(j)])
  {
    var sels, idx := s + [x, y], o + [i, j];
    assert InBounds(OutShape(sels), idx) by {
      OutShapeSpans(s, x, y);
      InBoundsAppend(OutShape(s), [x.len, y.len], o, [i, j]);
    }
    assert Source(sels, idx) == Source(s, o) + [x.SrcOf(i), y.SrcOf(j)] by { SourceSpans(s, x, y, o, i, j); }
    SelectAt(t, sels, idx);
  }

  lemma SelectRowAt(t: Tensor, s: seq<Sel>, x: Sel, y: Sel, o: seq<nat>, i: nat, j: nat)
    requires x.Span? && y.Span? && y == Full(y.len) && InBounds(OutShape(s), o) && i < x.len && j < y.len
    ensures Select(t, s + [x, y]).At(o + [i] + [j]) == t.At(Source(s, o) + [x.SrcOf(i)] + [j])
  {
    assert o + [i] + [j] == o + [i, j] && Source(s, o) + [x.SrcOf(i)] + [j] == Source(s, o) + [x.SrcOf(i), j];
    SelectPairAt(t, s, x, y, o, i, j);
  }

  /** The product read at a lead, a row and a column. */
  lemma EntryParts(l: Lora, o: seq<nat>, i: nat, j: nat)
    requires l.Constructed() && InBounds(l.LeadB(), o) && i < l.B.shape[l.Ndim() - 2] && j < l.Cols()
    ensures Entry(l, o + [i, j]) == RankSum(l.B, l.A, o + [i], Bcast(l.LeadA(), o), j, l.Rank())
    ensures Product(l).At(o + [i, j]) == Entry(l, o + [i, j])
  {
    var idx := o + [i, j];
    var n := |idx|;
    assert idx[..n - 1] == o + [i] && idx[..n - 2] == o;
    assert l.Shape() == l.LeadB() + [l.B.shape[l.Ndim() - 2], l.Cols()];
    InBoundsAppend(l.LeadB(), [l.B.shape[l.Ndim() - 2], l.Cols()], o, [i, j]);
    ProductEntry(l, idx);
  }
}
