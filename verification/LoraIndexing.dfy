/** LoraTorchTensor.__getitem__: which index expressions mean on the factors
    what they mean on the product. */
module LoraIndexing {
  import opened Options
  import opened Tensors
  import opened Lora

  /** l[x] for a single integer or slice. */
  function GetOne(l: Lora, x: Index): (r: Option<Lora>)
    requires l.Constructed()
  {
    var b := IndexTensor(l.B, [x]);
    if l.Ndim() > 2 then
      var a := IndexTensor(l.A, [x]);
      if a.None? || b.None? then None else Make(a.value, b.value)
    else if x.Int? || b.None? then None
    else Make(l.A, b.value)
  }

  /** The indices used on A's leading axes: integers wrapped to A's size, slices dropped. */
  function IndicesA(ys: seq<Index>, a: seq<nat>): (xa: Option<seq<Index>>)
    requires |ys| == |a|
    ensures xa.Some? ==> |xa.value| == |a| && forall i | 0 <= i < |a| ::
      xa.value[i] == if ys[i].Int? then (if a[i] == 0 then xa.value[i] else Int(ys[i].i % a[i])) else COLON
    ensures xa.Some? ==> forall i | 0 <= i < |a| :: ys[i].Int? ==> a[i] != 0
  {
    if exists i | 0 <= i < |a| :: ys[i].Int? && a[i] == 0 then None
    else Some(seq(|a|, i requires 0 <= i < |a| =>
      if ys[i].Int? then (if a[i] == 0 then COLON else Int(ys[i].i % a[i])) else COLON))
  }

  /** l[xs] for a tuple of integers and slices, with any ellipsis already expanded. */
  function GetTuple(l: Lora, xs: seq<Index>): (r: Option<Lora>)
    requires l.Constructed()
  {
    var ys := PadIndices(xs, l.Ndim());
    var n := |ys|;
    if xs == [] || n != l.Ndim() then None else
    var xa := IndicesA(ys[..n - 2], l.LeadA());
    if xa.None? then None else
    var a := IndexTensor(l.A, xa.value + [COLON, ys[n - 1]]);
    var b := IndexTensor(l.B, ys[..n - 1]);
    if a.None? || b.None? then None else Make(a.value, b.value)
  }

  /** Every sliced leading axis has size 1 in A, or the slice takes all of A's axis. */
  predicate Covered(l: Lora, xs: seq<Index>)
    requires l.Constructed() && |xs| <= l.Ndim()
  {
    var ys := PadIndices(xs, l.Ndim());
    && ys[l.Ndim() - 1].Slice?
    && forall i | 0 <= i < l.Ndim() - 2 :: SliceCovers(ys[i], l.A.shape[i], l.B.shape[i])
  }

  predicate SliceCovers(x: Index, a: nat, b: nat) {
    x.Int? || a == 1 || (Normalise(x, b).Some? && Normalise(x, b).value.len == a)
  }

  lemma AllSpan(a: nat, b: nat, step: nat)
    requires a + step * (b - 1) < b && b >= 2 && step > 0
    ensures a == 0 && step == 1
  {
    assert step >= 2 ==> step * (b - 1) >= 2 * (b - 1);
    assert step * (b - 1) >= b - 1;
  }

  /** On one leading axis, the pair of selections GetTuple uses is compatible
      exactly when the slice covers A's axis. */
  lemma AxisCompatible(x: Index, a: nat, b: nat, sa: Sel, sb: Sel)
    requires a == b || a == 1
    requires Normalise(x, b) == Some(sb)
    requires if x.Int? then a != 0 && Normalise(Int(x.i % a), a) == Some(sa) else sa == Full(a)
    ensures SliceCovers(x, a, b) ==> Compatible(a, b, sa, sb)
    ensures sa.Pick? <==> sb.Pick?
    ensures SliceCovers(x, a, b) <==> (sa.Span? ==> sa.len == sb.len || sa.len == 1)
  {
    if x.Int? {
      hide Compatible;
      IntCompatible(x.i, a, b);
    } else if SliceCovers(x, a, b) {
      SpanCovers(a, b, sb);
    }
  }

  lemma IntCompatible(i: int, a: nat, b: nat)
    requires (a == b || a == 1) && a != 0 && Normalise(Int(i), b).Some? && Normalise(Int(i % a), a).Some?
    ensures Compatible(a, b, Normalise(Int(i % a), a).value, Normalise(Int(i), b).value)
  {
    if a == b { WrapMod(i, a); }
  }

  /** All of A's axis against a span of the same length, or of any length when A's axis is 1. */
  lemma SpanCovers(a: nat, b: nat, sb: Sel)
    requires (a == b || a == 1) && sb.Span? && sb.step > 0 && sb.Fits(b) && (a == 1 || sb.len == a)
    ensures Compatible(a, b, Full(a), sb)
  {
    if a >= 2 {
      assert sb.SrcOf(a - 1) < b;
      AllSpan(sb.lo, b, sb.step);
    }
  }

  lemma WrapMod(i: int, a: nat)
    requires 0 - a <= i < a
    ensures i % a == if i < 0 then i + a else i
  {
    if i < 0 {
      DivModUnique(0, a, i + a);
      assert i % a == (i + a) % a;
    }
  }

  /** How the tuple index reads one leading axis of A (size a) and of B (size b). */
  predicate AxisSels(x: Index, a: nat, b: nat, sa: Sel, sb: Sel) {
    && Normalise(x, b) == Some(sb)
    && if x.Int? then a != 0 && Normalise(Int(x.i % a), a) == Some(sa) else sa == Full(a)
  }

  lemma SelectionsA(a: Tensor, ys: seq<Index>) returns (sa: seq<Sel>, col: Sel)
    requires |ys| == |a.shape| >= 2
    requires IndicesA(ys[..|ys| - 2], a.shape[..|ys| - 2]).Some?
    requires IndexTensor(a, IndicesA(ys[..|ys| - 2], a.shape[..|ys| - 2]).value + [COLON, ys[|ys| - 1]]).Some?
    ensures var n := |ys|;
      && |sa| == n - 2
      && IndexTensor(a, IndicesA(ys[..n - 2], a.shape[..n - 2]).value + [COLON, ys[n - 1]])
         == Some(Select(a, sa + [Full(a.shape[n - 2]), col]))
      && Normalise(ys[n - 1], a.shape[n - 1]) == Some(col)
    ensures forall i | 0 <= i < |ys| - 2 ::
      if ys[i].Int? then a.shape[i] != 0 && Normalise(Int(ys[i].i % a.shape[i]), a.shape[i]) == Some(sa[i])
      else sa[i] == Full(a.shape[i])
  {
    hide Select;
    var n := |ys|;
    var xa := IndicesA(ys[..n - 2], a.shape[..n - 2]).value;
    var s := NormaliseAll(xa + [COLON, ys[n - 1]], a.shape).value;
    sa, col := s[..n - 2], s[n - 1];
    assert s == sa + [Full(a.shape[n - 2]), col];
    forall i | 0 <= i < n - 2
      ensures if ys[i].Int? then a.shape[i] != 0 && Normalise(Int(ys[i].i % a.shape[i]), a.shape[i]) == Some(sa[i])
              else sa[i] == Full(a.shape[i])
    {
      assert (xa + [COLON, ys[n - 1]])[i] == xa[i] && Normalise(xa[i], a.shape[i]) == Some(s[i]);
      assert ys[..n - 2][i] == ys[i] && a.shape[..n - 2][i] == a.shape[i];
    }
  }

  lemma SelectionsB(b: Tensor, ys: seq<Index>) returns (sb: seq<Sel>, row: Sel)
    requires |ys| == |b.shape| >= 2 && IndexTensor(b, ys[..|ys| - 1]).Some?
    ensures var n := |ys|;
      && |sb| == n - 2
      && IndexTensor(b, ys[..n - 1]) == Some(Select(b, sb + [row, Full(b.shape[n - 1])]))
      && Normalise(ys[n - 2], b.shape[n - 2]) == Some(row)
    ensures forall i | 0 <= i < |ys| - 2 :: Normalise(ys[i], b.shape[i]) == Some(sb[i])
  {
    var n := |ys|;
    var xb := PadIndices(ys[..n - 1], n);
    var s := NormaliseAll(xb, b.shape).value;
    sb, row := s[..n - 2], s[n - 2];
    assert xb[n - 1] == COLON && s == sb + [row, Full(b.shape[n - 1])];
    forall i | 0 <= i < n - 1 ensures Normalise(ys[i], b.shape[i]) == Some(s[i]) {
      assert xb[i] == ys[i];
    }
  }

  /** The selections that l[xs] makes on the two factors and on the product. */
  lemma GetTupleSelections(l: Lora, xs: seq<Index>) returns (sa: seq<Sel>, sb: seq<Sel>, row: Sel, col: Sel)
    requires l.Wf() && GetTuple(l, xs).Some?
    ensures |xs| <= l.Ndim() && |sa| == |sb| == l.Ndim() - 2
    ensures var ys, n := PadIndices(xs, l.Ndim()), l.Ndim();
      && GetTuple(l, xs).value == SelectFactors(l, sa, sb, row, col)
      && (forall i | 0 <= i < n - 2 :: AxisSels(ys[i], l.A.shape[i], l.B.shape[i], sa[i], sb[i]))
      && Normalise(ys[n - 2], l.B.shape[n - 2]) == Some(row)
      && Normalise(ys[n - 1], l.Cols()) == Some(col)
    ensures IndexTensor(Product(l), xs) == Some(Select(Product(l), sb + [row, col]))
  {
    hide Select, Prod, OutShape, Normalise;
    var ys, n := PadIndices(xs, l.Ndim()), l.Ndim();
    sa, col := SelectionsA(l.A, ys);
    sb, row := SelectionsB(l.B, ys);
    SelectionsW(l, xs, sb, row, col);
  }

  lemma SelectionsW(l: Lora, xs: seq<Index>, sb: seq<Sel>, row: Sel, col: Sel)
    requires l.Constructed() && |xs| <= l.Ndim() && |sb| == l.Ndim() - 2
    requires var ys, n := PadIndices(xs, l.Ndim()), l.Ndim();
      && (forall i | 0 <= i < n - 2 :: Normalise(ys[i], l.B.shape[i]) == Some(sb[i]))
      && Normalise(ys[n - 2], l.B.shape[n - 2]) == Some(row)
      && Normalise(ys[n - 1], l.Cols()) == Some(col)
    ensures IndexTensor(Product(l), xs) == Some(Select(Product(l), sb + [row, col]))
  {
    var ys, n, s := PadIndices(xs, l.Ndim()), l.Ndim(), sb + [row, col];
    forall i | 0 <= i < n ensures Normalise(ys[i], l.Shape()[i]) == Some(s[i]) {
      assert i < n - 1 ==> l.Shape()[i] == l.B.shape[i];
    }
    NormaliseAllIs(ys, l.Shape(), s);
  }

  predicate SpansCovered(sa: seq<Sel>, sb: seq<Sel>)
    requires |sa| == |sb| && forall i | 0 <= i < |sa| :: sa[i].Pick? <==> sb[i].Pick?
  {
    forall i | 0 <= i < |sa| :: sa[i].Span? ==> sa[i].len == sb[i].len || sa[i].len == 1
  }

  lemma {:induction false} SamePicks(sa: seq<Sel>, sb: seq<Sel>)
    requires |sa| == |sb| && forall i | 0 <= i < |sa| :: sa[i].Pick? <==> sb[i].Pick?
    ensures |OutShape(sa)| == |OutShape(sb)|
    ensures BroadcastableTo(OutShape(sa), OutShape(sb)) ==> SpansCovered(sa, sb)
  {
    if sa != [] {
      SamePicks(sa[1..], sb[1..]);
      if sa[0].Span? && BroadcastableTo(OutShape(sa), OutShape(sb)) {
        assert OutShape(sa)[1..] == OutShape(sa[1..]) && OutShape(sb)[1..] == OutShape(sb[1..]);
        assert OutShape(sa)[0] == sa[0].len && OutShape(sb)[0] == sb[0].len;
      }
      if BroadcastableTo(OutShape(sa), OutShape(sb)) {
        forall i | 0 <= i < |sa| && sa[i].Span? ensures sa[i].len == sb[i].len || sa[i].len == 1 {
          if i > 0 { assert sa[i] == sa[1..][i - 1] && sb[i] == sb[1..][i - 1]; }
        }
      }
    }
  }

  /** Indexing by a tuple means the same on the factors as on the product exactly
      when the last index is a slice and every sliced leading axis is covered. */
  lemma GetTupleCorrect(l: Lora, xs: seq<Index>)
    requires l.Wf() && GetTuple(l, xs).Some?
    ensures |xs| <= l.Ndim()
    ensures IndexTensor(Product(l), xs).Some?
    ensures Covered(l, xs) <==> Denotes(GetTuple(l, xs).value, IndexTensor(Product(l), xs).value)
  {
    var sa, sb, row, col := GetTupleSelections(l, xs);
    AxesCompatible(l, xs, sa, sb);
    var r := SelectFactors(l, sa, sb, row, col);
    assert r.Constructed();
    SelectMeaning(l, sa, sb, row, col);
    MeaningIff(l, xs, r, Select(Product(l), sb + [row, col]));
  }

  /** What is not covered denotes no tensor of the right rank at all. */
  lemma UncoveredDenotesNothing(l: Lora, xs: seq<Index>, w: Tensor)
    requires l.Wf() && GetTuple(l, xs).Some? && |xs| <= l.Ndim() && !Covered(l, xs)
    requires IndexTensor(Product(l), xs).Some? && |w.shape| == |IndexTensor(Product(l), xs).value.shape|
    ensures !Denotes(GetTuple(l, xs).value, w)
  {
    hide Select, Product, Prod, IndexTensor, GetTuple, PadIndices;
    var sa, sb, row, col := GetTupleSelections(l, xs);
    AxesCompatible(l, xs, sa, sb);
    if SelectFactors(l, sa, sb, row, col).Wf() && |SelectFactors(l, sa, sb, row, col).Shape()| == |w.shape| {
      SelectNeedsCover(l, sa, sb, row, col);
    }
  }

  predicate Denotes(r: Lora, w: Tensor) { r.Wf() && Product(r) == w }

  lemma MeaningIff(l: Lora, xs: seq<Index>, r: Lora, w: Tensor)
    requires l.Constructed() && |xs| <= l.Ndim() && GetTuple(l, xs) == Some(r) && IndexTensor(Product(l), xs) == Some(w)
    requires Covered(l, xs) <==> Denotes(r, w)
    ensures IndexTensor(Product(l), xs).Some?
    ensures Covered(l, xs) <==> Denotes(GetTuple(l, xs).value, IndexTensor(Product(l), xs).value)
  {
  }

  /** A selection of well-formed factors denotes the selection of the product
      exactly when its spans cover A's axes. */
  lemma SelectMeaning(l: Lora, sa: seq<Sel>, sb: seq<Sel>, row: Sel, col: Sel)
    requires l.Wf() && |sa| == |sb| == l.Ndim() - 2 && forall i | 0 <= i < |sa| :: sa[i].Pick? <==> sb[i].Pick?
    requires SpansCovered(sa, sb) ==> CompatibleAll(l.LeadA(), l.LeadB(), sa, sb)
    requires row.Fits(l.B.shape[l.Ndim() - 2]) && col.Fits(l.Cols())
    requires SelectFactors(l, sa, sb, row, col).Constructed()
    ensures col.Span? && SpansCovered(sa, sb) <==>
      Denotes(SelectFactors(l, sa, sb, row, col), Select(Product(l), sb + [row, col]))
  {
    if col.Span? && SpansCovered(sa, sb) {
      assert row.Span? by {
        SamePicks(sa, sb);
        SelectShapes(l, sa, sb, row, col);
      }
      SelectCommutes(l, sa, sb, row, col);
    } else if Denotes(SelectFactors(l, sa, sb, row, col), Select(Product(l), sb + [row, col])) {
      SelectNeedsCover(l, sa, sb, row, col);
      assert false;
    }
  }

  lemma SelectNeedsCover(l: Lora, sa: seq<Sel>, sb: seq<Sel>, row: Sel, col: Sel)
    requires l.Constructed() && |sa| == |sb| && forall i | 0 <= i < |sa| :: sa[i].Pick? <==> sb[i].Pick?
    requires SelectFactors(l, sa, sb, row, col).Wf()
    requires |SelectFactors(l, sa, sb, row, col).Shape()| == |OutShape(sb + [row, col])|
    ensures col.Span? && SpansCovered(sa, sb)
  {
    SamePicks(sa, sb);
    SelectShapes(l, sa, sb, row, col);
  }

  lemma AxesCompatible(l: Lora, xs: seq<Index>, sa: seq<Sel>, sb: seq<Sel>)
    requires l.Wf() && |xs| <= l.Ndim() && |sa| == |sb| == l.Ndim() - 2
    requires var ys := PadIndices(xs, l.Ndim());
      forall i | 0 <= i < l.Ndim() - 2 :: AxisSels(ys[i], l.A.shape[i], l.B.shape[i], sa[i], sb[i])
    ensures forall i | 0 <= i < |sa| :: sa[i].Pick? <==> sb[i].Pick?
    ensures SpansCovered(sa, sb) ==> CompatibleAll(l.LeadA(), l.LeadB(), sa, sb)
    ensures Covered(l, xs) <==> PadIndices(xs, l.Ndim())[l.Ndim() - 1].Slice? && SpansCovered(sa, sb)
  {
    var ys := PadIndices(xs, l.Ndim());
    forall i | 0 <= i < |sa|
      ensures sa[i].Pick? <==> sb[i].Pick?
      ensures SliceCovers(ys[i], l.A.shape[i], l.B.shape[i]) ==> Compatible(l.LeadA()[i], l.LeadB()[i], sa[i], sb[i])
      ensures (sa[i].Span? ==> sa[i].len == sb[i].len || sa[i].len == 1) <==>
              SliceCovers(ys[i], l.A.shape[i], l.B.shape[i])
    {
      assert l.LeadA()[i] == l.A.shape[i] && l.LeadB()[i] == l.B.shape[i];
      assert AxisSels(ys[i], l.A.shape[i], l.B.shape[i], sa[i], sb[i]);
      AxisCompatible(ys[i], l.A.shape[i], l.B.shape[i], sa[i], sb[i]);
    }
  }

  /** What the ranks of the selected factors say about the last two indices. */
  lemma SelectShapes(l: Lora, sa: seq<Sel>, sb: seq<Sel>, row: Sel, col: Sel)
    requires l.Constructed() && |OutShape(sa)| == |OutShape(sb)|
    ensures var r := SelectFactors(l, sa, sb, row, col); r.Constructed() ==>
      && (row.Pick? <==> col.Pick?)
      && (col.Pick? ==> |r.Shape()| != |OutShape(sb + [row, col])|)
      && (col.Span? ==> r.LeadA() == OutShape(sa) && r.LeadB() == OutShape(sb))
  {
    hide Select, Prod;
    OutShapePair(sa, Full(l.Rank()), col);
    OutShapePair(sb, row, Full(l.Rank()));
    OutShapePair(sb, row, col);
    OutShapeOne(Full(l.Rank()));
    OutShapeOne(row);
    OutShapeOne(col);
  }

  // ---- a single integer or slice ----

  lemma {:induction false} SourceFull(shape: seq<nat>, o: seq<nat>)
    requires InBounds(shape, o)
    ensures OutShape(FullSels(shape)) == shape && Source(FullSels(shape), o) == o
  {
    if shape != [] {
      assert FullSels(shape)[1..] == FullSels(shape[1..]);
      SourceFull(shape[1..], o[1..]);
    }
  }

  lemma {:induction false} OutShapeFull(shape: seq<nat>)
    ensures OutShape(FullSels(shape)) == shape
  {
    if shape != [] {
      assert FullSels(shape)[1..] == FullSels(shape[1..]);
      OutShapeFull(shape[1..]);
    }
  }

  lemma SelectFull(t: Tensor)
    requires t.Valid()
    ensures Select(t, FullSels(t.shape)) == t
  {
    OutShapeFull(t.shape);
    forall o | InBounds(t.shape, o) ensures Select(t, FullSels(t.shape)).At(o) == t.At(o) {
      SourceFull(t.shape, o);
      SelectAt(t, FullSels(t.shape), o);
    }
    Extensional(Select(t, FullSels(t.shape)), t);
  }

  function OneSels(x: Index, shape: seq<nat>): (s: seq<Sel>)
    requires |shape| > 0 && Normalise(x, shape[0]).Some?
    ensures |s| == |shape|
  {
    [Normalise(x, shape[0]).value] + FullSels(shape[1..])
  }

  /** t[x] touches the first axis only. */
  lemma IndexFirst(t: Tensor, x: Index)
    requires |t.shape| >= 1
    ensures IndexTensor(t, [x]).Some? <==> Normalise(x, t.shape[0]).Some?
    ensures Normalise(x, t.shape[0]).Some? ==> IndexTensor(t, [x]) == Some(Select(t, OneSels(x, t.shape)))
  {
    hide Select, FitAll;
    var ys := PadIndices([x], |t.shape|);
    if Normalise(x, t.shape[0]).Some? {
      OneNormalised(x, t.shape, ys);
      NormaliseAllIs(ys, t.shape, OneSels(x, t.shape));
    }
  }

  lemma OneNormalised(x: Index, shape: seq<nat>, ys: seq<Index>)
    requires |shape| >= 1 && Normalise(x, shape[0]).Some?
    requires |ys| == |shape| && ys[0] == x && forall i | 0 < i < |ys| :: ys[i] == COLON
    ensures forall i | 0 <= i < |ys| :: Normalise(ys[i], shape[i]) == Some(OneSels(x, shape)[i])
  {
    forall i | 0 < i < |ys| ensures Normalise(ys[i], shape[i]) == Some(OneSels(x, shape)[i]) {
      assert OneSels(x, shape)[i] == Full(shape[1..][i - 1]);
    }
  }

  lemma OneSelsSplit(x: Index, shape: seq<nat>, m: nat)
    requires |shape| == m + 2 && m > 0 && Normalise(x, shape[0]).Some?
    ensures OneSels(x, shape) == OneSels(x, shape[..m]) + [Full(shape[m]), Full(shape[m + 1])]
  {
    var s, u := OneSels(x, shape), OneSels(x, shape[..m]);
    forall i | 0 < i < m ensures s[i] == u[i] {
      assert s[i] == Full(shape[1..][i - 1]) && u[i] == Full(shape[..m][1..][i - 1]);
    }
    assert s[m] == Full(shape[1..][m - 1]) && s[m + 1] == Full(shape[1..][m]);
  }

  /** Both factors see the same leading axis, or A's single position is selected,
      or nothing is. */
  predicate OneAligned(l: Lora, x: Index)
    requires l.Constructed()
  {
    var sa, sb := Normalise(x, 1), Normalise(x, l.B.shape[0]);
    (l.Ndim() > 2 && x.Slice? && l.A.shape[0] != l.B.shape[0] && sa.Some? && sb.Some?) ==>
      (sa.value.len == 1 || sb.value.len == 0)
  }

  /** l[x] for an integer or a slice means the same on the factors as on the
      product exactly when OneAligned holds. */
  lemma GetOneCorrect(l: Lora, x: Index)
    requires l.Wf() && GetOne(l, x).Some?
    ensures IndexTensor(Product(l), [x]).Some?
    ensures OneAligned(l, x) <==> Denotes(GetOne(l, x).value, IndexTensor(Product(l), [x]).value)
  {
    IndexFirst(l.B, x);
    if l.Ndim() == 2 {
      GetOneFlat(l, x);
    } else {
      IndexFirst(l.A, x);
      GetOneDeep(l, x);
    }
  }

  function Colons(n: nat): (xs: seq<Index>)
    ensures |xs| == n
  {
    seq(n, _ => COLON)
  }

  lemma IndexColons(t: Tensor)
    requires t.Valid()
    ensures IndexTensor(t, Colons(|t.shape|)) == Some(t)
  {
    NormaliseAllIs(Colons(|t.shape|), t.shape, FullSels(t.shape));
    SelectFull(t);
  }

  /** On a matrix, l[x] is l[(x,)]. */
  lemma GetOneFlat(l: Lora, x: Index)
    requires l.Wf() && l.Ndim() == 2 && GetOne(l, x).Some?
    ensures IndexTensor(Product(l), [x]).Some?
    ensures Denotes(GetOne(l, x).value, IndexTensor(Product(l), [x]).value)
  {
    GetOneIsTuple(l, x);
    GetTupleCorrect(l, [x]);
  }

  lemma GetOneIsTuple(l: Lora, x: Index)
    requires l.Constructed() && l.Ndim() == 2 && GetOne(l, x).Some?
    ensures GetTuple(l, [x]) == GetOne(l, x)
  {
    var ys := PadIndices([x], 2);
    assert ys[..|ys| - 1] == [x];
    MatrixColons(l, ys);
    TupleOfOne(l, x, ys, IndicesA(ys[..|ys| - 2], l.LeadA()).value);
  }

  lemma TupleOfOne(l: Lora, x: Index, ys: seq<Index>, xa: seq<Index>)
    requires l.Constructed() && l.Ndim() == 2 && ys == PadIndices([x], 2) && ys[..|ys| - 1] == [x]
    requires IndicesA(ys[..|ys| - 2], l.LeadA()) == Some(xa)
    requires IndexTensor(l.A, xa + [COLON, ys[|ys| - 1]]) == Some(l.A)
    requires IndexTensor(l.B, [x]).Some?
    ensures GetTuple(l, [x]) == Make(l.A, IndexTensor(l.B, [x]).value)
  {
  }

  lemma MatrixColons(l: Lora, ys: seq<Index>)
    requires l.Constructed() && l.Ndim() == |ys| == 2 && ys[1] == COLON
    ensures IndicesA(ys[..|ys| - 2], l.LeadA()).Some?
    ensures IndexTensor(l.A, IndicesA(ys[..|ys| - 2], l.LeadA()).value + [COLON, ys[|ys| - 1]]) == Some(l.A)
  {
    var xa := IndicesA(ys[..|ys| - 2], l.LeadA()).value;
    assert xa + [COLON, ys[|ys| - 1]] == Colons(2);
    IndexColons(l.A);
  }

  lemma GetOneDeep(l: Lora, x: Index)
    requires l.Wf() && l.Ndim() > 2 && GetOne(l, x).Some?
    requires Normalise(x, l.A.shape[0]).Some? && Normalise(x, l.B.shape[0]).Some?
    ensures IndexTensor(Product(l), [x]).Some?
    ensures OneAligned(l, x) <==> Denotes(GetOne(l, x).value, IndexTensor(Product(l), [x]).value)
  {
    var m := l.Ndim() - 2;
    var sa, sb, row, col := OneSels(x, l.LeadA()), OneSels(x, l.LeadB()), Full(l.B.shape[m]), Full(l.Cols());
    assert GetOne(l, x) == Some(SelectFactors(l, sa, sb, row, col)) by {
      IndexFirst(l.A, x);
      IndexFirst(l.B, x);
      OneSelsSplit(x, l.A.shape, m);
      OneSelsSplit(x, l.B.shape, m);
    }
    OneAxes(l, x);
    SelectMeaning(l, sa, sb, row, col);
    DeepIndex(l, x, m);
  }

  lemma DeepIndex(l: Lora, x: Index, m: nat)
    requires l.Constructed() && l.Ndim() == m + 2 && m > 0 && Normalise(x, l.B.shape[0]).Some?
    ensures IndexTensor(Product(l), [x])
         == Some(Select(Product(l), OneSels(x, l.LeadB()) + [Full(l.B.shape[m]), Full(l.Cols())]))
  {
    assert Product(l).shape[..m] == l.LeadB();
    IndexFirst(Product(l), x);
    OneSelsSplit(x, Product(l).shape, m);
  }

  lemma OneAxes(l: Lora, x: Index)
    requires l.Wf() && l.Ndim() > 2
    requires Normalise(x, l.A.shape[0]).Some? && Normalise(x, l.B.shape[0]).Some?
    ensures var sa, sb := OneSels(x, l.LeadA()), OneSels(x, l.LeadB());
      && (forall i | 0 <= i < |sa| :: sa[i].Pick? <==> sb[i].Pick?)
      && (SpansCovered(sa, sb) ==> CompatibleAll(l.LeadA(), l.LeadB(), sa, sb))
      && (SpansCovered(sa, sb) <==> OneAligned(l, x))
  {
    hide Normalise, OutShape, Prod;
    var sa, sb := OneSels(x, l.LeadA()), OneSels(x, l.LeadB());
    assert l.LeadA()[0] == l.A.shape[0] && l.LeadB()[0] == l.B.shape[0];
    FirstAxisCompatible(x, l.LeadA()[0], l.LeadB()[0]);
    forall i | 0 < i < |sa|
      ensures sa[i].Span? && sb[i].Span? && (sa[i].len == sb[i].len || sa[i].len == 1)
      ensures Compatible(l.LeadA()[i], l.LeadB()[i], sa[i], sb[i])
    {
      assert sa[i] == Full(l.LeadA()[1..][i - 1]) && sb[i] == Full(l.LeadB()[1..][i - 1]);
      FullAxes(l.LeadA()[i], l.LeadB()[i]);
    }
    assert SpansCovered(sa, sb) <==> (sa[0].Span? ==> sa[0].len == sb[0].len || sa[0].len == 1);
  }

  lemma FullAxes(a: nat, b: nat)
    requires a == b || a == 1
    ensures Compatible(a, b, Full(a), Full(b))
  {
  }

  lemma FirstAxisCompatible(x: Index, a: nat, b: nat)
    requires (a == b || a == 1) && Normalise(x, a).Some? && Normalise(x, b).Some?
    ensures var sa, sb := Normalise(x, a).value, Normalise(x, b).value;
      && ((sa.Pick? || sa.len == 1 || sa.len == sb.len) ==> Compatible(a, b, sa, sb))
      && (sa.Span? ==> (sa.len == 1 || sa.len == sb.len <==> a == b || sa.len == 1 || sb.len == 0))
  {
    var sa := Normalise(x, a).value;
    if x.Slice? && a == 1 && sa.len > 0 {
      assert sa.SrcOf(0) < 1;
      SpanInOne(sa);
    }
  }

  lemma SpanInOne(s: Sel)
    requires s.Span? && s.step > 0 && s.Fits(1)
    ensures s.len <= 1
  {
    var last := if s.len == 0 then 0 else s.SrcOf(s.len - 1);
    assert last < 1;
  }
}
