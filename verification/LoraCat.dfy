/** LoraTorchTensor.split, and the torch.cat and torch.stack overloads. */
module LoraCat {
  import opened Options
  import opened Tensors
  import opened Lora
  import opened LoraIndexing

  // ---- split ----

  datatype SplitSpec = Every(size: int) | Parts(sizes: seq<int>)

  function Sum(s: seq<nat>): nat {
    if s == [] then 0 else s[0] + Sum(s[1..])
  }

  function Chunks(d: nat, size: nat): (s: seq<nat>)
    requires size > 0
    ensures Sum(s) == d && |s| > 0
  {
    if d <= size then [d] else [size] + Chunks(d - size, size)
  }

  function Nats(sizes: seq<int>): (s: seq<nat>)
    ensures |s| == |sizes| && forall i | 0 <= i < |sizes| && sizes[i] >= 0 :: s[i] == sizes[i]
  {
    seq(|sizes|, i requires 0 <= i < |sizes| => (if sizes[i] < 0 then 0 else sizes[i]) as nat)
  }

  /** The piece sizes torch.split uses on an axis of size d; None where it raises. */
  function PieceSizes(spec: SplitSpec, d: nat): (s: Option<seq<nat>>)
    ensures s.Some? ==> Sum(s.value) == d
  {
    match spec
    case Every(size) =>
      if size > 0 then Some(Chunks(d, size)) else if size == 0 && d == 0 then Some([0]) else None
    case Parts(sizes) =>
      if exists i | 0 <= i < |sizes| :: sizes[i] < 0 then None
      else
        var s := Nats(sizes);
        if Sum(s) == d then Some(s) else None
  }

  function NarrowSels(shape: seq<nat>, axis: nat, lo: nat, len: nat): (s: seq<Sel>)
    requires axis < |shape|
    ensures |s| == |shape|
  {
    FullSels(shape)[axis := Span(lo, 1, len)]
  }

  /** len positions of one axis from lo on, all of the others. */
  function Narrow(t: Tensor, axis: nat, lo: nat, len: nat): (u: Tensor)
    requires axis < |t.shape|
    ensures u.Valid()
  {
    Select(t, NarrowSels(t.shape, axis, lo, len))
  }

  function Pieces(t: Tensor, axis: nat, lo: nat, sizes: seq<nat>): (ps: seq<Tensor>)
    requires axis < |t.shape|
    ensures |ps| == |sizes|
    decreases |sizes|
  {
    if sizes == [] then []
    else [Narrow(t, axis, lo, sizes[0])] + Pieces(t, axis, lo + sizes[0], sizes[1..])
  }

  function SplitTensor(t: Tensor, spec: SplitSpec, axis: nat): Option<seq<Tensor>>
    requires axis < |t.shape|
  {
    var sizes := PieceSizes(spec, t.shape[axis]);
    if sizes.None? then None else Some(Pieces(t, axis, 0, sizes.value))
  }

  function Pairs(as_: seq<Tensor>, bs: seq<Tensor>): (ls: seq<Lora>)
    ensures |ls| == if |as_| < |bs| then |as_| else |bs|
  {
    if as_ == [] || bs == [] then [] else [Lora(as_[0], bs[0])] + Pairs(as_[1..], bs[1..])
  }

  function WithA(a: Tensor, bs: seq<Tensor>): (ls: seq<Lora>)
    ensures |ls| == |bs|
  {
    if bs == [] then [] else [Lora(a, bs[0])] + WithA(a, bs[1..])
  }

  function WithB(as_: seq<Tensor>, b: Tensor): (ls: seq<Lora>)
    ensures |ls| == |as_|
  {
    if as_ == [] then [] else [Lora(as_[0], b)] + WithB(as_[1..], b)
  }

  /** The constructor, for every pair of a list. */
  function MakeAll(ls: seq<Lora>): Option<seq<Lora>> {
    if AllConstructed(ls) then Some(ls) else None
  }

  /** An axis number as torch reads it: negative ones count from the end. */
  predicate IsAxis(dim: int, n: nat) { 0 - n <= dim < n }

  /** t.split(spec, dim). */
  function SplitAlong(t: Tensor, spec: SplitSpec, dim: int): Option<seq<Tensor>> {
    if IsAxis(dim, |t.shape|) then SplitTensor(t, spec, Wrap(dim, |t.shape|)) else None
  }

  /** The code adds the rank to a negative axis once; the factors then read an axis that
      is still negative in their own way. */
  function Split(l: Lora, spec: SplitSpec, dim: int): (ls: Option<seq<Lora>>)
    requires l.Constructed()
  {
    var n := l.Ndim();
    var d := Wrap(dim, n);
    if d == n - 1 then
      var as_ := SplitAlong(l.A, spec, -1);
      if as_.None? then None else MakeAll(WithB(as_.value, l.B))
    else if d == n - 2 then
      var bs := SplitAlong(l.B, spec, -2);
      if bs.None? then None else MakeAll(WithA(l.A, bs.value))
    else
      var bs := SplitAlong(l.B, spec, d);
      if bs.None? then None
      else if l.A.shape[Wrap(d, n)] == 1 then MakeAll(WithA(l.A, bs.value))
      else
        var as_ := SplitAlong(l.A, spec, d);
        if as_.None? then None else MakeAll(Pairs(as_.value, bs.value))
  }

  predicate AllConstructed(ls: seq<Lora>) { forall i | 0 <= i < |ls| :: ls[i].Constructed() }

  /** A narrowing as selections on the leading axes, the rows and the columns. */
  lemma NarrowLast(t: Tensor, lo: nat, len: nat)
    requires |t.shape| >= 2
    ensures var m := |t.shape| - 2;
      Narrow(t, m + 1, lo, len) == Select(t, FullSels(t.shape[..m]) + [Full(t.shape[m]), Span(lo, 1, len)])
  {
    var m := |t.shape| - 2;
    assert NarrowSels(t.shape, m + 1, lo, len) == FullSels(t.shape[..m]) + [Full(t.shape[m]), Span(lo, 1, len)];
  }

  lemma NarrowMiddle(t: Tensor, lo: nat, len: nat)
    requires |t.shape| >= 2
    ensures var m := |t.shape| - 2;
      Narrow(t, m, lo, len) == Select(t, FullSels(t.shape[..m]) + [Span(lo, 1, len), Full(t.shape[m + 1])])
  {
    var m := |t.shape| - 2;
    assert NarrowSels(t.shape, m, lo, len) == FullSels(t.shape[..m]) + [Span(lo, 1, len), Full(t.shape[m + 1])];
  }

  lemma NarrowFront(t: Tensor, axis: nat, lo: nat, len: nat)
    requires |t.shape| >= 2 && axis < |t.shape| - 2
    ensures var m := |t.shape| - 2;
      Narrow(t, axis, lo, len)
      == Select(t, NarrowSels(t.shape[..m], axis, lo, len) + [Full(t.shape[m]), Full(t.shape[m + 1])])
  {
    var m := |t.shape| - 2;
    assert NarrowSels(t.shape, axis, lo, len)
        == NarrowSels(t.shape[..m], axis, lo, len) + [Full(t.shape[m]), Full(t.shape[m + 1])];
  }

  lemma FullIs(t: Tensor)
    requires t.Valid() && |t.shape| >= 2
    ensures var m := |t.shape| - 2;
      Select(t, FullSels(t.shape[..m]) + [Full(t.shape[m]), Full(t.shape[m + 1])]) == t
  {
    var m := |t.shape| - 2;
    assert FullSels(t.shape) == FullSels(t.shape[..m]) + [Full(t.shape[m]), Full(t.shape[m + 1])];
    SelectFull(t);
  }

  lemma FullCompatible(l: Lora)
    requires l.Wf()
    ensures CompatibleAll(l.LeadA(), l.LeadB(), FullSels(l.LeadA()), FullSels(l.LeadB()))
  {
    hide Compatible;
    forall i | 0 <= i < |l.LeadA()|
      ensures Compatible(l.LeadA()[i], l.LeadB()[i], FullSels(l.LeadA())[i], FullSels(l.LeadB())[i])
    {
      FullAxes(l.LeadA()[i], l.LeadB()[i]);
    }
  }

  lemma UnitFits(lo: nat, len: nat, b: nat)
    requires lo + len <= b
    ensures Span(lo, 1, len).Fits(b)
  {
  }

  lemma ProductLead(l: Lora)
    requires l.Constructed()
    ensures var s, m := Product(l).shape, l.Ndim() - 2;
      |s| == m + 2 && s[..m] == l.LeadB() && s[m] == l.B.shape[m] && s[m + 1] == l.Cols()
  {
  }

  lemma SelectsToDenotes(l: Lora, sa: seq<Sel>, sb: seq<Sel>, row: Sel, col: Sel, r: Lora, w: Tensor)
    requires l.Wf() && SelectsTo(l, sa, sb, row, col, r, w)
    ensures Denotes(r, w)
  {
    SelectCommutes(l, sa, sb, row, col);
  }

  /** The selections that turn l into r and its product into w. */
  predicate SelectsTo(l: Lora, sa: seq<Sel>, sb: seq<Sel>, row: Sel, col: Sel, r: Lora, w: Tensor)
    requires l.Wf()
  {
    && CompatibleAll(l.LeadA(), l.LeadB(), sa, sb)
    && row.Span? && col.Span? && row.Fits(l.B.shape[l.Ndim() - 2]) && col.Fits(l.Cols())
    && r.A == Select(l.A, sa + [Full(l.Rank()), col]) && r.B == Select(l.B, sb + [row, Full(l.Rank())])
    && w == Select(Product(l), sb + [row, col])
  }

  lemma ColumnSels(l: Lora, lo: nat, len: nat) returns (sa: seq<Sel>, sb: seq<Sel>, row: Sel, col: Sel)
    requires l.Wf() && lo + len <= l.Cols()
    ensures SelectsTo(l, sa, sb, row, col, Lora(Narrow(l.A, l.Ndim() - 1, lo, len), l.B),
                      Narrow(Product(l), l.Ndim() - 1, lo, len))
  {
    hide Select, OutShape, Prod;
    sa, sb, row, col := FullSels(l.LeadA()), FullSels(l.LeadB()), Full(l.B.shape[l.Ndim() - 2]), Span(lo, 1, len);
    ProductLead(l);
    NarrowLast(l.A, lo, len);
    NarrowLast(Product(l), lo, len);
    FullIs(l.B);
    FullCompatible(l);
    UnitFits(lo, len, l.Cols());
    UnitFits(0, row.len, row.len);
  }

  lemma RowSels(l: Lora, lo: nat, len: nat) returns (sa: seq<Sel>, sb: seq<Sel>, row: Sel, col: Sel)
    requires l.Wf() && lo + len <= l.B.shape[l.Ndim() - 2]
    ensures SelectsTo(l, sa, sb, row, col, Lora(l.A, Narrow(l.B, l.Ndim() - 2, lo, len)),
                      Narrow(Product(l), l.Ndim() - 2, lo, len))
  {
    hide Select, OutShape, Prod;
    sa, sb, row, col := FullSels(l.LeadA()), FullSels(l.LeadB()), Span(lo, 1, len), Full(l.Cols());
    ProductLead(l);
    NarrowMiddle(l.B, lo, len);
    NarrowMiddle(Product(l), lo, len);
    FullIs(l.A);
    FullCompatible(l);
    UnitFits(lo, len, l.B.shape[l.Ndim() - 2]);
    UnitFits(0, col.len, col.len);
  }

  lemma SpanCompatible(a: nat, b: nat, lo: nat, len: nat)
    requires (a == b || a == 1) && lo + len <= b
    ensures Compatible(a, b, if a == 1 then Full(a) else Span(lo, 1, len), Span(lo, 1, len))
  {
    UnitFits(lo, len, b);
    UnitFits(0, 1, 1);
    if a != 1 {
      forall o: nat | o < len ensures Span(lo, 1, len).SrcOf(if len == 1 then 0 else o) == Span(lo, 1, len).SrcOf(o) {
      }
    }
  }

  /** The part of A that goes with a piece along a leading axis. */
  function PieceA(l: Lora, axis: nat, lo: nat, len: nat): Tensor
    requires l.Constructed() && axis < l.Ndim() - 2
  {
    if l.A.shape[axis] == 1 then l.A else Narrow(l.A, axis, lo, len)
  }

  lemma LeadCompatible(l: Lora, axis: nat, lo: nat, len: nat) returns (sa: seq<Sel>)
    requires l.Wf() && axis < l.Ndim() - 2 && lo + len <= l.B.shape[axis]
    ensures CompatibleAll(l.LeadA(), l.LeadB(), sa, NarrowSels(l.LeadB(), axis, lo, len))
    ensures PieceA(l, axis, lo, len) == Select(l.A, sa + [Full(l.Rank()), Full(l.Cols())])
  {
    hide Select, OutShape, Prod;
    if l.A.shape[axis] == 1 {
      FullIs(l.A);
      sa := FullSels(l.LeadA());
    } else {
      NarrowFront(l.A, axis, lo, len);
      sa := NarrowSels(l.LeadA(), axis, lo, len);
    }
    AxisNarrowed(l.LeadA(), l.LeadB(), axis, lo, len, sa);
  }

  lemma AxisNarrowed(a: seq<nat>, b: seq<nat>, axis: nat, lo: nat, len: nat, sa: seq<Sel>)
    requires BroadcastableTo(a, b) && axis < |a| && lo + len <= b[axis]
    requires sa == if a[axis] == 1 then FullSels(a) else NarrowSels(a, axis, lo, len)
    ensures CompatibleAll(a, b, sa, NarrowSels(b, axis, lo, len))
  {
    var sb := NarrowSels(b, axis, lo, len);
    forall i | 0 <= i < |a| ensures Compatible(a[i], b[i], sa[i], sb[i]) {
      if i == axis {
        SpanCompatible(a[i], b[i], lo, len);
      } else {
        SpanCompatible(a[i], b[i], 0, b[i]);
      }
    }
  }

  lemma LeadSels(l: Lora, axis: nat, lo: nat, len: nat) returns (sa: seq<Sel>, sb: seq<Sel>, row: Sel, col: Sel)
    requires l.Wf() && axis < l.Ndim() - 2 && lo + len <= l.B.shape[axis]
    ensures SelectsTo(l, sa, sb, row, col, Lora(PieceA(l, axis, lo, len), Narrow(l.B, axis, lo, len)),
                      Narrow(Product(l), axis, lo, len))
  {
    hide Select, OutShape, Prod;
    sa := LeadCompatible(l, axis, lo, len);
    sb, row, col := NarrowSels(l.LeadB(), axis, lo, len), Full(l.B.shape[l.Ndim() - 2]), Full(l.Cols());
    ProductLead(l);
    NarrowFront(l.B, axis, lo, len);
    NarrowFront(Product(l), axis, lo, len);
    UnitFits(0, row.len, row.len);
    UnitFits(0, col.len, col.len);
  }

  predicate DenoteAll(ls: seq<Lora>, ws: seq<Tensor>) {
    |ls| == |ws| && forall i | 0 <= i < |ls| :: Denotes(ls[i], ws[i])
  }

  lemma {:induction false} ColumnPieces(l: Lora, lo: nat, sizes: seq<nat>)
    requires l.Wf() && lo + Sum(sizes) == l.Cols()
    ensures DenoteAll(WithB(Pieces(l.A, l.Ndim() - 1, lo, sizes), l.B), Pieces(Product(l), l.Ndim() - 1, lo, sizes))
    decreases |sizes|
  {
    hide Narrow, Denotes, SelectsTo, Product;
    if sizes != [] {
      var sa, sb, row, col := ColumnSels(l, lo, sizes[0]);
      SelectsToDenotes(l, sa, sb, row, col, Lora(Narrow(l.A, l.Ndim() - 1, lo, sizes[0]), l.B),
                       Narrow(Product(l), l.Ndim() - 1, lo, sizes[0]));
      ColumnPieces(l, lo + sizes[0], sizes[1..]);
    }
  }

  lemma {:induction false} RowPieces(l: Lora, lo: nat, sizes: seq<nat>)
    requires l.Wf() && lo + Sum(sizes) == l.B.shape[l.Ndim() - 2]
    ensures DenoteAll(WithA(l.A, Pieces(l.B, l.Ndim() - 2, lo, sizes)), Pieces(Product(l), l.Ndim() - 2, lo, sizes))
    decreases |sizes|
  {
    hide Narrow, Denotes, SelectsTo, Product;
    if sizes != [] {
      var sa, sb, row, col := RowSels(l, lo, sizes[0]);
      SelectsToDenotes(l, sa, sb, row, col, Lora(l.A, Narrow(l.B, l.Ndim() - 2, lo, sizes[0])),
                       Narrow(Product(l), l.Ndim() - 2, lo, sizes[0]));
      RowPieces(l, lo + sizes[0], sizes[1..]);
    }
  }

  lemma {:induction false} SharedPieces(l: Lora, axis: nat, lo: nat, sizes: seq<nat>)
    requires l.Wf() && axis < l.Ndim() - 2 && lo + Sum(sizes) == l.B.shape[axis] && l.A.shape[axis] == 1
    ensures DenoteAll(WithA(l.A, Pieces(l.B, axis, lo, sizes)), Pieces(Product(l), axis, lo, sizes))
    decreases |sizes|
  {
    hide Narrow, Denotes, SelectsTo, Product;
    if sizes != [] {
      var sa, sb, row, col := LeadSels(l, axis, lo, sizes[0]);
      SelectsToDenotes(l, sa, sb, row, col, Lora(PieceA(l, axis, lo, sizes[0]), Narrow(l.B, axis, lo, sizes[0])),
                       Narrow(Product(l), axis, lo, sizes[0]));
      SharedPieces(l, axis, lo + sizes[0], sizes[1..]);
    }
  }

  lemma {:induction false} PairedPieces(l: Lora, axis: nat, lo: nat, sizes: seq<nat>)
    requires l.Wf() && axis < l.Ndim() - 2 && lo + Sum(sizes) == l.B.shape[axis] && l.A.shape[axis] != 1
    ensures DenoteAll(Pairs(Pieces(l.A, axis, lo, sizes), Pieces(l.B, axis, lo, sizes)),
                      Pieces(Product(l), axis, lo, sizes))
    decreases |sizes|
  {
    hide Narrow, Denotes, SelectsTo, Product;
    if sizes != [] {
      var sa, sb, row, col := LeadSels(l, axis, lo, sizes[0]);
      SelectsToDenotes(l, sa, sb, row, col, Lora(PieceA(l, axis, lo, sizes[0]), Narrow(l.B, axis, lo, sizes[0])),
                       Narrow(Product(l), axis, lo, sizes[0]));
      PairedPieces(l, axis, lo + sizes[0], sizes[1..]);
    }
  }

  /** Splitting the factors along an axis that the product has. */
  lemma SplitWithin(l: Lora, spec: SplitSpec, dim: int)
    requires l.Wf() && IsAxis(dim, l.Ndim())
    ensures Split(l, spec, dim).Some? <==> SplitAlong(Product(l), spec, dim).Some?
    ensures Split(l, spec, dim).Some? ==> DenoteAll(Split(l, spec, dim).value, SplitAlong(Product(l), spec, dim).value)
  {
    hide Narrow, Denotes, Product, Pieces, WithA, WithB, Pairs, AllConstructed;
    var n, axis := l.Ndim(), Wrap(dim, l.Ndim());
    var sizes := PieceSizes(spec, l.Shape()[axis]);
    if sizes.Some? {
      if axis == n - 1 {
        ColumnPieces(l, 0, sizes.value);
        PiecesConstructed(WithB(Pieces(l.A, n - 1, 0, sizes.value), l.B), Pieces(Product(l), axis, 0, sizes.value));
      } else if axis == n - 2 {
        RowPieces(l, 0, sizes.value);
        PiecesConstructed(WithA(l.A, Pieces(l.B, n - 2, 0, sizes.value)), Pieces(Product(l), axis, 0, sizes.value));
      } else {
        assert l.LeadA()[axis] == l.A.shape[axis] && l.LeadB()[axis] == l.B.shape[axis];
        if l.A.shape[axis] == 1 {
          SharedPieces(l, axis, 0, sizes.value);
          PiecesConstructed(WithA(l.A, Pieces(l.B, axis, 0, sizes.value)), Pieces(Product(l), axis, 0, sizes.value));
        } else {
          PairedPieces(l, axis, 0, sizes.value);
          PiecesConstructed(Pairs(Pieces(l.A, axis, 0, sizes.value), Pieces(l.B, axis, 0, sizes.value)),
                            Pieces(Product(l), axis, 0, sizes.value));
        }
      }
    }
  }

  lemma PiecesConstructed(ls: seq<Lora>, ws: seq<Tensor>)
    requires DenoteAll(ls, ws)
    ensures AllConstructed(ls)
  {
    hide Product;
  }

  /** Splitting the factors splits the product, for every size specification and on
      every axis the product has. Along an axis below minus the rank the product raises,
      and the factors may not. */
  lemma SplitCorrect(l: Lora, spec: SplitSpec, dim: int)
    requires l.Wf()
    ensures SplitAlong(Product(l), spec, dim).Some? <==> Split(l, spec, dim).Some? && dim >= 0 - l.Ndim()
    ensures SplitAlong(Product(l), spec, dim).Some? ==>
      DenoteAll(Split(l, spec, dim).value, SplitAlong(Product(l), spec, dim).value)
  {
    hide SplitTensor, DenoteAll, MakeAll, Product;
    if IsAxis(dim, l.Ndim()) {
      SplitWithin(l, spec, dim);
    }
  }

  /** Two axes past the front of a matrix, the factors of rank 1 are split by rows; the
      product cannot be. */
  lemma SplitTooFar(l: Lora, spec: SplitSpec)
    requires l.Wf() && l.Ndim() == 2 && l.Rank() == 1
    ensures Split(l, spec, -4) == Split(l, spec, 0) && SplitAlong(Product(l), spec, -4) == None
  {
    hide SplitTensor, MakeAll, Product;
  }

  // ---- cat ----

  function As(ls: seq<Lora>): (ts: seq<Tensor>)
    ensures |ts| == |ls| && forall i | 0 <= i < |ls| :: ts[i] == ls[i].A
  {
    seq(|ls|, i requires 0 <= i < |ls| => ls[i].A)
  }

  function Bs(ls: seq<Lora>): (ts: seq<Tensor>)
    ensures |ts| == |ls| && forall i | 0 <= i < |ls| :: ts[i] == ls[i].B
  {
    seq(|ls|, i requires 0 <= i < |ls| => ls[i].B)
  }

  function Products(ls: seq<Lora>): (ts: seq<Tensor>)
    requires AllConstructed(ls)
    ensures |ts| == |ls| && forall i | 0 <= i < |ls| :: ts[i] == Product(ls[i])
  {
    seq(|ls|, i requires 0 <= i < |ls| => Product(ls[i]))
  }

  /** torch.cat(ls, dim=0) on factor pairs. */
  function CatLora(ls: seq<Lora>): (r: Option<Lora>)
    requires AllConstructed(ls)
  {
    if ls == [] then None
    else if ls[0].Ndim() > 2 then
      if CanCat(As(ls)) && CanCat(Bs(ls)) then Make(Cat(As(ls)), Cat(Bs(ls))) else None
    else if (forall i | 0 < i < |ls| :: ls[i].A == ls[0].A) && CanCat(Bs(ls)) then Make(ls[0].A, Cat(Bs(ls)))
    else None
  }

  /** Both factors of every piece have the same first size. */
  predicate SameFirst(l: Lora)
    requires l.Constructed()
  {
    l.A.shape[0] == l.B.shape[0]
  }

  /** r has, at first position i, the slice that l has at first position i'. */
  ghost predicate SameSlice(r: Tensor, l: Tensor, i: nat, i': nat) {
    && |r.shape| == |l.shape| > 0 && r.shape[1..] == l.shape[1..] && i < r.shape[0] && i' < l.shape[0]
    && forall u | InBounds(l.shape[1..], u) :: r.At([i] + u) == l.At([i'] + u)
  }

  lemma SliceEntry(r: Lora, l: Lora, i: nat, i': nat, o: seq<nat>, x: nat, y: nat)
    requires r.Wf() && l.Wf() && SameFirst(r) && SameFirst(l) && r.Ndim() == l.Ndim() > 2
    requires SameSlice(r.A, l.A, i, i') && SameSlice(r.B, l.B, i, i')
    requires InBounds(l.LeadB()[1..], o) && x < l.B.shape[l.Ndim() - 2] && y < l.Cols()
    ensures Product(r).At([i] + (o + [x, y])) == Product(l).At([i'] + (o + [x, y]))
  {
    hide Tensor.At, Product, Entry;
    var n := l.Ndim();
    SliceShapes(r, l, i, i', o);
    var tail := Bcast(l.LeadA()[1..], o);
    assert Bcast(l.LeadA(), [i'] + o) == [i'] + tail by { BcastCons(l.LeadA(), i', o); }
    assert Bcast(r.LeadA(), [i] + o) == [i] + tail by { BcastCons(r.LeadA(), i, o); }
    EntryParts(r, [i] + o, x, y);
    EntryParts(l, [i'] + o, x, y);
    assert [i] + o + [x, y] == [i] + (o + [x, y]) && [i'] + o + [x, y] == [i'] + (o + [x, y]);
    forall t: nat | t < l.Rank() ensures r.B.At([i] + o + [x] + [t]) == l.B.At([i'] + o + [x] + [t]) * 1 {
      SliceRowAt(r.B, l.B, i, i', o, x, t);
    }
    forall t: nat | t < l.Rank() ensures r.A.At([i] + tail + [t, y]) == l.A.At([i'] + tail + [t, y]) {
      SliceColumnAt(r.A, l.A, i, i', tail, t, y);
    }
    RankSumScaled(1, l.B, l.A, [i'] + o + [x], [i'] + tail, y, r.B, r.A, [i] + o + [x], [i] + tail, y, l.Rank());
  }

  lemma SliceShapes(r: Lora, l: Lora, i: nat, i': nat, o: seq<nat>)
    requires r.Wf() && l.Wf() && SameFirst(r) && SameFirst(l) && r.Ndim() == l.Ndim() > 2
    requires SameSlice(r.A, l.A, i, i') && SameSlice(r.B, l.B, i, i')
    requires InBounds(l.LeadB()[1..], o)
    ensures r.LeadB()[1..] == l.LeadB()[1..] && r.LeadA()[1..] == l.LeadA()[1..]
    ensures r.Rank() == l.Rank() && r.Cols() == l.Cols() && r.B.shape[r.Ndim() - 2] == l.B.shape[l.Ndim() - 2]
    ensures i < r.LeadA()[0] && i' < l.LeadA()[0]
    ensures InBounds(r.LeadB(), [i] + o) && InBounds(l.LeadB(), [i'] + o)
    ensures InBounds(l.LeadA()[1..], Bcast(l.LeadA()[1..], o))
  {
    var n := l.Ndim();
    assert r.LeadB()[1..] == r.B.shape[1..][..n - 3] && l.LeadB()[1..] == l.B.shape[1..][..n - 3];
    assert r.LeadA()[1..] == r.A.shape[1..][..n - 3] && l.LeadA()[1..] == l.A.shape[1..][..n - 3];
    assert forall j | 0 < j < n :: r.B.shape[j] == r.B.shape[1..][j - 1] && l.B.shape[j] == l.B.shape[1..][j - 1];
    assert forall j | 0 < j < n :: r.A.shape[j] == r.A.shape[1..][j - 1] && l.A.shape[j] == l.A.shape[1..][j - 1];
    RavelCons(r.LeadB(), i, o);
    RavelCons(l.LeadB(), i', o);
    assert BroadcastableTo(l.LeadA()[1..], l.LeadB()[1..]);
    BcastInBounds(l.LeadA()[1..], l.LeadB()[1..], o);
  }

  lemma SliceRowAt(r: Tensor, l: Tensor, i: nat, i': nat, o: seq<nat>, x: nat, t: nat)
    requires SameSlice(r, l, i, i') && |l.shape| == |o| + 3
    requires InBounds(l.shape[..|o| + 1][1..], o) && x < l.shape[|o| + 1] && t < l.shape[|o| + 2]
    ensures r.At([i] + o + [x] + [t]) == l.At([i'] + o + [x] + [t])
  {
    hide Tensor.At;
    var u := o + [x, t];
    assert l.shape[1..] == l.shape[..|o| + 1][1..] + [l.shape[|o| + 1], l.shape[|o| + 2]];
    InBoundsAppend(l.shape[..|o| + 1][1..], [l.shape[|o| + 1], l.shape[|o| + 2]], o, [x, t]);
    assert [i] + o + [x] + [t] == [i] + u && [i'] + o + [x] + [t] == [i'] + u;
  }

  lemma SliceColumnAt(r: Tensor, l: Tensor, i: nat, i': nat, o: seq<nat>, t: nat, y: nat)
    requires SameSlice(r, l, i, i') && |l.shape| == |o| + 3
    requires InBounds(l.shape[..|o| + 1][1..], o) && t < l.shape[|o| + 1] && y < l.shape[|o| + 2]
    ensures r.At([i] + o + [t, y]) == l.At([i'] + o + [t, y])
  {
    hide Tensor.At;
    SliceRowAt(r, l, i, i', o, t, y);
    assert [i] + o + [t] + [y] == [i] + o + [t, y] && [i'] + o + [t] + [y] == [i'] + o + [t, y];
  }

  lemma Cat2Slice(t: Tensor, u: Tensor, i: nat)
    requires t.Valid() && u.Valid() && SameTail(t, u) && i < t.shape[0] + u.shape[0]
    ensures if i < t.shape[0] then SameSlice(Cat2(t, u), t, i, i) else SameSlice(Cat2(t, u), u, i, i - t.shape[0])
  {
    hide Tensor.At;
    forall r | InBounds(t.shape[1..], r)
      ensures Cat2(t, u).At([i] + r) == if i < t.shape[0] then t.At([i] + r) else u.At([i - t.shape[0]] + r)
    {
      Cat2At(t, u, i, r);
    }
  }

  function CatPair(l: Lora, m: Lora): Lora
    requires l.Constructed() && m.Constructed() && SameTail(l.A, m.A) && SameTail(l.B, m.B)
  {
    Lora(Cat2(l.A, m.A), Cat2(l.B, m.B))
  }

  lemma CatPairShape(l: Lora, m: Lora)
    requires l.Wf() && m.Wf() && l.Ndim() > 2 && SameFirst(l) && SameFirst(m)
    requires SameTail(l.A, m.A) && SameTail(l.B, m.B)
    ensures CatPair(l, m).Wf() && SameFirst(CatPair(l, m)) && SameTail(Product(l), Product(m))
    ensures CatPair(l, m).Shape() == Cat2(Product(l), Product(m)).shape
  {
    hide Product, Prod, Cat2;
    var n, r := l.Ndim(), CatPair(l, m);
    CatTailSizes(l.A, m.A);
    CatTailSizes(l.B, m.B);
    forall j | 0 <= j < n - 2 ensures r.LeadA()[j] == r.LeadB()[j] || r.LeadA()[j] == 1 {
      assert l.LeadA()[j] == l.A.shape[j] && l.LeadB()[j] == l.B.shape[j];
    }
    assert r.Constructed();
    ShapeTails(l, m, r);
  }

  lemma CatTailSizes(t: Tensor, u: Tensor)
    requires t.Valid() && u.Valid() && SameTail(t, u)
    ensures forall j | 0 < j < |t.shape| :: u.shape[j] == t.shape[j] && Cat2(t, u).shape[j] == t.shape[j]
    ensures Cat2(t, u).shape[0] == t.shape[0] + u.shape[0]
  {
    hide Prod;
    forall j | 0 < j < |t.shape| ensures u.shape[j] == t.shape[j] && Cat2(t, u).shape[j] == t.shape[j] {
      assert t.shape[1..][j - 1] == u.shape[1..][j - 1];
    }
  }

  lemma ShapeTails(l: Lora, m: Lora, r: Lora)
    requires l.Constructed() && m.Constructed() && r.Constructed() && l.Ndim() == m.Ndim() == r.Ndim() > 2
    requires forall j | 0 < j < l.Ndim() :: m.A.shape[j] == l.A.shape[j] == r.A.shape[j]
    requires forall j | 0 < j < l.Ndim() :: m.B.shape[j] == l.B.shape[j] == r.B.shape[j]
    requires r.B.shape[0] == l.B.shape[0] + m.B.shape[0]
    ensures SameTail(Product(l), Product(m))
    ensures r.Shape() == Cat2(Product(l), Product(m)).shape
  {
    hide Product, Prod;
    assert l.Shape()[1..] == m.Shape()[1..];
    assert r.Shape() == [l.Shape()[0] + m.Shape()[0]] + l.Shape()[1..];
  }

  /** Concatenating two pairs whose factors agree on the first size. */
  lemma CatPairDenotes(l: Lora, m: Lora)
    requires l.Wf() && m.Wf() && l.Ndim() > 2 && SameFirst(l) && SameFirst(m)
    requires SameTail(l.A, m.A) && SameTail(l.B, m.B)
    ensures SameFirst(CatPair(l, m)) && SameTail(Product(l), Product(m))
    ensures Denotes(CatPair(l, m), Cat2(Product(l), Product(m)))
  {
    hide Product, Tensor.At, Cat2;
    var n, r := l.Ndim(), CatPair(l, m);
    CatPairShape(l, m);
    var w := Cat2(Product(l), Product(m));
    forall idx | InBounds(w.shape, idx) ensures Product(r).At(idx) == w.At(idx) {
      CatPairEntry(l, m, idx);
    }
    Extensional(Product(r), w);
  }

  lemma CatPairEntry(l: Lora, m: Lora, idx: seq<nat>)
    requires l.Wf() && m.Wf() && l.Ndim() > 2 && SameFirst(l) && SameFirst(m)
    requires SameTail(l.A, m.A) && SameTail(l.B, m.B) && SameTail(Product(l), Product(m))
    requires CatPair(l, m).Wf() && SameFirst(CatPair(l, m))
    requires CatPair(l, m).Shape() == Cat2(Product(l), Product(m)).shape && InBounds(CatPair(l, m).Shape(), idx)
    ensures Product(CatPair(l, m)).At(idx) == Cat2(Product(l), Product(m)).At(idx)
  {
    hide Product, Tensor.At;
    var n, r, i, u := l.Ndim(), CatPair(l, m), idx[0], idx[1..];
    assert idx == [i] + u;
    IndexParts(r, idx);
    var o := idx[1..n - 2];
    assert u == o + [idx[n - 2], idx[n - 1]];
    assert InBounds(Product(l).shape[1..], u);
    Cat2Slice(l.A, m.A, i);
    Cat2Slice(l.B, m.B, i);
    Cat2At(Product(l), Product(m), i, u);
    var d := l.B.shape[0];
    var s, i' := if i < d then l else m, if i < d then i else i - d;
    InnerBounds(s, u, o, idx[n - 2], idx[n - 1]);
    SliceEntry(r, s, i, i', o, idx[n - 2], idx[n - 1]);
  }

  lemma InnerBounds(l: Lora, u: seq<nat>, o: seq<nat>, x: nat, y: nat)
    requires l.Constructed() && l.Ndim() > 2 && InBounds(l.Shape()[1..], u) && u == o + [x, y]
    ensures InBounds(l.LeadB()[1..], o) && x < l.B.shape[l.Ndim() - 2] && y < l.Cols()
  {
    var n := l.Ndim();
    assert l.Shape()[1..] == l.LeadB()[1..] + [l.B.shape[n - 2], l.Cols()];
    InBoundsAppend(l.LeadB()[1..], [l.B.shape[n - 2], l.Cols()], o, [x, y]);
    assert [x, y][0] == x && [x, y][1] == y;
  }

  predicate AllWf(ls: seq<Lora>) { forall i | 0 <= i < |ls| :: ls[i].Wf() }

  predicate AllSameFirst(ls: seq<Lora>)
    requires AllConstructed(ls)
  {
    forall i | 0 <= i < |ls| :: SameFirst(ls[i])
  }

  lemma CanCatTail(ts: seq<Tensor>)
    requires CanCat(ts) && |ts| > 1
    ensures CanCat(ts[1..]) && SameTail(ts[0], Cat(ts[1..])) && Cat(ts) == Cat2(ts[0], Cat(ts[1..]))
  {
    hide Cat2;
    forall i | 0 <= i < |ts[1..]| ensures ts[1..][i].Valid() && SameTail(ts[1..][i], ts[1..][0]) {
      assert ts[1..][i] == ts[i + 1] && ts[1..][0] == ts[1];
    }
  }

  /** Concatenating pieces whose factors agree on the first size. */
  lemma {:induction false} CatDeep(ls: seq<Lora>)
    requires |ls| > 0 && AllWf(ls) && AllConstructed(ls) && AllSameFirst(ls) && ls[0].Ndim() > 2
    requires CanCat(As(ls)) && CanCat(Bs(ls))
    ensures CanCat(Products(ls))
    ensures Denotes(Lora(Cat(As(ls)), Cat(Bs(ls))), Cat(Products(ls)))
    ensures SameFirst(Lora(Cat(As(ls)), Cat(Bs(ls))))
  {
    hide Product, Cat2, Prod, Tensor.At;
    if |ls| == 1 {
      assert Cat(As(ls)) == ls[0].A && Cat(Bs(ls)) == ls[0].B && Cat(Products(ls)) == Product(ls[0]);
    } else {
      var l, rest := ls[0], ls[1..];
      CanCatTail(As(ls));
      CanCatTail(Bs(ls));
      assert As(ls)[1..] == As(rest) && Bs(ls)[1..] == Bs(rest) && Products(ls)[1..] == Products(rest);
      CatDeep(rest);
      var m := Lora(Cat(As(rest)), Cat(Bs(rest)));
      CatPairDenotes(l, m);
      CanCatCons(Products(ls));
      assert Cat(Products(ls)) == Cat2(Product(l), Cat(Products(rest))) by { CanCatTail(Products(ls)); }
    }
  }

  lemma CanCatCons(ts: seq<Tensor>)
    requires |ts| > 1 && ts[0].Valid() && CanCat(ts[1..]) && SameTail(ts[0], Cat(ts[1..]))
    ensures CanCat(ts)
  {
    hide Cat2;
    forall i | 0 <= i < |ts| ensures ts[i].Valid() && SameTail(ts[i], ts[0]) {
      if i > 0 { assert ts[i] == ts[1..][i - 1]; }
    }
  }

  // ---- matrices: one A, the rows of B concatenated ----

  lemma FlatEntryRow(r: Lora, l: Lora, i: nat, i': nat, y: nat)
    requires r.Wf() && l.Wf() && r.Ndim() == l.Ndim() == 2 && r.A == l.A
    requires SameSlice(r.B, l.B, i, i') && y < l.Cols()
    ensures Product(r).At([i] + [y]) == Product(l).At([i'] + [y])
  {
    hide Tensor.At, Product, Entry;
    assert [] + [i, y] == [i] + [y] && [] + [i', y] == [i'] + [y] && [] + [i] == [i] && [] + [i'] == [i'];
    EntryParts(r, [], i, y);
    EntryParts(l, [], i', y);
    forall t: nat | t < l.Rank() ensures r.B.At([i] + [t]) == l.B.At([i'] + [t]) * 1 {
      assert l.B.shape[1..] == [l.Rank()];
      Prod1(l.Rank());
      assert InBounds(l.B.shape[1..], [t]);
    }
    RankSumScaled(1, l.B, l.A, [i'], [], y, r.B, r.A, [i], [], y, l.Rank());
  }

  lemma CatRows(l: Lora, m: Lora)
    requires l.Wf() && m.Wf() && l.Ndim() == m.Ndim() == 2 && l.A == m.A && SameTail(l.B, m.B)
    ensures SameTail(Product(l), Product(m))
    ensures Denotes(Lora(l.A, Cat2(l.B, m.B)), Cat2(Product(l), Product(m)))
  {
    hide Product, Tensor.At, Cat2, Prod;
    var r := Lora(l.A, Cat2(l.B, m.B));
    CatTailSizes(l.B, m.B);
    assert r.Constructed() && r.LeadA() == r.LeadB() == [];
    assert l.Shape() == [l.B.shape[0], l.Cols()] && m.Shape() == [m.B.shape[0], l.Cols()];
    assert l.Shape()[1..] == m.Shape()[1..];
    var w := Cat2(Product(l), Product(m));
    assert r.Shape() == w.shape == [l.B.shape[0] + m.B.shape[0], l.Cols()];
    forall idx | InBounds(w.shape, idx) ensures Product(r).At(idx) == w.At(idx) {
      var i, y := idx[0], idx[1];
      assert idx == [i] + [y];
      assert InBounds(Product(l).shape[1..], [y]);
      Cat2Slice(l.B, m.B, i);
      Cat2At(Product(l), Product(m), i, [y]);
      FlatEntryRow(r, if i < l.B.shape[0] then l else m, i, if i < l.B.shape[0] then i else i - l.B.shape[0], y);
    }
    Extensional(Product(r), w);
  }

  lemma {:induction false} CatFlat(ls: seq<Lora>)
    requires |ls| > 0 && AllWf(ls) && AllConstructed(ls) && ls[0].Ndim() == 2
    requires (forall i | 0 < i < |ls| :: ls[i].A == ls[0].A) && CanCat(Bs(ls))
    ensures CanCat(Products(ls))
    ensures Denotes(Lora(ls[0].A, Cat(Bs(ls))), Cat(Products(ls)))
  {
    hide Product, Cat2, Prod, Tensor.At;
    if |ls| == 1 {
      assert Cat(Bs(ls)) == ls[0].B && Cat(Products(ls)) == Product(ls[0]);
    } else {
      var l, rest := ls[0], ls[1..];
      CanCatTail(Bs(ls));
      assert Bs(ls)[1..] == Bs(rest) && Products(ls)[1..] == Products(rest);
      assert ls[1].Wf() && rest[0] == ls[1];
      forall i | 0 < i < |rest| ensures rest[i].A == rest[0].A {
        assert rest[i] == ls[i + 1];
      }
      CatFlat(rest);
      CatRows(l, Lora(l.A, Cat(Bs(rest))));
      CanCatCons(Products(ls));
      assert Cat(Products(ls)) == Cat2(Product(l), Cat(Products(rest))) by { CanCatTail(Products(ls)); }
    }
  }

  // ---- when concatenation is right ----

  function FirstSum(ts: seq<Tensor>): nat
    requires forall i | 0 <= i < |ts| :: |ts[i].shape| > 0
  {
    if ts == [] then 0 else ts[0].shape[0] + FirstSum(ts[1..])
  }

  lemma {:induction false} CatFirst(ts: seq<Tensor>)
    requires CanCat(ts)
    ensures Cat(ts).shape[0] == FirstSum(ts)
  {
    hide Cat2;
    if |ts| == 1 {
      assert ts[1..] == [];
    } else {
      CanCatTail(ts);
      CatFirst(ts[1..]);
      CatTailSizes(ts[0], Cat(ts[1..]));
    }
  }

  /** Sums of sizes that are 1 or equal agree only if all of the sizes do. */
  lemma {:induction false} EqualFirstSums(as_: seq<Tensor>, bs: seq<Tensor>)
    requires |as_| == |bs| && forall i | 0 <= i < |as_| :: |as_[i].shape| > 0 && |bs[i].shape| > 0
    requires forall i | 0 <= i < |as_| ::
            bs[i].shape[0] > 0 && (as_[i].shape[0] == 1 || as_[i].shape[0] == bs[i].shape[0])
    ensures |as_| <= FirstSum(as_) <= FirstSum(bs)
    ensures FirstSum(as_) == FirstSum(bs) ==> forall i | 0 <= i < |as_| :: as_[i].shape[0] == bs[i].shape[0]
  {
    if as_ != [] {
      EqualFirstSums(as_[1..], bs[1..]);
      if FirstSum(as_) == FirstSum(bs) {
        forall i | 0 <= i < |as_| ensures as_[i].shape[0] == bs[i].shape[0] {
          if i > 0 { assert as_[i] == as_[1..][i - 1] && bs[i] == bs[1..][i - 1]; }
        }
      }
    }
  }

  lemma CatNeedsSameFirst(ls: seq<Lora>)
    requires |ls| > 1 && AllWf(ls) && AllConstructed(ls) && ls[0].Ndim() > 2
    requires CanCat(As(ls)) && CanCat(Bs(ls)) && forall i | 0 <= i < |ls| :: ls[i].B.shape[0] > 0
    requires Lora(Cat(As(ls)), Cat(Bs(ls))).Wf()
    ensures AllSameFirst(ls)
  {
    hide Cat, Prod, Product;
    var r := Lora(Cat(As(ls)), Cat(Bs(ls)));
    CatFirst(As(ls));
    CatFirst(Bs(ls));
    forall i | 0 <= i < |ls| ensures ls[i].A.shape[0] == 1 || ls[i].A.shape[0] == ls[i].B.shape[0] {
      assert ls[i].Wf() && |ls[i].A.shape| == |As(ls)[0].shape| > 2;
      assert ls[i].LeadA()[0] == ls[i].A.shape[0] && ls[i].LeadB()[0] == ls[i].B.shape[0];
    }
    EqualFirstSums(As(ls), Bs(ls));
    assert r.LeadA()[0] == FirstSum(As(ls)) && r.LeadB()[0] == FirstSum(Bs(ls));
  }

  /** Concatenated pieces of higher rank multiply to the advertised shape exactly when
      their first sizes add up to the same number, or A's to 1. */
  lemma CatWfExactly(ls: seq<Lora>)
    requires |ls| > 0 && AllWf(ls) && AllConstructed(ls) && ls[0].Ndim() > 2 && CanCat(As(ls)) && CanCat(Bs(ls))
    ensures var r := Lora(Cat(As(ls)), Cat(Bs(ls)));
      r.Constructed() ==> (r.Wf() <==> FirstSum(As(ls)) == FirstSum(Bs(ls)) || FirstSum(As(ls)) == 1)
  {
    hide Cat, Prod, Product;
    var r, l := Lora(Cat(As(ls)), Cat(Bs(ls))), ls[0];
    CatFirst(As(ls));
    CatFirst(Bs(ls));
    if r.Constructed() {
      assert l.Wf() && r.A.shape[1..] == l.A.shape[1..] && r.B.shape[1..] == l.B.shape[1..];
      assert r.LeadA()[0] == FirstSum(As(ls)) && r.LeadB()[0] == FirstSum(Bs(ls));
      forall i | 1 <= i < |r.LeadA()| ensures r.LeadA()[i] == r.LeadB()[i] || r.LeadA()[i] == 1 {
        assert r.A.shape[1..][i - 1] == l.A.shape[1..][i - 1] && r.B.shape[1..][i - 1] == l.B.shape[1..][i - 1];
        assert l.LeadA()[i] == l.LeadB()[i] || l.LeadA()[i] == 1;
      }
    }
  }

  lemma {:induction false} AllFirstZero(ts: seq<Tensor>)
    requires forall i | 0 <= i < |ts| :: |ts[i].shape| > 0 && ts[i].shape[0] == 0
    ensures FirstSum(ts) == 0
  {
    if ts != [] { AllFirstZero(ts[1..]); }
  }

  lemma EmptyPart(t: Tensor, u: Tensor)
    requires t.Valid() && u.Valid() && SameTail(t, u)
    ensures u.shape[0] == 0 ==> Cat2(t, u) == t
    ensures t.shape[0] == 0 ==> Cat2(t, u) == u
  {
    assert t.shape == [t.shape[0]] + t.shape[1..] && u.shape == [u.shape[0]] + u.shape[1..];
    assert u.shape[0] == 0 ==> u.data == [];
    assert t.shape[0] == 0 ==> t.data == [];
    assert t.data + [] == t.data && [] + u.data == u.data;
  }

  /** When all others are empty, concatenation gives the one tensor that is not. */
  lemma {:induction false} CatOfOne(ts: seq<Tensor>, k: nat)
    requires CanCat(ts) && k < |ts| && forall i | 0 <= i < |ts| && i != k :: ts[i].shape[0] == 0
    ensures Cat(ts) == ts[k]
  {
    hide Cat2;
    if |ts| > 1 {
      CanCatTail(ts);
      EmptyPart(ts[0], Cat(ts[1..]));
      if k == 0 {
        CatFirst(ts[1..]);
        AllFirstZero(ts[1..]);
      } else {
        CatOfOne(ts[1..], k - 1);
      }
    }
  }

  lemma {:induction false} OneNotEmpty(ts: seq<Tensor>) returns (k: nat)
    requires (forall i | 0 <= i < |ts| :: |ts[i].shape| > 0) && FirstSum(ts) == 1
    ensures k < |ts| && ts[k].shape[0] == 1 && forall i | 0 <= i < |ts| && i != k :: ts[i].shape[0] == 0
  {
    if ts[0].shape[0] == 1 {
      k := 0;
      forall i | 0 < i < |ts| ensures ts[i].shape[0] == 0 { FirstAtMost(ts[1..], i - 1); }
    } else {
      k := OneNotEmpty(ts[1..]);
      k := k + 1;
    }
  }

  lemma {:induction false} FirstAtMost(ts: seq<Tensor>, i: nat)
    requires (forall i | 0 <= i < |ts| :: |ts[i].shape| > 0) && i < |ts|
    ensures ts[i].shape[0] <= FirstSum(ts)
  {
    if i > 0 { FirstAtMost(ts[1..], i - 1); }
  }

  lemma ProductsCat(ls: seq<Lora>)
    requires |ls| > 0 && AllConstructed(ls) && ls[0].Ndim() > 2 && CanCat(As(ls)) && CanCat(Bs(ls))
    ensures CanCat(Products(ls))
  {
    hide Product, Prod;
    forall i | 0 <= i < |ls| ensures SameTail(Products(ls)[i], Products(ls)[0]) {
      assert SameTail(As(ls)[i], As(ls)[0]) && SameTail(Bs(ls)[i], Bs(ls)[0]);
      ShapeTail(ls[i]);
      ShapeTail(ls[0]);
    }
  }

  /** Behind the first axis, the shape follows from the factors behind theirs. */
  lemma ShapeTail(l: Lora)
    requires l.Constructed() && l.Ndim() > 2
    ensures |l.Shape()| == l.Ndim() && |l.A.shape[1..]| == |l.B.shape[1..]| == l.Ndim() - 1
    ensures l.Shape()[1..] == l.B.shape[1..][..l.Ndim() - 2] + [l.A.shape[1..][l.Ndim() - 2]]
  {
    hide Prod;
    var n := l.Ndim();
    assert l.Shape() == l.B.shape[..n - 1] + [l.A.shape[n - 1]];
    assert l.B.shape[..n - 1][1..] == l.B.shape[1..][..n - 2];
  }

  /** One position of A in all: every other piece is empty. */
  lemma CatOneDeep(ls: seq<Lora>)
    requires |ls| > 0 && AllWf(ls) && AllConstructed(ls) && ls[0].Ndim() > 2
    requires CanCat(As(ls)) && CanCat(Bs(ls)) && FirstSum(As(ls)) == 1
    ensures CanCat(Products(ls)) && Denotes(Lora(Cat(As(ls)), Cat(Bs(ls))), Cat(Products(ls)))
  {
    hide Product, Cat, Prod;
    ProductsCat(ls);
    var k := OneNotEmpty(As(ls));
    forall i | 0 <= i < |ls| && i != k ensures ls[i].B.shape[0] == 0 && ls[i].Shape()[0] == 0 {
      assert ls[i].Wf() && |ls[i].A.shape| == |As(ls)[0].shape| > 2;
      assert ls[i].LeadA()[0] == ls[i].A.shape[0] && ls[i].LeadB()[0] == ls[i].B.shape[0];
    }
    CatOfOne(As(ls), k);
    CatOfOne(Bs(ls), k);
    CatOfOne(Products(ls), k);
  }

  /** Concatenation of factor pairs. Matrices with one shared A: always right. Higher
      ranks: the result multiplies to the advertised shape exactly when the first sizes
      of the A's add up to those of the B's or to 1, which for several pieces none of
      which is empty means that the factors of every piece agree; and it is right when
      they do, or the A's add up to 1. */
  lemma CatCorrect(ls: seq<Lora>)
    requires AllWf(ls) && AllConstructed(ls) && CatLora(ls).Some?
    ensures |ls| > 0
    ensures ls[0].Ndim() == 2 || AllSameFirst(ls) || |ls| == 1 || (CanCat(As(ls)) && FirstSum(As(ls)) == 1) ==>
      CanCat(Products(ls)) && Denotes(CatLora(ls).value, Cat(Products(ls)))
    ensures ls[0].Ndim() > 2 ==> CanCat(As(ls)) && CanCat(Bs(ls))
    ensures ls[0].Ndim() > 2 ==>
            (CatLora(ls).value.Wf() <==> FirstSum(As(ls)) == FirstSum(Bs(ls)) || FirstSum(As(ls)) == 1)
    ensures ls[0].Ndim() > 2 && (forall i | 0 <= i < |ls| :: ls[i].B.shape[0] > 0) ==>
      (CatLora(ls).value.Wf() <==> AllSameFirst(ls) || |ls| == 1)
  {
    hide Product, Cat2, Prod;
    if ls[0].Ndim() == 2 {
      CatFlat(ls);
    } else {
      CatWfExactly(ls);
      if |ls| == 1 {
        assert Cat(As(ls)) == ls[0].A && Cat(Bs(ls)) == ls[0].B;
        assert Products(ls) == [Product(ls[0])];
      } else if AllSameFirst(ls) {
        CatDeep(ls);
      } else {
        if FirstSum(As(ls)) == 1 { CatOneDeep(ls); }
        if (forall i | 0 <= i < |ls| :: ls[i].B.shape[0] > 0) && CatLora(ls).value.Wf() { CatNeedsSameFirst(ls); }
      }
    }
  }

  /** The element of a column of numbers. */
  lemma ColumnAt(a: nat, data: seq<int>, i: nat)
    requires |data| == a && i < a
    ensures Tensor([a, 1, 1], data).Valid() && Tensor([a, 1, 1], data).At([i, 0, 0]) == data[i]
  {
    assert [a, 1, 1][1..] == [1, 1] && [1, 1][1..] == [1];
    Prod1(1);
    assert [i, 0, 0] == [i] + [0, 0] && [0, 0] == [0] + [0] && [0, 0][1..] == [0] && [0][1..] == [];
    RavelCons([a, 1, 1], i, [0, 0]);
    RavelCons([1, 1], 0, [0]);
  }

  /** The first entry of a pair of columns with shared rank 1. */
  lemma ColumnPair(a: nat, x: seq<int>, y: seq<int>)
    requires |x| == |y| == a > 0
    ensures var l := Lora(Tensor([a, 1, 1], x), Tensor([a, 1, 1], y));
      l.Wf() && l.Ndim() == 3 && Product(l).At([0, 0, 0]) == y[0] * x[0]
  {
    hide Product, Tensor.At, Entry, Prod;
    var l := Lora(Tensor([a, 1, 1], x), Tensor([a, 1, 1], y));
    ColumnAt(a, x, 0);
    ColumnAt(a, y, 0);
    assert l.LeadA() == [a] == l.LeadB() && l.Wf();
    assert Bcast([a], [0]) == [0];
    assert [0] + [0, 0] == [0, 0, 0] && [0] + [0] + [0] == [0, 0, 0];
    EntryParts(l, [0], 0, 0);
    assert RankSum(l.B, l.A, [0] + [0], [0], 0, 0) == 0;
  }

  /** An empty pair of columns, and a pair in which two rows of B share one of A. */
  function EmptyPair(p: int): Lora { Lora(Tensor([1, 1, 1], [p]), Tensor([0, 1, 1], [])) }

  function SharedPair(q: int): Lora { Lora(Tensor([1, 1, 1], [q]), Tensor([2, 1, 1], [1, 1])) }

  function BalancedCat(p: int, q: int): Lora { Lora(Tensor([2, 1, 1], [p, q]), Tensor([2, 1, 1], [1, 1])) }

  lemma BalancedPieces(p: int, q: int)
    ensures EmptyPair(p).Wf() && SharedPair(q).Wf() && EmptyPair(p).Shape()[0] == 0
    ensures BalancedCat(p, q).Wf() && BalancedCat(p, q).Ndim() == 3 && Product(BalancedCat(p, q)).At([0, 0, 0]) == p
  {
    hide Product, Tensor.At, Prod;
    EmptyColumn();
    ColumnAt(1, [p], 0);
    ColumnAt(1, [q], 0);
    ColumnAt(2, [1, 1], 0);
    ColumnPair(2, [p, q], [1, 1]);
    assert EmptyPair(p).LeadA() == [1] && EmptyPair(p).LeadB() == [0];
    assert SharedPair(q).LeadA() == [1] && SharedPair(q).LeadB() == [2];
  }

  /** A balance that is not enough: an empty piece brings a position of A, a piece with one
      position of A has two of B, the sums agree, and the result reads the wrong A. */
  lemma BalancedButWrong(p: int, q: int)
    requires p != q
    ensures var ls := [EmptyPair(p), SharedPair(q)];
      AllWf(ls) && CatLora(ls).Some? && CatLora(ls).value.Wf() && CanCat(Products(ls))
      && !Denotes(CatLora(ls).value, Cat(Products(ls)))
  {
    hide Product, Tensor.At, Prod, Lora.Wf;
    var l, m, r := EmptyPair(p), SharedPair(q), BalancedCat(p, q);
    var ls := [l, m];
    BalancedPieces(p, q);
    WfConstructed(l);
    WfConstructed(m);
    WfConstructed(r);
    assert [1] + [1, 1] == [1, 1, 1];
    CatOfTwo(l, m, r);
    hide CatLora, Cat;
    ProductsCat(ls);
    CatOfOne(Products(ls), 1);
    SharedEntry(m, q);
  }

  lemma WfConstructed(l: Lora)
    requires l.Wf()
    ensures l.Constructed()
  {
  }

  lemma EmptyColumn()
    ensures Tensor([0, 1, 1], []).Valid()
  {
    assert [0, 1, 1][1..] == [1, 1];
  }

  lemma ColumnsJoin(t: Tensor, u: Tensor, v: Tensor)
    requires t.Valid() && u.Valid() && |t.shape| == |u.shape| == |v.shape| == 3
    requires t.shape[1..] == u.shape[1..] == v.shape[1..]
    requires v.shape[0] == t.shape[0] + u.shape[0] && v.data == t.data + u.data
    ensures CanCat([t, u]) && Cat([t, u]) == v
  {
    hide Prod;
    assert [t, u][1..] == [u];
    assert v.shape == [v.shape[0]] + v.shape[1..];
  }

  lemma CatOfTwo(l: Lora, m: Lora, r: Lora)
    requires l.Constructed() && m.Constructed() && r.Constructed() && l.Ndim() == m.Ndim() == r.Ndim() == 3
    requires l.A.shape[1..] == m.A.shape[1..] == r.A.shape[1..] && r.A.shape[0] == l.A.shape[0] + m.A.shape[0]
    requires l.B.shape[1..] == m.B.shape[1..] == r.B.shape[1..] && r.B.shape[0] == l.B.shape[0] + m.B.shape[0]
    requires r.A.data == l.A.data + m.A.data && r.B.data == l.B.data + m.B.data
    ensures CatLora([l, m]) == Some(r) && CanCat(As([l, m])) && CanCat(Bs([l, m]))
  {
    hide Cat, Prod, CanCat;
    var ls := [l, m];
    assert As(ls) == [l.A, m.A] && Bs(ls) == [l.B, m.B];
    ColumnsJoin(l.A, m.A, r.A);
    ColumnsJoin(l.B, m.B, r.B);
  }

  lemma SharedEntry(m: Lora, q: int)
    requires m == Lora(Tensor([1, 1, 1], [q]), Tensor([2, 1, 1], [1, 1])) && m.Wf()
    ensures Product(m).At([0, 0, 0]) == q
  {
    hide Product, Tensor.At, Entry, Prod;
    ColumnAt(1, [q], 0);
    ColumnAt(2, [1, 1], 0);
    assert m.LeadA() == [1] && m.LeadB() == [2] && Bcast([1], [0]) == [0];
    assert [0] + [0, 0] == [0, 0, 0] && [0] + [0] + [0] == [0, 0, 0];
    EntryParts(m, [0], 0, 0);
    assert RankSum(m.B, m.A, [0] + [0], [0], 0, 0) == 0;
  }

  // ---- stack ----

  function StackLora(ls: seq<Lora>): (r: Option<Lora>)
    requires AllConstructed(ls)
  {
    if CanStack(As(ls)) && CanStack(Bs(ls)) then Make(Stack(As(ls)), Stack(Bs(ls))) else None
  }

  function Lifted(l: Lora): Lora { Lora(NewAxis(l.A), NewAxis(l.B)) }

  function LiftAll(ls: seq<Lora>): (ms: seq<Lora>)
    ensures |ms| == |ls| && forall i | 0 <= i < |ls| :: ms[i] == Lifted(ls[i])
  {
    seq(|ls|, i requires 0 <= i < |ls| => Lifted(ls[i]))
  }

  lemma LiftedShape(l: Lora)
    requires l.Wf()
    ensures Lifted(l).Wf() && SameFirst(Lifted(l)) && Lifted(l).Ndim() > 2
    ensures Lifted(l).LeadA() == [1] + l.LeadA() && Lifted(l).LeadB() == [1] + l.LeadB()
    ensures Lifted(l).Shape() == [1] + l.Shape()
  {
    hide Prod;
  }

  lemma LiftedDenotes(l: Lora)
    requires l.Wf()
    ensures SameFirst(Lifted(l)) && Lifted(l).Ndim() > 2
    ensures Denotes(Lifted(l), NewAxis(Product(l)))
  {
    hide Product, Tensor.At;
    LiftedShape(l);
    var r, w := Lifted(l), NewAxis(Product(l));
    forall idx | InBounds(w.shape, idx) ensures Product(r).At(idx) == w.At(idx) {
      assert idx == [0] + idx[1..];
      IndexParts(l, idx[1..]);
      LiftedEntry(l, idx[1..]);
    }
    Extensional(Product(r), w);
  }

  lemma LiftedEntry(l: Lora, u: seq<nat>)
    requires l.Wf() && Lifted(l).Wf() && InBounds(l.Shape(), u)
    ensures Product(Lifted(l)).At([0] + u) == NewAxis(Product(l)).At([0] + u)
  {
    hide Product, Tensor.At, Entry;
    LiftedShape(l);
    IndexParts(l, u);
    var n, r := |u|, Lifted(l);
    var o, x, y := u[..n - 2], u[n - 2], u[n - 1];
    NewAxisAt(Product(l), u);
    InBoundsAppend([1], l.LeadB(), [0], o);
    assert [0] + u == [0] + o + [x, y];
    EntryParts(l, o, x, y);
    EntryParts(r, [0] + o, x, y);
    var lead := Bcast(l.LeadA(), o);
    assert Bcast(r.LeadA(), [0] + o) == [0] + lead by { BcastCons(r.LeadA(), 0, o); }
    BcastInBounds(l.LeadA(), l.LeadB(), o);
    forall t: nat | t < l.Rank() ensures r.B.At([0] + o + [x] + [t]) == l.B.At(o + [x] + [t]) * 1 {
      LiftedAt(l.B, o, x, t);
      assert [0] + o + [x] + [t] == [0] + (o + [x, t]) && o + [x] + [t] == o + [x, t];
    }
    forall t: nat | t < l.Rank() ensures r.A.At([0] + lead + [t, y]) == l.A.At(lead + [t, y]) {
      LiftedAt(l.A, lead, t, y);
      assert [0] + lead + [t, y] == [0] + (lead + [t, y]);
    }
    RankSumScaled(1, l.B, l.A, o + [x], lead, y, r.B, r.A, [0] + o + [x], [0] + lead, y, l.Rank());
  }

  lemma LiftedAt(t: Tensor, o: seq<nat>, x: nat, y: nat)
    requires t.Valid() && |t.shape| == |o| + 2 && InBounds(t.shape[..|o|], o)
    requires x < t.shape[|o|] && y < t.shape[|o| + 1]
    ensures NewAxis(t).At([0] + (o + [x, y])) == t.At(o + [x, y])
  {
    hide Tensor.At;
    assert t.shape == t.shape[..|o|] + [t.shape[|o|], t.shape[|o| + 1]];
    InBoundsAppend(t.shape[..|o|], [t.shape[|o|], t.shape[|o| + 1]], o, [x, y]);
    NewAxisAt(t, o + [x, y]);
  }

  lemma StackIsCat(ts: seq<Tensor>)
    requires CanStack(ts)
    ensures CanCat(MapNewAxis(ts))
  {
    hide Prod;
  }

  /** Stacking the factors stacks the products. */
  lemma StackCorrect(ls: seq<Lora>)
    requires AllWf(ls) && AllConstructed(ls) && StackLora(ls).Some?
    ensures CanStack(Products(ls))
    ensures Denotes(StackLora(ls).value, Stack(Products(ls)))
  {
    hide Product, Cat, Prod, Tensor.At;
    var ms := LiftAll(ls);
    forall i | 0 <= i < |ls|
      ensures ms[i].Wf() && SameFirst(ms[i]) && Product(ms[i]) == NewAxis(Product(ls[i]))
      ensures Product(ls[i]).shape == Product(ls[0]).shape
    {
      LiftedDenotes(ls[i]);
      assert As(ls)[i].shape == As(ls)[0].shape && Bs(ls)[i].shape == Bs(ls)[0].shape;
    }
    assert As(ms) == MapNewAxis(As(ls)) && Bs(ms) == MapNewAxis(Bs(ls));
    assert Products(ms) == MapNewAxis(Products(ls));
    LiftedDenotes(ls[0]);
    StackIsCat(As(ls));
    StackIsCat(Bs(ls));
    CatDeep(ms);
  }

  // ---- cat undoes split ----

  lemma NarrowFirstAt(t: Tensor, lo: nat, len: nat, i: nat, u: seq<nat>)
    requires |t.shape| > 0 && i < len && InBounds(t.shape[1..], u)
    ensures Narrow(t, 0, lo, len).shape == [len] + t.shape[1..]
    ensures Narrow(t, 0, lo, len).At([i] + u) == t.At([lo + i] + u)
  {
    var sels := NarrowSels(t.shape, 0, lo, len);
    assert sels[1..] == FullSels(t.shape[1..]);
    SourceFull(t.shape[1..], u);
    assert OutShape(sels) == [len] + t.shape[1..];
    assert ([i] + u)[1..] == u;
    RavelCons([len] + t.shape[1..], i, u);
    assert Source(sels, [i] + u) == [lo + i] + u;
    SelectAt(t, sels, [i] + u);
  }

  lemma NarrowFirstShape(t: Tensor, lo: nat, len: nat)
    requires |t.shape| > 0
    ensures Narrow(t, 0, lo, len).shape == [len] + t.shape[1..]
  {
    assert NarrowSels(t.shape, 0, lo, len)[1..] == FullSels(t.shape[1..]);
    OutShapeFull(t.shape[1..]);
  }

  lemma NarrowJoin(t: Tensor, lo: nat, a: nat, b: nat)
    requires |t.shape| > 0
    ensures SameTail(Narrow(t, 0, lo, a), Narrow(t, 0, lo + a, b))
    ensures Cat2(Narrow(t, 0, lo, a), Narrow(t, 0, lo + a, b)) == Narrow(t, 0, lo, a + b)
  {
    hide Narrow, Tensor.At;
    NarrowFirstShape(t, lo, a);
    NarrowFirstShape(t, lo + a, b);
    NarrowFirstShape(t, lo, a + b);
    var x, y, z := Narrow(t, 0, lo, a), Narrow(t, 0, lo + a, b), Narrow(t, 0, lo, a + b);
    forall idx | InBounds(z.shape, idx) ensures Cat2(x, y).At(idx) == z.At(idx) {
      var i, u := idx[0], idx[1..];
      assert idx == [i] + u && InBounds(t.shape[1..], u);
      Cat2At(x, y, i, u);
      NarrowFirstAt(t, lo, a + b, i, u);
      if i < a {
        NarrowFirstAt(t, lo, a, i, u);
      } else {
        NarrowFirstAt(t, lo + a, b, i - a, u);
      }
    }
    Extensional(Cat2(x, y), z);
  }

  lemma {:induction false} CatPieces(t: Tensor, lo: nat, sizes: seq<nat>)
    requires |t.shape| > 0 && sizes != []
    ensures CanCat(Pieces(t, 0, lo, sizes))
    ensures Cat(Pieces(t, 0, lo, sizes)) == Narrow(t, 0, lo, Sum(sizes))
    decreases |sizes|
  {
    hide Narrow, Cat2;
    var ps := Pieces(t, 0, lo, sizes);
    NarrowFirstShape(t, lo, sizes[0]);
    if |sizes| == 1 {
      assert sizes[1..] == [] && Sum(sizes) == sizes[0];
      assert ps == [Narrow(t, 0, lo, sizes[0])];
    } else {
      CatPieces(t, lo + sizes[0], sizes[1..]);
      NarrowJoin(t, lo, sizes[0], Sum(sizes[1..]));
      assert ps[1..] == Pieces(t, 0, lo + sizes[0], sizes[1..]);
      CanCatCons(ps);
      CanCatTail(ps);
    }
  }

  lemma CatAllPieces(t: Tensor, sizes: seq<nat>)
    requires t.Valid() && |t.shape| > 0 && sizes != [] && Sum(sizes) == t.shape[0]
    ensures CanCat(Pieces(t, 0, 0, sizes)) && Cat(Pieces(t, 0, 0, sizes)) == t
  {
    hide Cat2, Select;
    CatPieces(t, 0, sizes);
    assert NarrowSels(t.shape, 0, 0, t.shape[0]) == FullSels(t.shape);
    SelectFull(t);
  }

  lemma {:induction false} PairsFactors(as_: seq<Tensor>, bs: seq<Tensor>)
    requires |as_| == |bs|
    ensures As(Pairs(as_, bs)) == as_ && Bs(Pairs(as_, bs)) == bs
  {
    hide Tensor.At;
    if as_ != [] {
      PairsFactors(as_[1..], bs[1..]);
      var p, q := Pairs(as_, bs), Pairs(as_[1..], bs[1..]);
      assert As(p) == [as_[0]] + As(q) && Bs(p) == [bs[0]] + Bs(q);
    }
  }

  lemma {:induction false} WithAFactors(a: Tensor, bs: seq<Tensor>)
    ensures Bs(WithA(a, bs)) == bs && forall i | 0 <= i < |bs| :: WithA(a, bs)[i].A == a
  {
    if bs != [] {
      WithAFactors(a, bs[1..]);
      assert Bs(WithA(a, bs)) == [bs[0]] + Bs(WithA(a, bs[1..]));
    }
  }

  // ---- pieces that share A ----

  function Copies(a: Tensor, m: nat): (ts: seq<Tensor>)
    ensures |ts| == m && forall i | 0 <= i < m :: ts[i] == a
  {
    seq(m, i requires 0 <= i < m => a)
  }

  lemma {:induction false} WithACopies(a: Tensor, bs: seq<Tensor>)
    ensures As(WithA(a, bs)) == Copies(a, |bs|)
  {
    if bs != [] {
      WithACopies(a, bs[1..]);
      assert As(WithA(a, bs)) == [a] + As(WithA(a, bs[1..]));
    }
  }

  /** Copies of a tensor with one first position, concatenated. */
  lemma {:induction false} CatCopies(a: Tensor, m: nat)
    requires a.Valid() && |a.shape| > 0 && a.shape[0] == 1 && m > 0
    ensures CanCat(Copies(a, m)) && Cat(Copies(a, m)).shape == [m] + a.shape[1..]
    ensures forall i: nat | i < m :: SameSlice(Cat(Copies(a, m)), a, i, 0)
  {
    hide Cat2, Tensor.At;
    var ts := Copies(a, m);
    assert a.shape == [1] + a.shape[1..];
    if m > 1 {
      CatCopies(a, m - 1);
      assert ts[1..] == Copies(a, m - 1);
      CanCatTail(ts);
      var rest := Cat(Copies(a, m - 1));
      forall i: nat | i < m ensures SameSlice(Cat(ts), a, i, 0) {
        Cat2Slice(a, rest, i);
        if i > 0 { assert SameSlice(rest, a, i - 1, 0); }
      }
    }
  }

  /** A copied once for every first position of B denotes what A shared denotes. */
  lemma SharedCopies(l: Lora, m: nat)
    requires l.Wf() && l.Ndim() > 2 && l.A.shape[0] == 1 && l.B.shape[0] == m > 0
    ensures CanCat(Copies(l.A, m)) && Denotes(Lora(Cat(Copies(l.A, m)), l.B), Product(l))
  {
    hide Product, Tensor.At, Cat, Prod;
    CatCopies(l.A, m);
    var r, n := Lora(Cat(Copies(l.A, m)), l.B), l.Ndim();
    assert forall j | 1 <= j < n :: r.A.shape[j] == l.A.shape[j];
    assert r.LeadA() == [m] + l.LeadA()[1..] && r.Shape() == l.Shape();
    forall j | 1 <= j < n - 2 ensures r.LeadA()[j] == l.LeadA()[j] {}
    assert r.Wf();
    forall idx | InBounds(l.Shape(), idx) ensures Product(r).At(idx) == Product(l).At(idx) {
      CopiesEntry(l, r, idx);
    }
    Extensional(Product(r), Product(l));
  }

  lemma CopiesEntry(l: Lora, r: Lora, idx: seq<nat>)
    requires l.Wf() && r.Wf() && l.Ndim() == r.Ndim() > 2 && r.B == l.B && l.A.shape[0] == 1 && InBounds(l.Shape(), idx)
    requires r.Shape() == l.Shape() && r.A.shape == [l.B.shape[0]] + l.A.shape[1..]
    requires forall i: nat | i < l.B.shape[0] :: SameSlice(r.A, l.A, i, 0)
    ensures Product(r).At(idx) == Product(l).At(idx)
  {
    hide Product, Tensor.At, Entry;
    var n := l.Ndim();
    IndexParts(l, idx);
    var o, i, u, x, y := idx[..n - 2], idx[0], idx[1..n - 2], idx[n - 2], idx[n - 1];
    assert o == [i] + u && idx == o + [x, y];
    assert l.LeadA()[0] == 1 && r.LeadA()[0] == l.B.shape[0] == l.LeadB()[0] && r.LeadA()[1..] == l.LeadA()[1..];
    var tail := Bcast(l.LeadA()[1..], u);
    BcastCons(l.LeadA(), i, u);
    BcastCons(r.LeadA(), i, u);
    assert Bcast(l.LeadA(), o) == [0] + tail && Bcast(r.LeadA(), o) == [i] + tail;
    EntryParts(r, o, x, y);
    EntryParts(l, o, x, y);
    assert InBounds(l.LeadB()[1..], u) && BroadcastableTo(l.LeadA()[1..], l.LeadB()[1..]);
    BcastInBounds(l.LeadA()[1..], l.LeadB()[1..], u);
    assert l.A.shape[..|tail| + 1][1..] == l.LeadA()[1..];
    forall t: nat | t < l.Rank() ensures r.A.At([i] + tail + [t, y]) == l.A.At([0] + tail + [t, y]) {
      SliceColumnAt(r.A, l.A, i, 0, tail, t, y);
    }
    RankSumScaled(1, l.B, l.A, o + [x], [0] + tail, y, r.B, r.A, o + [x], [i] + tail, y, l.Rank());
  }

  /** What concatenating m pieces that share A gives. */
  lemma CatShared(l: Lora, m: nat)
    requires l.Wf() && l.Ndim() > 2 && l.A.shape[0] == 1 && m > 0
    ensures CanCat(Copies(l.A, m))
    ensures var r := Lora(Cat(Copies(l.A, m)), l.B);
      && r.Constructed()
      && (r == l <==> m == 1)
      && (Denotes(r, Product(l)) <==> m == 1 || m == l.B.shape[0])
  {
    hide Product, Prod, Cat2;
    CatCopies(l.A, m);
    var r := Lora(Cat(Copies(l.A, m)), l.B);
    assert r.LeadA()[0] == m && r.LeadB()[0] == l.B.shape[0] && l.A.shape == [1] + l.A.shape[1..];
    if m == 1 {
      assert Copies(l.A, 1) == [l.A];
    } else if m == l.B.shape[0] {
      SharedCopies(l, m);
    }
  }

  /** Concatenating the pieces of a split along the first axis, whenever there is one,
      gives back the very same factors exactly when they are matrices, or A has more than
      one position there or none, or there is one piece. It still denotes the same tensor
      exactly when, besides, there may be as many pieces as first positions. */
  lemma CatUndoesSplit(l: Lora, spec: SplitSpec)
    requires l.Wf() && Split(l, spec, 0).Some?
    ensures AllConstructed(Split(l, spec, 0).value)
    ensures var ls := Split(l, spec, 0).value;
      && (CatLora(ls).Some? <==> ls != [])
      && (ls != [] ==> (CatLora(ls) == Some(l) <==> l.Ndim() == 2 || l.A.shape[0] != 1 || |ls| == 1))
      && (ls != [] ==> (Denotes(CatLora(ls).value, Product(l)) <==>
            l.Ndim() == 2 || l.A.shape[0] != 1 || |ls| == 1 || |ls| == l.B.shape[0]))
  {
    hide Cat, Product, Select, Narrow, Pieces, CanCat;
    var ls, sizes := Split(l, spec, 0).value, PieceSizes(spec, l.B.shape[0]).value;
    if ls != [] {
      CatAllPieces(l.B, sizes);
      if l.Ndim() == 2 {
        WithAFactors(l.A, Pieces(l.B, 0, 0, sizes));
      } else {
        assert l.LeadA()[0] == l.A.shape[0] && l.LeadB()[0] == l.B.shape[0];
        if l.A.shape[0] == 1 {
          WithAFactors(l.A, Pieces(l.B, 0, 0, sizes));
          WithACopies(l.A, Pieces(l.B, 0, 0, sizes));
          CatShared(l, |sizes|);
        } else {
          CatAllPieces(l.A, sizes);
          PairsFactors(Pieces(l.A, 0, 0, sizes), Pieces(l.B, 0, 0, sizes));
        }
      }
    }
  }

  /** Any pair of higher rank with one first position: a split into a full and an empty
      piece, and the concatenation of the two, ruin it. */
  lemma SharedSplitFails(l: Lora)
    requires l.Wf() && l.Ndim() > 2 && l.A.shape[0] == 1 && l.B.shape[0] == 1
    ensures Split(l, Parts([1, 0]), 0).Some?
    ensures var ls := Split(l, Parts([1, 0]), 0).value;
      AllConstructed(ls) && CatLora(ls).Some? && !Denotes(CatLora(ls).value, Product(l))
  {
    hide Split, CatLora, Denotes, Product, PieceSizes, Prod;
    assert l.Shape()[0] == 1;
    PartsOfOne();
    SplitCount(l, Parts([1, 0]), 0);
    CatUndoesSplit(l, Parts([1, 0]));
  }

  lemma PartsOfOne()
    ensures PieceSizes(Parts([1, 0]), 1) == Some([1, 0])
  {
    var s: seq<nat> := [1, 0];
    assert s[1..] == [0] && s[1..][1..] == [];
    assert Sum(s) == 1 && Nats([1, 0]) == s;
  }

  /** One pair for every piece of the product. */
  lemma SplitCount(l: Lora, spec: SplitSpec, dim: int)
    requires l.Wf() && IsAxis(dim, l.Ndim()) && PieceSizes(spec, l.Shape()[Wrap(dim, l.Ndim())]).Some?
    ensures Split(l, spec, dim).Some?
    ensures |Split(l, spec, dim).value| == |PieceSizes(spec, l.Shape()[Wrap(dim, l.Ndim())]).value|
  {
    hide Split, Product, Pieces, Denotes;
    SplitWithin(l, spec, dim);
  }
}
