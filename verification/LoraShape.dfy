/** LoraTorchTensor.reshape, permute, transpose and __mul__. */
module LoraShape {
  import opened Options
  import opened Tensors
  import opened Lora
  import opened LoraIndexing

  // ---- the row-major view of the product ----

  function Nth(s: seq<int>, i: nat): int {
    if i < |s| then s[i] else 0
  }

  /** Row q of B (rows of k numbers) against column j of A (rows of c numbers). */
  function FlatSum(b: seq<int>, a: seq<int>, q: nat, j: nat, k: nat, c: nat, t: nat): int {
    if t == 0 then 0 else FlatSum(b, a, q, j, k, c, t - 1) + Nth(b, q * k + (t - 1)) * Nth(a, (t - 1) * c + j)
  }

  lemma {:induction false} RankSumFlat(l: Lora, row: seq<nat>, lead: seq<nat>, j: nat, q: nat, t: nat)
    requires l.Constructed() && t <= l.Rank() && j < l.Cols() && Prod(l.LeadA()) == 1
    requires InBounds(l.B.shape[..l.Ndim() - 1], row) && Ravel(l.B.shape[..l.Ndim() - 1], row) == q
    requires InBounds(l.LeadA(), lead)
    ensures RankSum(l.B, l.A, row, lead, j, t) == FlatSum(l.B.data, l.A.data, q, j, l.Rank(), l.Cols(), t)
  {
    hide Tensor.At, Prod, Ravel;
    if t > 0 {
      RankSumFlat(l, row, lead, j, q, t - 1);
      RowTerm(l.B, row, q, t - 1);
      ColumnTerm(l.A, lead, t - 1, j);
    }
  }

  lemma RowTerm(b: Tensor, row: seq<nat>, q: nat, u: nat)
    requires b.Valid() && |b.shape| >= 1
    requires InBounds(b.shape[..|b.shape| - 1], row) && Ravel(b.shape[..|b.shape| - 1], row) == q
    requires u < b.shape[|b.shape| - 1]
    ensures b.At(row + [u]) == Nth(b.data, q * b.shape[|b.shape| - 1] + u)
  {
    var s, k := b.shape[..|b.shape| - 1], b.shape[|b.shape| - 1];
    assert b.shape == s + [k];
    Prod1(k);
    RavelAppend(s, [k], row, [u]);
  }

  lemma ColumnTerm(a: Tensor, lead: seq<nat>, u: nat, j: nat)
    requires a.Valid() && |a.shape| >= 2 && Prod(a.shape[..|a.shape| - 2]) == 1
    requires InBounds(a.shape[..|a.shape| - 2], lead)
    requires u < a.shape[|a.shape| - 2] && j < a.shape[|a.shape| - 1]
    ensures a.At(lead + [u, j]) == Nth(a.data, u * a.shape[|a.shape| - 1] + j)
  {
    var s, k, c := a.shape[..|a.shape| - 2], a.shape[|a.shape| - 2], a.shape[|a.shape| - 1];
    assert a.shape == s + [k, c];
    Ravel2(k, c, u, j);
    RavelAppend(s, [k, c], lead, [u, j]);
    assert Ravel(s, lead) == 0;
  }

  lemma Ravel2(k: nat, c: nat, u: nat, j: nat)
    requires u < k && j < c
    ensures InBounds([k, c], [u, j]) && Ravel([k, c], [u, j]) == u * c + j
  {
    Prod1(c);
    assert [k, c][1..] == [c] && [u, j][1..] == [j];
  }

  function FlatAt(l: Lora, p: nat): int
    requires l.Constructed()
  {
    var c := l.Cols();
    if c == 0 then 0 else FlatSum(l.B.data, l.A.data, p / c, p % c, l.Rank(), c, l.Rank())
  }

  /** Element p of the product, when A has no leading axes to broadcast. */
  lemma FlatEntry(l: Lora, p: nat)
    requires l.Wf() && p < |Product(l).data|
    requires Prod(l.LeadA()) == 1 || l.Rank() == 0
    ensures Product(l).data[p] == FlatAt(l, p)
  {
    hide Entry, Product, Prod, Ravel, Unravel;
    var n, shape := l.Ndim(), l.Shape();
    var idx := Unravel(shape, p);
    assert Product(l).data[p] == Product(l).At(idx);
    hide Tensor.At;
    IndexParts(l, idx);
    var o, i, j := idx[..n - 2], idx[n - 2], idx[n - 1];
    var rows := l.B.shape[..n - 1];
    RowOffset(l, o, i, j);
    var q := Ravel(rows, o + [i]);
    DivModUnique(q, l.Cols(), j);
    EntryParts(l, o, i, j);
    if l.Rank() > 0 {
      BcastInBounds(l.LeadA(), l.LeadB(), o);
      RankSumFlat(l, o + [i], Bcast(l.LeadA(), o), j, q, l.Rank());
    }
  }

  lemma RowOffset(l: Lora, o: seq<nat>, i: nat, j: nat)
    requires l.Constructed() && InBounds(l.LeadB(), o) && i < l.B.shape[l.Ndim() - 2] && j < l.Cols()
    ensures var rows := l.B.shape[..l.Ndim() - 1];
      && InBounds(rows, o + [i]) && InBounds(l.Shape(), o + [i, j])
      && Ravel(l.Shape(), o + [i, j]) == Ravel(rows, o + [i]) * l.Cols() + j
  {
    var n := l.Ndim();
    var rows, r := l.B.shape[..n - 1], l.B.shape[n - 2];
    assert rows == l.LeadB() + [r] && o + [i, j] == (o + [i]) + [j];
    Prod1(r);
    Prod1(l.Cols());
    InBoundsAppend(l.LeadB(), [r], o, [i]);
    RavelAppend(rows, [l.Cols()], o + [i], [j]);
  }

  // ---- reshape ----

  /** math.prod over the requested sizes, with -1 counted as 1. */
  function SpecProd(spec: seq<int>): int {
    if spec == [] then 1 else (if spec[0] == -1 then 1 else spec[0]) * SpecProd(spec[1..])
  }

  /** The requested shape with every -1 replaced; None where the code or torch raises. */
  function ExpandShape(spec: seq<int>, total: nat): (s: Option<seq<nat>>)
    ensures s.Some? ==> |s.value| == |spec|
    ensures s.Some? ==> forall i | 0 <= i < |spec| :: spec[i] != -1 ==> s.value[i] == spec[i]
  {
    if exists i | 0 <= i < |spec| :: spec[i] < -1 then None
    else if -1 !in spec then
      Some(seq(|spec|, i requires 0 <= i < |spec| => (if spec[i] < 0 then 0 else spec[i]) as nat))
    else
      var m := SpecProd(spec);
      if m <= 0 || total % m != 0 then None
      else
        Some(seq(|spec|, i requires 0 <= i < |spec| =>
          (if spec[i] == -1 then total / m else if spec[i] < 0 then 0 else spec[i]) as nat))
  }

  /** At most one size is left open. */
  predicate OneOpen(spec: seq<int>) {
    forall i, j | 0 <= i < j < |spec| :: spec[i] != -1 || spec[j] != -1
  }

  /** The shape torch makes of a size list: one open size at most, filled so that the
      sizes multiply to total, which the others must divide. */
  function TorchShape(spec: seq<int>, total: nat): (s: Option<seq<nat>>)
    ensures s.Some? ==> |s.value| == |spec| && forall i | 0 <= i < |spec| :: spec[i] == s.value[i] || spec[i] == -1
  {
    if (exists i | 0 <= i < |spec| :: spec[i] < -1) || !OneOpen(spec) then None
    else
      var given := SpecProd(spec);
      var open :=
        if -1 !in spec then Some(0) else if given > 0 && total % given == 0 then Some(total / given) else None;
      if open.None? then None
      else Some(seq(|spec|, i requires 0 <= i < |spec| => (if spec[i] < 0 then open.value else spec[i]) as nat))
  }

  function ReshapeTensor(t: Tensor, s: seq<nat>): (u: Option<Tensor>)
    ensures u.Some? ==> u.value.Valid()
  {
    if Prod(s) == |t.data| then Some(Tensor(s, t.data)) else None
  }

  /** t.reshape(spec). */
  function ReshapeAs(t: Tensor, spec: seq<int>): (u: Option<Tensor>)
    ensures u.Some? ==> u.value.Valid()
  {
    var s := TorchShape(spec, |t.data|);
    if s.None? then None else ReshapeTensor(t, s.value)
  }

  function Reshape(l: Lora, spec: seq<int>): (r: Option<Lora>)
    requires l.Constructed()
  {
    var s := ExpandShape(spec, Prod(l.Shape()));
    if |spec| < 2 || s.None? || s.value[|spec| - 1] != l.Cols() then None else
    var n := |spec|;
    var a := ReshapeTensor(l.A, Ones(n - 2) + [l.Rank(), l.Cols()]);
    var b := ReshapeTensor(l.B, s.value[..n - 1] + [l.Rank()]);
    if a.None? || b.None? then None else Make(a.value, b.value)
  }

  lemma MulCancel(x: nat, y: nat, k: nat)
    requires x * k == y * k && k > 0
    ensures x == y
  {
    assert (x - y) * k == 0;
  }

  lemma ProdLast(s: seq<nat>)
    requires |s| >= 1
    ensures Prod(s) == Prod(s[..|s| - 1]) * s[|s| - 1]
  {
    assert s == s[..|s| - 1] + [s[|s| - 1]];
    Prod1(s[|s| - 1]);
    ProdAppend(s[..|s| - 1], [s[|s| - 1]]);
  }

  lemma ProdLastTwo(s: seq<nat>)
    requires |s| >= 2
    ensures Prod(s) == Prod(s[..|s| - 2]) * (s[|s| - 2] * s[|s| - 1])
  {
    var k, c := s[|s| - 2], s[|s| - 1];
    assert s == s[..|s| - 2] + [k, c];
    assert [k, c][1..] == [c];
    Prod1(c);
    ProdAppend(s[..|s| - 2], [k, c]);
  }

  /** What a successful reshape says about the factors. */
  lemma ReshapeFactors(l: Lora, spec: seq<int>)
    requires l.Wf() && Reshape(l, spec).Some?
    ensures ExpandShape(spec, Prod(l.Shape())).Some?
    ensures var r, s := Reshape(l, spec).value, ExpandShape(spec, Prod(l.Shape())).value;
      && r.Wf() && r.Shape() == s && r.A.data == l.A.data && r.B.data == l.B.data
      && r.Rank() == l.Rank() && r.Cols() == l.Cols() && Prod(r.LeadA()) == 1
  {
    var r, s := Reshape(l, spec).value, ExpandShape(spec, Prod(l.Shape())).value;
    assert r.LeadA() == Ones(|spec| - 2);
    ProdOnes(|spec| - 2);
    assert s == s[..|spec| - 1] + [l.Cols()];
  }

  lemma SameLeadSize(a: Tensor, a': Tensor)
    requires a.Valid() && a'.Valid() && a.data == a'.data && |a.shape| >= 2 && |a'.shape| >= 2
    requires a.shape[|a.shape| - 2..] == a'.shape[|a'.shape| - 2..]
    requires a.shape[|a.shape| - 2] > 0 && a.shape[|a.shape| - 1] > 0
    ensures Prod(a.shape[..|a.shape| - 2]) == Prod(a'.shape[..|a'.shape| - 2])
  {
    var k, c := a.shape[|a.shape| - 2], a.shape[|a.shape| - 1];
    assert a.shape[|a.shape| - 2..] == [k, c] && a'.shape[|a'.shape| - 2..] == [k, c];
    ProdLastTwo(a.shape);
    ProdLastTwo(a'.shape);
    assert k == a'.shape[|a'.shape| - 2] && c == a'.shape[|a'.shape| - 1];
    MulPositive(k, c);
    MulCancel(Prod(a.shape[..|a.shape| - 2]), Prod(a'.shape[..|a'.shape| - 2]), k * c);
  }

  lemma MulPositive(k: nat, c: nat)
    requires k > 0 && c > 0
    ensures k * c > 0
  {
  }

  lemma SameRowCount(l: Lora, r: Lora)
    requires l.Constructed() && r.Constructed() && l.B.data == r.B.data
    requires l.Rank() == r.Rank() > 0 && l.Cols() == r.Cols()
    ensures Prod(l.Shape()) == Prod(r.Shape())
  {
    ProdLast(l.B.shape);
    ProdLast(r.B.shape);
    MulCancel(Prod(l.B.shape[..l.Ndim() - 1]), Prod(r.B.shape[..r.Ndim() - 1]), l.Rank());
    ProdLast(l.Shape());
    ProdLast(r.Shape());
    assert l.Shape()[..l.Ndim() - 1] == l.B.shape[..l.Ndim() - 1];
    assert r.Shape()[..r.Ndim() - 1] == r.B.shape[..r.Ndim() - 1];
  }

  lemma ReshapeLead(l: Lora, spec: seq<int>)
    requires l.Wf() && Reshape(l, spec).Some? && l.Rank() > 0
    ensures l.Cols() > 0 ==> Prod(l.LeadA()) == 1
    ensures Prod(Reshape(l, spec).value.Shape()) == Prod(l.Shape())
  {
    var r := Reshape(l, spec).value;
    ReshapeFactors(l, spec);
    SameRowCount(l, r);
    if l.Cols() > 0 {
      SameTailSize(l, r);
    }
  }

  lemma SameTailSize(l: Lora, r: Lora)
    requires l.Constructed() && r.Constructed() && l.A.data == r.A.data
    requires l.Rank() == r.Rank() > 0 && l.Cols() == r.Cols() > 0
    ensures Prod(l.LeadA()) == Prod(r.LeadA())
  {
    hide Prod;
    var k, c := l.Rank(), l.Cols();
    assert l.A.shape[l.Ndim() - 2..] == [k, c] && r.A.shape[r.Ndim() - 2..] == [k, c];
    SameLeadSize(l.A, r.A);
  }

  /** With one open size at most, the code and torch fill in the same shape. */
  lemma SameFilling(spec: seq<int>, total: nat)
    ensures OneOpen(spec) ==> TorchShape(spec, total) == ExpandShape(spec, total)
  {
    hide SpecProd, OneOpen;
    var s, t := TorchShape(spec, total), ExpandShape(spec, total);
    if OneOpen(spec) && s.Some? && t.Some? {
      assert s.value == t.value;
    }
  }

  /** Reshaping to a given shape keeps the product's elements in order. */
  lemma ReshapeKeepsProduct(l: Lora, spec: seq<int>)
    requires l.Wf() && Reshape(l, spec).Some?
    ensures ExpandShape(spec, Prod(l.Shape())).Some?
    ensures var w, s := Product(l), ExpandShape(spec, Prod(l.Shape())).value;
      && (l.Rank() > 0 ==> ReshapeTensor(w, s).Some?)
      && (ReshapeTensor(w, s).Some? <==> Prod(s) == Prod(l.Shape()))
      && (ReshapeTensor(w, s).Some? ==> Denotes(Reshape(l, spec).value, ReshapeTensor(w, s).value))
  {
    hide Product, ExpandShape, Prod, Reshape;
    ReshapeFactors(l, spec);
    var w, s, r := Product(l), ExpandShape(spec, Prod(l.Shape())).value, Reshape(l, spec).value;
    if l.Rank() > 0 {
      ReshapeLead(l, spec);
    }
    if Prod(s) == |w.data| {
      SameFlat(l, r);
    }
  }

  /** The elements of the product depend on the factors' elements only. */
  lemma SameFlat(l: Lora, r: Lora)
    requires l.Wf() && r.Wf() && l.A.data == r.A.data && l.B.data == r.B.data
    requires l.Rank() == r.Rank() && l.Cols() == r.Cols() && Prod(l.Shape()) == Prod(r.Shape())
    requires Prod(r.LeadA()) == 1 && (l.Rank() > 0 && l.Cols() > 0 ==> Prod(l.LeadA()) == 1)
    ensures Product(l).data == Product(r).data
  {
    hide Product, Prod, FlatSum;
    forall p | 0 <= p < |Product(l).data| ensures Product(l).data[p] == Product(r).data[p] {
      if l.Cols() == 0 { NoColumns(l); }
      FlatEntry(r, p);
      FlatEntry(l, p);
    }
  }

  lemma NoColumns(l: Lora)
    requires l.Constructed() && l.Cols() == 0
    ensures Product(l).data == []
  {
    hide Product;
    var n := l.Ndim();
    assert l.Shape() == l.B.shape[..n - 1] + [0];
    ProdAppend(l.B.shape[..n - 1], [0]);
    Prod1(0);
  }

  /** Reshaping the factors reshapes the product. The product accepts what the factors
      accept exactly when at most one size is left open and, for rank 0, where the
      factors do not tell, the sizes multiply to the right number. */
  lemma ReshapeCorrect(l: Lora, spec: seq<int>)
    requires l.Wf() && Reshape(l, spec).Some?
    ensures ExpandShape(spec, Prod(l.Shape())).Some?
    ensures ReshapeAs(Product(l), spec).Some? <==>
      OneOpen(spec) && (l.Rank() > 0 || Prod(ExpandShape(spec, Prod(l.Shape())).value) == Prod(l.Shape()))
    ensures ReshapeAs(Product(l), spec).Some? ==> Denotes(Reshape(l, spec).value, ReshapeAs(Product(l), spec).value)
  {
    hide Product, Reshape, ReshapeTensor, ExpandShape, OneOpen, SpecProd, Denotes, Prod;
    ReshapeKeepsProduct(l, spec);
    SameFilling(spec, Prod(l.Shape()));
  }

  /** Two open sizes: the factors of a row are reshaped, the row itself cannot be. */
  lemma TwoOpenSizes(l: Lora)
    requires l.Wf() && l.Ndim() == 2 && l.B.shape[0] == 1 && l.Rank() > 0 && l.Cols() > 0
    ensures Reshape(l, [-1, -1, l.Cols() as int]).Some? && ReshapeAs(Product(l), [-1, -1, l.Cols() as int]) == None
  {
    var c, k := l.Cols(), l.Rank();
    var spec := [-1, -1, c as int];
    assert l.Shape() == [1, c] && l.A.shape == [k, c] && l.B.shape == [1, k];
    RowSpec(c);
    Sizes3(1, 1, c);
    Sizes3(1, k, c);
    Sizes3(1, 1, k);
    Sizes2(1, c);
    Sizes2(k, c);
    Sizes2(1, k);
    assert ExpandShape(spec, c).value == [1, 1, c];
    assert Ones(1) + [k, c] == [1, k, c] && [1, 1, c][..2] + [k] == [1, 1, k];
    assert spec[0] == -1 && spec[1] == -1;
  }

  lemma RowSpec(c: nat)
    ensures SpecProd([-1, -1, c as int]) == c
  {
    OpenSize([-1, c as int]);
    OpenSize([c as int]);
    assert [c as int][1..] == [];
    assert SpecProd([]) == 1;
    assert SpecProd([c as int]) == c * SpecProd([c as int][1..]);
  }

  lemma OpenSize(spec: seq<int>)
    ensures SpecProd([-1] + spec) == SpecProd(spec)
  {
    assert ([-1] + spec)[1..] == spec;
  }

  lemma Sizes2(x: nat, y: nat)
    ensures Prod([x, y]) == x * y
  {
    assert [x, y][1..] == [y];
    Prod1(y);
  }

  lemma Sizes3(x: nat, y: nat, z: nat)
    ensures Prod([x, y, z]) == x * (y * z)
  {
    assert [x, y, z][1..] == [y, z];
    Sizes2(y, z);
  }

  // ---- permute and transpose ----

  /** Axes counted from the end, as permute rewrites them. */
  function FromEnd(dims: seq<int>, n: nat): (d: seq<int>)
    ensures |d| == |dims| && forall i | 0 <= i < |dims| :: d[i] == if dims[i] >= 0 then dims[i] - n else dims[i]
  {
    seq(|dims|, i requires 0 <= i < |dims| => if dims[i] >= 0 then dims[i] - n else dims[i])
  }

  function PermuteTensor(t: Tensor, dims: seq<int>): (u: Option<Tensor>)
    ensures u.Some? ==> u.value.Valid()
  {
    var p := WrapDims(dims, |t.shape|);
    if p.None? then None else Some(Permute(t, p.value))
  }

  function PermuteLora(l: Lora, dims: seq<int>): (r: Option<Lora>)
    requires l.Constructed()
  {
    if dims == [] then None else
    var d := FromEnd(dims, l.Ndim());
    if d[|d| - 1] == -1 then
      var b := PermuteTensor(l.B, d);
      if b.None? || exists i | 0 <= i < |l.LeadA()| :: l.LeadA()[i] != 1 then None
      else Make(l.A, b.value)
    else if l.Ndim() == 2 && |d| >= 2 && d[|d| - 1] == -2 && d[|d| - 2] == -1 then
      var a, b := PermuteTensor(l.B, d), PermuteTensor(l.A, d);
      if a.None? || b.None? then None else Make(a.value, b.value)
    else None
  }

  lemma FixedLast(p: seq<nat>, o: seq<nat>, t: nat)
    requires IsPerm(p) && |p| >= 2 && p[|p| - 1] == |p| - 1 && |o| == |p|
    ensures Unpermute(p, o)[|p| - 1] == o[|p| - 1]
    ensures Unpermute(p, o[..|p| - 1] + [t]) == Unpermute(p, o)[..|p| - 1] + [t]
  {
    var n := |p|;
    assert Find(p, p[n - 1]) == n - 1;
    forall a: nat | a < n - 1 ensures Find(p, a) < n - 1 {
      assert p[Find(p, a)] == a;
    }
  }

  lemma BcastZeros(shape: seq<nat>, i: seq<nat>, j: seq<nat>)
    requires |i| == |j| == |shape| && forall x | 0 <= x < |shape| :: shape[x] == 1
    ensures Bcast(shape, i) == Bcast(shape, j)
  {
  }

  /** Permuting B's row axes permutes the product's. */
  lemma PermuteRows(l: Lora, p: seq<nat>)
    requires l.Wf() && IsPerm(p) && |p| == l.Ndim() && p[|p| - 1] == |p| - 1
    requires forall i | 0 <= i < |l.LeadA()| :: l.LeadA()[i] == 1
    ensures Denotes(Lora(l.A, Permute(l.B, p)), Permute(Product(l), p))
  {
    hide Product, Tensor.At, Permute, Prod;
    var n, r, w := l.Ndim(), Lora(l.A, Permute(l.B, p)), Permute(Product(l), p);
    assert r.B.shape[n - 1] == l.B.shape[n - 1];
    assert r.Wf();
    forall i | 0 <= i < n ensures r.Shape()[i] == w.shape[i] {
      assert i < n - 1 ==> p[i] != p[n - 1] && l.Shape()[p[i]] == l.B.shape[p[i]];
    }
    assert r.Shape() == w.shape;
    forall o | InBounds(w.shape, o) ensures Product(r).At(o) == w.At(o) {
      PermuteEntry(l, p, o);
    }
    Extensional(Product(r), w);
  }

  lemma PermuteEntry(l: Lora, p: seq<nat>, o: seq<nat>)
    requires l.Wf() && IsPerm(p) && |p| == l.Ndim() && p[|p| - 1] == |p| - 1
    requires forall i | 0 <= i < |l.LeadA()| :: l.LeadA()[i] == 1
    requires Lora(l.A, Permute(l.B, p)).Wf()
    requires Lora(l.A, Permute(l.B, p)).Shape() == PermShape(l.Shape(), p)
    requires InBounds(PermShape(l.Shape(), p), o)
    ensures Product(Lora(l.A, Permute(l.B, p))).At(o) == Permute(Product(l), p).At(o)
  {
    hide Product, Tensor.At, Permute, Prod;
    var n, r, src := l.Ndim(), Lora(l.A, Permute(l.B, p)), Unpermute(p, o);
    PermuteAt(Product(l), p, o);
    UnpermuteInBounds(l.Shape(), p, o);
    ProductEntry(r, o);
    ProductEntry(l, src);
    FixedLast(p, o, 0);
    BcastZeros(l.LeadA(), o[..n - 2], src[..n - 2]);
    var lead := Bcast(l.LeadA(), src[..n - 2]);
    forall t: nat | t < l.Rank() ensures r.B.At(o[..n - 1] + [t]) == l.B.At(src[..n - 1] + [t]) * 1 {
      PermuteRowAt(l.B, p, o, t);
    }
    RankSumScaled(1, l.B, l.A, src[..n - 1], lead, o[n - 1], r.B, r.A, o[..n - 1], lead, o[n - 1], l.Rank());
  }

  lemma PermuteRowAt(b: Tensor, p: seq<nat>, o: seq<nat>, t: nat)
    requires IsPerm(p) && |p| == |b.shape| == |o| >= 2 && p[|p| - 1] == |p| - 1
    requires t < b.shape[|p| - 1]
    requires forall i | 0 <= i < |p| - 1 :: o[i] < PermShape(b.shape, p)[i]
    ensures Permute(b, p).At(o[..|p| - 1] + [t]) == b.At(Unpermute(p, o)[..|p| - 1] + [t])
  {
    FixedLast(p, o, t);
    assert InBounds(PermShape(b.shape, p), o[..|p| - 1] + [t]);
    PermuteAt(b, p, o[..|p| - 1] + [t]);
  }

  const SWAP: seq<nat> := [1, 0]

  lemma SwapFacts()
    ensures IsPerm(SWAP) && Find(SWAP, 0) == 1 && Find(SWAP, 1) == 0
    ensures forall i: nat, j: nat :: Unpermute(SWAP, [i, j]) == [j, i]
    ensures forall x: nat, y: nat :: PermShape([x, y], SWAP) == [y, x]
  {
    assert SWAP[1..] == [0];
    assert Find(SWAP, 1) == 0 && Find(SWAP, 0) == 1 + Find([0], 0);
  }

  lemma SwapAt(t: Tensor, i: nat, j: nat)
    requires IsPerm(SWAP) && |t.shape| == 2 && i < t.shape[1] && j < t.shape[0]
    ensures Permute(t, SWAP).At([i, j]) == t.At([j, i])
  {
    SwapFacts();
    assert t.shape == [t.shape[0], t.shape[1]];
    PermuteAt(t, SWAP, [i, j]);
  }

  /** Two rank sums whose factors are exchanged term by term. */
  lemma {:induction false} RankSumSwapped(b: Tensor, a: Tensor, row: seq<nat>, lead: seq<nat>, j: nat,
      b': Tensor, a': Tensor, row': seq<nat>, lead': seq<nat>, j': nat, k: nat)
    requires forall t: nat | t < k :: b'.At(row' + [t]) == a.At(lead + [t, j])
    requires forall t: nat | t < k :: a'.At(lead' + [t, j']) == b.At(row + [t])
    ensures RankSum(b', a', row', lead', j', k) == RankSum(b, a, row, lead, j, k)
  {
    hide Tensor.At;
    if k > 0 {
      RankSumSwapped(b, a, row, lead, j, b', a', row', lead', j', k - 1);
    }
  }

  lemma SwappedTerm(t: Tensor, i: nat, j: nat)
    requires IsPerm(SWAP) && |t.shape| == 2 && i < t.shape[0] && j < t.shape[1]
    ensures Permute(t, SWAP).At([j] + [i]) == Permute(t, SWAP).At([] + [j, i]) == t.At([i] + [j]) == t.At([] + [i, j])
  {
    SwapAt(t, j, i);
    assert [j] + [i] == [] + [j, i] == [j, i] && [i] + [j] == [] + [i, j] == [i, j];
  }

  /** (B A)^T is A^T B^T. */
  lemma TransposeMatrix(l: Lora)
    requires l.Wf() && l.Ndim() == 2 && IsPerm(SWAP)
    ensures Denotes(Lora(Permute(l.B, SWAP), Permute(l.A, SWAP)), Permute(Product(l), SWAP))
  {
    hide Product, Tensor.At, Permute, Prod;
    SwapFacts();
    var r, w := Lora(Permute(l.B, SWAP), Permute(l.A, SWAP)), Permute(Product(l), SWAP);
    assert l.A.shape == [l.Rank(), l.Cols()] && l.B.shape == [l.B.shape[0], l.Rank()];
    assert l.Shape() == [l.B.shape[0], l.Cols()];
    assert r.Wf() && r.Shape() == w.shape == [l.Cols(), l.B.shape[0]];
    forall o | InBounds(w.shape, o) ensures Product(r).At(o) == w.At(o) {
      TransposeEntry(l, o[0], o[1]);
      assert o == [o[0], o[1]];
    }
    Extensional(Product(r), w);
  }

  lemma TransposeEntry(l: Lora, j: nat, i: nat)
    requires l.Wf() && l.Ndim() == 2 && IsPerm(SWAP) && j < l.Cols() && i < l.B.shape[0]
    requires Lora(Permute(l.B, SWAP), Permute(l.A, SWAP)).Wf()
    requires Lora(Permute(l.B, SWAP), Permute(l.A, SWAP)).Shape() == [l.Cols(), l.B.shape[0]]
    requires Lora(Permute(l.B, SWAP), Permute(l.A, SWAP)).Rank() == l.Rank()
    ensures Product(Lora(Permute(l.B, SWAP), Permute(l.A, SWAP))).At([j, i]) == Permute(Product(l), SWAP).At([j, i])
  {
    hide Product, Permute, Tensor.At, Prod;
    var r := Lora(Permute(l.B, SWAP), Permute(l.A, SWAP));
    SwapAt(Product(l), j, i);
    assert [] + [i, j] == [i, j] && [] + [j, i] == [j, i] && [] + [i] == [i] && [] + [j] == [j];
    EntryParts(l, [], i, j);
    EntryParts(r, [], j, i);
    forall t: nat | t < l.Rank() ensures r.B.At([j] + [t]) == l.A.At([] + [t, j]) {
      SwappedTerm(l.A, t, j);
    }
    forall t: nat | t < l.Rank() ensures r.A.At([] + [t, i]) == l.B.At([i] + [t]) {
      SwappedTerm(l.B, i, t);
    }
    RankSumSwapped(l.B, l.A, [i], [], j, r.B, r.A, [j], [], i, l.Rank());
  }

  /** Every permutation the code accepts means the same on the factors as on the
      product, unless an axis number is past the rank: the code then reads it as
      another axis, and the product raises. */
  lemma PermuteCorrect(l: Lora, dims: seq<int>)
    requires l.Wf() && PermuteLora(l, dims).Some?
    ensures PermuteTensor(Product(l), dims).Some? <==> forall i | 0 <= i < |dims| :: dims[i] < l.Ndim()
    ensures PermuteTensor(Product(l), dims).Some? ==>
      Denotes(PermuteLora(l, dims).value, PermuteTensor(Product(l), dims).value)
  {
    hide Product, Permute, Prod, FromEnd, Denotes;
    var n := l.Ndim();
    RewrittenAccepted(l, dims);
    AcceptedDims(dims, n);
    hide PermuteLora, WrapDims;
    if forall i | 0 <= i < |dims| :: dims[i] < n {
      PermuteAccepted(l, dims, WrapDims(dims, n).value);
    }
  }

  lemma RewrittenAccepted(l: Lora, dims: seq<int>)
    requires l.Wf() && PermuteLora(l, dims).Some?
    ensures WrapDims(FromEnd(dims, l.Ndim()), l.Ndim()).Some?
  {
    hide Permute, WrapDims, FromEnd;
  }

  lemma AcceptedDims(dims: seq<int>, n: nat)
    requires WrapDims(FromEnd(dims, n), n).Some?
    ensures WrapDims(dims, n).Some? <==> forall i | 0 <= i < |dims| :: dims[i] < n
  {
    var d := FromEnd(dims, n);
    if forall i | 0 <= i < |dims| :: dims[i] < n {
      assert forall i | 0 <= i < |dims| :: 0 - n <= d[i] < n;
      FromEndRange(dims, n);
    }
  }

  lemma FromEndRange(dims: seq<int>, n: nat)
    requires AxesInRange(dims, n)
    ensures AxesInRange(FromEnd(dims, n), n)
    ensures WrapAll(FromEnd(dims, n), n) == WrapAll(dims, n)
  {
  }

  lemma PermuteAccepted(l: Lora, dims: seq<int>, p: seq<nat>)
    requires l.Wf() && PermuteLora(l, dims).Some? && WrapDims(dims, l.Ndim()) == Some(p)
    ensures Denotes(PermuteLora(l, dims).value, Permute(Product(l), p))
  {
    hide Product, Permute, Prod;
    var n, d := l.Ndim(), FromEnd(dims, l.Ndim());
    FromEndRange(dims, n);
    if d[|d| - 1] == -1 {
      PermuteRows(l, p);
    } else {
      assert p == SWAP;
      TransposeMatrix(l);
    }
  }

  /** dims for transpose: the identity with two entries exchanged. */
  function SwapDims(n: nat, dim0: int, dim1: int): (d: Option<seq<int>>)
    ensures d.Some? ==> |d.value| == n
  {
    if !(0 - n <= dim0 < n) || !(0 - n <= dim1 < n) then None
    else
      var i, j := Wrap(dim0, n), Wrap(dim1, n);
      Some(seq(n, x requires 0 <= x < n => if x == i then j else if x == j then i else x))
  }

  function TransposeTensor(t: Tensor, dim0: int, dim1: int): Option<Tensor> {
    var d := SwapDims(|t.shape|, dim0, dim1);
    if d.None? then None else PermuteTensor(t, d.value)
  }

  function Transpose(l: Lora, dim0: int, dim1: int): Option<Lora>
    requires l.Constructed()
  {
    var d := SwapDims(l.Ndim(), dim0, dim1);
    if d.None? then None else PermuteLora(l, d.value)
  }

  lemma SwapDimsValid(n: nat, dim0: int, dim1: int)
    requires SwapDims(n, dim0, dim1).Some?
    ensures WrapDims(SwapDims(n, dim0, dim1).value, n).Some?
  {
    var d := SwapDims(n, dim0, dim1).value;
    assert AxesInRange(d, n);
    SelfInverse(WrapAll(d, n));
  }

  /** A list of axes that undoes itself names every axis once. */
  lemma SelfInverse(p: seq<nat>)
    requires forall a: nat | a < |p| :: p[a] < |p| && p[p[a]] == a
    ensures IsPerm(p)
  {
    hide Find;
    forall i, j | 0 <= i < j < |p| ensures p[i] != p[j] { assert p[p[i]] == i && p[p[j]] == j; }
    forall a: nat | a < |p| ensures Find(p, p[a]) == a && Find(p, a) == p[a] {
      FindDistinct(p, a);
      FindDistinct(p, p[a]);
    }
  }

  lemma {:induction false} FindDistinct(p: seq<nat>, a: nat)
    requires a < |p| && forall i, j | 0 <= i < j < |p| :: p[i] != p[j]
    ensures Find(p, p[a]) == a
  {
    if p[0] != p[a] {
      FindDistinct(p[1..], a - 1);
    }
  }

  /** Exchanging two axes, whenever the code accepts it. */
  lemma TransposeCorrect(l: Lora, dim0: int, dim1: int)
    requires l.Wf() && Transpose(l, dim0, dim1).Some?
    ensures TransposeTensor(Product(l), dim0, dim1).Some?
    ensures Denotes(Transpose(l, dim0, dim1).value, TransposeTensor(Product(l), dim0, dim1).value)
  {
    SwapDimsValid(l.Ndim(), dim0, dim1);
    PermuteCorrect(l, SwapDims(l.Ndim(), dim0, dim1).value);
  }

  // ---- multiplication ----

  /** other * l, for a scalar (rank 0) or a tensor whose last axis has size 1. */
  function MulLora(l: Lora, other: Tensor): (r: Option<Lora>)
    requires l.Constructed() && other.Valid()
  {
    if other.shape != [] && other.shape[|other.shape| - 1] != 1 then None
    else if |other.shape| > l.Ndim() then None // B would get more axes than A has
    else
      var b := Mul(l.B, other);
      if b.None? then None else Make(l.A, b.value)
  }

  lemma MulEntry(l: Lora, o: Tensor, idx: seq<nat>)
    requires l.Wf() && o.Valid() && |o.shape| == l.Ndim() && o.shape[l.Ndim() - 1] == 1
    requires MulSameRank(l.B, o).Some? && MulSameRank(Product(l), o).Some?
    requires Lora(l.A, MulSameRank(l.B, o).value).Wf()
    requires InBounds(MulSameRank(Product(l), o).value.shape, idx)
    requires InBounds(Lora(l.A, MulSameRank(l.B, o).value).Shape(), idx)
    requires Lora(l.A, MulSameRank(l.B, o).value).Rank() == l.Rank()
    ensures Product(Lora(l.A, MulSameRank(l.B, o).value)).At(idx) == MulSameRank(Product(l), o).value.At(idx)
  {
    hide Product, Tensor.At, Prod, MulSameRank;
    var n, r := l.Ndim(), Lora(l.A, MulSameRank(l.B, o).value);
    var src, s := Bcast(l.Shape(), idx), o.At(Bcast(o.shape, idx));
    MulAt(Product(l), o, idx);
    BcastInBounds(l.Shape(), MulSameRank(Product(l), o).value.shape, idx);
    ProductEntry(r, idx);
    ProductEntry(l, src);
    forall t: nat | t < l.Rank() ensures r.B.At(idx[..n - 1] + [t]) == l.B.At(src[..n - 1] + [t]) * s {
      MulRowAt(l, o, idx, t);
    }
    var lead := Bcast(l.LeadA(), idx[..n - 2]);
    assert lead == Bcast(l.LeadA(), src[..n - 2]);
    assert idx[n - 1] == src[n - 1];
    RankSumScaled(s, l.B, l.A, src[..n - 1], lead, src[n - 1], r.B, r.A, idx[..n - 1], lead, idx[n - 1], l.Rank());
  }

  lemma MulRowAt(l: Lora, o: Tensor, idx: seq<nat>, t: nat)
    requires l.Wf() && |o.shape| == l.Ndim() == |idx| && o.shape[l.Ndim() - 1] == 1
    requires MulSameRank(l.B, o).Some? && t < l.Rank()
    requires forall i | 0 <= i < l.Ndim() - 1 :: idx[i] < MulSameRank(l.B, o).value.shape[i]
    ensures var n := l.Ndim();
      MulSameRank(l.B, o).value.At(idx[..n - 1] + [t])
      == l.B.At(Bcast(l.Shape(), idx)[..n - 1] + [t]) * o.At(Bcast(o.shape, idx))
  {
    hide MulSameRank, Tensor.At, Prod;
    var n, row := l.Ndim(), idx[..l.Ndim() - 1] + [t];
    assert InBounds(MulSameRank(l.B, o).value.shape, row);
    MulAt(l.B, o, row);
    assert Bcast(l.B.shape, row) == Bcast(l.Shape(), idx)[..n - 1] + [t];
    assert Bcast(o.shape, row) == Bcast(o.shape, idx);
  }

  lemma MulSameRankCorrect(l: Lora, o: Tensor)
    requires l.Wf() && o.Valid() && |o.shape| == l.Ndim() && o.shape[l.Ndim() - 1] == 1
    requires MulSameRank(l.B, o).Some?
    ensures MulSameRank(Product(l), o).Some?
    ensures Denotes(Lora(l.A, MulSameRank(l.B, o).value), MulSameRank(Product(l), o).value)
  {
    hide Product, Tensor.At, Prod, MulSameRank;
    var n, r := l.Ndim(), Lora(l.A, MulSameRank(l.B, o).value);
    assert forall i | 0 <= i < n - 1 :: l.Shape()[i] == l.B.shape[i];
    var w := MulSameRank(Product(l), o).value;
    assert r.B.shape[n - 1] == l.Rank();
    forall i | 0 <= i < n - 2 ensures r.LeadA()[i] == r.LeadB()[i] || r.LeadA()[i] == 1 {
      assert l.LeadA()[i] == l.LeadB()[i] || l.LeadA()[i] == 1;
    }
    assert r.Wf() && r.Shape() == w.shape;
    forall idx | InBounds(w.shape, idx) ensures Product(r).At(idx) == w.At(idx) {
      MulEntry(l, o, idx);
    }
    Extensional(Product(r), w);
  }

  /** Scaling B scales the product, for every multiplier the code accepts. */
  lemma MulCorrect(l: Lora, other: Tensor)
    requires l.Wf() && other.Valid() && MulLora(l, other).Some?
    ensures |other.shape| <= l.Ndim() && Mul(Product(l), other).Some?
    ensures Denotes(MulLora(l, other).value, Mul(Product(l), other).value)
  {
    MulSameRankCorrect(l, PadAxes(other, l.Ndim()));
  }
}
