/** Dense integer tensors in row-major order, and the plain tensor operations
    that LoRA factor pairs must mirror. */
module Tensors {
  import opened Options

  /** Number of elements of a tensor of the given shape. */
  function Prod(shape: seq<nat>): nat {
    if shape == [] then 1 else shape[0] * Prod(shape[1..])
  }

  predicate InBounds(shape: seq<nat>, idx: seq<nat>) {
    |idx| == |shape| && forall i | 0 <= i < |shape| :: idx[i] < shape[i]
  }

  /** Row-major offset of a multi-index. */
  function Ravel(shape: seq<nat>, idx: seq<nat>): (k: nat)
    requires InBounds(shape, idx)
    ensures k < Prod(shape)
  {
    if shape == [] then 0
    else
      assert InBounds(shape[1..], idx[1..]);
      var rest := Ravel(shape[1..], idx[1..]);
      MulLess(idx[0], shape[0], rest, Prod(shape[1..]));
      idx[0] * Prod(shape[1..]) + rest
  }

  function Unravel(shape: seq<nat>, k: nat): (idx: seq<nat>)
    requires k < Prod(shape)
    ensures InBounds(shape, idx)
    ensures Ravel(shape, idx) == k
  {
    if shape == [] then []
    else
      var m := Prod(shape[1..]);
      DivLess(k, shape[0], m);
      var q: nat, r: nat := k / m, k % m;
      assert q * m + r == k;
      var rest := Unravel(shape[1..], r);
      var idx := [q] + rest;
      assert InBounds(shape, idx) && Ravel(shape, idx) == k by { UnravelStep(shape, k, q, r, rest); }
      idx
  }

  lemma UnravelStep(shape: seq<nat>, k: nat, q: nat, r: nat, rest: seq<nat>)
    requires shape != [] && q < shape[0] && q * Prod(shape[1..]) + r == k
    requires InBounds(shape[1..], rest) && Ravel(shape[1..], rest) == r
    ensures InBounds(shape, [q] + rest) && Ravel(shape, [q] + rest) == k
  {
    RavelCons(shape, q, rest);
  }

  lemma MulLess(i: nat, n: nat, r: nat, m: nat)
    requires i < n && r < m
    ensures i * m + r < n * m
  {
    assert (i + 1) * m <= n * m;
  }

  lemma DivLess(k: nat, n: nat, m: nat)
    requires k < n * m
    ensures m > 0 && k / m < n && k % m < m && (k / m) * m + k % m == k
  {
    assert m == 0 ==> n * m == 0;
    var q := k / m;
    assert q >= n ==> q * m >= n * m;
  }

  lemma DivModUnique(q: nat, m: nat, r: nat)
    requires r < m
    ensures (q * m + r) / m == q && (q * m + r) % m == r
  {
    var k := q * m + r;
    var d := k / m - q;
    assert d * m == r - k % m;
    assert d >= 1 ==> d * m >= m;
    assert d <= -1 ==> d * m <= 0 - m;
  }

  lemma {:induction false} RavelInjective(shape: seq<nat>, i: seq<nat>, j: seq<nat>)
    requires InBounds(shape, i) && InBounds(shape, j)
    requires Ravel(shape, i) == Ravel(shape, j)
    ensures i == j
  {
    if shape != [] {
      var m := Prod(shape[1..]);
      var ri, rj := Ravel(shape[1..], i[1..]), Ravel(shape[1..], j[1..]);
      DivModUnique(i[0], m, ri);
      DivModUnique(j[0], m, rj);
      RavelInjective(shape[1..], i[1..], j[1..]);
    }
  }

  lemma {:induction false} ProdAppend(s: seq<nat>, t: seq<nat>)
    ensures Prod(s + t) == Prod(s) * Prod(t)
  {
    if s == [] {
      assert s + t == t;
    } else {
      assert (s + t)[1..] == s[1..] + t;
      ProdAppend(s[1..], t);
      assert s[0] * (Prod(s[1..]) * Prod(t)) == s[0] * Prod(s[1..]) * Prod(t);
    }
  }

  lemma InBoundsAppend(s: seq<nat>, t: seq<nat>, i: seq<nat>, j: seq<nat>)
    requires |i| == |s|
    ensures InBounds(s + t, i + j) <==> InBounds(s, i) && InBounds(t, j)
  {
    if InBounds(s + t, i + j) {
      assert forall x | 0 <= x < |s| :: (s + t)[x] == s[x] && (i + j)[x] == i[x];
      forall x | 0 <= x < |t| ensures j[x] < t[x] {
        assert (s + t)[|s| + x] == t[x] && (i + j)[|s| + x] == j[x];
      }
    }
  }

  lemma {:induction false} RavelAppend(s: seq<nat>, t: seq<nat>, i: seq<nat>, j: seq<nat>)
    requires InBounds(s, i) && InBounds(t, j)
    ensures InBounds(s + t, i + j)
    ensures Ravel(s + t, i + j) == Ravel(s, i) * Prod(t) + Ravel(t, j)
  {
    hide Ravel, Prod;
    InBoundsAppend(s, t, i, j);
    RavelNothing();
    if s == [] {
      assert s + t == t && i + j == j && i == [];
    } else {
      assert (s + t)[1..] == s[1..] + t && (i + j)[1..] == i[1..] + j;
      RavelFirst(s, i);
      RavelFirst(s + t, i + j);
      RavelAppend(s[1..], t, i[1..], j);
      ProdAppend(s[1..], t);
      hide InBounds;
      Regroup(i[0], Prod(s[1..]), Prod(t), Ravel(s[1..], i[1..]));
    }
  }

  lemma RavelNothing()
    ensures Ravel([], []) == 0
  {
  }

  lemma RavelFirst(s: seq<nat>, i: seq<nat>)
    requires s != [] && InBounds(s, i)
    ensures InBounds(s[1..], i[1..]) && Ravel(s, i) == i[0] * Prod(s[1..]) + Ravel(s[1..], i[1..])
  {
  }

  lemma Regroup(a: nat, m: nat, n: nat, r: nat)
    ensures a * (m * n) + r * n == (a * m + r) * n
  {
  }

  lemma Prod1(c: nat)
    ensures Prod([c]) == c
    ensures forall j: nat | j < c :: InBounds([c], [j]) && Ravel([c], [j]) == j
  {
    assert [c][1..] == [];
    forall j: nat | j < c ensures InBounds([c], [j]) && Ravel([c], [j]) == j {
      assert [j][1..] == [];
    }
  }

  datatype Tensor = Tensor(shape: seq<nat>, data: seq<int>) {
    predicate Valid() { |data| == Prod(shape) }

    /** Element read; 0 outside the tensor, which keeps index arithmetic total. */
    function At(idx: seq<nat>): int {
      if Valid() && InBounds(shape, idx) then data[Ravel(shape, idx)] else 0
    }
  }

  function Build(shape: seq<nat>, f: seq<nat> -> int): (t: Tensor)
    ensures t.Valid() && t.shape == shape
  {
    Tensor(shape, Elements(shape, f, Prod(shape)))
  }

  /** The first n elements, in row-major order. */
  function Elements(shape: seq<nat>, f: seq<nat> -> int, n: nat): (data: seq<int>)
    requires n <= Prod(shape)
    ensures |data| == n
  {
    if n == 0 then [] else Elements(shape, f, n - 1) + [f(Unravel(shape, n - 1))]
  }

  lemma {:induction false} ElementAt(shape: seq<nat>, f: seq<nat> -> int, n: nat, k: nat)
    requires k < n <= Prod(shape)
    ensures Elements(shape, f, n)[k] == f(Unravel(shape, k))
  {
    hide Prod, Unravel;
    if k < n - 1 { ElementAt(shape, f, n - 1, k); }
  }

  lemma BuildAt(shape: seq<nat>, f: seq<nat> -> int, idx: seq<nat>)
    requires InBounds(shape, idx)
    ensures Build(shape, f).At(idx) == f(idx)
  {
    ElementAt(shape, f, Prod(shape), Ravel(shape, idx));
    RavelInjective(shape, idx, Unravel(shape, Ravel(shape, idx)));
  }

  /** Tensors with the same shape and the same elements are the same tensor. */
  lemma Extensional(t: Tensor, u: Tensor)
    requires t.Valid() && u.Valid() && t.shape == u.shape
    requires forall idx | InBounds(t.shape, idx) :: t.At(idx) == u.At(idx)
    ensures t == u
  {
    forall k | 0 <= k < |t.data| ensures t.data[k] == u.data[k] {
      var idx := Unravel(t.shape, k);
      assert t.At(idx) == u.At(idx);
    }
  }

  // ---- selection: integer indices and slices ----

  /** A normalised index on one axis: one position, or len positions from lo in steps. */
  datatype Sel = Pick(i: nat) | Span(lo: nat, step: nat, len: nat) {
    predicate Fits(d: nat) {
      match this
      case Pick(i) => i < d
      case Span(lo, step, len) => forall o: nat | o < len :: SrcOf(o) < d
    }

    function SrcOf(o: nat): nat {
      match this
      case Pick(i) => i
      case Span(lo, step, len) => lo + step * o
    }
  }

  function Full(d: nat): Sel { Span(0, 1, d) }

  function FullSels(shape: seq<nat>): seq<Sel> {
    seq(|shape|, i requires 0 <= i < |shape| => Full(shape[i]))
  }

  predicate FitAll(shape: seq<nat>, sels: seq<Sel>) {
    |sels| == |shape| && forall i | 0 <= i < |shape| :: sels[i].Fits(shape[i])
  }

  function OutShape(sels: seq<Sel>): (s: seq<nat>)
    ensures |s| <= |sels|
  {
    if sels == [] then []
    else if sels[0].Pick? then OutShape(sels[1..])
    else [sels[0].len] + OutShape(sels[1..])
  }

  /** The source multi-index that output index o reads. */
  function Source(sels: seq<Sel>, o: seq<nat>): (s: seq<nat>)
    requires |o| == |OutShape(sels)|
    ensures |s| == |sels|
  {
    if sels == [] then []
    else if sels[0].Pick? then [sels[0].i] + Source(sels[1..], o)
    else [sels[0].SrcOf(o[0])] + Source(sels[1..], o[1..])
  }

  lemma {:induction false} OutShapeAppend(s: seq<Sel>, t: seq<Sel>)
    ensures OutShape(s + t) == OutShape(s) + OutShape(t)
  {
    if s == [] {
      assert s + t == t;
    } else {
      assert (s + t)[1..] == s[1..] + t;
      OutShapeAppend(s[1..], t);
    }
  }

  lemma {:induction false} SourceAppend(s: seq<Sel>, t: seq<Sel>, i: seq<nat>, j: seq<nat>)
    requires |i| == |OutShape(s)| && |j| == |OutShape(t)|
    ensures |i + j| == |OutShape(s + t)|
    ensures Source(s + t, i + j) == Source(s, i) + Source(t, j)
  {
    OutShapeAppend(s, t);
    if s == [] {
      assert s + t == t && i + j == j;
    } else {
      assert (s + t)[1..] == s[1..] + t;
      if s[0].Pick? {
        SourceAppend(s[1..], t, i, j);
      } else {
        assert (i + j)[1..] == i[1..] + j;
        SourceAppend(s[1..], t, i[1..], j);
      }
    }
  }

  lemma OutShapePair(s: seq<Sel>, x: Sel, y: Sel)
    ensures OutShape(s + [x, y]) == OutShape(s) + OutShape([x]) + OutShape([y])
  {
    OutShapeAppend(s, [x, y]);
    OutShapeAppend([x], [y]);
    assert [x] + [y] == [x, y];
  }

  lemma OutShapeOne(x: Sel)
    ensures OutShape([x]) == if x.Pick? then [] else [x.len]
  {
    assert [x][1..] == [];
  }

  lemma OutShapeSpans(s: seq<Sel>, x: Sel, y: Sel)
    requires x.Span? && y.Span?
    ensures OutShape(s + [x, y]) == OutShape(s) + [x.len, y.len]
  {
    OutShapePair(s, x, y);
    OutShapeOne(x);
    OutShapeOne(y);
    assert OutShape(s) + [x.len] + [y.len] == OutShape(s) + [x.len, y.len];
  }

  lemma SourceSpans(s: seq<Sel>, x: Sel, y: Sel, o: seq<nat>, i: nat, j: nat)
    requires x.Span? && y.Span? && |o| == |OutShape(s)|
    ensures |o + [i, j]| == |OutShape(s + [x, y])|
    ensures Source(s + [x, y], o + [i, j]) == Source(s, o) + [x.SrcOf(i), y.SrcOf(j)]
  {
    OutShapeOne(y);
    assert [x, y][1..] == [y] && [y][1..] == [] && [i, j][1..] == [j];
    assert |OutShape([x, y])| == 2;
    SourceAppend(s, [x, y], o, [i, j]);
    assert Source([x, y], [i, j]) == [x.SrcOf(i)] + Source([y], [j]);
    assert Source([y], [j]) == [y.SrcOf(j)] + Source([], [j][1..]);
  }

  lemma {:induction false} SourceInBounds(shape: seq<nat>, sels: seq<Sel>, o: seq<nat>)
    requires FitAll(shape, sels) && InBounds(OutShape(sels), o)
    ensures InBounds(shape, Source(sels, o))
  {
    if shape != [] {
      var o' := if sels[0].Pick? then o else o[1..];
      SourceInBounds(shape[1..], sels[1..], o');
    }
  }

  function Select(t: Tensor, sels: seq<Sel>): (u: Tensor)
    ensures u.Valid() && u.shape == OutShape(sels)
  {
    Build(OutShape(sels), o => if |o| == |OutShape(sels)| then t.At(Source(sels, o)) else 0)
  }

  lemma SelectAt(t: Tensor, sels: seq<Sel>, o: seq<nat>)
    requires InBounds(OutShape(sels), o)
    ensures Select(t, sels).At(o) == t.At(Source(sels, o))
  {
    BuildAt(OutShape(sels), o => if |o| == |OutShape(sels)| then t.At(Source(sels, o)) else 0, o);
  }

  /** Python index expressions on one axis. */
  datatype Index = Int(i: int) | Slice(lo: Option<int>, hi: Option<int>, step: int)

  const COLON: Index := Slice(None, None, 1)

  function ClampBound(b: int, d: nat): (c: nat)
    ensures c <= d
  {
    if b < 0 then (if b + d < 0 then 0 else b + d) else if b > d then d else b
  }

  /** How a size-d axis reads an index; None where torch raises. */
  function Normalise(x: Index, d: nat): (s: Option<Sel>)
    ensures s.Some? ==> s.value.Fits(d) && (s.value.Pick? <==> x.Int?)
    ensures s.Some? && x.Slice? ==> s.value.step > 0
    ensures x == COLON ==> s == Some(Full(d))
  {
    match x
    case Int(i) =>
      if 0 - d <= i < d then Some(Pick(if i < 0 then i + d else i)) else None
    case Slice(lo, hi, step) =>
      if step <= 0 then None
      else
        var a := if lo.Some? then ClampBound(lo.value, d) else 0;
        var b := if hi.Some? then ClampBound(hi.value, d) else d;
        Some(Span(a, step, RangeLen(a, b, step)))
  }

  /** len(range(a, b, step)). */
  function RangeLen(a: nat, b: nat, step: nat): (n: nat)
    requires step > 0
    ensures forall o: nat | o < n :: a + step * o < b
    ensures step == 1 && a <= b ==> n == b - a
    decreases b - a
  {
    if a < b then
      var m := RangeLen(a + step, b, step);
      assert forall o: nat | 0 < o < m + 1 :: a + step * o < b by {
        forall o: nat | 0 < o < m + 1 ensures a + step * o < b {
          assert a + step + step * (o - 1) < b;
        }
      }
      m + 1
    else 0
  }

  function NormaliseAll(xs: seq<Index>, shape: seq<nat>): (s: Option<seq<Sel>>)
    requires |xs| == |shape|
    ensures s.Some? ==> FitAll(shape, s.value)
    ensures s.Some? ==> forall i | 0 <= i < |xs| :: Normalise(xs[i], shape[i]) == Some(s.value[i])
  {
    if xs == [] then Some([])
    else
      var h := Normalise(xs[0], shape[0]);
      var t := NormaliseAll(xs[1..], shape[1..]);
      if h.None? || t.None? then None else
      assert forall i | 1 <= i < |xs| :: xs[i] == xs[1..][i - 1] && shape[i] == shape[1..][i - 1];
      Some([h.value] + t.value)
  }

  lemma {:induction false} NormaliseAllIs(xs: seq<Index>, shape: seq<nat>, s: seq<Sel>)
    requires |xs| == |shape| == |s|
    requires forall i | 0 <= i < |xs| :: Normalise(xs[i], shape[i]) == Some(s[i])
    ensures NormaliseAll(xs, shape) == Some(s)
  {
    if xs == [] {
      assert s == [];
    } else {
      forall i | 0 <= i < |xs[1..]| ensures Normalise(xs[1..][i], shape[1..][i]) == Some(s[1..][i]) {
        assert xs[1..][i] == xs[i + 1] && shape[1..][i] == shape[i + 1] && s[1..][i] == s[i + 1];
      }
      NormaliseAllIs(xs[1..], shape[1..], s[1..]);
      assert s == [s[0]] + s[1..];
    }
  }

  /** Missing trailing indices mean the whole axis. */
  function PadIndices(xs: seq<Index>, n: nat): (ys: seq<Index>)
    ensures |ys| == if |xs| < n then n else |xs|
  {
    if |xs| < n then xs + seq(n - |xs|, _ => COLON) else xs
  }

  /** t[xs] for a tuple of integers and slices. */
  function IndexTensor(t: Tensor, xs: seq<Index>): (u: Option<Tensor>)
    ensures u.Some? ==> u.value.Valid()
  {
    var ys := PadIndices(xs, |t.shape|);
    if |ys| != |t.shape| then None else
    var sels := NormaliseAll(ys, t.shape);
    if sels.None? then None else Some(Select(t, sels.value))
  }

  // ---- permutation of axes ----

  /** The position of axis a in p, or |p|. */
  function Find(p: seq<nat>, a: nat): (i: nat)
    ensures i <= |p|
    ensures i < |p| ==> p[i] == a
  {
    if p == [] then 0 else if p[0] == a then 0 else 1 + Find(p[1..], a)
  }

  /** p names every axis exactly once. */
  predicate IsPerm(p: seq<nat>) {
    && (forall i: nat | i < |p| :: p[i] < |p| && Find(p, p[i]) == i)
    && (forall a: nat | a < |p| :: Find(p, a) < |p|)
  }

  /** The source index of output index o: axis p[i] of the source takes o[i]. */
  function Unpermute(p: seq<nat>, o: seq<nat>): (s: seq<nat>)
    requires IsPerm(p) && |o| == |p|
    ensures |s| == |p|
  {
    seq(|p|, a requires 0 <= a < |p| => o[Find(p, a)])
  }

  function PermShape(shape: seq<nat>, p: seq<nat>): (s: seq<nat>)
    requires IsPerm(p) && |p| == |shape|
    ensures |s| == |p| && forall i | 0 <= i < |p| :: s[i] == shape[p[i]]
  {
    seq(|p|, i requires 0 <= i < |p| => shape[p[i]])
  }

  function Permute(t: Tensor, p: seq<nat>): (u: Tensor)
    requires IsPerm(p) && |p| == |t.shape|
    ensures u.Valid() && u.shape == PermShape(t.shape, p)
  {
    Build(PermShape(t.shape, p), o => if |o| == |p| then t.At(Unpermute(p, o)) else 0)
  }

  lemma PermuteAt(t: Tensor, p: seq<nat>, o: seq<nat>)
    requires IsPerm(p) && |p| == |t.shape| && InBounds(PermShape(t.shape, p), o)
    ensures Permute(t, p).At(o) == t.At(Unpermute(p, o))
  {
    BuildAt(PermShape(t.shape, p), o => if |o| == |p| then t.At(Unpermute(p, o)) else 0, o);
  }

  lemma UnpermuteInBounds(shape: seq<nat>, p: seq<nat>, o: seq<nat>)
    requires IsPerm(p) && |p| == |shape| && InBounds(PermShape(shape, p), o)
    ensures InBounds(shape, Unpermute(p, o))
  {
    forall a: nat | a < |p| ensures Unpermute(p, o)[a] < shape[a] {
      var i := Find(p, a);
      assert PermShape(shape, p)[i] == shape[p[i]];
    }
  }

  function Wrap(x: int, n: nat): int { if x < 0 then x + n else x }

  predicate AxesInRange(dims: seq<int>, n: nat) {
    forall i | 0 <= i < |dims| :: 0 - n <= dims[i] < n
  }

  function WrapAll(dims: seq<int>, n: nat): (p: seq<nat>)
    requires AxesInRange(dims, n)
    ensures |p| == |dims| && forall i | 0 <= i < |dims| :: p[i] == Wrap(dims[i], n)
  {
    seq(|dims|, i requires 0 <= i < |dims| => Wrap(dims[i], n) as nat)
  }

  /** torch's reading of a dims tuple: negative axes count from the end. */
  function WrapDims(dims: seq<int>, n: nat): (p: Option<seq<nat>>)
    ensures p.Some? ==> IsPerm(p.value) && |p.value| == n == |dims|
    ensures p.Some? ==> AxesInRange(dims, n) && p.value == WrapAll(dims, n)
  {
    if |dims| == n && AxesInRange(dims, n) && IsPerm(WrapAll(dims, n)) then Some(WrapAll(dims, n)) else None
  }

  // ---- broadcasting ----

  /** The part of an output index that a tensor of the given shape reads. */
  function Bcast(shape: seq<nat>, idx: seq<nat>): (r: seq<nat>)
    requires |idx| == |shape|
    ensures |r| == |shape|
  {
    seq(|shape|, i requires 0 <= i < |shape| => if shape[i] == 1 then 0 else idx[i])
  }

  predicate BroadcastableTo(x: seq<nat>, y: seq<nat>) {
    |x| == |y| && forall i | 0 <= i < |x| :: x[i] == y[i] || x[i] == 1
  }

  lemma BcastInBounds(x: seq<nat>, y: seq<nat>, idx: seq<nat>)
    requires BroadcastableTo(x, y) && InBounds(y, idx)
    ensures InBounds(x, Bcast(x, idx))
  {
  }

  /** The common shape of an elementwise operation on two same-rank shapes. */
  function BroadcastShape(x: seq<nat>, y: seq<nat>): (z: Option<seq<nat>>)
    requires |x| == |y|
    ensures z.Some? ==> BroadcastableTo(x, z.value) && BroadcastableTo(y, z.value)
    ensures z.Some? ==> forall i | 0 <= i < |x| :: z.value[i] == if x[i] == 1 then y[i] else x[i]
    ensures z.Some? <==> forall i | 0 <= i < |x| :: x[i] == y[i] || x[i] == 1 || y[i] == 1
  {
    if exists i | 0 <= i < |x| :: x[i] != y[i] && x[i] != 1 && y[i] != 1 then None
    else Some(seq(|x|, i requires 0 <= i < |x| => if x[i] == 1 then y[i] else x[i]))
  }

  function Ones(n: nat): (s: seq<nat>)
    ensures |s| == n
  {
    seq(n, _ => 1)
  }

  lemma {:induction false} ProdOnes(n: nat)
    ensures Prod(Ones(n)) == 1
  {
    if n > 0 {
      assert Ones(n)[1..] == Ones(n - 1);
      ProdOnes(n - 1);
    }
  }

  /** t with axes of size 1 put in front until it has n axes. */
  function PadAxes(t: Tensor, n: nat): (u: Tensor)
    requires t.Valid() && |t.shape| <= n
    ensures u.Valid() && |u.shape| == n && u.shape == Ones(n - |t.shape|) + t.shape && u.data == t.data
  {
    ProdAppend(Ones(n - |t.shape|), t.shape);
    ProdOnes(n - |t.shape|);
    Tensor(Ones(n - |t.shape|) + t.shape, t.data)
  }

  /** Elementwise product with broadcasting, for operands of the same rank. */
  function MulSameRank(t: Tensor, o: Tensor): (u: Option<Tensor>)
    requires |t.shape| == |o.shape|
    ensures u.Some? <==> BroadcastShape(t.shape, o.shape).Some?
    ensures u.Some? ==> u.value.Valid() && BroadcastShape(t.shape, o.shape) == Some(u.value.shape)
  {
    var z := BroadcastShape(t.shape, o.shape);
    if z.None? then None
    else Some(Build(z.value, idx => ProductAt(t, o, idx)))
  }

  lemma MulAt(t: Tensor, o: Tensor, idx: seq<nat>)
    requires |t.shape| == |o.shape| && MulSameRank(t, o).Some? && InBounds(MulSameRank(t, o).value.shape, idx)
    ensures MulSameRank(t, o).value.At(idx) == ProductAt(t, o, idx)
  {
    BuildAt(MulSameRank(t, o).value.shape, idx => ProductAt(t, o, idx), idx);
  }

  function ProductAt(t: Tensor, o: Tensor, idx: seq<nat>): int
    requires |t.shape| == |o.shape|
  {
    if |idx| == |t.shape| then t.At(Bcast(t.shape, idx)) * o.At(Bcast(o.shape, idx)) else 0
  }

  /** t * o, with o of no higher rank than t. */
  function Mul(t: Tensor, o: Tensor): (u: Option<Tensor>)
    requires o.Valid() && |o.shape| <= |t.shape|
    ensures u.Some? ==> u.value.Valid()
  {
    MulSameRank(t, PadAxes(o, |t.shape|))
  }

  // ---- concatenation along the first axis ----

  /** Same rank, at least one axis, and the same sizes after the first. */
  predicate SameTail(t: Tensor, u: Tensor) {
    |t.shape| == |u.shape| > 0 && t.shape[1..] == u.shape[1..]
  }

  function Cat2(t: Tensor, u: Tensor): (v: Tensor)
    requires t.Valid() && u.Valid() && SameTail(t, u)
    ensures v.Valid() && v.shape == [t.shape[0] + u.shape[0]] + t.shape[1..]
    ensures v.data == t.data + u.data
  {
    var m := Prod(t.shape[1..]);
    assert ([t.shape[0] + u.shape[0]] + t.shape[1..])[1..] == t.shape[1..];
    assert (t.shape[0] + u.shape[0]) * m == t.shape[0] * m + u.shape[0] * m;
    Tensor([t.shape[0] + u.shape[0]] + t.shape[1..], t.data + u.data)
  }

  lemma Cat2At(t: Tensor, u: Tensor, i: nat, r: seq<nat>)
    requires t.Valid() && u.Valid() && SameTail(t, u)
    requires InBounds(t.shape[1..], r) && i < t.shape[0] + u.shape[0]
    ensures Cat2(t, u).At([i] + r) == if i < t.shape[0] then t.At([i] + r) else u.At([i - t.shape[0]] + r)
  {
    var d := t.shape[0];
    RavelCons(Cat2(t, u).shape, i, r);
    if i < d {
      RavelCons(t.shape, i, r);
    } else {
      RavelCons(u.shape, i - d, r);
      SubMul(i, d, Prod(t.shape[1..]));
    }
  }

  lemma SubMul(i: nat, d: nat, m: nat)
    requires d <= i
    ensures (i - d) * m == i * m - d * m
  {
  }

  lemma RavelCons(shape: seq<nat>, i: nat, r: seq<nat>)
    requires shape != [] && i < shape[0] && InBounds(shape[1..], r)
    ensures InBounds(shape, [i] + r)
    ensures Ravel(shape, [i] + r) == i * Prod(shape[1..]) + Ravel(shape[1..], r)
  {
    assert ([i] + r)[1..] == r;
    forall x | 0 <= x < |shape| ensures ([i] + r)[x] < shape[x] {
      assert x > 0 ==> shape[x] == shape[1..][x - 1];
    }
  }

  predicate CanCat(ts: seq<Tensor>) {
    |ts| > 0 && forall i | 0 <= i < |ts| :: ts[i].Valid() && SameTail(ts[i], ts[0])
  }

  /** torch.cat(ts, dim=0). */
  function Cat(ts: seq<Tensor>): (v: Tensor)
    requires CanCat(ts)
    ensures v.Valid() && |v.shape| == |ts[0].shape| > 0 && v.shape[1..] == ts[0].shape[1..]
  {
    if |ts| == 1 then ts[0]
    else
      assert forall i | 0 <= i < |ts[1..]| :: ts[1..][i] == ts[i + 1];
      Cat2(ts[0], Cat(ts[1..]))
  }

  /** torch.stack(ts, 0): every tensor gets a new first axis, then cat. */
  function NewAxis(t: Tensor): (u: Tensor)
    ensures u.shape == [1] + t.shape && u.data == t.data
    ensures t.Valid() ==> u.Valid()
  {
    assert ([1] + t.shape)[1..] == t.shape;
    Tensor([1] + t.shape, t.data)
  }

  lemma NewAxisAt(t: Tensor, idx: seq<nat>)
    requires t.Valid() && InBounds(t.shape, idx)
    ensures NewAxis(t).At([0] + idx) == t.At(idx)
  {
    assert ([1] + t.shape)[1..] == t.shape && ([0] + idx)[1..] == idx;
  }

  function MapNewAxis(ts: seq<Tensor>): (us: seq<Tensor>)
    ensures |us| == |ts| && forall i | 0 <= i < |ts| :: us[i] == NewAxis(ts[i])
  {
    seq(|ts|, i requires 0 <= i < |ts| => NewAxis(ts[i]))
  }

  predicate CanStack(ts: seq<Tensor>) {
    |ts| > 0 && forall i | 0 <= i < |ts| :: ts[i].Valid() && ts[i].shape == ts[0].shape
  }

  function Stack(ts: seq<Tensor>): (v: Tensor)
    requires CanStack(ts)
    ensures v.Valid()
  {
    Cat(MapNewAxis(ts))
  }
}
