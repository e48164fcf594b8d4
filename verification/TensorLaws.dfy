/** Which positions the tensor operations read, said on the positions themselves. */
module TensorLaws {
  import opened Options
  import opened Tensors
  import opened Lora
  import opened LoraShape
  import opened LoraCat

  // ---- which positions an index takes on one axis ----

  /** The position a bound stands for: negative ones count from the end, and what lies
      outside is moved to the nearer end. */
  function Bound(b: int, d: nat): nat {
    var c := if b < 0 then d + b else b;
    if c >= d then d else if c > 0 then c else 0
  }

  function From(lo: Option<int>, d: nat): nat { if lo.None? then 0 else Bound(lo.value, d) }

  function To(hi: Option<int>, d: nat): nat { if hi.None? then d else Bound(hi.value, d) }

  /** Position p of an axis of size d is among those that x takes. */
  predicate Taken(x: Index, d: nat, p: nat) {
    match x
    case Int(i) => p < d && (i == p || i == p - d)
    case Slice(lo, hi, step) => step > 0 && From(lo, d) <= p < To(hi, d) && (p - From(lo, d)) % step == 0
  }

  predicate Ascending(ps: seq<nat>) { forall i, j | 0 <= i < j < |ps| :: ps[i] < ps[j] }

  /** ps are the positions that x takes, in their order. */
  ghost predicate Lists(x: Index, d: nat, ps: seq<nat>) {
    Ascending(ps) && forall p: nat :: p in ps <==> Taken(x, d, p)
  }

  /** An index is refused exactly if it is a slice with no positive step, or an integer
      that no position of the axis answers to. */
  predicate Refused(x: Index, d: nat) {
    match x
    case Int(i) => i >= d || i < 0 - d
    case Slice(lo, hi, step) => step < 1
  }

  function Positions(s: Sel): (ps: seq<nat>)
    ensures |ps| == if s.Pick? then 1 else s.len
  {
    match s
    case Pick(i) => [i]
    case Span(lo, step, len) => seq(len, o requires 0 <= o < len => s.SrcOf(o))
  }

  lemma AxisPositions(x: Index, d: nat)
    ensures Normalise(x, d).None? <==> Refused(x, d)
    ensures Normalise(x, d).Some? ==> Lists(x, d, Positions(Normalise(x, d).value))
  {
    hide Reached, RangeLen;
    if x.Slice? && x.step > 0 {
      var a, b := From(x.lo, d), To(x.hi, d);
      var n := RangeLen(a, b, x.step);
      var s := Span(a, x.step, n);
      assert Normalise(x, d) == Some(s);
      forall i, j | 0 <= i < j < n ensures Positions(s)[i] < Positions(s)[j] { ScaleLess(x.step, i, j); }
      forall p: nat ensures p in Positions(s) <==> Taken(x, d, p) {
        RangeHolds(a, b, x.step, p);
        InPositions(s, p);
      }
    }
  }

  lemma InPositions(s: Sel, p: nat)
    requires s.Span?
    ensures p in Positions(s) <==> Reached(s.lo, s.len, s.step, p)
  {
    if p in Positions(s) {
      var o :| 0 <= o < s.len && Positions(s)[o] == p;
      assert s.lo + s.step * o == p;
    }
    if o: nat :| o < s.len && s.lo + s.step * o == p { assert Positions(s)[o] == p; }
  }

  lemma ScaleLess(m: nat, i: nat, j: nat)
    requires m > 0 && i < j
    ensures m * i < m * j
  {
  }

  predicate Reached(a: nat, n: nat, step: nat, p: nat) { exists o: nat :: o < n && a + step * o == p }

  predicate Whole(a: nat, b: nat, step: nat, p: nat)
    requires step > 0
  {
    a <= p < b && (p - a) % step == 0
  }

  /** The range holds exactly the positions between its bounds that are whole steps away. */
  lemma {:induction false} RangeHolds(a: nat, b: nat, step: nat, p: nat)
    requires step > 0
    ensures Reached(a, RangeLen(a, b, step), step, p) <==> Whole(a, b, step, p)
    decreases b - a
  {
    hide Reached, Whole;
    if a < b {
      RangeHolds(a + step, b, step, p);
      ReachedFirst(a, RangeLen(a + step, b, step), step, p);
      WholeFirst(a, b, step, p);
    } else {
      NoneBetween(a, b, step, p);
    }
  }

  lemma NoneBetween(a: nat, b: nat, step: nat, p: nat)
    requires a >= b && step > 0
    ensures !Reached(a, 0, step, p) && !Whole(a, b, step, p)
  {
  }

  lemma ReachedFirst(a: nat, n: nat, step: nat, p: nat)
    ensures Reached(a, n + 1, step, p) <==> p == a || Reached(a + step, n, step, p)
  {
    if Reached(a, n + 1, step, p) {
      var o: nat :| o < n + 1 && a + step * o == p;
      StepBack(a, step, o);
      if o > 0 { assert o - 1 < n && a + step + step * (o - 1) == p; }
    }
    if p == a { assert 0 < n + 1 && a + step * 0 == p; }
    if Reached(a + step, n, step, p) {
      var o: nat :| o < n && a + step + step * o == p;
      StepBack(a, step, o + 1);
    }
  }

  lemma StepBack(a: nat, step: nat, o: nat)
    ensures o == 0 ==> a + step * o == a
    ensures o > 0 ==> a + step * o == a + step + step * (o - 1)
  {
  }

  lemma WholeFirst(a: nat, b: nat, step: nat, p: nat)
    requires a < b && step > 0
    ensures Whole(a, b, step, p) <==> p == a || Whole(a + step, b, step, p)
  {
    if a <= p { Shifted(p - a, step); }
  }

  lemma Shifted(k: nat, m: nat)
    requires m > 0
    ensures k >= m ==> (k - m) % m == k % m
    ensures k < m ==> k % m == k
  {
    if k >= m {
      var q, r := k / m, k % m;
      var less := q * m - m;
      assert less == (q - 1) * m && less + r == k - m;
      DivModUnique(q - 1, m, r);
    }
  }

  // ---- indexing with a tuple ----

  /** Sizes left by indices that take the listed positions: an integer drops its axis. */
  function Sizes(ys: seq<Index>, lists: seq<seq<nat>>): (s: seq<nat>)
    requires |lists| == |ys|
  {
    if ys == [] then [] else (if ys[0].Int? then [] else [|lists[0]|]) + Sizes(ys[1..], lists[1..])
  }

  /** Where output index o is read: every slice takes its number of the listed positions,
      every integer the only one. */
  function SourceOf(ys: seq<Index>, lists: seq<seq<nat>>, o: seq<nat>): (s: seq<nat>)
    requires |lists| == |ys| && (forall k | 0 <= k < |ys| && ys[k].Int? :: |lists[k]| == 1)
    requires InBounds(Sizes(ys, lists), o)
  {
    if ys == [] then []
    else if ys[0].Int? then [lists[0][0]] + SourceOf(ys[1..], lists[1..], o)
    else [lists[0][o[0]]] + SourceOf(ys[1..], lists[1..], o[1..])
  }

  /** A tuple of indices is accepted if there is one at most for every axis and none is
      refused. */
  lemma IndexRefused(t: Tensor, xs: seq<Index>)
    ensures IndexTensor(t, xs).None? <==>
            |xs| > |t.shape| || exists k | 0 <= k < |xs| :: Refused(xs[k], t.shape[k])
  {
    hide NormaliseAll, Normalise, Select, Refused;
    var ys := PadIndices(xs, |t.shape|);
    if |xs| <= |t.shape| {
      forall k | 0 <= k < |ys| ensures Normalise(ys[k], t.shape[k]).None? <==> k < |xs| && Refused(xs[k], t.shape[k]) {
        AxisPositions(ys[k], t.shape[k]);
        ColonTaken(t.shape[k]);
      }
      if forall k | 0 <= k < |xs| :: !Refused(xs[k], t.shape[k]) {
        var sels := seq(|ys|, k requires 0 <= k < |ys| && Normalise(ys[k], t.shape[k]).Some? =>
          Normalise(ys[k], t.shape[k]).value);
        NormaliseAllIs(ys, t.shape, sels);
      }
    }
  }

  lemma ColonTaken(d: nat)
    ensures !Refused(COLON, d)
  {
  }

  /** Every output element is read at the positions that the indices take, in their order. */
  lemma IndexReads(t: Tensor, xs: seq<Index>) returns (ys: seq<Index>, lists: seq<seq<nat>>)
    requires IndexTensor(t, xs).Some?
    ensures |ys| == |lists| == |t.shape| && xs <= ys && forall k | |xs| <= k < |ys| :: ys[k] == COLON
    ensures forall k | 0 <= k < |ys| :: Lists(ys[k], t.shape[k], lists[k]) && (ys[k].Int? ==> |lists[k]| == 1)
    ensures var u := IndexTensor(t, xs).value;
      && u.shape == Sizes(ys, lists)
      && forall o | InBounds(u.shape, o) :: u.At(o) == t.At(SourceOf(ys, lists, o))
  {
    hide Normalise, Lists, Tensor.At, Select;
    ys := PadIndices(xs, |t.shape|);
    var sels := NormaliseAll(ys, t.shape).value;
    lists := seq(|ys|, k requires 0 <= k < |sels| => Positions(sels[k]));
    forall k | 0 <= k < |ys| ensures Lists(ys[k], t.shape[k], lists[k]) && (ys[k].Int? <==> sels[k].Pick?) {
      AxisPositions(ys[k], t.shape[k]);
    }
    SizesAre(ys, sels, lists);
    forall o | InBounds(IndexTensor(t, xs).value.shape, o)
      ensures IndexTensor(t, xs).value.At(o) == t.At(SourceOf(ys, lists, o))
    {
      SelectAt(t, sels, o);
      SourcesAre(ys, sels, lists, o);
    }
  }

  predicate ListsOf(ys: seq<Index>, sels: seq<Sel>, lists: seq<seq<nat>>) {
    && |ys| == |sels| == |lists|
    && forall k | 0 <= k < |ys| :: lists[k] == Positions(sels[k]) && (ys[k].Int? <==> sels[k].Pick?)
  }

  lemma {:induction false} SizesAre(ys: seq<Index>, sels: seq<Sel>, lists: seq<seq<nat>>)
    requires ListsOf(ys, sels, lists)
    ensures OutShape(sels) == Sizes(ys, lists)
  {
    if ys != [] { SizesAre(ys[1..], sels[1..], lists[1..]); }
  }

  lemma {:induction false} SourcesAre(ys: seq<Index>, sels: seq<Sel>, lists: seq<seq<nat>>, o: seq<nat>)
    requires ListsOf(ys, sels, lists) && InBounds(Sizes(ys, lists), o) && |o| == |OutShape(sels)|
    ensures Source(sels, o) == SourceOf(ys, lists, o)
  {
    if ys != [] {
      SizesAre(ys[1..], sels[1..], lists[1..]);
      SourcesAre(ys[1..], sels[1..], lists[1..], if ys[0].Int? then o else o[1..]);
    }
  }

  /** Cutting the first axis in two and concatenating the halves gives the tensor back. */
  lemma HalvesJoin(t: Tensor, n: nat)
    requires t.Valid() && |t.shape| > 0 && n <= t.shape[0]
    ensures var front, back := IndexTensor(t, [Slice(None, Some(n), 1)]), IndexTensor(t, [Slice(Some(n), None, 1)]);
      && front.Some? && back.Some? && CanCat([front.value, back.value])
      && Cat([front.value, back.value]) == t
  {
    hide Normalise, Select, Prod, Cat;
    var d := t.shape[0];
    HalfSlices(n, d);
    FirstAxisSlice(t, Slice(None, Some(n), 1), 0, n);
    FirstAxisSlice(t, Slice(Some(n), None, 1), n, d - n);
    TwoPieces(t, n);
    CatAllPieces(t, [n, d - n]);
  }

  lemma TwoPieces(t: Tensor, n: nat)
    requires |t.shape| > 0 && n <= t.shape[0]
    ensures var d := t.shape[0];
      && Sum([n, d - n]) == d
      && Pieces(t, 0, 0, [n, d - n]) == [Narrow(t, 0, 0, n), Narrow(t, 0, n, d - n)]
  {
    hide Narrow;
    var d := t.shape[0];
    assert [n, d - n][1..] == [d - n] && [d - n][1..] == [];
    assert Sum([d - n]) == d - n;
    assert Pieces(t, 0, n, [d - n]) == [Narrow(t, 0, n, d - n)];
  }

  lemma HalfSlices(n: nat, d: nat)
    requires n <= d
    ensures Normalise(Slice(None, Some(n), 1), d) == Some(Span(0, 1, n))
    ensures Normalise(Slice(Some(n), None, 1), d) == Some(Span(n, 1, d - n))
  {
    hide RangeLen;
  }

  lemma FirstAxisSlice(t: Tensor, x: Index, lo: nat, len: nat)
    requires |t.shape| > 0 && Normalise(x, t.shape[0]) == Some(Span(lo, 1, len))
    ensures IndexTensor(t, [x]) == Some(Narrow(t, 0, lo, len))
  {
    hide Normalise, Select;
    var ys, sels := PadIndices([x], |t.shape|), NarrowSels(t.shape, 0, lo, len);
    forall k | 0 <= k < |ys| ensures Normalise(ys[k], t.shape[k]) == Some(sels[k]) {
      if k > 0 { assert ys[k] == COLON; }
    }
    NormaliseAllIs(ys, t.shape, sels);
  }

  // ---- splitting ----

  /** Pieces of one size, the last one with what is left over. */
  lemma {:induction false} ChunksExactly(d: nat, size: nat)
    requires size > 0
    ensures var c := Chunks(d, size);
      && (d == 0 ==> c == [0])
      && (d > 0 ==> (|c| - 1) * size < d <= |c| * size)
      && forall i | 0 <= i < |c| :: c[i] == if i < |c| - 1 then size else d - (|c| - 1) * size
  {
    hide Chunks;
    ChunksStep(d, size);
    if d > size {
      var m := |Chunks(d - size, size)|;
      ChunksExactly(d - size, size);
      OneMoreTime(m, size);
      OneMoreTime(m - 1, size);
    }
  }

  lemma ChunksStep(d: nat, size: nat)
    requires size > 0
    ensures Chunks(d, size) == if d <= size then [d] else [size] + Chunks(d - size, size)
  {
  }

  lemma OneMoreTime(m: nat, size: nat)
    ensures (m + 1) * size == m * size + size
  {
  }

  /** A list of sizes is taken as it is, if nothing in it is negative and it adds up. */
  lemma PartsExactly(sizes: seq<int>, s: seq<nat>, d: nat)
    ensures PieceSizes(Parts(sizes), d) == Some(s) <==> s == sizes && Sum(s) == d
    ensures PieceSizes(Parts(sizes), d).Some? ==> PieceSizes(Parts(sizes), d).value == sizes
  {
    if s == sizes { assert Nats(sizes) == s; }
  }

  lemma {:induction false} PieceIs(t: Tensor, axis: nat, lo: nat, sizes: seq<nat>, k: nat)
    requires axis < |t.shape| && k < |sizes|
    ensures Pieces(t, axis, lo, sizes)[k] == Narrow(t, axis, lo + Sum(sizes[..k]), sizes[k])
    decreases k
  {
    hide Narrow;
    if k > 0 {
      PieceIs(t, axis, lo + sizes[0], sizes[1..], k - 1);
      assert sizes[..k][0] == sizes[0] && sizes[..k][1..] == sizes[1..][..k - 1];
    }
  }

  lemma {:induction false} SpansRead(sels: seq<Sel>, o: seq<nat>)
    requires |o| == |sels| && forall i | 0 <= i < |sels| :: sels[i].Span?
    ensures |OutShape(sels)| == |sels| && forall i | 0 <= i < |sels| :: OutShape(sels)[i] == sels[i].len
    ensures forall i | 0 <= i < |sels| :: Source(sels, o)[i] == sels[i].SrcOf(o[i])
  {
    if sels != [] { SpansRead(sels[1..], o[1..]); }
  }

  lemma NarrowReads(t: Tensor, axis: nat, lo: nat, len: nat, o: seq<nat>)
    requires axis < |t.shape| && InBounds(t.shape[axis := len], o)
    ensures Narrow(t, axis, lo, len).At(o) == t.At(o[axis := lo + o[axis]])
  {
    hide Tensor.At, OutShape, Source, Select;
    var sels := NarrowSels(t.shape, axis, lo, len);
    SpansRead(sels, o);
    assert OutShape(sels) == t.shape[axis := len];
    assert Source(sels, o) == o[axis := lo + o[axis]];
    SelectAt(t, sels, o);
  }

  lemma NarrowShape(t: Tensor, axis: nat, lo: nat, len: nat)
    requires axis < |t.shape|
    ensures Narrow(t, axis, lo, len).shape == t.shape[axis := len]
  {
    hide OutShape, Source;
    var sels := NarrowSels(t.shape, axis, lo, len);
    SpansRead(sels, t.shape);
    assert OutShape(sels) == t.shape[axis := len];
  }

  /** Piece k has the k-th size on the axis and stands behind all of the earlier pieces. */
  ghost predicate IsPiece(t: Tensor, axis: nat, sizes: seq<nat>, k: nat, piece: Tensor)
    requires axis < |t.shape| && k < |sizes|
  {
    && piece.shape == t.shape[axis := sizes[k]]
    && forall o | InBounds(piece.shape, o) :: piece.At(o) == t.At(o[axis := Sum(sizes[..k]) + o[axis]])
  }

  lemma SplitReads(t: Tensor, spec: SplitSpec, dim: int) returns (axis: nat, sizes: seq<nat>)
    requires SplitAlong(t, spec, dim).Some?
    ensures axis < |t.shape| && axis == (if dim < 0 then |t.shape| + dim else dim)
    ensures PieceSizes(spec, t.shape[axis]) == Some(sizes)
    ensures var ps := SplitAlong(t, spec, dim).value;
      |ps| == |sizes| && forall k | 0 <= k < |ps| :: IsPiece(t, axis, sizes, k, ps[k])
  {
    hide IsPiece, PieceSizes, Pieces, Narrow;
    axis := if dim < 0 then |t.shape| + dim else dim;
    sizes := PieceSizes(spec, t.shape[axis]).value;
    var ps := SplitAlong(t, spec, dim).value;
    forall k | 0 <= k < |ps| ensures IsPiece(t, axis, sizes, k, ps[k]) {
      PieceIs(t, axis, 0, sizes, k);
      NarrowIsPiece(t, axis, sizes, k);
    }
  }

  lemma NarrowIsPiece(t: Tensor, axis: nat, sizes: seq<nat>, k: nat)
    requires axis < |t.shape| && k < |sizes|
    ensures IsPiece(t, axis, sizes, k, Narrow(t, axis, Sum(sizes[..k]), sizes[k]))
  {
    hide Tensor.At, Narrow, Sum;
    var lo := Sum(sizes[..k]);
    NarrowShape(t, axis, lo, sizes[k]);
    forall o | InBounds(t.shape[axis := sizes[k]], o)
      ensures Narrow(t, axis, lo, sizes[k]).At(o) == t.At(o[axis := lo + o[axis]])
    {
      NarrowReads(t, axis, lo, sizes[k], o);
    }
  }

  // ---- concatenating and stacking ----

  lemma {:induction false} FirstSumCut(ts: seq<Tensor>, k: nat)
    requires (forall i | 0 <= i < |ts| :: |ts[i].shape| > 0) && k < |ts|
    ensures FirstSum(ts[..k]) + ts[k].shape[0] <= FirstSum(ts)
  {
    if k > 0 {
      FirstSumCut(ts[1..], k - 1);
      assert ts[..k][0] == ts[0] && ts[..k][1..] == ts[1..][..k - 1];
    }
  }

  /** Part k stands behind all of the earlier parts. */
  lemma {:induction false} CatReads(ts: seq<Tensor>, k: nat, i: nat, r: seq<nat>)
    requires CanCat(ts) && k < |ts| && i < ts[k].shape[0] && InBounds(ts[0].shape[1..], r)
    ensures Cat(ts).shape == [FirstSum(ts)] + ts[0].shape[1..]
    ensures Cat(ts).At([FirstSum(ts[..k]) + i] + r) == ts[k].At([i] + r)
    decreases |ts|
  {
    hide Tensor.At, Cat2, InBounds;
    CatFirst(ts);
    FirstSumCut(ts, k);
    if |ts| > 1 {
      CanCatTail(ts);
      Cat2At(ts[0], Cat(ts[1..]), FirstSum(ts[..k]) + i, r);
      if k > 0 {
        assert ts[..k][0] == ts[0] && ts[..k][1..] == ts[1..][..k - 1];
        CatReads(ts[1..], k - 1, i, r);
      }
    }
  }

  /** The first axis of a stack says which tensor, the others where in it. */
  lemma StackReads(ts: seq<Tensor>, k: nat, idx: seq<nat>)
    requires CanStack(ts) && k < |ts| && InBounds(ts[k].shape, idx)
    ensures Stack(ts).shape == [|ts|] + ts[0].shape
    ensures Stack(ts).At([k] + idx) == ts[k].At(idx)
  {
    hide Tensor.At, Cat, InBounds;
    var us := MapNewAxis(ts);
    StackIsCat(ts);
    UnitSum(us);
    UnitSum(us[..k]);
    CatReads(us, k, 0, idx);
    NewAxisAt(ts[k], idx);
  }

  lemma {:induction false} UnitSum(us: seq<Tensor>)
    requires forall i | 0 <= i < |us| :: |us[i].shape| > 0 && us[i].shape[0] == 1
    ensures FirstSum(us) == |us|
  {
    if us != [] { UnitSum(us[1..]); }
  }

  // ---- layout, permutation, scaling ----

  /** The elements of one position of the first axis stand together, in the order of the
      positions. */
  lemma RowMajor(t: Tensor, i: nat, r: seq<nat>)
    requires t.Valid() && t.shape != [] && i < t.shape[0] && InBounds(t.shape[1..], r)
    ensures var m := Prod(t.shape[1..]);
      && i * m + m <= |t.data|
      && t.At([i] + r) == Tensor(t.shape[1..], t.data[i * m..i * m + m]).At(r)
  {
    var m, k := Prod(t.shape[1..]), Ravel(t.shape[1..], r);
    assert k < m && Prod(t.shape) == t.shape[0] * m;
    RavelCons(t.shape, i, r);
    hide Prod, Ravel;
    MulLess(i, t.shape[0], m - 1, m);
    MulLess(i, t.shape[0], k, m);
    assert t.data[i * m..i * m + m][k] == t.data[i * m + k];
  }

  /** Reshaping keeps the elements in their order; the sizes that are given are kept, and
      together they make up all of the elements. */
  lemma ReshapeKeeps(t: Tensor, spec: seq<int>, i: nat)
    requires ReshapeAs(t, spec).Some? && i < |spec|
    ensures var u := ReshapeAs(t, spec).value;
      && u.data == t.data && Prod(u.shape) == |t.data|
      && |u.shape| == |spec| && (spec[i] == u.shape[i] || spec[i] == -1)
  {
    hide Prod;
  }

  /** Output axis i is axis dims[i] of the source, where negative numbers count from the
      end. */
  lemma PermuteReads(t: Tensor, dims: seq<int>, s: seq<nat>, o: seq<nat>)
    requires PermuteTensor(t, dims).Some? && InBounds(t.shape, s) && |o| == |s| == |dims|
    requires forall i | 0 <= i < |o| :: 0 - |s| <= dims[i] < |s|
    requires forall i | 0 <= i < |o| :: o[i] == s[if dims[i] < 0 then |s| + dims[i] else dims[i]]
    ensures PermuteTensor(t, dims).value.At(o) == t.At(s)
  {
    hide Tensor.At, Prod, IsPerm, Unpermute, Permute;
    var p := WrapDims(dims, |t.shape|).value;
    UnpermuteIs(p, o, s);
    assert InBounds(PermShape(t.shape, p), o);
    PermuteAt(t, p, o);
  }

  lemma UnpermuteIs(p: seq<nat>, o: seq<nat>, s: seq<nat>)
    requires IsPerm(p) && |o| == |s| == |p| && forall i | 0 <= i < |p| :: p[i] < |p| && o[i] == s[p[i]]
    ensures Unpermute(p, o) == s
  {
  }

  /** Two axes change places. */
  lemma TransposeReads(t: Tensor, x: nat, y: nat, s: seq<nat>)
    requires x < |t.shape| && y < |t.shape| && InBounds(t.shape, s)
    ensures TransposeTensor(t, x, y).Some? && TransposeTensor(t, x, y).value.At(s[x := s[y]][y := s[x]]) == t.At(s)
    ensures TransposeTensor(t, x, y) == TransposeTensor(t, x - |t.shape|, y)
    ensures TransposeTensor(t, x, y) == TransposeTensor(t, x, y - |t.shape|)
  {
    hide Tensor.At, Prod, Permute;
    SwapDimsValid(|t.shape|, x, y);
    PermuteReads(t, SwapDims(|t.shape|, x, y).value, s, s[x := s[y]][y := s[x]]);
  }

  /** What an axis of a broadcast operand reads: its only position, or the one of the
      result. */
  predicate ReadsFrom(shape: seq<nat>, idx: seq<nat>, i: seq<nat>)
    requires |idx| == |shape|
  {
    |i| == |shape| && forall k | 0 <= k < |shape| :: i[k] == if shape[k] == 1 then 0 else idx[k]
  }

  /** An elementwise product, with the last axes of the operands standing over each other. */
  lemma MulReads(t: Tensor, o: Tensor, idx: seq<nat>, i: seq<nat>, j: seq<nat>)
    requires o.Valid() && |o.shape| <= |t.shape| && Mul(t, o).Some?
    requires InBounds(Mul(t, o).value.shape, idx)
    requires |idx| == |t.shape| && ReadsFrom(t.shape, idx, i) && ReadsFrom(o.shape, idx[|idx| - |o.shape|..], j)
    ensures Mul(t, o).value.At(idx) == t.At(i) * o.At(j)
  {
    hide Tensor.At, Prod, Ravel, MulSameRank;
    var g := |t.shape| - |o.shape|;
    var q := PadAxes(o, |t.shape|);
    MulAt(t, q, idx);
    assert Bcast(t.shape, idx) == i;
    BcastInBounds(q.shape, MulSameRank(t, q).value.shape, idx);
    var z := seq(g, _ => 0);
    assert Bcast(q.shape, idx) == z + j;
    InBoundsAppend(Ones(g), o.shape, z, j);
    PaddedAt(o, g, z, j);
  }

  lemma PaddedAt(o: Tensor, g: nat, z: seq<nat>, j: seq<nat>)
    requires o.Valid() && InBounds(Ones(g), z) && InBounds(o.shape, j)
    ensures PadAxes(o, g + |o.shape|).At(z + j) == o.At(j)
  {
    hide Prod, Ravel;
    ProdOnes(g);
    assert Ravel(Ones(g), z) == 0;
    RavelAppend(Ones(g), o.shape, z, j);
  }

  // ---- the product of the factors ----

  /** The sum of the products of the entries that stand at the same place. */
  function Dot(xs: seq<int>, ys: seq<int>): int
    requires |xs| == |ys|
  {
    if xs == [] then 0 else xs[0] * ys[0] + Dot(xs[1..], ys[1..])
  }

  lemma {:induction false} DotLast(xs: seq<int>, ys: seq<int>, x: int, y: int)
    requires |xs| == |ys|
    ensures Dot(xs + [x], ys + [y]) == Dot(xs, ys) + x * y
  {
    if xs != [] {
      DotLast(xs[1..], ys[1..], x, y);
      assert (xs + [x])[1..] == xs[1..] + [x] && (ys + [y])[1..] == ys[1..] + [y];
    }
  }

  lemma {:induction false} RankSumIsDot(b: Tensor, a: Tensor, row: seq<nat>, lead: seq<nat>, j: nat, k: nat)
    ensures RankSum(b, a, row, lead, j, k) ==
            Dot(seq(k, t requires 0 <= t < k => b.At(row + [t])), seq(k, t requires 0 <= t < k => a.At(lead + [t, j])))
  {
    hide Tensor.At;
    if k > 0 {
      RankSumIsDot(b, a, row, lead, j, k - 1);
      var xs := seq(k, t requires 0 <= t < k => b.At(row + [t]));
      var ys := seq(k, t requires 0 <= t < k => a.At(lead + [t, j]));
      DotLast(xs[..k - 1], ys[..k - 1], xs[k - 1], ys[k - 1]);
      assert xs[..k - 1] == seq(k - 1, t requires 0 <= t < k - 1 => b.At(row + [t]));
      assert ys[..k - 1] == seq(k - 1, t requires 0 <= t < k - 1 => a.At(lead + [t, j]));
      assert xs == xs[..k - 1] + [xs[k - 1]] && ys == ys[..k - 1] + [ys[k - 1]];
    }
  }

  /** An entry is row i of B times column j of A, each taken from the matrix that stands at
      the leading position. */
  lemma ProductReads(l: Lora, o: seq<nat>, i: nat, j: nat, p: seq<nat>, row: seq<int>, column: seq<int>)
    requires l.Wf() && InBounds(l.LeadB(), o) && i < l.B.shape[l.Ndim() - 2] && j < l.Cols()
    requires |o| == |l.LeadA()| && ReadsFrom(l.LeadA(), o, p)
    requires |row| == |column| == l.Rank()
    requires forall t | 0 <= t < l.Rank() :: row[t] == l.B.At(o + [i, t]) && column[t] == l.A.At(p + [t, j])
    ensures Product(l).At(o + [i, j]) == Dot(row, column)
  {
    hide Tensor.At, Product, RankSum;
    EntryParts(l, o, i, j);
    assert Bcast(l.LeadA(), o) == p;
    RankSumIsDot(l.B, l.A, o + [i], p, j, l.Rank());
    var k := l.Rank();
    forall t | 0 <= t < k ensures o + [i] + [t] == o + [i, t] { }
    assert row == seq(k, t requires 0 <= t < k => l.B.At(o + [i] + [t]));
    assert column == seq(k, t requires 0 <= t < k => l.A.At(p + [t, j]));
  }
}
