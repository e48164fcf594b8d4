/** Index tuples with an ellipsis: how LoraTorchTensor expands one, and when the factors
    and the product then read the same positions. */
module LoraEllipsis {
  import opened Options
  import opened Tensors
  import opened Lora
  import opened LoraIndexing

  datatype Item = Ix(x: Index) | Ellipsis

  // ---- the two readings of a tuple ----

  function Plain(items: seq<Item>): seq<Index> {
    if items == [] then []
    else (if items[0].Ix? then [items[0].x] else []) + Plain(items[1..])
  }

  /** Every ellipsis replaced by k full slices. */
  function Expand(items: seq<Item>, k: nat): seq<Index> {
    if items == [] then []
    else (if items[0].Ix? then [items[0].x] else Colons(k)) + Expand(items[1..], k)
  }

  /** l[items] for a tuple: ellipses at the end are dropped, any other is replaced by one
      full slice for each of the other items; an empty tuple raises. */
  function GetItems(l: Lora, items: seq<Item>): (r: Option<Lora>)
    requires l.Constructed()
    decreases |items|
  {
    if items == [] then None
    else if items[|items| - 1].Ellipsis? then GetItems(l, items[..|items| - 1])
    else GetTuple(l, Expand(items, |items| - 1))
  }

  /** The index tuple without ellipsis that the code arrives at. */
  function CodeIndices(items: seq<Item>): Option<seq<Index>>
    decreases |items|
  {
    if items == [] then None
    else if items[|items| - 1].Ellipsis? then CodeIndices(items[..|items| - 1])
    else Some(Expand(items, |items| - 1))
  }

  lemma {:induction false} GetItemsIs(l: Lora, items: seq<Item>)
    requires l.Constructed()
    ensures GetItems(l, items) == if CodeIndices(items).None? then None else GetTuple(l, CodeIndices(items).value)
    decreases |items|
  {
    hide GetTuple, Expand;
    if items != [] && items[|items| - 1].Ellipsis? { GetItemsIs(l, items[..|items| - 1]); }
  }

  /** The position of the first ellipsis, or the number of items. */
  function EllipsisAt(items: seq<Item>): (p: nat)
    ensures p <= |items| && (p < |items| ==> items[p].Ellipsis?) && forall i | 0 <= i < p :: items[i].Ix?
  {
    if items == [] || items[0].Ellipsis? then 0 else 1 + EllipsisAt(items[1..])
  }

  /** The index tuple without ellipsis that torch reads on n axes: one ellipsis at most,
      and full slices for the axes that the other items leave. */
  function TorchIndices(items: seq<Item>, n: nat): Option<seq<Index>> {
    var p := EllipsisAt(items);
    if p == |items| then Some(Plain(items))
    else
      var pre, post := Plain(items[..p]), Plain(items[p + 1..]);
      if EllipsisAt(items[p + 1..]) < |items| - p - 1 || |pre| + |post| > n then None
      else Some(pre + Colons(n - |pre| - |post|) + post)
  }

  /** t[items]. */
  function IndexItems(t: Tensor, items: seq<Item>): (u: Option<Tensor>)
    ensures u.Some? ==> u.value.Valid()
  {
    var xs := TorchIndices(items, |t.shape|);
    if xs.None? then None else IndexTensor(t, xs.value)
  }

  // ---- when both readings select the same ----

  /** The selections that an index tuple makes on a shape. */
  function Sels(shape: seq<nat>, xs: seq<Index>): (s: Option<seq<Sel>>)
    ensures s.Some? ==> FitAll(shape, s.value)
  {
    var ys := PadIndices(xs, |shape|);
    if |ys| != |shape| then None else NormaliseAll(ys, shape)
  }

  lemma IndexIs(t: Tensor, xs: seq<Index>)
    ensures IndexTensor(t, xs) == if Sels(t.shape, xs).None? then None else Some(Select(t, Sels(t.shape, xs).value))
  {
  }

  /** Two selections have the same output shape and, if there is anything to tell apart,
      read the same position for every output position. */
  ghost predicate SameReading(s: seq<Sel>, t: seq<Sel>, rank: nat) {
    && OutShape(s) == OutShape(t)
    && (rank == 0 || forall u | InBounds(OutShape(s), u) :: Source(s, u) == Source(t, u))
  }

  /** What the tuple has to respect: torch accepts it, the code's reading is covered and
      selects on the advertised shape what torch's reading selects. Shapes decide it. */
  ghost predicate ItemsMeant(l: Lora, items: seq<Item>)
    requires l.Constructed()
  {
    var e, w := CodeIndices(items), TorchIndices(items, l.Ndim());
    && e.Some? && w.Some? && |e.value| <= l.Ndim() && Covered(l, e.value)
    && Sels(l.Shape(), e.value).Some? && Sels(l.Shape(), w.value).Some?
    && SameReading(Sels(l.Shape(), e.value).value, Sels(l.Shape(), w.value).value, l.Rank())
  }

  /** The code's indices and torch's differ in where full slices stand, not in the integers. */
  function Ints(xs: seq<Index>): nat {
    if xs == [] then 0 else (if xs[0].Int? then 1 else 0) + Ints(xs[1..])
  }

  lemma {:induction false} IntsAppend(a: seq<Index>, b: seq<Index>)
    ensures Ints(a + b) == Ints(a) + Ints(b)
  {
    if a == [] {
      assert a + b == b;
    } else {
      assert (a + b)[1..] == a[1..] + b;
      IntsAppend(a[1..], b);
    }
  }

  lemma {:induction false} NoInts(xs: seq<Index>)
    requires forall i | 0 <= i < |xs| :: xs[i] == COLON
    ensures Ints(xs) == 0
  {
    if xs != [] { NoInts(xs[1..]); }
  }

  lemma PadInts(xs: seq<Index>, n: nat)
    ensures Ints(PadIndices(xs, n)) == Ints(xs)
  {
    if |xs| < n {
      var colons := seq(n - |xs|, _ => COLON);
      NoInts(colons);
      IntsAppend(xs, colons);
    }
  }

  lemma {:induction false} ExpandInts(items: seq<Item>, k: nat)
    ensures Ints(Expand(items, k)) == Ints(Plain(items))
  {
    if items != [] {
      ExpandInts(items[1..], k);
      NoInts(Colons(k));
      IntsAppend(if items[0].Ix? then [items[0].x] else Colons(k), Expand(items[1..], k));
      IntsAppend(if items[0].Ix? then [items[0].x] else [], Plain(items[1..]));
    }
  }

  lemma {:induction false} PlainAppend(a: seq<Item>, b: seq<Item>)
    ensures Plain(a + b) == Plain(a) + Plain(b)
  {
    if a == [] {
      assert a + b == b;
    } else {
      assert (a + b)[1..] == a[1..] + b;
      PlainAppend(a[1..], b);
      var h := if a[0].Ix? then [a[0].x] else [];
      assert h + (Plain(a[1..]) + Plain(b)) == h + Plain(a[1..]) + Plain(b);
    }
  }

  lemma PlainEllipsis()
    ensures Plain([Ellipsis]) == []
  {
    assert [Ellipsis][1..] == [];
  }

  lemma {:induction false} CodeInts(items: seq<Item>)
    requires CodeIndices(items).Some?
    ensures Ints(CodeIndices(items).value) == Ints(Plain(items))
    decreases |items|
  {
    if items[|items| - 1].Ellipsis? {
      var init := items[..|items| - 1];
      CodeInts(init);
      PlainAppend(init, [Ellipsis]);
      PlainEllipsis();
      assert items == init + [Ellipsis] && Plain(init) + [] == Plain(init);
    } else {
      ExpandInts(items, |items| - 1);
    }
  }

  lemma TorchInts(items: seq<Item>, n: nat)
    requires TorchIndices(items, n).Some?
    ensures Ints(TorchIndices(items, n).value) == Ints(Plain(items))
  {
    hide Ints, Plain, EllipsisAt;
    var p := EllipsisAt(items);
    if p < |items| {
      var pre, post := Plain(items[..p]), Plain(items[p + 1..]);
      var colons := Colons(n - |pre| - |post|);
      assert items == items[..p] + ([Ellipsis] + items[p + 1..]);
      PlainAppend(items[..p], [Ellipsis] + items[p + 1..]);
      PlainAppend([Ellipsis], items[p + 1..]);
      PlainEllipsis();
      assert [] + post == post;
      NoInts(colons);
      IntsAppend(pre, colons);
      IntsAppend(pre + colons, post);
      IntsAppend(pre, post);
    }
  }

  /** The number of axes that remain. */
  lemma {:induction false} AxesLeft(xs: seq<Index>, sels: seq<Sel>)
    requires |xs| == |sels| && forall i | 0 <= i < |xs| :: sels[i].Pick? <==> xs[i].Int?
    ensures |OutShape(sels)| + Ints(xs) == |xs|
  {
    if xs != [] {
      forall i | 0 <= i < |xs[1..]| ensures sels[1..][i].Pick? <==> xs[1..][i].Int? {
        assert sels[1..][i] == sels[i + 1] && xs[1..][i] == xs[i + 1];
      }
      AxesLeft(xs[1..], sels[1..]);
    }
  }

  lemma SelsAxes(shape: seq<nat>, xs: seq<Index>)
    requires Sels(shape, xs).Some?
    ensures |OutShape(Sels(shape, xs).value)| + Ints(xs) == |shape|
  {
    PadInts(xs, |shape|);
    var ys := PadIndices(xs, |shape|);
    forall i | 0 <= i < |ys| ensures Sels(shape, xs).value[i].Pick? <==> ys[i].Int? {
      assert Normalise(ys[i], shape[i]) == Some(Sels(shape, xs).value[i]);
    }
    AxesLeft(ys, Sels(shape, xs).value);
  }

  // ---- meant tuples ----

  lemma {:induction false} ZeroSum(b: Tensor, a: Tensor, row: seq<nat>, lead: seq<nat>, j: nat)
    ensures RankSum(b, a, row, lead, j, 0) == 0
  {
  }

  /** Selections that read the same positions give the same tensor. */
  lemma SameReadingSelects(l: Lora, s: seq<Sel>, t: seq<Sel>)
    requires l.Wf() && FitAll(l.Shape(), s) && FitAll(l.Shape(), t) && SameReading(s, t, l.Rank())
    ensures Select(Product(l), s) == Select(Product(l), t)
  {
    hide Select, Product, Tensor.At, FitAll;
    var w := Product(l);
    forall u | InBounds(OutShape(s), u) ensures Select(w, s).At(u) == Select(w, t).At(u) {
      SelectAt(w, s, u);
      SelectAt(w, t, u);
      if l.Rank() == 0 {
        SourceInBounds(l.Shape(), s, u);
        SourceInBounds(l.Shape(), t, u);
        RankZero(l, Source(s, u));
        RankZero(l, Source(t, u));
      }
    }
    Extensional(Select(w, s), Select(w, t));
  }

  lemma ItemsDenote(l: Lora, items: seq<Item>)
    requires l.Wf() && GetItems(l, items).Some? && ItemsMeant(l, items)
    ensures IndexItems(Product(l), items).Some?
    ensures Denotes(GetItems(l, items).value, IndexItems(Product(l), items).value)
  {
    hide GetItems, CodeIndices, TorchIndices, GetTuple, Sels, SameReading, Covered, Product, Denotes;
    GetItemsIs(l, items);
    var e, w := CodeIndices(items).value, TorchIndices(items, l.Ndim()).value;
    GetTupleCorrect(l, e);
    IndexIs(Product(l), e);
    IndexIs(Product(l), w);
    SameReadingSelects(l, Sels(l.Shape(), e).value, Sels(l.Shape(), w).value);
  }

  // ---- tuples that are not meant ----

  /** The tensor with a 1 at one place and 0 elsewhere. */
  function OneHot(shape: seq<nat>, at: seq<nat>): (t: Tensor)
    ensures t.Valid() && t.shape == shape
  {
    Build(shape, idx => if idx == at then 1 else 0)
  }

  lemma OneHotAt(shape: seq<nat>, at: seq<nat>, idx: seq<nat>)
    requires InBounds(shape, idx)
    ensures OneHot(shape, at).At(idx) == if idx == at then 1 else 0
  {
    BuildAt(shape, idx => if idx == at then 1 else 0, idx);
  }

  /** Factors of l's shapes whose product is 1 at one place and 0 elsewhere. */
  function Hot(l: Lora, at: seq<nat>): Lora
    requires l.Wf() && InBounds(l.Shape(), at)
  {
    var n := l.Ndim();
    Lora(OneHot(l.A.shape, Bcast(l.LeadA(), at[..n - 2]) + [0, at[n - 1]]), OneHot(l.B.shape, at[..n - 1] + [0]))
  }

  lemma {:induction false} HotSum(b: Tensor, a: Tensor, row: seq<nat>, lead: seq<nat>, j: nat, k: nat)
    requires forall t: nat | 0 < t < k :: b.At(row + [t]) == 0
    ensures RankSum(b, a, row, lead, j, k) == if k == 0 then 0 else b.At(row + [0]) * a.At(lead + [0, j])
  {
    hide Tensor.At;
    if k > 1 {
      HotSum(b, a, row, lead, j, k - 1);
    } else if k == 1 {
      ZeroSum(b, a, row, lead, j);
    }
  }

  lemma HotProduct(l: Lora, at: seq<nat>, idx: seq<nat>)
    requires l.Wf() && l.Rank() > 0 && InBounds(l.Shape(), at) && InBounds(l.Shape(), idx)
    ensures SameShapes(Hot(l, at), l) && Hot(l, at).Wf()
    ensures Product(Hot(l, at)).At(idx) == if idx == at then 1 else 0
  {
    hide Product, Tensor.At, Entry, OneHot;
    var m, n := Hot(l, at), l.Ndim();
    IndexParts(l, idx);
    IndexParts(l, at);
    var o, i, j := idx[..n - 2], idx[n - 2], idx[n - 1];
    EntryParts(m, o, i, j);
    HotRow(l, at, o, i);
    HotSum(m.B, m.A, o + [i], Bcast(l.LeadA(), o), j, l.Rank());
    HotColumn(l, at, o, j);
    if o + [i] == at[..n - 1] {
      assert o == (o + [i])[..n - 2] == at[..n - 2];
      assert idx == o + [i] + [j] && at == at[..n - 1] + [at[n - 1]];
    }
  }

  lemma HotRow(l: Lora, at: seq<nat>, o: seq<nat>, i: nat)
    requires l.Wf() && l.Rank() > 0 && InBounds(l.Shape(), at) && InBounds(l.LeadB(), o) && i < l.B.shape[l.Ndim() - 2]
    ensures forall t: nat | t < l.Rank() ::
      Hot(l, at).B.At(o + [i] + [t]) == if o + [i] == at[..l.Ndim() - 1] && t == 0 then 1 else 0
  {
    hide OneHot, Tensor.At;
    var n := l.Ndim();
    forall t: nat | t < l.Rank()
      ensures Hot(l, at).B.At(o + [i] + [t]) == if o + [i] == at[..n - 1] && t == 0 then 1 else 0
    {
      assert l.B.shape == l.LeadB() + [l.B.shape[n - 2], l.Rank()] && o + [i] + [t] == o + [i, t];
      InBoundsAppend(l.LeadB(), [l.B.shape[n - 2], l.Rank()], o, [i, t]);
      OneHotAt(l.B.shape, at[..n - 1] + [0], o + [i] + [t]);
      assert (o + [i] + [t])[..n - 1] == o + [i] && (at[..n - 1] + [0])[..n - 1] == at[..n - 1];
      assert (o + [i] + [t])[n - 1] == t;
    }
  }

  lemma HotColumn(l: Lora, at: seq<nat>, o: seq<nat>, j: nat)
    requires l.Wf() && l.Rank() > 0 && InBounds(l.Shape(), at) && InBounds(l.LeadB(), o) && j < l.Cols()
    ensures o == at[..l.Ndim() - 2] ==>
      Hot(l, at).A.At(Bcast(l.LeadA(), o) + [0, j]) == if j == at[l.Ndim() - 1] then 1 else 0
  {
    hide OneHot, Tensor.At;
    var n := l.Ndim();
    if o == at[..n - 2] {
      var lead := Bcast(l.LeadA(), o);
      BcastInBounds(l.LeadA(), l.LeadB(), o);
      assert l.A.shape == l.LeadA() + [l.Rank(), l.Cols()];
      InBoundsAppend(l.LeadA(), [l.Rank(), l.Cols()], lead, [0, j]);
      OneHotAt(l.A.shape, lead + [0, at[n - 1]], lead + [0, j]);
      assert (lead + [0, j])[n - 1] == j && (lead + [0, at[n - 1]])[n - 1] == at[n - 1];
    }
  }

  /** Acceptance, coverage and meaning are matters of the factors' shapes. */
  lemma ShapesDecide(l: Lora, m: Lora, items: seq<Item>)
    requires l.Wf() && m.Wf() && SameShapes(l, m)
    ensures GetItems(l, items).Some? <==> GetItems(m, items).Some?
    ensures ItemsMeant(l, items) <==> ItemsMeant(m, items)
  {
    hide GetItems, CodeIndices, TorchIndices, GetTuple, Sels, SameReading;
    GetItemsIs(l, items);
    GetItemsIs(m, items);
    if CodeIndices(items).Some? { TupleShapesDecide(l, m, CodeIndices(items).value); }
  }

  /** When a tuple is accepted on factors with shapes a and b. */
  predicate TupleAccepted(a: seq<nat>, b: seq<nat>, xs: seq<Index>)
    requires |a| == |b| >= 2
  {
    var ys, n := PadIndices(xs, |b|), |b|;
    xs != [] && |ys| == n &&
    var xa := IndicesA(ys[..n - 2], a[..n - 2]);
    xa.Some? &&
    var s, t := Sels(a, xa.value + [COLON, ys[n - 1]]), Sels(b, ys[..n - 1]);
    s.Some? && t.Some? && FactorShapes(OutShape(s.value), OutShape(t.value))
  }

  /** The constructor accepts tensors of these shapes. */
  predicate FactorShapes(a: seq<nat>, b: seq<nat>) { |a| == |b| >= 2 && a[|a| - 2] == b[|b| - 1] }

  lemma TupleAcceptedIs(l: Lora, xs: seq<Index>)
    requires l.Wf()
    ensures GetTuple(l, xs).Some? <==> TupleAccepted(l.A.shape, l.B.shape, xs)
  {
    hide Select, Sels, IndicesA, IndexTensor, PadIndices;
    var ys, n := PadIndices(xs, l.Ndim()), l.Ndim();
    if |ys| == n && IndicesA(ys[..n - 2], l.LeadA()).Some? {
      IndexIs(l.A, IndicesA(ys[..n - 2], l.LeadA()).value + [COLON, ys[n - 1]]);
      IndexIs(l.B, ys[..n - 1]);
    }
  }

  lemma TupleShapesDecide(l: Lora, m: Lora, xs: seq<Index>)
    requires l.Wf() && m.Wf() && SameShapes(l, m)
    ensures GetTuple(l, xs).Some? <==> GetTuple(m, xs).Some?
  {
    hide GetTuple, TupleAccepted;
    TupleAcceptedIs(l, xs);
    TupleAcceptedIs(m, xs);
  }

  /** A tuple that is not meant goes wrong for some pair of the same shapes. */
  lemma ItemsWitness(l: Lora, items: seq<Item>) returns (m: Lora)
    requires l.Wf() && GetItems(l, items).Some? && !ItemsMeant(l, items)
    ensures SameShapes(m, l) && m.Wf() && GetItems(m, items).Some?
    ensures IndexItems(Product(m), items).Some? ==>
            !Denotes(GetItems(m, items).value, IndexItems(Product(m), items).value)
  {
    hide GetItems, CodeIndices, TorchIndices, GetTuple, Sels, Covered, Product, Denotes, Select, IndexTensor;
    GetItemsIs(l, items);
    m := l;
    var e := CodeIndices(items).value;
    GetTupleCorrect(l, e);
    IndexIs(Product(l), e);
    if IndexItems(Product(l), items).Some? {
      var w := TorchIndices(items, l.Ndim()).value;
      IndexIs(Product(l), w);
      var s, t := Sels(l.Shape(), e).value, Sels(l.Shape(), w).value;
      CodeInts(items);
      TorchInts(items, l.Ndim());
      SelsAxes(l.Shape(), e);
      SelsAxes(l.Shape(), w);
      if !Covered(l, e) {
        UncoveredDenotesNothing(l, e, IndexItems(Product(l), items).value);
      } else if OutShape(s) != OutShape(t) {
        DifferentShapes(GetItems(l, items).value, Select(Product(l), s), Select(Product(l), t));
      } else {
        var u :| InBounds(OutShape(s), u) && Source(s, u) != Source(t, u);
        m := HotWitness(l, items, s, t, u);
      }
    }
  }

  lemma DifferentShapes(r: Lora, w: Tensor, u: Tensor)
    requires Denotes(r, w) && w.shape != u.shape
    ensures !Denotes(r, u)
  {
    hide Product;
  }

  /** A product that is 1 just where the two readings part. */
  lemma HotWitness(l: Lora, items: seq<Item>, s: seq<Sel>, t: seq<Sel>, u: seq<nat>) returns (m: Lora)
    requires l.Wf() && l.Rank() > 0 && GetItems(l, items).Some?
    requires CodeIndices(items).Some? && TorchIndices(items, l.Ndim()).Some?
    requires |CodeIndices(items).value| <= l.Ndim() && Covered(l, CodeIndices(items).value)
    requires Sels(l.Shape(), CodeIndices(items).value) == Some(s)
    requires Sels(l.Shape(), TorchIndices(items, l.Ndim()).value) == Some(t)
    requires OutShape(s) == OutShape(t) && InBounds(OutShape(s), u) && Source(s, u) != Source(t, u)
    ensures SameShapes(m, l) && m.Wf() && GetItems(m, items).Some?
    ensures IndexItems(Product(m), items).Some? ==>
            !Denotes(GetItems(m, items).value, IndexItems(Product(m), items).value)
  {
    hide GetItems, CodeIndices, TorchIndices, GetTuple, Sels, Product, Select, IndexTensor, Hot, Tensor.At;
    var x, y := Source(s, u), Source(t, u);
    SourceInBounds(l.Shape(), s, u);
    SourceInBounds(l.Shape(), t, u);
    m := Hot(l, x);
    HotProduct(l, x, x);
    HotProduct(l, x, y);
    ShapesDecide(l, m, items);
    GetItemsIs(m, items);
    var e, w := CodeIndices(items).value, TorchIndices(items, l.Ndim()).value;
    GetTupleCorrect(m, e);
    IndexIs(Product(m), e);
    IndexIs(Product(m), w);
    SelectAt(Product(m), s, u);
    SelectAt(Product(m), t, u);
  }

  /** A tuple with or without an ellipsis that is accepted means the same on the factors
      as on the product, for every pair of the same shapes, exactly when it is meant. */
  lemma ItemsExactly(l: Lora, items: seq<Item>)
    requires l.Wf() && GetItems(l, items).Some?
    ensures ItemsMeant(l, items) <==>
      forall m: Lora | SameShapes(m, l) && m.Wf() ::
        && GetItems(m, items).Some? && IndexItems(Product(m), items).Some?
        && Denotes(GetItems(m, items).value, IndexItems(Product(m), items).value)
  {
    hide GetItems, IndexItems, ItemsMeant, Product, Denotes;
    if ItemsMeant(l, items) {
      forall m: Lora | SameShapes(m, l) && m.Wf()
        ensures GetItems(m, items).Some? && IndexItems(Product(m), items).Some?
        ensures Denotes(GetItems(m, items).value, IndexItems(Product(m), items).value)
      {
        ShapesDecide(l, m, items);
        ItemsDenote(m, items);
      }
    } else {
      var m := ItemsWitness(l, items);
    }
  }

  // ---- tuples without an ellipsis, and with one ----

  function Items(xs: seq<Index>): (items: seq<Item>)
    ensures |items| == |xs| && forall i | 0 <= i < |xs| :: items[i] == Ix(xs[i])
  {
    seq(|xs|, i requires 0 <= i < |xs| => Ix(xs[i]))
  }

  lemma {:induction false} ItemsPlain(xs: seq<Index>, k: nat)
    ensures Plain(Items(xs)) == xs && Expand(Items(xs), k) == xs
  {
    if xs != [] {
      ItemsPlain(xs[1..], k);
      assert Items(xs)[1..] == Items(xs[1..]) && [xs[0]] + xs[1..] == xs;
    }
  }

  lemma {:induction false} ExpandAppend(a: seq<Item>, b: seq<Item>, k: nat)
    ensures Expand(a + b, k) == Expand(a, k) + Expand(b, k)
  {
    if a == [] {
      assert a + b == b;
    } else {
      assert (a + b)[1..] == a[1..] + b;
      ExpandAppend(a[1..], b, k);
      var h := if a[0].Ix? then [a[0].x] else Colons(k);
      assert h + (Expand(a[1..], k) + Expand(b, k)) == h + Expand(a[1..], k) + Expand(b, k);
    }
  }

  lemma {:induction false} EllipsisAtIs(items: seq<Item>, p: nat)
    requires p <= |items| && (p < |items| ==> items[p].Ellipsis?) && forall i | 0 <= i < p :: items[i].Ix?
    ensures EllipsisAt(items) == p
  {
    var q := EllipsisAt(items);
  }

  lemma ItemsRead(xs: seq<Index>, n: nat)
    ensures CodeIndices(Items(xs)) == if xs == [] then None else Some(xs)
    ensures TorchIndices(Items(xs), n) == Some(xs)
  {
    hide Plain, Expand, EllipsisAt;
    ItemsPlain(xs, if xs == [] then 0 else |xs| - 1);
    EllipsisAtIs(Items(xs), |xs|);
  }

  lemma SameReadingItself(s: seq<Sel>, rank: nat)
    ensures SameReading(s, s, rank)
  {
  }

  lemma EmptyTuple(l: Lora)
    requires l.Constructed()
    ensures GetTuple(l, []) == None
  {
  }

  /** Without an ellipsis both readings are the tuple itself. */
  lemma NoEllipsis(l: Lora, xs: seq<Index>)
    requires l.Wf()
    ensures GetItems(l, Items(xs)) == GetTuple(l, xs)
    ensures IndexItems(Product(l), Items(xs)) == IndexTensor(Product(l), xs)
    ensures GetTuple(l, xs).Some? ==> |xs| <= l.Ndim() && (ItemsMeant(l, Items(xs)) <==> Covered(l, xs))
  {
    hide Product, IndexTensor, Sels, GetTuple, CodeIndices, TorchIndices, SameReading, Covered, GetItems, Items;
    ItemsRead(xs, l.Ndim());
    GetItemsIs(l, Items(xs));
    EmptyTuple(l);
    if GetTuple(l, xs).Some? {
      GetTupleCorrect(l, xs);
      IndexIs(Product(l), xs);
      SameReadingItself(Sels(l.Shape(), xs).value, l.Rank());
    }
  }

  function Around(pre: seq<Index>, post: seq<Index>): seq<Item> { Items(pre) + [Ellipsis] + Items(post) }

  /** The two readings of a tuple with one ellipsis. */
  lemma OneEllipsis(pre: seq<Index>, post: seq<Index>, n: nat)
    requires |pre| + |post| <= n
    ensures CodeIndices(Around(pre, post)) ==
            if post != [] then Some(pre + Colons(|pre| + |post|) + post) else if pre != [] then Some(pre) else None
    ensures TorchIndices(Around(pre, post), n) == Some(pre + Colons(n - |pre| - |post|) + post)
  {
    hide Plain, Expand, EllipsisAt;
    var items, k := Around(pre, post), |pre| + |post|;
    ItemsPlain(pre, k);
    ItemsPlain(post, k);
    EllipsisAtIs(items, |pre|);
    EllipsisAtIs(Items(post), |post|);
    assert items[..|pre|] == Items(pre) && items[|pre| + 1..] == Items(post);
    if post != [] {
      ExpandAppend(Items(pre) + [Ellipsis], Items(post), k);
      ExpandAppend(Items(pre), [Ellipsis], k);
      ExpandOne(k);
    } else {
      assert items[..|items| - 1] == Items(pre);
      ItemsRead(pre, n);
    }
  }

  lemma ExpandOne(k: nat)
    ensures Expand([Ellipsis], k) == Colons(k)
  {
    assert [Ellipsis][1..] == [] && Colons(k) + [] == Colons(k);
  }

  /** Both readings of one ellipsis are the same indices exactly when nothing follows it,
      or the other indices number half the rank, or only full slices follow and there is
      room for them. */
  lemma EllipsisExpansion(pre: seq<Index>, post: seq<Index>, n: nat)
    requires 0 < |pre| + |post| <= n
    ensures CodeIndices(Around(pre, post)).Some? && TorchIndices(Around(pre, post), n).Some?
    ensures PadIndices(CodeIndices(Around(pre, post)).value, n) == TorchIndices(Around(pre, post), n).value <==>
      || post == []
      || 2 * (|pre| + |post|) == n
      || (2 * (|pre| + |post|) < n && forall i | 0 <= i < |post| :: post[i] == COLON)
  {
    hide CodeIndices, TorchIndices;
    OneEllipsis(pre, post, n);
    var q, m := |post|, |pre| + |post|;
    var e, w := PadIndices(CodeIndices(Around(pre, post)).value, n), pre + Colons(n - m) + post;
    assert post == [] ==> e == w;
    if post != [] && 2 * m <= n {
      assert e == pre + Colons(m) + post + Colons(n - 2 * m);
      assert w == pre + Colons(m) + Colons(n - 2 * m) + post;
      if e == w && 2 * m < n {
        forall i | 0 <= i < q ensures post[i] == COLON {
          ShiftedColons(pre + Colons(m), post, n - 2 * m, i);
        }
      }
    }
  }

  /** If moving colons from after post to before it changes nothing, post is colons. */
  lemma {:induction false} ShiftedColons(pre: seq<Index>, post: seq<Index>, d: nat, i: nat)
    requires d > 0 && i < |post| && pre + post + Colons(d) == pre + Colons(d) + post
    ensures post[i] == COLON
    decreases |post| - i
  {
    var x := |pre| + d + i;
    assert (pre + Colons(d) + post)[x] == post[i];
    if d + i < |post| {
      assert (pre + post + Colons(d))[x] == post[d + i];
      ShiftedColons(pre, post, d, d + i);
    } else {
      assert (pre + post + Colons(d))[x] == Colons(d)[d + i - |post|];
    }
  }

  /** When the readings are the same indices, only coverage is left to respect. */
  lemma SameIndicesMeant(l: Lora, pre: seq<Index>, post: seq<Index>)
    requires l.Wf() && 0 < |pre| + |post| <= l.Ndim() && GetItems(l, Around(pre, post)).Some?
    requires || post == []
             || 2 * (|pre| + |post|) == l.Ndim()
             || (2 * (|pre| + |post|) < l.Ndim() && forall i | 0 <= i < |post| :: post[i] == COLON)
    ensures ItemsMeant(l, Around(pre, post)) <==> Covered(l, pre + Colons(l.Ndim() - |pre| - |post|) + post)
  {
    hide CodeIndices, TorchIndices, GetItems, GetTuple, Around, IndexTensor, Product, Covered, Denotes, PadIndices,
         Sels, Select, Colons, ItemsMeant;
    var items := Around(pre, post);
    GetItemsIs(l, items);
    EllipsisExpansion(pre, post, l.Ndim());
    OneEllipsis(pre, post, l.Ndim());
    var e, w := CodeIndices(items).value, TorchIndices(items, l.Ndim()).value;
    assert PadIndices(e, l.Ndim()) == w;
    GetTupleCorrect(l, e);
    IndexIs(Product(l), e);
    MeantIs(l, items, e, w);
  }

  lemma MeantIs(l: Lora, items: seq<Item>, e: seq<Index>, w: seq<Index>)
    requires l.Wf() && CodeIndices(items) == Some(e) && TorchIndices(items, l.Ndim()) == Some(w)
    requires |e| <= l.Ndim() && |w| == l.Ndim() && PadIndices(e, l.Ndim()) == w && Sels(l.Shape(), e).Some?
    ensures ItemsMeant(l, items) <==> Covered(l, w)
  {
    hide CodeIndices, TorchIndices, Sels, Covered, SameReading, PadIndices;
    SamePadding(l, e, w);
    SameReadingItself(Sels(l.Shape(), e).value, l.Rank());
  }

  /** Indices that are the same once padded. */
  lemma SamePadding(l: Lora, e: seq<Index>, w: seq<Index>)
    requires l.Wf() && |e| <= l.Ndim() && |w| == l.Ndim() && PadIndices(e, l.Ndim()) == w
    ensures Sels(l.Shape(), e) == Sels(l.Shape(), w) && (Covered(l, e) <==> Covered(l, w))
  {
    hide NormaliseAll, SliceCovers;
    assert PadIndices(w, l.Ndim()) == w;
  }

  // ---- inputs on which the expansion fails ----

  /** An ellipsis alone raises, where the product is the whole tensor. */
  lemma LoneEllipsis(l: Lora)
    requires l.Wf()
    ensures GetItems(l, [Ellipsis]) == None && IndexItems(Product(l), [Ellipsis]) == Some(Product(l))
  {
    hide Product, IndexTensor, GetTuple;
    OneEllipsis([], [], l.Ndim());
    assert Around([], []) == [Ellipsis];
    assert [] + Colons(l.Ndim()) + [] == Colons(l.Ndim());
    GetItemsIs(l, [Ellipsis]);
    IndexColons(Product(l));
  }

  /** The first column of all, as l[..., 0:1]: on three axes the code takes the first row. */
  const FIRST: Index := Slice(Some(0), Some(1), 1)

  lemma FirstColumnFails(l: Lora)
    requires l.Wf() && l.Ndim() == 3 && l.B.shape[1] >= 2
    ensures GetItems(l, [Ellipsis, Ix(FIRST)]).Some? && IndexItems(Product(l), [Ellipsis, Ix(FIRST)]).Some?
    ensures !Denotes(GetItems(l, [Ellipsis, Ix(FIRST)]).value, IndexItems(Product(l), [Ellipsis, Ix(FIRST)]).value)
  {
    hide Product, GetTuple, Denotes, GetItems, CodeIndices, TorchIndices, Sels, Covered, PadIndices, IndexTensor,
         Select;
    var items, e, w := [Ellipsis, Ix(FIRST)], [COLON, FIRST], [COLON, COLON, FIRST];
    assert Items([FIRST]) == [Ix(FIRST)] && Items([]) == [] && Around([], [FIRST]) == items;
    OneEllipsis([], [FIRST], 3);
    assert [] + Colons(1) + [FIRST] == e && [] + Colons(2) + [FIRST] == w;
    GetItemsIs(l, items);
    assert GetTuple(l, e).Some? by { FirstRow(l); }
    GetTupleCorrect(l, e);
    FirstSels(l.Shape());
    IndexIs(Product(l), e);
    IndexIs(Product(l), w);
    assert IndexTensor(Product(l), e).value.shape[1] == 1 && IndexTensor(Product(l), w).value.shape[1] == l.Shape()[1];
    if Covered(l, e) {
      DifferentShapes(GetItems(l, items).value, IndexTensor(Product(l), e).value, IndexTensor(Product(l), w).value);
    } else {
      UncoveredDenotesNothing(l, e, IndexTensor(Product(l), w).value);
    }
  }

  /** The code accepts the first row. */
  lemma FirstRow(l: Lora)
    requires l.Wf() && l.Ndim() == 3
    ensures GetTuple(l, [COLON, FIRST]).Some?
  {
    hide Select, IndicesA, NormaliseAll, RangeLen;
    var ys := PadIndices([COLON, FIRST], 3);
    assert ys == [COLON, FIRST, COLON] && ys[..1] == [COLON] && ys[..2] == [COLON, FIRST];
    OneColon(l.LeadA());
    assert [COLON] + [COLON, COLON] == [COLON, COLON, COLON];
    assert PadIndices([COLON, FIRST], 3) == [COLON, FIRST, COLON];
    var fa, fb := FullSels(l.A.shape), [Full(l.B.shape[0]), Normalise(FIRST, l.B.shape[1]).value, Full(l.B.shape[2])];
    NormaliseAllIs([COLON, COLON, COLON], l.A.shape, fa);
    NormaliseAllIs([COLON, FIRST, COLON], l.B.shape, fb);
    OutShapeFull(l.A.shape);
    ThreeSpans(fb);
    assert Select(l.A, fa).shape == l.A.shape && Select(l.B, fb).shape == [l.B.shape[0], fb[1].len, l.B.shape[2]];
  }

  lemma OneColon(a: seq<nat>)
    requires |a| == 1
    ensures IndicesA([COLON], a) == Some([COLON])
  {
    var xs := [COLON];
    assert forall i | 0 <= i < 1 :: xs[i].Slice?;
    assert IndicesA(xs, a).value == xs;
  }

  lemma ThreeSpans(s: seq<Sel>)
    requires |s| == 3 && s[0].Span? && s[1].Span? && s[2].Span?
    ensures OutShape(s) == [s[0].len, s[1].len, s[2].len]
  {
    assert s[1..][1..] == [s[2]] && [s[2]][1..] == [];
    OutShapeOne(s[2]);
  }

  /** The shapes that the two readings of the first column select. */
  lemma FirstSels(shape: seq<nat>)
    requires |shape| == 3 && shape[1] >= 1
    ensures Sels(shape, [COLON, FIRST]).Some? && Sels(shape, [COLON, COLON, FIRST]).Some?
    ensures var s, t := OutShape(Sels(shape, [COLON, FIRST]).value), OutShape(Sels(shape, [COLON, COLON, FIRST]).value);
      |s| == |t| == 3 && s[1] == 1 && t[1] == shape[1]
  {
    hide NormaliseAll, RangeLen;
    assert PadIndices([COLON, FIRST], 3) == [COLON, FIRST, COLON] &&
        PadIndices([COLON, COLON, FIRST], 3) == [COLON, COLON, FIRST];
    var x, y := Normalise(FIRST, shape[1]).value, Normalise(FIRST, shape[2]).value;
    assert x.len == 1;
    NormaliseAllIs([COLON, FIRST, COLON], shape, [Full(shape[0]), x, Full(shape[2])]);
    NormaliseAllIs([COLON, COLON, FIRST], shape, [Full(shape[0]), Full(shape[1]), y]);
    ThreeSpans([Full(shape[0]), x, Full(shape[2])]);
    ThreeSpans([Full(shape[0]), Full(shape[1]), y]);
  }
}
