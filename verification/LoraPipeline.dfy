/** Whole pipelines of LoraTorchTensor operations, such as the reshape, swapaxes,
    reshape that the model conversions apply to attention weights. */
module LoraPipeline {
  import opened Options
  import opened Tensors
  import opened Lora
  import opened LoraIndexing
  import opened LoraEllipsis
  import opened LoraShape
  import opened LoraCat

  datatype Op =
    | GetItem(x: Index)
    | GetTupleOf(items: seq<Item>)
    | ReshapeTo(spec: seq<int>)
    | PermuteBy(dims: seq<int>)
    | SwapAxes(dim0: int, dim1: int)
    | Times(other: Tensor)
    | SplitPiece(sizes: SplitSpec, dim: int, k: nat)
  {
    predicate Valid() { Times? ==> other.Valid() }

    predicate HasEllipsis() { GetTupleOf? && EllipsisAt(items) < |items| }
  }

  function ApplyLora(op: Op, l: Lora): Option<Lora>
    requires op.Valid() && l.Constructed()
  {
    match op
    case GetItem(x) => GetOne(l, x)
    case GetTupleOf(items) => GetItems(l, items)
    case ReshapeTo(spec) => Reshape(l, spec)
    case PermuteBy(dims) => PermuteLora(l, dims)
    case SwapAxes(dim0, dim1) => Transpose(l, dim0, dim1)
    case Times(other) => MulLora(l, other)
    case SplitPiece(sizes, dim, k) =>
      var ls := Split(l, sizes, dim);
      if ls.None? || k >= |ls.value| then None else Some(ls.value[k])
  }

  function ApplyTensor(op: Op, w: Tensor): Option<Tensor>
    requires op.Valid()
  {
    match op
    case GetItem(x) => IndexTensor(w, [x])
    case GetTupleOf(items) => IndexItems(w, items)
    case ReshapeTo(spec) => ReshapeAs(w, spec)
    case PermuteBy(dims) => PermuteTensor(w, dims)
    case SwapAxes(dim0, dim1) => TransposeTensor(w, dim0, dim1)
    case Times(other) => if |other.shape| <= |w.shape| then Mul(w, other) else None
    case SplitPiece(sizes, dim, k) =>
      var ws := SplitAlong(w, sizes, dim);
      if ws.None? || k >= |ws.value| then None else Some(ws.value[k])
  }

  /** What a caller has to respect, operation by operation; shapes decide it. */
  ghost predicate Meant(op: Op, l: Lora)
    requires op.Valid() && l.Constructed()
  {
    match op
    case GetItem(x) => OneAligned(l, x)
    case GetTupleOf(items) => ItemsMeant(l, items)
    case ReshapeTo(spec) =>
      var s := ExpandShape(spec, Prod(l.Shape()));
      OneOpen(spec) && (l.Rank() > 0 || (s.Some? && Prod(s.value) == Prod(l.Shape())))
    case PermuteBy(dims) => forall i | 0 <= i < |dims| :: dims[i] < l.Ndim()
    case SplitPiece(sizes, dim, k) => dim >= 0 - l.Ndim()
    case _ => true
  }

  /** The operation is accepted on the factors and on the product, and the results agree. */
  predicate Agrees(op: Op, l: Lora)
    requires op.Valid() && l.Constructed()
  {
    && ApplyLora(op, l).Some? && ApplyTensor(op, Product(l)).Some?
    && Denotes(ApplyLora(op, l).value, ApplyTensor(op, Product(l)).value)
  }

  /** One accepted operation denotes the plain operation exactly when it is meant. An
      ellipsis that is not meant can still be right by the values of the entries, so there
      the statement is about all pairs with the same shapes. */
  lemma StepCorrect(op: Op, l: Lora)
    requires op.Valid() && l.Wf() && ApplyLora(op, l).Some?
    ensures Meant(op, l) ==> Agrees(op, l)
    ensures !op.HasEllipsis() ==> (Meant(op, l) <==> Agrees(op, l))
    ensures op.GetTupleOf? ==> (Meant(op, l) <==> forall m: Lora | SameShapes(m, l) && m.Wf() :: Agrees(op, m))
  {
    hide GetOne, GetTuple, PermuteLora, Transpose, TransposeTensor, PermuteTensor, MulLora, Mul, IndexTensor,
         Product, Prod, Covered, OneAligned, Split, SplitAlong, Reshape, ReshapeTensor, ReshapeAs, ExpandShape,
         Denotes, GetItems, IndexItems, ItemsMeant, OneOpen;
    match op
    case GetItem(x) => GetOneCorrect(l, x);
    case GetTupleOf(items) => TupleStep(l, items);
    case ReshapeTo(spec) => ReshapeCorrect(l, spec);
    case PermuteBy(dims) => PermuteCorrect(l, dims);
    case SwapAxes(dim0, dim1) => TransposeCorrect(l, dim0, dim1);
    case Times(other) => MulCorrect(l, other);
    case SplitPiece(sizes, dim, k) => SplitCorrect(l, sizes, dim);
  }

  lemma TupleStep(l: Lora, items: seq<Item>)
    requires l.Wf() && GetItems(l, items).Some?
    ensures var op := GetTupleOf(items);
      && (ItemsMeant(l, items) ==> Agrees(op, l))
      && (!op.HasEllipsis() ==> (ItemsMeant(l, items) <==> Agrees(op, l)))
      && (ItemsMeant(l, items) <==> forall m: Lora | SameShapes(m, l) && m.Wf() :: Agrees(op, m))
  {
    hide IndexTensor, Product, Covered, Denotes, GetItems, IndexItems, ItemsMeant, GetTuple;
    ItemsExactly(l, items);
    assert SameShapes(l, l);
    if EllipsisAt(items) == |items| {
      var xs := Indices(items);
      assert items == Items(xs);
      NoEllipsis(l, xs);
      GetTupleCorrect(l, xs);
    }
  }

  function Indices(items: seq<Item>): (xs: seq<Index>)
    requires forall i | 0 <= i < |items| :: items[i].Ix?
    ensures |xs| == |items| && forall i | 0 <= i < |items| :: items[i] == Ix(xs[i])
  {
    seq(|items|, i requires 0 <= i < |items| => items[i].x)
  }

  predicate AllValid(ops: seq<Op>) { forall i | 0 <= i < |ops| :: ops[i].Valid() }

  function RunLora(ops: seq<Op>, l: Lora): Option<Lora>
    requires AllValid(ops) && l.Constructed()
    decreases |ops|
  {
    if ops == [] then Some(l) else
    var r := ApplyLora(ops[0], l);
    if r.None? || !r.value.Constructed() then None else RunLora(ops[1..], r.value)
  }

  function RunTensor(ops: seq<Op>, w: Tensor): Option<Tensor>
    requires AllValid(ops)
    decreases |ops|
  {
    if ops == [] then Some(w) else
    var u := ApplyTensor(ops[0], w);
    if u.None? then None else RunTensor(ops[1..], u.value)
  }

  /** Every operation of the run is meant in the state it is applied to. */
  ghost predicate MeantAll(ops: seq<Op>, l: Lora)
    requires AllValid(ops) && l.Constructed()
    decreases |ops|
  {
    ops == [] ||
    (Meant(ops[0], l) &&
     var r := ApplyLora(ops[0], l);
     r.Some? && r.value.Constructed() ==> MeantAll(ops[1..], r.value))
  }

  /** A pipeline whose every step is meant: running it on the factors is running it on the product. */
  lemma {:induction false} PipelineCorrect(ops: seq<Op>, l: Lora)
    requires AllValid(ops) && l.Wf() && RunLora(ops, l).Some? && MeantAll(ops, l)
    ensures RunTensor(ops, Product(l)).Some?
    ensures Denotes(RunLora(ops, l).value, RunTensor(ops, Product(l)).value)
    decreases |ops|
  {
    hide ApplyLora, ApplyTensor, Meant, Product;
    if ops != [] {
      StepCorrect(ops[0], l);
      PipelineCorrect(ops[1..], ApplyLora(ops[0], l).value);
    }
  }

  /** The run is accepted on the factors and on the product, and the results agree. */
  predicate RunsAgree(ops: seq<Op>, l: Lora)
    requires AllValid(ops) && l.Constructed()
  {
    && RunLora(ops, l).Some? && RunTensor(ops, Product(l)).Some?
    && Denotes(RunLora(ops, l).value, RunTensor(ops, Product(l)).value)
  }

  /** Without an ellipsis, every step is meant exactly when the two runs agree after
      every step: the first step that is not meant breaks the agreement there. */
  lemma {:induction false} PipelineExactly(ops: seq<Op>, l: Lora)
    requires AllValid(ops) && l.Wf() && RunLora(ops, l).Some?
    requires forall i | 0 <= i < |ops| :: !ops[i].HasEllipsis()
    ensures MeantAll(ops, l) <==> forall k | 0 <= k <= |ops| :: RunsAgree(ops[..k], l)
    decreases |ops|
  {
    hide ApplyLora, ApplyTensor, Meant, Product, Denotes, RunsAgree, RunLora, RunTensor, Op.HasEllipsis;
    AgreeAtStart(l);
    assert ops[..0] == [];
    if ops != [] {
      var op, rest := ops[0], ops[1..];
      RunStarts(ops, l);
      var r := ApplyLora(op, l).value;
      StepCorrect(op, l);
      if Agrees(op, l) {
        AgreesWf(op, l);
        PipelineExactly(rest, r);
        forall k | 1 <= k <= |ops| ensures RunsAgree(ops[..k], l) <==> RunsAgree(rest[..k - 1], r) {
          assert ops[..k] == [op] + rest[..k - 1];
          AgreeAfterStep(op, rest[..k - 1], l);
        }
        assert forall k | 0 <= k <= |rest| :: RunsAgree(ops[..k + 1], l) <==> RunsAgree(rest[..k], r);
      } else {
        AgreeOnce(op, l);
        assert ops[..1] == [op];
      }
    }
  }

  lemma AgreesWf(op: Op, l: Lora)
    requires op.Valid() && l.Constructed() && Agrees(op, l)
    ensures ApplyLora(op, l).value.Wf()
  {
    hide ApplyLora, ApplyTensor;
  }

  lemma RunStarts(ops: seq<Op>, l: Lora)
    requires AllValid(ops) && l.Constructed() && ops != [] && RunLora(ops, l).Some?
    ensures ApplyLora(ops[0], l).Some? && ApplyLora(ops[0], l).value.Constructed()
    ensures RunLora(ops[1..], ApplyLora(ops[0], l).value).Some?
  {
    hide ApplyLora;
  }

  lemma AgreeAtStart(l: Lora)
    requires l.Wf()
    ensures RunsAgree([], l)
  {
    hide Product;
  }

  lemma AgreeAfterStep(op: Op, rest: seq<Op>, l: Lora)
    requires op.Valid() && AllValid(rest) && l.Wf() && Agrees(op, l)
    ensures ApplyLora(op, l).value.Constructed() && AllValid([op] + rest)
    ensures RunsAgree([op] + rest, l) <==> RunsAgree(rest, ApplyLora(op, l).value)
  {
    hide ApplyLora, ApplyTensor, Product;
    assert ([op] + rest)[1..] == rest && ([op] + rest)[0] == op;
  }

  lemma AgreeOnce(op: Op, l: Lora)
    requires op.Valid() && l.Constructed() && ApplyLora(op, l).Some? && ApplyLora(op, l).value.Constructed()
    ensures RunsAgree([op], l) <==> Agrees(op, l)
  {
    hide ApplyLora, ApplyTensor, Product, Denotes;
    var r, u := ApplyLora(op, l).value, ApplyTensor(op, Product(l));
    assert [op][1..] == [] && [op][0] == op;
    assert RunLora([op], l) == RunLora([], r) == Some(r);
    assert RunTensor([op], Product(l)) == if u.None? then None else RunTensor([], u.value);
  }
}
