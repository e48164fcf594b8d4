/** The sizes for which concatenating factor pairs of higher rank is right. */
module LoraCatExact {
  import opened Tensors
  import opened Lora
  import opened LoraIndexing
  import opened LoraCat

  /** The result denotes the concatenated products. */
  predicate CatRight(ls: seq<Lora>) {
    && AllConstructed(ls) && CatLora(ls).Some? && CanCat(Products(ls))
    && Denotes(CatLora(ls).value, Cat(Products(ls)))
  }

  predicate AllSameShapes(ls: seq<Lora>, ms: seq<Lora>) {
    |ls| == |ms| && forall i | 0 <= i < |ls| :: SameShapes(ls[i], ms[i])
  }

  /** The factors of every piece agree on the first size, or A has one position in all,
      or the first sizes balance and there is nothing to multiply or no entry at all. */
  predicate CatMeant(ls: seq<Lora>)
    requires ls != [] && AllConstructed(ls)
  {
    || AllSameFirst(ls)
    || FirstSum(As(ls)) == 1
    || (FirstSum(As(ls)) == FirstSum(Bs(ls)) && (ls[0].Rank() == 0 || 0 in ls[0].Shape()[1..]))
  }

  // ---- where a position of a concatenation comes from ----

  /** The part that position i of the concatenation lies in. */
  function Owner(ts: seq<Tensor>, i: nat): (k: nat)
    requires (forall j | 0 <= j < |ts| :: |ts[j].shape| > 0) && i < FirstSum(ts)
    ensures k < |ts|
  {
    if i < ts[0].shape[0] then 0 else 1 + Owner(ts[1..], i - ts[0].shape[0])
  }

  lemma {:induction false} CatSlice(ts: seq<Tensor>, i: nat) returns (i': nat)
    requires CanCat(ts) && i < FirstSum(ts)
    ensures SameSlice(Cat(ts), ts[Owner(ts, i)], i, i')
  {
    hide Tensor.At, Cat2;
    if |ts| == 1 {
      assert ts[1..] == [];
      i' := i;
    } else {
      CanCatTail(ts);
      CatFirst(ts[1..]);
      var t, rest := ts[0], Cat(ts[1..]);
      Cat2Slice(t, rest, i);
      if i < t.shape[0] {
        i' := i;
      } else {
        i' := CatSlice(ts[1..], i - t.shape[0]);
        SliceTrans(Cat(ts), rest, ts[Owner(ts, i)], i, i - t.shape[0], i');
      }
    }
  }

  lemma SliceTrans(r: Tensor, m: Tensor, l: Tensor, i: nat, j: nat, k: nat)
    requires SameSlice(r, m, i, j) && SameSlice(m, l, j, k)
    ensures SameSlice(r, l, i, k)
  {
    hide Tensor.At;
  }

  /** Parts of different sizes with the same sum give some position to different parts. */
  lemma {:induction false} OwnersPart(ts: seq<Tensor>, us: seq<Tensor>) returns (i: nat)
    requires |ts| == |us| && forall j | 0 <= j < |ts| :: |ts[j].shape| > 0 && |us[j].shape| > 0
    requires FirstSum(ts) == FirstSum(us) && exists j :: 0 <= j < |ts| && ts[j].shape[0] != us[j].shape[0]
    ensures i < FirstSum(ts) && Owner(ts, i) != Owner(us, i)
  {
    var a, b := ts[0].shape[0], us[0].shape[0];
    if a == b {
      var j :| 0 <= j < |ts| && ts[j].shape[0] != us[j].shape[0];
      assert ts[1..][j - 1] == ts[j] && us[1..][j - 1] == us[j];
      i := OwnersPart(ts[1..], us[1..]);
      i := i + a;
    } else {
      i := if a < b then a else b;
    }
  }

  lemma {:induction false} SameFirstSum(ts: seq<Tensor>, us: seq<Tensor>)
    requires |ts| == |us|
    requires forall j | 0 <= j < |ts| :: |ts[j].shape| > 0 && |us[j].shape| > 0 && ts[j].shape[0] == us[j].shape[0]
    ensures FirstSum(ts) == FirstSum(us)
    ensures forall i: nat | i < FirstSum(ts) :: Owner(ts, i) == Owner(us, i)
  {
    if ts != [] {
      SameFirstSum(ts[1..], us[1..]);
    }
  }

  // ---- sizes that are right ----

  lemma CatRightDegenerate(ls: seq<Lora>)
    requires ls != [] && AllWf(ls) && AllConstructed(ls) && ls[0].Ndim() > 2 && CatLora(ls).Some?
    requires FirstSum(As(ls)) == FirstSum(Bs(ls)) && (ls[0].Rank() == 0 || 0 in ls[0].Shape()[1..])
    ensures CatRight(ls)
  {
    hide Product, Cat, Prod, Tensor.At, Entry;
    CatWfExactly(ls);
    ProductsCat(ls);
    var r, w, l := CatLora(ls).value, Cat(Products(ls)), ls[0];
    CatShape(ls);
    forall idx | InBounds(w.shape, idx) ensures Product(r).At(idx) == w.At(idx) {
      if 0 in l.Shape()[1..] {
        NoIndex(w.shape, idx);
      } else {
        var i, u := idx[0], idx[1..];
        assert idx == [i] + u;
        CatFirst(Products(ls));
        var i' := CatSlice(Products(ls), i);
        var m := ls[Owner(Products(ls), i)];
        assert SameTail(Bs(ls)[Owner(Products(ls), i)], Bs(ls)[0]);
        RavelCons(m.Shape(), i', u);
        RankZero(r, idx);
        RankZero(m, [i'] + u);
      }
    }
    Extensional(Product(r), w);
  }

  lemma NoIndex(shape: seq<nat>, idx: seq<nat>)
    requires shape != [] && 0 in shape[1..]
    ensures !InBounds(shape, idx)
  {
    var j :| 0 <= j < |shape[1..]| && shape[1..][j] == 0;
    assert shape[j + 1] == 0;
  }

  /** The shape of a concatenation of factors is that of the concatenated products. */
  lemma CatShape(ls: seq<Lora>)
    requires ls != [] && AllWf(ls) && AllConstructed(ls) && ls[0].Ndim() > 2
    requires CatLora(ls).Some? && CanCat(Products(ls))
    ensures CatLora(ls).value.Shape() == Cat(Products(ls)).shape && CatLora(ls).value.Rank() == ls[0].Rank()
    ensures CatLora(ls).value.LeadA()[1..] == ls[0].LeadA()[1..] && CatLora(ls).value.LeadB()[1..] == ls[0].LeadB()[1..]
    ensures forall i | 0 <= i < |ls| ::
            ls[i].Ndim() == ls[0].Ndim() && ls[i].Rank() == ls[0].Rank() && ls[i].Shape()[1..] == ls[0].Shape()[1..]
    ensures FirstSum(Products(ls)) == FirstSum(Bs(ls)) == CatLora(ls).value.Shape()[0]
    ensures forall i: nat | i < FirstSum(Bs(ls)) :: Owner(Products(ls), i) == Owner(Bs(ls), i)
  {
    hide Product, Cat, Prod;
    var r, l, n := CatLora(ls).value, ls[0], ls[0].Ndim();
    CatFirst(Bs(ls));
    CatFirst(Products(ls));
    SameFirstSum(Products(ls), Bs(ls));
    assert r.B.shape[1..] == l.B.shape[1..] && r.A.shape[1..] == l.A.shape[1..];
    assert r.Rank() == r.B.shape[1..][n - 2] == l.Rank() && r.Cols() == r.A.shape[1..][n - 2] == l.Cols();
    assert r.LeadA()[1..] == r.A.shape[1..][..n - 3] && r.LeadB()[1..] == r.B.shape[1..][..n - 3];
    assert l.LeadA()[1..] == l.A.shape[1..][..n - 3] && l.LeadB()[1..] == l.B.shape[1..][..n - 3];
    assert r.Shape()[1..] == r.B.shape[1..][..n - 2] + [r.Cols()] == l.Shape()[1..];
    forall i | 0 <= i < |ls|
      ensures ls[i].Ndim() == n && ls[i].Rank() == l.Rank() && ls[i].Shape()[1..] == l.Shape()[1..]
    {
      assert SameTail(Bs(ls)[i], Bs(ls)[0]) && SameTail(Products(ls)[i], Products(ls)[0]);
      assert ls[i].Rank() == ls[i].B.shape[1..][n - 2] == l.Rank();
    }
  }

  /** Concatenation is right for these sizes, whatever the entries. */
  lemma CatMeantRight(ls: seq<Lora>)
    requires ls != [] && AllWf(ls) && AllConstructed(ls) && ls[0].Ndim() > 2 && CatLora(ls).Some? && CatMeant(ls)
    ensures CatRight(ls)
  {
    hide Product, Cat, CatLora;
    CatCorrect(ls);
    if !AllSameFirst(ls) && FirstSum(As(ls)) != 1 {
      CatRightDegenerate(ls);
    }
  }

  // ---- sizes that are not ----

  function Filled(shape: seq<nat>, v: int): (t: Tensor)
    ensures t.Valid() && t.shape == shape
  {
    Build(shape, _ => v)
  }

  lemma FilledAt(shape: seq<nat>, v: int, idx: seq<nat>)
    ensures Filled(shape, v).At(idx) == if InBounds(shape, idx) then v else 0
  {
    if InBounds(shape, idx) { BuildAt(shape, _ => v, idx); }
  }

  /** Pairs of the same shapes, all ones but the A's of the other pieces than k. */
  function Marked(ls: seq<Lora>, k: nat): (ms: seq<Lora>)
    ensures AllSameShapes(ls, ms)
    ensures forall j | 0 <= j < |ls| ::
            ms[j] == Lora(Filled(ls[j].A.shape, if j == k then 1 else 0), Filled(ls[j].B.shape, 1))
  {
    seq(|ls|, j requires 0 <= j < |ls| =>
      Lora(Filled(ls[j].A.shape, if j == k then 1 else 0), Filled(ls[j].B.shape, 1)))
  }

  lemma {:induction false} RankSumConst(b: Tensor, a: Tensor, row: seq<nat>, lead: seq<nat>, j: nat, v: int, k: nat)
    requires forall t: nat | t < k :: a.At(lead + [t, j]) == v && (v == 0 || b.At(row + [t]) == 1)
    ensures RankSum(b, a, row, lead, j, k) == k * v
  {
    hide Tensor.At;
    if k > 0 {
      RankSumConst(b, a, row, lead, j, v, k - 1);
    }
  }

  /** Acceptance and the condition are matters of the shapes. */
  lemma ShapesDecideCat(ls: seq<Lora>, ms: seq<Lora>)
    requires ls != [] && AllWf(ls) && AllConstructed(ls) && ls[0].Ndim() > 2 && CatLora(ls).Some?
    requires AllSameShapes(ls, ms) && AllConstructed(ms)
    ensures AllWf(ms) && CatLora(ms).Some? && ms[0].Ndim() > 2
    ensures CatMeant(ls) <==> CatMeant(ms)
  {
    hide Prod, Cat, CatLora, Lora.Wf;
    assert SameShapes(ls[0], ms[0]);
    CatInner(ls);
    SameShapesCat(As(ls), As(ms));
    SameShapesCat(Bs(ls), Bs(ms));
    CatInner(ms);
    forall i | 0 <= i < |ms| ensures ms[i].Wf() && (SameFirst(ls[i]) <==> SameFirst(ms[i])) {
      SameShapesWf(ls[i], ms[i]);
    }
  }

  lemma SameShapesWf(l: Lora, m: Lora)
    requires l.Wf() && m.Constructed() && SameShapes(l, m)
    ensures m.Wf() && (SameFirst(l) <==> SameFirst(m))
  {
    hide Prod;
  }

  lemma SameShapesCat(ts: seq<Tensor>, us: seq<Tensor>)
    requires CanCat(ts) && |us| == |ts| && forall i | 0 <= i < |ts| :: us[i].Valid() && us[i].shape == ts[i].shape
    ensures CanCat(us) && FirstSum(us) == FirstSum(ts)
    ensures forall i: nat | i < FirstSum(ts) :: Owner(us, i) == Owner(ts, i)
  {
    hide Prod;
    SameFirstSum(ts, us);
    forall i | 0 <= i < |us| ensures SameTail(us[i], us[0]) { assert SameTail(ts[i], ts[0]); }
  }

  /** Pieces of higher rank are accepted exactly when each factor can be concatenated. */
  lemma CatInner(ls: seq<Lora>)
    requires ls != [] && AllConstructed(ls) && ls[0].Ndim() > 2
    ensures CatLora(ls).Some? <==> CanCat(As(ls)) && CanCat(Bs(ls))
    ensures CatLora(ls).Some? ==> CatLora(ls).value == Lora(Cat(As(ls)), Cat(Bs(ls)))
  {
    hide Prod, Cat;
    if CanCat(As(ls)) && CanCat(Bs(ls)) {
      var l, a, b, n := ls[0], Cat(As(ls)), Cat(Bs(ls)), ls[0].Ndim();
      assert a.shape[n - 2] == a.shape[1..][n - 3] == l.A.shape[1..][n - 3];
      assert b.shape[n - 1] == b.shape[1..][n - 2] == l.B.shape[1..][n - 2];
    }
  }

  /** Sizes that do not balance, or balance without agreeing, go wrong for some entries. */
  lemma CatNotMeant(ls: seq<Lora>) returns (ms: seq<Lora>)
    requires ls != [] && AllWf(ls) && AllConstructed(ls) && ls[0].Ndim() > 2 && CatLora(ls).Some? && !CatMeant(ls)
    ensures AllSameShapes(ls, ms) && AllWf(ms) && !CatRight(ms)
  {
    hide Product, Cat, Prod, CatLora, CatRight, Lora.Wf;
    CatInner(ls);
    if FirstSum(As(ls)) != FirstSum(Bs(ls)) {
      CatWfExactly(ls);
      ms := ls;
      NotWfNotRight(ms);
    } else {
      ms := CatBalanced(ls);
    }
  }

  /** A result that reads an A of another piece. */
  lemma CatBalanced(ls: seq<Lora>) returns (ms: seq<Lora>)
    requires ls != [] && AllWf(ls) && AllConstructed(ls) && ls[0].Ndim() > 2 && CatLora(ls).Some?
    requires !AllSameFirst(ls) && FirstSum(As(ls)) == FirstSum(Bs(ls)) != 1
    requires ls[0].Rank() > 0 && 0 !in ls[0].Shape()[1..]
    ensures AllSameShapes(ls, ms) && AllWf(ms) && !CatRight(ms)
  {
    hide Product, Cat, Prod, CatLora, CatRight, Lora.Wf, Filled, CanCat, CatMeant;
    var i := FactorsPart(ls);
    ms := Marked(ls, Owner(Bs(ls), i));
    assert SameShapes(ls[0], ms[0]);
    CatInner(ls);
    ShapesDecideCat(ls, ms);
    CatInner(ms);
    SameShapesCat(As(ls), As(ms));
    SameShapesCat(Bs(ls), Bs(ms));
    hide Marked;
    MarkedNotRight(ls, ms, i);
  }

  lemma MarkedNotRight(ls: seq<Lora>, ms: seq<Lora>, i: nat)
    requires ls != [] && |ms| == |ls| && AllWf(ms) && AllConstructed(ms) && ms[0].Ndim() > 2 && CatLora(ms).Some?
    requires CanCat(As(ms)) && CanCat(Bs(ms)) && i < FirstSum(As(ms)) == FirstSum(Bs(ms)) != 1
    requires Owner(As(ms), i) != Owner(Bs(ms), i) && ms == Marked(ls, Owner(Bs(ms), i))
    requires ms[0].Rank() > 0 && 0 !in ms[0].Shape()[1..]
    ensures !CatRight(ms)
  {
    hide Product, Cat, Prod, CatLora, CatRight, Lora.Wf, Marked, CanCat;
    CatInner(ms);
    CatWfExactly(ms);
    ProductsCat(ms);
    MarkedWrong(ls, ms, i);
    NotEqualNotRight(ms);
  }

  lemma FactorsPart(ls: seq<Lora>) returns (i: nat)
    requires AllConstructed(ls) && !AllSameFirst(ls) && FirstSum(As(ls)) == FirstSum(Bs(ls))
    ensures i < FirstSum(As(ls)) && Owner(As(ls), i) != Owner(Bs(ls), i)
  {
    hide Prod;
    var j :| 0 <= j < |ls| && !SameFirst(ls[j]);
    assert As(ls)[j].shape[0] != Bs(ls)[j].shape[0];
    i := OwnersPart(As(ls), Bs(ls));
  }

  lemma NotWfNotRight(ls: seq<Lora>)
    requires AllConstructed(ls) && CatLora(ls).Some? && !CatLora(ls).value.Wf()
    ensures !CatRight(ls)
  {
  }

  lemma NotEqualNotRight(ls: seq<Lora>)
    requires AllConstructed(ls) && CatLora(ls).Some? && CatLora(ls).value.Constructed() && CanCat(Products(ls))
    requires Product(CatLora(ls).value) != Cat(Products(ls))
    ensures !CatRight(ls)
  {
    hide CatLora, Product, Cat;
  }

  function Zeros(n: nat): (z: seq<nat>)
    ensures |z| == n && forall x | x in z :: x == 0
  {
    seq(n, _ => 0)
  }

  /** The entries of the first row and column at first position i. */
  lemma MarkedWrong(ls: seq<Lora>, ms: seq<Lora>, i: nat)
    requires ls != [] && |ms| == |ls| && AllWf(ms) && AllConstructed(ms) && ms[0].Ndim() > 2 && CatLora(ms).Some?
    requires CanCat(As(ms)) && CanCat(Bs(ms)) && i < FirstSum(As(ms)) == FirstSum(Bs(ms)) != 1
    requires Owner(As(ms), i) != Owner(Bs(ms), i) && ms == Marked(ls, Owner(Bs(ms), i))
    requires ms[0].Rank() > 0 && 0 !in ms[0].Shape()[1..]
    requires CatLora(ms).value.Wf() && CanCat(Products(ms))
    ensures Product(CatLora(ms).value) != Cat(Products(ms))
  {
    hide *;
    var o := Zeros(ms[0].Ndim() - 3);
    MarkedRow(ls, ms, i, o);
    MarkedResult(ls, ms, i, o);
  }

  /** In the concatenated products the entry belongs to the marked piece. */
  lemma MarkedRow(ls: seq<Lora>, ms: seq<Lora>, i: nat, o: seq<nat>)
    requires ls != [] && |ms| == |ls| && AllWf(ms) && AllConstructed(ms) && ms[0].Ndim() > 2 && CatLora(ms).Some?
    requires CanCat(As(ms)) && CanCat(Bs(ms)) && i < FirstSum(Bs(ms)) && ms == Marked(ls, Owner(Bs(ms), i))
    requires ms[0].Rank() > 0 && 0 !in ms[0].Shape()[1..] && |o| == ms[0].Ndim() - 3 && forall x | x in o :: x == 0
    requires CanCat(Products(ms))
    ensures Cat(Products(ms)).At([i] + o + [0, 0]) > 0
  {
    hide Product, Cat, Prod, Tensor.At, Entry, CatLora, Marked, Lora.Wf;
    var k := Owner(Bs(ms), i);
    CatShape(ms);
    var i' := CatSlice(Products(ms), i);
    FirstOf(ms[0].Shape(), ms[k].Shape(), i', o);
    RowIsOnes(ms[k], ls[k].A.shape, ls[k].B.shape, i', o);
    assert [i] + o + [0, 0] == [i] + (o + [0, 0]);
  }

  /** In the product of the concatenated factors it reads an A of another piece. */
  lemma MarkedResult(ls: seq<Lora>, ms: seq<Lora>, i: nat, o: seq<nat>)
    requires ls != [] && |ms| == |ls| && AllWf(ms) && AllConstructed(ms) && ms[0].Ndim() > 2 && CatLora(ms).Some?
    requires CanCat(As(ms)) && CanCat(Bs(ms)) && i < FirstSum(As(ms)) == FirstSum(Bs(ms)) != 1
    requires Owner(As(ms), i) != Owner(Bs(ms), i) && ms == Marked(ls, Owner(Bs(ms), i))
    requires 0 !in ms[0].Shape()[1..] && |o| == ms[0].Ndim() - 3 && forall x | x in o :: x == 0
    requires CatLora(ms).value.Wf() && CanCat(Products(ms))
    ensures Product(CatLora(ms).value).At([i] + o + [0, 0]) == 0
  {
    hide Product, Cat, Prod, Tensor.At, Entry, CatLora, Marked, Lora.Wf;
    CatInner(ms);
    var r, a := CatLora(ms).value, Owner(As(ms), i);
    CatShape(ms);
    CatFirst(As(ms));
    var j := CatSlice(As(ms), i);
    FirstOf(ms[0].Shape(), r.Shape(), i, o);
    RowIsZero(r, ls[a].A.shape, i, j, o);
  }

  /** A first position followed by zeros. */
  lemma FirstOf(shape: seq<nat>, s: seq<nat>, i: nat, o: seq<nat>)
    requires |shape| == |s| == |o| + 3 && s[1..] == shape[1..]
    requires 0 !in s[1..] && i < s[0] && forall x | x in o :: x == 0
    ensures InBounds(shape[1..], o + [0, 0]) && InBounds(s, [i] + o + [0, 0]) && [i] + o + [0, 0] == [i] + (o + [0, 0])
  {
    var u := o + [0, 0];
    forall x | 0 <= x < |u| ensures u[x] < shape[1..][x] {
      assert shape[1..][x] in shape[1..];
      assert x < |o| ==> u[x] == o[x] && o[x] in o;
    }
    RavelCons(s, i, u);
  }

  lemma RowIsOnes(m: Lora, a: seq<nat>, b: seq<nat>, i: nat, o: seq<nat>)
    requires m == Lora(Filled(a, 1), Filled(b, 1)) && m.Wf() && m.Ndim() == |o| + 3
    requires InBounds(m.Shape(), [i] + o + [0, 0])
    ensures Product(m).At([i] + o + [0, 0]) == m.Rank()
  {
    hide Product, Tensor.At, Entry, Prod, Filled;
    var n, lead := m.Ndim(), [i] + o;
    IndexParts(m, lead + [0, 0]);
    assert (lead + [0, 0])[..n - 2] == lead && (lead + [0, 0])[n - 2] == 0 && (lead + [0, 0])[n - 1] == 0;
    EntryParts(m, lead, 0, 0);
    BcastInBounds(m.LeadA(), m.LeadB(), lead);
    forall t: nat | t < m.Rank() ensures m.A.At(Bcast(m.LeadA(), lead) + [t, 0]) == 1 && m.B.At(lead + [0] + [t]) == 1 {
      assert m.A.shape == m.LeadA() + [m.Rank(), m.Cols()] && m.B.shape == m.LeadB() + [m.B.shape[n - 2], m.Rank()];
      assert lead + [0] + [t] == lead + [0, t];
      InBoundsAppend(m.LeadA(), [m.Rank(), m.Cols()], Bcast(m.LeadA(), lead), [t, 0]);
      InBoundsAppend(m.LeadB(), [m.B.shape[n - 2], m.Rank()], lead, [0, t]);
      FilledAt(a, 1, Bcast(m.LeadA(), lead) + [t, 0]);
      FilledAt(b, 1, lead + [0] + [t]);
    }
    RankSumConst(m.B, m.A, lead + [0], Bcast(m.LeadA(), lead), 0, 1, m.Rank());
  }

  lemma RowIsZero(r: Lora, a: seq<nat>, i: nat, j: nat, o: seq<nat>)
    requires r.Wf() && r.Ndim() == |o| + 3 && r.A.shape[0] != 1 && SameSlice(r.A, Filled(a, 0), i, j)
    requires InBounds(r.Shape(), [i] + o + [0, 0])
    ensures Product(r).At([i] + o + [0, 0]) == 0
  {
    hide Product, Tensor.At, Entry, Prod, Filled;
    var n, lead := r.Ndim(), [i] + o;
    IndexParts(r, lead + [0, 0]);
    assert (lead + [0, 0])[..n - 2] == lead && (lead + [0, 0])[n - 2] == 0 && (lead + [0, 0])[n - 1] == 0;
    EntryParts(r, lead, 0, 0);
    BcastCons(r.LeadA(), i, o);
    BcastInBounds(r.LeadA(), r.LeadB(), lead);
    var tail := Bcast(r.LeadA()[1..], o);
    forall t: nat | t < r.Rank() ensures r.A.At([i] + tail + [t, 0]) == 0 {
      assert r.A.shape == r.LeadA() + [r.Rank(), r.Cols()];
      InBoundsAppend(r.LeadA(), [r.Rank(), r.Cols()], [i] + tail, [t, 0]);
      SliceIsZero(r.A, a, i, j, tail + [t, 0]);
      assert [i] + tail + [t, 0] == [i] + (tail + [t, 0]);
    }
    RankSumConst(r.B, r.A, lead + [0], [i] + tail, 0, 0, r.Rank());
  }

  lemma SliceIsZero(t: Tensor, a: seq<nat>, i: nat, j: nat, u: seq<nat>)
    requires SameSlice(t, Filled(a, 0), i, j) && InBounds(t.shape, [i] + u)
    ensures t.At([i] + u) == 0
  {
    hide Tensor.At, Filled;
    assert forall x | 0 <= x < |u| :: u[x] == ([i] + u)[x + 1] && t.shape[1..][x] == t.shape[x + 1];
    assert InBounds(a[1..], u);
    FilledAt(a, 0, [j] + u);
  }

  // ---- exactly when ----

  /** Concatenation of accepted pieces of higher rank is right, for all pairs of their
      shapes, exactly when the sizes are meant. */
  lemma CatExactly(ls: seq<Lora>)
    requires ls != [] && AllWf(ls) && AllConstructed(ls) && ls[0].Ndim() > 2 && CatLora(ls).Some?
    ensures CatMeant(ls) <==> forall ms: seq<Lora> | AllSameShapes(ls, ms) && AllWf(ms) :: CatRight(ms)
  {
    hide CatMeant, CatRight, CatLora;
    if CatMeant(ls) {
      forall ms: seq<Lora> | AllSameShapes(ls, ms) && AllWf(ms) ensures CatRight(ms) {
        ShapesDecideCat(ls, ms);
        CatMeantRight(ms);
      }
    } else {
      var ms := CatNotMeant(ls);
    }
  }
}
