/** Numbers as bit strings, most significant bit first, and bit strings cut into numbers. */
module Bits {
  function Pow2(n: nat): (p: nat)
    ensures p >= 1
  {
    if n == 0 then 1 else 2 * Pow2(n - 1)
  }

  function BitsOf(x: nat, n: nat): (b: seq<bool>)
    ensures |b| == n
  {
    if n == 0 then [] else BitsOf(x / 2, n - 1) + [x % 2 == 1]
  }

  function Number(b: seq<bool>): (x: nat)
    ensures x < Pow2(|b|)
    decreases |b|
  {
    if b == [] then 0 else 2 * Number(b[..|b| - 1]) + (if b[|b| - 1] then 1 else 0)
  }

  /** The bits of the numbers xs, n bits each. */
  function Flat(xs: seq<nat>, n: nat): seq<bool> {
    if xs == [] then [] else BitsOf(xs[0], n) + Flat(xs[1..], n)
  }

  lemma {:induction false} FlatLength(xs: seq<nat>, n: nat)
    ensures |Flat(xs, n)| == n * |xs|
  {
    if xs != [] {
      FlatLength(xs[1..], n);
      assert n * |xs| == n + n * (|xs| - 1);
    }
  }

  /** The numbers that consecutive groups of n bits denote; an incomplete group is dropped. */
  function Chunks(b: seq<bool>, n: nat): seq<nat>
    requires n > 0
    decreases |b|
  {
    if |b| < n then [] else [Number(b[..n])] + Chunks(b[n..], n)
  }

  predicate Below(xs: seq<nat>, bound: nat) { forall x | x in xs :: x < bound }

  lemma {:induction false} NumberOfBits(x: nat, n: nat)
    requires x < Pow2(n)
    ensures Number(BitsOf(x, n)) == x
  {
    if n > 0 {
      NumberOfBits(x / 2, n - 1);
      var b := BitsOf(x, n);
      assert b[..|b| - 1] == BitsOf(x / 2, n - 1);
    }
  }

  lemma {:induction false} BitsOfNumber(b: seq<bool>)
    ensures BitsOf(Number(b), |b|) == b
    decreases |b|
  {
    if b != [] {
      BitsOfNumber(b[..|b| - 1]);
      assert b == b[..|b| - 1] + [b[|b| - 1]];
    }
  }

  lemma HalfOf(p: nat, lo: nat)
    ensures (2 * p + lo) / 2 == p + lo / 2 && (2 * p + lo) % 2 == lo % 2
  {
  }

  lemma DoubleTimes(hi: nat, q: nat)
    ensures hi * (2 * q) == 2 * (hi * q)
  {
  }

  /** The bits of a number put together from a high and a low part. */
  lemma {:induction false} BitsSplit(hi: nat, m: nat, lo: nat, k: nat)
    requires lo < Pow2(k)
    ensures BitsOf(hi * Pow2(k) + lo, m + k) == BitsOf(hi, m) + BitsOf(lo, k)
  {
    if k == 0 {
      assert hi * Pow2(k) + lo == hi && BitsOf(hi, m) + [] == BitsOf(hi, m);
    } else {
      var q := Pow2(k - 1);
      var p, bit := hi * q, lo % 2 == 1;
      DoubleTimes(hi, q);
      HalfOf(p, lo);
      BitsSplit(hi, m, lo / 2, k - 1);
      BitsStep(2 * p + lo, m + k);
      BitsStep(lo, k);
      assert BitsOf(hi, m) + (BitsOf(lo / 2, k - 1) + [bit]) == BitsOf(hi, m) + BitsOf(lo / 2, k - 1) + [bit];
    }
  }

  lemma BitsStep(x: nat, n: nat)
    requires n > 0
    ensures BitsOf(x, n) == BitsOf(x / 2, n - 1) + [x % 2 == 1]
  {
  }

  lemma FlatOne(x: nat, n: nat)
    ensures Flat([x], n) == BitsOf(x, n)
  {
    assert [x][1..] == [];
    assert BitsOf(x, n) + [] == BitsOf(x, n);
  }

  lemma FlatNone(n: nat)
    ensures Flat([], n) == []
  {
  }

  lemma FlatCons(x: nat, xs: seq<nat>, n: nat)
    ensures Flat([x] + xs, n) == BitsOf(x, n) + Flat(xs, n)
  {
    hide BitsOf;
    assert ([x] + xs)[1..] == xs;
  }

  lemma {:induction false} FlatAppend(xs: seq<nat>, ys: seq<nat>, n: nat)
    ensures Flat(xs + ys, n) == Flat(xs, n) + Flat(ys, n)
    decreases |xs|
  {
    if xs == [] {
      FlatNone(n);
      hide Flat;
      assert xs + ys == ys && [] + Flat(ys, n) == Flat(ys, n);
    } else {
      hide Flat, BitsOf;
      var x, more := xs[0], xs[1..];
      FlatAppend(more, ys, n);
      FlatCons(x, more, n);
      FlatCons(x, more + ys, n);
      assert xs == [x] + more && xs + ys == [x] + (more + ys);
      assert BitsOf(x, n) + (Flat(more, n) + Flat(ys, n)) == BitsOf(x, n) + Flat(more, n) + Flat(ys, n);
    }
  }

  /** Cutting undoes flattening, whatever incomplete group follows. */
  lemma {:induction false} ChunksOfFlat(xs: seq<nat>, n: nat, rest: seq<bool>)
    requires n > 0 && |rest| < n && Below(xs, Pow2(n))
    ensures Chunks(Flat(xs, n) + rest, n) == xs
  {
    hide BitsOf, Number;
    if xs == [] {
      assert Flat(xs, n) + rest == rest;
    } else {
      var b := Flat(xs, n) + rest;
      var t := Flat(xs[1..], n) + rest;
      assert b == BitsOf(xs[0], n) + t;
      assert b[..n] == BitsOf(xs[0], n) && b[n..] == t;
      assert xs[0] in xs && forall x | x in xs[1..] :: x in xs;
      NumberOfBits(xs[0], n);
      ChunksOfFlat(xs[1..], n, rest);
      assert xs == [xs[0]] + xs[1..];
    }
  }

  /** Flattening undoes cutting, up to the incomplete group dropped. */
  lemma {:induction false} FlatOfChunks(b: seq<bool>, n: nat)
    requires n > 0
    ensures Flat(Chunks(b, n), n) <= b && |b| - |Flat(Chunks(b, n), n)| < n
    ensures Below(Chunks(b, n), Pow2(n))
    decreases |b|
  {
    hide BitsOf, Number;
    if |b| >= n {
      FlatOfChunks(b[n..], n);
      BitsOfNumber(b[..n]);
      var c := Chunks(b[n..], n);
      assert ([Number(b[..n])] + c)[1..] == c;
      assert b == b[..n] + b[n..];
      assert Flat(Chunks(b, n), n) == b[..n] + Flat(c, n);
    }
  }

  /** Numbers are determined by their bits. */
  lemma FlatInjective(xs: seq<nat>, ys: seq<nat>, n: nat)
    requires n > 0 && Below(xs, Pow2(n)) && Below(ys, Pow2(n)) && Flat(xs, n) == Flat(ys, n)
    ensures xs == ys
  {
    hide Flat, Chunks;
    ChunksOfFlat(xs, n, []);
    ChunksOfFlat(ys, n, []);
  }
}
