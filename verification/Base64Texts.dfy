/** The Base64 encoding of section 4 of RFC 4648, group by group, on the bytes themselves. */
module Base64Texts {
  import opened Bits
  import opened Base64
  import opened Base64Laws

  lemma {:induction false} ChunksBehind(xs: seq<nat>, n: nat, b: seq<bool>)
    requires n > 0 && Below(xs, Pow2(n))
    ensures Chunks(Flat(xs, n) + b, n) == xs + Chunks(b, n)
  {
    hide BitsOf, Number;
    if xs == [] {
      assert Flat(xs, n) + b == b && xs + Chunks(b, n) == Chunks(b, n);
    } else {
      hide Flat, Chunks;
      var t := Flat(xs[1..], n) + b;
      var s := Flat(xs, n) + b;
      FlatCons(xs[0], xs[1..], n);
      assert xs == [xs[0]] + xs[1..] && s == BitsOf(xs[0], n) + t;
      assert xs[0] in xs && forall x | x in xs[1..] :: x in xs;
      FirstChunk(BitsOf(xs[0], n), t, n);
      NumberOfBits(xs[0], n);
      ChunksBehind(xs[1..], n, b);
      assert [xs[0]] + (xs[1..] + Chunks(b, n)) == xs + Chunks(b, n);
    }
  }

  lemma FirstChunk(b: seq<bool>, rest: seq<bool>, n: nat)
    requires |b| == n > 0
    ensures Chunks(b + rest, n) == [Number(b)] + Chunks(rest, n)
  {
    assert (b + rest)[..n] == b && (b + rest)[n..] == rest;
  }

  /** Three bytes are written as four characters, in front of the text for the others. */
  lemma ThreeWritten(alphabet: Alphabet, a: nat, b: nat, c: nat, rest: seq<nat>)
    requires a < 256 && b < 256 && c < 256
    ensures Encoded(alphabet, [a, b, c] + rest) ==
            [Symbol(alphabet, a / 4), Symbol(alphabet, a % 4 * 16 + b / 16),
             Symbol(alphabet, b % 16 * 4 + c / 64), Symbol(alphabet, c % 64)] + Encoded(alphabet, rest)
  {
    hide Flat, Chunks, Symbols, Symbol, Pow2, BitsOf;
    var group := [a / 4, a % 4 * 16 + b / 16, b % 16 * 4 + c / 64, c % 64];
    var z := Zeros(2 * PadCount(|rest|));
    SmallPowers();
    ThreeBytes(a, b, c);
    FlatAppend([a, b, c], rest, 8);
    assert PadCount(|[a, b, c] + rest|) == PadCount(|rest|);
    assert Flat([a, b, c], 8) + Flat(rest, 8) + z == Flat(group, 6) + (Flat(rest, 8) + z);
    ChunksBehind(group, 6, Flat(rest, 8) + z);
    SextetsBelow(rest);
    SymbolsAppend(alphabet, group, Sextets(rest));
    SymbolsAre(alphabet, group[0], group[1], group[2], group[3]);
  }

  lemma SymbolsAre(alphabet: Alphabet, x: nat, y: nat, z: nat, w: nat)
    requires x < 64 && y < 64 && z < 64 && w < 64
    ensures Below([x, y], 64) && Symbols(alphabet, [x, y]) == [Symbol(alphabet, x), Symbol(alphabet, y)]
    ensures Below([x, y, z], 64)
    ensures Symbols(alphabet, [x, y, z]) == [Symbol(alphabet, x), Symbol(alphabet, y), Symbol(alphabet, z)]
    ensures Below([x, y, z, w], 64)
    ensures Symbols(alphabet, [x, y, z, w]) ==
            [Symbol(alphabet, x), Symbol(alphabet, y), Symbol(alphabet, z), Symbol(alphabet, w)]
  {
    hide Symbol;
  }

  /** What is left over, one byte or two, is filled up with padding characters. */
  lemma RestWritten(alphabet: Alphabet, a: nat, b: nat)
    requires a < 256 && b < 256
    ensures Encoded(alphabet, []) == ""
    ensures Encoded(alphabet, [a]) == [Symbol(alphabet, a / 4), Symbol(alphabet, a % 4 * 16), '=', '=']
    ensures Encoded(alphabet, [a, b]) ==
            [Symbol(alphabet, a / 4), Symbol(alphabet, a % 4 * 16 + b / 16), Symbol(alphabet, b % 16 * 4), '=']
  {
    hide Flat, Chunks, Symbols, Symbol, Pow2, BitsOf;
    var one, two := [a / 4, a % 4 * 16], [a / 4, a % 4 * 16 + b / 16, b % 16 * 4];
    OneByte(a);
    TwoBytes(a, b);
    EncodedIs(alphabet, [a], one);
    EncodedIs(alphabet, [a, b], two);
    EncodedSize(alphabet, []);
    SymbolsAre(alphabet, one[0], one[1], 0, 0);
    SymbolsAre(alphabet, two[0], two[1], two[2], 0);
    assert Pads(1) == ['='] && Pads(2) == ['=', '='];
  }
}
