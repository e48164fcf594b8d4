/** What the Base64 codec promises: round trips, sizes, canonical texts and detection. */
module Base64Laws {
  import opened Options
  import opened Bits
  import opened Base64

  // ---- sizes ----

  /** The bits of the sextets are the bits of the bytes and two zeros for every pad. */
  lemma SextetBits(bytes: seq<nat>)
    ensures Flat(Sextets(bytes), 6) == Flat(bytes, 8) + Zeros(2 * PadCount(|bytes|))
    ensures |Sextets(bytes)| + PadCount(|bytes|) == RequiredEncodeSize(|bytes|)
  {
    hide Flat, Chunks;
    var b := Flat(bytes, 8) + Zeros(2 * PadCount(|bytes|));
    FlatOfChunks(b, 6);
    FlatLength(bytes, 8);
    FlatLength(Chunks(b, 6), 6);
    GroupCount(|bytes|, |Chunks(b, 6)|);
    assert Flat(Chunks(b, 6), 6) == b[..|b|] == b;
  }

  lemma GroupCount(n: nat, s: nat)
    requires 6 * s <= 8 * n + 2 * PadCount(n) < 6 * s + 6
    ensures 6 * s == 8 * n + 2 * PadCount(n) && s + PadCount(n) == RequiredEncodeSize(n)
  {
    var q, r := n / 3, n % 3;
    assert n == 3 * q + r;
  }

  lemma EncodedSize(alphabet: Alphabet, bytes: seq<nat>)
    ensures |Encoded(alphabet, bytes)| == RequiredEncodeSize(|bytes|)
  {
    hide Sextets, Symbols;
    SextetBits(bytes);
    SextetsBelow(bytes);
  }

  /** The bits of the values are the bits of the bytes and fewer than eight more. */
  lemma OctetBits(vs: seq<nat>)
    ensures Flat(Octets(vs), 8) <= Flat(vs, 6) && Below(Octets(vs), 256) && |Octets(vs)| == 3 * |vs| / 4
  {
    hide Flat, Chunks;
    SmallPowers();
    FlatOfChunks(Flat(vs, 6), 8);
    FlatLength(vs, 6);
    FlatLength(Chunks(Flat(vs, 6), 8), 8);
  }

  lemma DecodedSize(alphabet: Alphabet, behavior: Behavior, text: string)
    requires Decoded(alphabet, behavior, text).Some?
    ensures var bytes := Decoded(alphabet, behavior, text).value;
      Below(bytes, 256) && |bytes| == 3 * BodyLen(text) / 4 && |bytes| <= MaxDecodeSize(|text|)
  {
    hide Octets, Values;
    OctetBits(Values(alphabet, text[..BodyLen(text)]).value.0);
  }

  // ---- decoding what was encoded ----

  /** Taking whole bytes out of the bits undoes filling them up to sextets. */
  lemma OctetsOfSextets(bytes: seq<nat>)
    requires Below(bytes, 256)
    ensures Octets(Sextets(bytes)) == bytes
  {
    hide Flat, Chunks, Sextets;
    SmallPowers();
    SextetBits(bytes);
    ChunksOfFlat(bytes, 8, Zeros(2 * PadCount(|bytes|)));
  }

  predicate Compatible(dec: Alphabet, enc: Alphabet) {
    dec == Auto || (dec == UrlFilenameSafe <==> enc == UrlFilenameSafe)
  }

  lemma ValueOfSymbol(dec: Alphabet, enc: Alphabet, v: nat)
    requires v < 64
    ensures Compatible(dec, enc) || v < 62 ==>
      Value(dec, Symbol(enc, v)).Some? && Value(dec, Symbol(enc, v)).value.0 == v
    ensures Compatible(dec, enc) ==> Compatible(Value(dec, Symbol(enc, v)).value.1, enc)
    ensures v < 62 ==> Value(dec, Symbol(enc, v)).value.1 == dec
    ensures !Compatible(dec, enc) && v >= 62 ==> Value(dec, Symbol(enc, v)) == None
    ensures Symbol(enc, v) != PAD
  {
    hide Symbol;
    SymbolIs(enc, v);
  }

  predicate Mismatched(dec: Alphabet, enc: Alphabet, vs: seq<nat>) {
    !Compatible(dec, enc) && exists v | v in vs :: v >= 62
  }

  lemma SymbolsCons(enc: Alphabet, vs: seq<nat>)
    requires vs != [] && Below(vs, 64)
    ensures vs[0] < 64 && Below(vs[1..], 64) && Symbols(enc, vs) == [Symbol(enc, vs[0])] + Symbols(enc, vs[1..])
  {
    hide Symbol;
    assert vs[0] in vs && forall v | v in vs[1..] :: v in vs;
  }

  lemma {:induction false} ValuesOfSymbols(dec: Alphabet, enc: Alphabet, vs: seq<nat>)
    requires Below(vs, 64)
    ensures if Mismatched(dec, enc, vs) then Values(dec, Symbols(enc, vs)) == None
            else Values(dec, Symbols(enc, vs)).Some? && Values(dec, Symbols(enc, vs)).value.0 == vs
    decreases |vs|
  {
    hide Symbol, Value, Symbols;
    if vs == [] {
      assert |Symbols(enc, vs)| == 0;
    } else {
      var s := Symbols(enc, vs);
      SymbolsCons(enc, vs);
      assert s[0] == Symbol(enc, vs[0]) && s[1..] == Symbols(enc, vs[1..]);
      ValueOfSymbol(dec, enc, vs[0]);
      assert vs == [vs[0]] + vs[1..];
      var r := Value(dec, s[0]);
      if r.Some? {
        ValuesOfSymbols(r.value.1, enc, vs[1..]);
        MismatchStep(dec, r.value.1, enc, vs);
      } else {
        assert vs[0] in vs;
      }
    }
  }

  lemma MismatchStep(dec: Alphabet, now: Alphabet, enc: Alphabet, vs: seq<nat>)
    requires vs != [] && (Compatible(dec, enc) ==> Compatible(now, enc))
    requires !Compatible(dec, enc) ==> vs[0] < 62 && now == dec
    ensures Mismatched(dec, enc, vs) <==> Mismatched(now, enc, vs[1..])
  {
    assert forall v | v in vs :: v == vs[0] || v in vs[1..];
    assert forall v | v in vs[1..] :: v in vs;
  }

  lemma NoPadInSymbols(enc: Alphabet, vs: seq<nat>)
    requires Below(vs, 64)
    ensures PAD !in Symbols(enc, vs)
  {
    forall i | 0 <= i < |vs| ensures Symbols(enc, vs)[i] != PAD {
      assert vs[i] in vs;
      ValueOfSymbol(Auto, enc, vs[i]);
    }
  }

  lemma BodyOf(body: string, pads: nat)
    requires PAD !in body
    ensures var t := body + Pads(pads);
      BodyLen(t) == |body| && t[..|body|] == body && forall i | |body| <= i < |t| :: t[i] == PAD
  {
    var t := body + Pads(pads);
    assert t[..|body|] == body;
    BodyLenAt(t, |body|);
  }

  /** Decoding undoes encoding for every byte string, in the same alphabet or with
      detection; in the other alphabet it does so exactly when no special character occurs. */
  lemma RoundTrip(dec: Alphabet, enc: Alphabet, behavior: Behavior, bytes: seq<nat>)
    requires Below(bytes, 256)
    ensures Decoded(dec, behavior, Encoded(enc, bytes)) ==
            if Mismatched(dec, enc, Sextets(bytes)) then None else Some(bytes)
  {
    hide Sextets, Symbols, Octets, Values, Mismatched, Pads, PadCount, BodyLen;
    var vs := Sextets(bytes);
    SextetsBelow(bytes);
    NoPadInSymbols(enc, vs);
    BodyOf(Symbols(enc, vs), PadCount(|bytes|));
    ValuesOfSymbols(dec, enc, vs);
    OctetsOfSextets(bytes);
  }

  // ---- encoding what was decoded ----

  /** The texts of RFC 4648, section 3.5: whole groups, the right padding, zero trailing bits. */
  predicate Canonical(alphabet: Alphabet, text: string) {
    var k := BodyLen(text);
    && k % 4 != 1
    && text[k..] == Pads((4 - k % 4) % 4)
    && (k % 4 == 2 ==> Value(alphabet, text[k - 1]).Some? && Value(alphabet, text[k - 1]).value.0 % 16 == 0)
    && (k % 4 == 3 ==> Value(alphabet, text[k - 1]).Some? && Value(alphabet, text[k - 1]).value.0 % 4 == 0)
  }

  /** The bits a byte string does not take up, when the values end in one that has n of them. */
  lemma TrailingBits(vs: seq<nat>, n: nat)
    requires Below(vs, 64) && vs != [] && n in {2, 4} && 8 * |Octets(vs)| + n == 6 * |vs|
    ensures Flat(vs, 6) == Flat(Octets(vs), 8) + BitsOf(vs[|vs| - 1] % Pow2(n), n)
  {
    hide Chunks, BitsOf, Flat;
    var init, last := vs[..|vs| - 1], vs[|vs| - 1];
    assert vs == init + [last] && last in vs;
    FlatAppend(init, [last], 6);
    FlatOne(last, 6);
    SmallPowers();
    SplitValue(last, n);
    OctetBits(vs);
    FlatLength(vs, 6);
    FlatLength(Octets(vs), 8);
    LastBits(Flat(init, 6), BitsOf(last / Pow2(n), 6 - n), BitsOf(last % Pow2(n), n), Flat(Octets(vs), 8));
  }

  lemma SplitValue(x: nat, n: nat)
    requires x < 64 && n in {2, 4}
    ensures BitsOf(x, 6) == BitsOf(x / Pow2(n), 6 - n) + BitsOf(x % Pow2(n), n)
  {
    SmallPowers();
    hide Pow2, BitsOf;
    var p := Pow2(n);
    assert x == x / p * p + x % p;
    BitsSplit(x / p, 6 - n, x % p, n);
  }

  lemma LastBits(a: seq<bool>, b: seq<bool>, c: seq<bool>, d: seq<bool>)
    requires d <= a + (b + c) && |d| + |c| == |a| + |b| + |c|
    ensures a + (b + c) == d + c
  {
    assert a + (b + c) == a + b + c;
    assert d == (a + b + c)[..|a + b|];
  }

  lemma ZeroExactly(x: nat, n: nat)
    requires x < Pow2(n)
    ensures BitsOf(x, n) == Zeros(n) <==> x == 0
  {
    ZeroBits(n);
    NumberOfBits(x, n);
    NumberOfBits(0, n);
  }

  /** The sextets of the bytes read from vs are vs again exactly when nothing was dropped. */
  lemma SextetsOfOctets(vs: seq<nat>)
    requires Below(vs, 64)
    ensures Sextets(Octets(vs)) == vs <==>
            && |vs| % 4 != 1
            && (|vs| % 4 == 2 ==> vs[|vs| - 1] % 16 == 0)
            && (|vs| % 4 == 3 ==> vs[|vs| - 1] % 4 == 0)
  {
    hide Flat, Chunks, Sextets, Octets, Pow2, Zeros;
    SmallPowers();
    OctetBits(vs);
    SextetBits(Octets(vs));
    if |vs| % 4 == 0 {
      WholeGroups(vs);
    } else if |vs| % 4 != 1 {
      LastGroupBits(vs, if |vs| % 4 == 2 then 4 else 2);
    }
  }

  lemma WholeGroups(vs: seq<nat>)
    requires Below(vs, 64) && |vs| % 4 == 0
    ensures Sextets(Octets(vs)) == vs
  {
    hide Flat, Chunks, Sextets, Octets, BitsOf, Pow2, Zeros;
    SmallPowers();
    var bytes := Octets(vs);
    OctetBits(vs);
    SextetBits(bytes);
    SextetsBelow(bytes);
    FlatLength(vs, 6);
    FlatLength(bytes, 8);
    assert PadCount(|bytes|) == 0 && Zeros(0) == [] by { NoZeros(); }
    assert Flat(vs, 6) == Flat(bytes, 8) + [];
    FlatInjective(Sextets(bytes), vs, 6);
  }

  /** Two or three groups at the end drop n bits. */
  lemma LastGroupBits(vs: seq<nat>, n: nat)
    requires Below(vs, 64) && vs != [] && n in {2, 4} && |vs| % 4 == (if n == 4 then 2 else 3)
    ensures Sextets(Octets(vs)) == vs <==> vs[|vs| - 1] % Pow2(n) == 0
  {
    hide Flat, Chunks, Sextets, Octets, BitsOf, Pow2, Zeros;
    SmallPowers();
    var bytes := Octets(vs);
    OctetBits(vs);
    SextetBits(bytes);
    SextetsBelow(bytes);
    TrailingBits(vs, n);
    assert 2 * PadCount(|bytes|) == n;
    var x := vs[|vs| - 1] % Pow2(n);
    ZeroExactly(x, n);
    if x == 0 {
      FlatInjective(Sextets(bytes), vs, 6);
    } else {
      assert Flat(bytes, 8) + BitsOf(x, n) != Flat(bytes, 8) + Zeros(n) by {
        CancelFront(Flat(bytes, 8), BitsOf(x, n), Zeros(n));
      }
    }
  }

  lemma NoZeros()
    ensures Zeros(0) == []
  {
  }

  lemma CancelFront(a: seq<bool>, b: seq<bool>, c: seq<bool>)
    requires b != c
    ensures a + b != a + c
  {
    assert (a + b)[|a|..] == b && (a + c)[|a|..] == c;
  }

  lemma SymbolOfValue(alphabet: Alphabet, c: char)
    requires alphabet != Auto && Value(alphabet, c).Some?
    ensures Symbol(alphabet, Value(alphabet, c).value.0) == c && Value(alphabet, c).value.1 == alphabet
  {
    hide Symbol;
    SymbolIs(alphabet, Value(alphabet, c).value.0);
  }

  lemma {:induction false} SymbolsOfValues(alphabet: Alphabet, s: string)
    requires alphabet != Auto && Values(alphabet, s).Some?
    ensures Symbols(alphabet, Values(alphabet, s).value.0) == s && Values(alphabet, s).value.1 == alphabet
    ensures forall i | 0 <= i < |s| ::
            Value(alphabet, s[i]).Some? && Value(alphabet, s[i]).value.0 == Values(alphabet, s).value.0[i]
    decreases |s|
  {
    hide Symbol, Value, Symbols;
    if s == "" {
      assert |Symbols(alphabet, [])| == 0;
    } else {
      SymbolOfValue(alphabet, s[0]);
      SymbolsOfValues(alphabet, s[1..]);
      var vs := Values(alphabet, s).value.0;
      SymbolsCons(alphabet, vs);
      assert vs[1..] == Values(alphabet, s[1..]).value.0;
      assert s == [s[0]] + s[1..];
    }
  }

  /** Encoding gives a text back exactly when it gives the values and the padding back. */
  lemma EncodedParts(alphabet: Alphabet, text: string, vs: seq<nat>, bytes: seq<nat>)
    requires Below(vs, 64) && Symbols(alphabet, vs) == text[..BodyLen(text)]
    ensures Encoded(alphabet, bytes) == text <==>
            Sextets(bytes) == vs && Pads(PadCount(|bytes|)) == text[BodyLen(text)..]
  {
    hide Sextets, Symbols, Pads, PadCount, BodyLen, Values;
    var k, ws, p := BodyLen(text), Sextets(bytes), PadCount(|bytes|);
    SextetsBelow(bytes);
    assert text == text[..k] + text[k..];
    if Encoded(alphabet, bytes) == text {
      NoPadInSymbols(alphabet, ws);
      BodyOf(Symbols(alphabet, ws), p);
      ValuesOfSymbols(alphabet, alphabet, ws);
      ValuesOfSymbols(alphabet, alphabet, vs);
      assert (Symbols(alphabet, ws) + Pads(p))[k..] == Pads(p);
    }
  }

  /** Encoding undoes decoding exactly on canonical texts. */
  lemma CanonicalExactly(alphabet: Alphabet, behavior: Behavior, text: string)
    requires alphabet != Auto && Decoded(alphabet, behavior, text).Some?
    ensures Encoded(alphabet, Decoded(alphabet, behavior, text).value) == text <==> Canonical(alphabet, text)
  {
    hide Octets, Values, Sextets, Symbols, Pads, BodyLen, Value, Encoded;
    var k := BodyLen(text);
    var vs := Values(alphabet, text[..k]).value.0;
    SymbolsOfValues(alphabet, text[..k]);
    SextetsOfOctets(vs);
    OctetBits(vs);
    EncodedParts(alphabet, text, vs, Octets(vs));
    assert k > 0 ==> text[..k][k - 1] == text[k - 1];
    PadsOf(k);
    hide PadCount;
  }

  /** The pads that go with k sextets. */
  lemma PadsOf(k: nat)
    ensures k % 4 != 1 ==> PadCount(3 * k / 4) == (4 - k % 4) % 4
  {
    var q, r := k / 4, k % 4;
    assert 3 * k == 4 * (3 * q) + 3 * r;
    assert 3 * k / 4 == 3 * q + 3 * r / 4;
  }

  // ---- detecting the alphabet ----

  predicate InAlphabet(alphabet: Alphabet, c: char) { Value(alphabet, c).Some? }

  predicate AllIn(alphabet: Alphabet, s: string) { forall i | 0 <= i < |s| :: InAlphabet(alphabet, s[i]) }

  lemma {:induction false} ValuesFixed(alphabet: Alphabet, s: string)
    requires alphabet != Auto
    ensures Values(alphabet, s).Some? <==> AllIn(alphabet, s)
    decreases |s|
  {
    hide Value;
    if s != "" {
      ValuesFixed(alphabet, s[1..]);
      if Value(alphabet, s[0]).Some? { SymbolOfValue(alphabet, s[0]); }
      assert AllIn(alphabet, s) <==> InAlphabet(alphabet, s[0]) && AllIn(alphabet, s[1..]) by {
        AllInStep(alphabet, s);
      }
    }
  }

  lemma AllInStep(alphabet: Alphabet, s: string)
    requires s != ""
    ensures AllIn(alphabet, s) <==> InAlphabet(alphabet, s[0]) && AllIn(alphabet, s[1..])
  {
    hide InAlphabet;
    assert s == [s[0]] + s[1..];
  }

  /** What detection makes of one character. */
  lemma DetectOne(c: char)
    ensures var a, t, u := Value(Auto, c), Value(Standard, c), Value(UrlFilenameSafe, c);
      && (a.None? <==> t.None? && u.None?)
      && (a.Some? && t.Some? && u.Some? ==> a.value.1 == Auto && a.value.0 == t.value.0 == u.value.0)
      && (a.Some? && t.None? ==> a == u && u.value.1 == UrlFilenameSafe)
      && (a.Some? && u.None? ==> a == t && t.value.1 == Standard)
      && (t.Some? ==> t.value.1 == Standard) && (u.Some? ==> u.value.1 == UrlFilenameSafe)
  {
  }

  function First(r: Option<(seq<nat>, Alphabet)>): Option<seq<nat>> { if r.None? then None else Some(r.value.0) }

  /** Detection reads a text as the standard alphabet does, else as the URL-safe one does. */
  lemma {:induction false} DetectValues(s: string)
    ensures First(Values(Auto, s)) ==
            if Values(Standard, s).Some? then First(Values(Standard, s)) else First(Values(UrlFilenameSafe, s))
    ensures Values(Standard, s).Some? && Values(UrlFilenameSafe, s).Some? ==>
            First(Values(Standard, s)) == First(Values(UrlFilenameSafe, s))
    decreases |s|
  {
    hide Value;
    if s != "" {
      DetectOne(s[0]);
      DetectValues(s[1..]);
    }
  }

  /** With detection a text decodes as in the standard alphabet, else as in the URL-safe one. */
  lemma DetectionAgrees(behavior: Behavior, text: string)
    ensures Decoded(Auto, behavior, text) ==
            if Decoded(Standard, behavior, text).Some? then Decoded(Standard, behavior, text)
            else Decoded(UrlFilenameSafe, behavior, text)
  {
    hide Octets, Values, BodyLen;
    DetectValues(text[..BodyLen(text)]);
  }

  predicate BadPadding(behavior: Behavior, text: string) {
    behavior != Loose && exists i | BodyLen(text) <= i < |text| :: text[i] != PAD
  }

  /** Detection rejects bad padding, a character of neither alphabet, and a text that mixes
      the special characters of both before the first pad; nothing else. */
  lemma DetectionRejects(behavior: Behavior, text: string)
    ensures Decoded(Auto, behavior, text).None? <==>
            || BadPadding(behavior, text)
            || (exists i | 0 <= i < BodyLen(text) :: !InAlphabet(Auto, text[i]))
            || ((exists i | 0 <= i < BodyLen(text) :: text[i] in "+/") &&
                exists i | 0 <= i < BodyLen(text) :: text[i] in "-_")
  {
    hide Octets, Values, BodyLen;
    var body := text[..BodyLen(text)];
    DetectionAgrees(behavior, text);
    ValuesFixed(Standard, body);
    ValuesFixed(UrlFilenameSafe, body);
    Mixing(body);
    assert forall i | 0 <= i < |body| :: body[i] == text[i];
  }

  lemma Mixing(body: string)
    ensures !AllIn(Standard, body) && !AllIn(UrlFilenameSafe, body) <==>
            || (exists i | 0 <= i < |body| :: !InAlphabet(Auto, body[i]))
            || ((exists i | 0 <= i < |body| :: body[i] in "+/") && exists i | 0 <= i < |body| :: body[i] in "-_")
  {
    forall i | 0 <= i < |body|
      ensures InAlphabet(Standard, body[i]) <==> InAlphabet(Auto, body[i]) && body[i] !in "-_"
      ensures InAlphabet(UrlFilenameSafe, body[i]) <==> InAlphabet(Auto, body[i]) && body[i] !in "+/"
    {
    }
    hide InAlphabet;
  }
}
