/** The Base64 codec: three bytes as four characters, in the standard and the URL-safe alphabet. */
module Base64 {
  import opened Options
  import opened Bits

  datatype Alphabet = Auto | Standard | UrlFilenameSafe

  datatype Behavior = Moderate | Loose

  type Byte = x: nat | x < 256

  const PAD := '='

  // ---- the two alphabets ----

  const UPPER := "ABCDEFGHIJKLMNOPQRSTUVWXYZ"
  const LOWER := "abcdefghijklmnopqrstuvwxyz"
  const DIGITS := "0123456789"

  /** The characters encode writes; anything but the URL-safe alphabet means the standard one. */
  function Table(alphabet: Alphabet): string {
    UPPER + LOWER + DIGITS + (if alphabet == UrlFilenameSafe then "-_" else "+/")
  }

  lemma UpperAt(v: nat)
    requires v < 26
    ensures |UPPER| == 26 && UPPER[v] == 'A' + v as char
  {
  }

  lemma LowerAt(v: nat)
    requires v < 26
    ensures |LOWER| == 26 && LOWER[v] == 'a' + v as char
  {
  }

  lemma DigitAt(v: nat)
    requires v < 10
    ensures |DIGITS| == 10 && DIGITS[v] == '0' + v as char
  {
  }

  lemma TableLength(alphabet: Alphabet)
    ensures |Table(alphabet)| == 64
  {
    UpperAt(0);
    LowerAt(0);
    DigitAt(0);
  }

  function Symbol(alphabet: Alphabet, v: nat): char
    requires v < 64
  {
    TableLength(alphabet);
    Table(alphabet)[v]
  }

  lemma SymbolIs(alphabet: Alphabet, v: nat)
    requires v < 64
    ensures Symbol(alphabet, v) ==
            if v < 26 then 'A' + v as char
            else if v < 52 then 'a' + (v - 26) as char
            else if v < 62 then '0' + (v - 52) as char
            else if v == 62 then (if alphabet == UrlFilenameSafe then '-' else '+')
            else (if alphabet == UrlFilenameSafe then '_' else '/')
  {
    hide Table;
    TableLength(alphabet);
    TableAt(alphabet, v);
    if v < 26 { UpperAt(v); } else if v < 52 { LowerAt(v - 26); } else if v < 62 { DigitAt(v - 52); }
  }

  lemma TableAt(alphabet: Alphabet, v: nat)
    requires v < 64 && |Table(alphabet)| == 64
    ensures |UPPER| == |LOWER| == 26 && |DIGITS| == 10
    ensures Table(alphabet)[v] ==
            if v < 26 then UPPER[v] else if v < 52 then LOWER[v - 26] else if v < 62 then DIGITS[v - 52]
            else (if alphabet == UrlFilenameSafe then "-_" else "+/")[v - 62]
  {
    UpperAt(0);
    LowerAt(0);
    DigitAt(0);
    hide UPPER, LOWER, DIGITS;
  }

  /** The value of a character; the first special character fixes an alphabet still open. */
  function Value(alphabet: Alphabet, c: char): (r: Option<(nat, Alphabet)>)
    ensures r.Some? ==> r.value.0 < 64
  {
    if 'A' <= c <= 'Z' then Some((c as int - 'A' as int, alphabet))
    else if 'a' <= c <= 'z' then Some((c as int - 'a' as int + 26, alphabet))
    else if '0' <= c <= '9' then Some((c as int - '0' as int + 52, alphabet))
    else if c == '+' && alphabet != UrlFilenameSafe then Some((62, Standard))
    else if c == '/' && alphabet != UrlFilenameSafe then Some((63, Standard))
    else if c == '-' && alphabet != Standard then Some((62, UrlFilenameSafe))
    else if c == '_' && alphabet != Standard then Some((63, UrlFilenameSafe))
    else None
  }

  // ---- what the codec computes ----

  function Zeros(n: nat): seq<bool> { seq(n, i => false) }

  function Pads(n: nat): string { seq(n, i => PAD) }

  /** How many padding characters follow the symbols for n bytes. */
  function PadCount(n: nat): nat { (3 - n % 3) % 3 }

  /** The bits of the bytes, filled with zeros to a multiple of six, in groups of six. */
  function Sextets(bytes: seq<nat>): seq<nat> {
    Chunks(Flat(bytes, 8) + Zeros(2 * PadCount(|bytes|)), 6)
  }

  function Symbols(alphabet: Alphabet, vs: seq<nat>): (s: string)
    requires Below(vs, 64)
    ensures |s| == |vs|
  {
    seq(|vs|, i requires 0 <= i < |vs| => assert vs[i] in vs; Symbol(alphabet, vs[i]))
  }

  function Encoded(alphabet: Alphabet, bytes: seq<nat>): string {
    SextetsBelow(bytes);
    Symbols(alphabet, Sextets(bytes)) + Pads(PadCount(|bytes|))
  }

  lemma SextetsBelow(bytes: seq<nat>)
    ensures Below(Sextets(bytes), 64)
  {
    assert Pow2(6) == 64;
    FlatOfChunks(Flat(bytes, 8) + Zeros(2 * PadCount(|bytes|)), 6);
  }

  /** The position of the first padding character, or the length of the text. */
  function BodyLen(text: string): (k: nat)
    ensures k <= |text| && PAD !in text[..k] && (k < |text| ==> text[k] == PAD)
  {
    if text == "" || text[0] == PAD then 0 else 1 + BodyLen(text[1..])
  }

  function Prepend(vs: seq<nat>, r: Option<(seq<nat>, Alphabet)>): Option<(seq<nat>, Alphabet)> {
    if r.None? then None else Some((vs + r.value.0, r.value.1))
  }

  /** The values of the characters of s, and the alphabet as it then stands. */
  function Values(alphabet: Alphabet, s: string): (r: Option<(seq<nat>, Alphabet)>)
    ensures r.Some? ==> Below(r.value.0, 64) && |r.value.0| == |s|
    decreases |s|
  {
    if s == "" then Some(([], alphabet))
    else
      var r := Value(alphabet, s[0]);
      if r.None? then None else Prepend([r.value.0], Values(r.value.1, s[1..]))
  }

  /** The whole bytes among the bits of the values. */
  function Octets(vs: seq<nat>): seq<nat> { Chunks(Flat(vs, 6), 8) }

  function Decoded(alphabet: Alphabet, behavior: Behavior, text: string): Option<seq<nat>> {
    var k := BodyLen(text);
    var r := Values(alphabet, text[..k]);
    if r.None? || (behavior != Loose && exists i | k <= i < |text| :: text[i] != PAD) then None
    else Some(Octets(r.value.0))
  }

  function RequiredEncodeSize(size: nat): nat { (size / 3 + (if size % 3 != 0 then 1 else 0)) * 4 }

  function MaxDecodeSize(size: nat): nat { (size / 4 + (if size % 4 != 0 then 1 else 0)) * 3 }

  // ---- encoding ----

  lemma SplitByte(x: nat, m: nat, k: nat)
    requires x < 256 && (m, k) in {(6, 2), (4, 4), (2, 6)}
    ensures BitsOf(x, 8) == BitsOf(x / Pow2(k), m) + BitsOf(x % Pow2(k), k)
  {
    SmallPowers();
    hide Pow2, BitsOf;
    var p := Pow2(k);
    assert x == x / p * p + x % p;
    BitsSplit(x / p, m, x % p, k);
  }

  lemma SplitSextet(x: nat, m: nat, y: nat, k: nat)
    requires (m, k) in {(6, 0), (4, 2), (2, 4)} && y < Pow2(k)
    ensures BitsOf(x * Pow2(k) + y, 6) == BitsOf(x, m) + BitsOf(y, k)
  {
    BitsSplit(x, m, y, k);
  }

  lemma SmallPowers()
    ensures Pow2(0) == 1 && Pow2(2) == 4 && Pow2(4) == 16 && Pow2(6) == 64 && Pow2(8) == 256
  {
    assert Pow2(1) == 2 && Pow2(3) == 8 && Pow2(5) == 32 && Pow2(7) == 128;
  }

  lemma ZeroBits(n: nat)
    ensures BitsOf(0, n) == Zeros(n)
  {
    if n > 0 {
      ZeroBits(n - 1);
      assert Zeros(n) == Zeros(n - 1) + [false];
    }
  }

  lemma FlatTwo(x: nat, y: nat, n: nat)
    ensures Flat([x, y], n) == BitsOf(x, n) + BitsOf(y, n)
  {
    hide BitsOf;
    FlatOne(x, n);
    FlatOne(y, n);
    FlatAppend([x], [y], n);
    assert [x] + [y] == [x, y];
  }

  lemma FlatThree(x: nat, y: nat, z: nat, n: nat)
    ensures Flat([x, y, z], n) == BitsOf(x, n) + BitsOf(y, n) + BitsOf(z, n)
  {
    hide BitsOf;
    FlatTwo(x, y, n);
    FlatOne(z, n);
    FlatAppend([x, y], [z], n);
    assert [x, y] + [z] == [x, y, z];
  }

  lemma FlatFour(x: nat, y: nat, z: nat, w: nat, n: nat)
    ensures Flat([x, y, z, w], n) == BitsOf(x, n) + BitsOf(y, n) + BitsOf(z, n) + BitsOf(w, n)
  {
    hide BitsOf;
    FlatThree(x, y, z, n);
    FlatOne(w, n);
    FlatAppend([x, y, z], [w], n);
    assert [x, y, z] + [w] == [x, y, z, w];
  }

  /** Three bytes and four sextets have the same bits. */
  lemma ThreeBytes(i0: nat, i1: nat, i2: nat)
    requires i0 < 256 && i1 < 256 && i2 < 256
    ensures Flat([i0, i1, i2], 8) == Flat([i0 / 4, i0 % 4 * 16 + i1 / 16, i1 % 16 * 4 + i2 / 64, i2 % 64], 6)
  {
    hide BitsOf, Pow2;
    SmallPowers();
    FlatThree(i0, i1, i2, 8);
    FlatFour(i0 / 4, i0 % 4 * 16 + i1 / 16, i1 % 16 * 4 + i2 / 64, i2 % 64, 6);
    SplitByte(i0, 6, 2);
    SplitByte(i1, 4, 4);
    SplitByte(i2, 2, 6);
    SplitSextet(i0 % 4, 2, i1 / 16, 4);
    SplitSextet(i1 % 16, 4, i2 / 64, 2);
    var a, b, c, d, e, f := BitsOf(i0 / 4, 6), BitsOf(i0 % 4, 2), BitsOf(i1 / 16, 4), BitsOf(i1 % 16, 4),
        BitsOf(i2 / 64, 2), BitsOf(i2 % 64, 6);
    assert (a + b) + (c + d) + (e + f) == a + (b + c) + (d + e) + f;
  }

  /** Two bytes and two zero bits make three sextets. */
  lemma TwoBytes(i0: nat, i1: nat)
    requires i0 < 256 && i1 < 256
    ensures Flat([i0, i1], 8) + Zeros(2) == Flat([i0 / 4, i0 % 4 * 16 + i1 / 16, i1 % 16 * 4], 6)
  {
    hide BitsOf, Pow2;
    SmallPowers();
    FlatTwo(i0, i1, 8);
    FlatThree(i0 / 4, i0 % 4 * 16 + i1 / 16, i1 % 16 * 4, 6);
    SplitByte(i0, 6, 2);
    SplitByte(i1, 4, 4);
    SplitSextet(i0 % 4, 2, i1 / 16, 4);
    SplitSextet(i1 % 16, 4, 0, 2);
    ZeroBits(2);
    var a, b, c, d, e := BitsOf(i0 / 4, 6), BitsOf(i0 % 4, 2), BitsOf(i1 / 16, 4), BitsOf(i1 % 16, 4), Zeros(2);
    assert (a + b) + (c + d) + e == a + (b + c) + (d + e);
  }

  /** One byte and four zero bits make two sextets. */
  lemma OneByte(i0: nat)
    requires i0 < 256
    ensures Flat([i0], 8) + Zeros(4) == Flat([i0 / 4, i0 % 4 * 16], 6)
  {
    hide BitsOf, Pow2;
    SmallPowers();
    FlatOne(i0, 8);
    FlatTwo(i0 / 4, i0 % 4 * 16, 6);
    SplitByte(i0, 6, 2);
    SplitSextet(i0 % 4, 2, 0, 4);
    ZeroBits(4);
    var a, b, c := BitsOf(i0 / 4, 6), BitsOf(i0 % 4, 2), Zeros(4);
    assert (a + b) + c == a + (b + c);
  }

  /** The symbols of vs are an encoding when the bits agree. */
  lemma EncodedIs(alphabet: Alphabet, bytes: seq<nat>, vs: seq<nat>)
    requires Below(vs, 64) && Flat(vs, 6) == Flat(bytes, 8) + Zeros(2 * PadCount(|bytes|))
    ensures Encoded(alphabet, bytes) == Symbols(alphabet, vs) + Pads(PadCount(|bytes|))
  {
    hide Flat, Symbols;
    assert Pow2(6) == 64;
    ChunksOfFlat(vs, 6, []);
    assert Flat(vs, 6) + [] == Flat(vs, 6);
  }

  lemma SymbolsAppend(alphabet: Alphabet, vs: seq<nat>, ws: seq<nat>)
    requires Below(vs, 64) && Below(ws, 64)
    ensures Below(vs + ws, 64) && Symbols(alphabet, vs + ws) == Symbols(alphabet, vs) + Symbols(alphabet, ws)
  {
    hide Symbol;
  }

  /** Encoding one more group of up to three bytes. */
  lemma GroupDone(bytes: seq<nat>, i: nat, j: nat, vs: seq<nat>, ws: seq<nat>, zeros: seq<bool>)
    requires i <= j <= |bytes| && Flat(vs, 6) == Flat(bytes[..i], 8) && Flat(ws, 6) == Flat(bytes[i..j], 8) + zeros
    ensures Flat(vs + ws, 6) == Flat(bytes[..j], 8) + zeros
  {
    hide Flat;
    FlatAppend(vs, ws, 6);
    FlatAppend(bytes[..i], bytes[i..j], 8);
    assert bytes[..i] + bytes[i..j] == bytes[..j];
    assert Flat(bytes[..i], 8) + (Flat(bytes[i..j], 8) + zeros) == Flat(bytes[..i], 8) + Flat(bytes[i..j], 8) + zeros;
  }

  /** Symbols of a group appended to those written before it. */
  lemma SymbolsOfGroup(alphabet: Alphabet, vs: seq<nat>, ws: seq<nat>, text: string)
    requires Below(vs, 64) && Below(ws, 64) && |text| == |ws|
    requires forall i | 0 <= i < |ws| :: ws[i] < 64 && text[i] == Symbol(alphabet, ws[i])
    ensures Below(vs + ws, 64) && Symbols(alphabet, vs + ws) == Symbols(alphabet, vs) + text
  {
    hide Symbol;
    SymbolsAppend(alphabet, vs, ws);
    assert Symbols(alphabet, ws) == text;
  }

  /** The last group, of one or two bytes, and its padding. */
  lemma LastGroup(alphabet: Alphabet, bytes: seq<nat>, i: nat, vs: seq<nat>, ws: seq<nat>, text: string,
                  zeros: seq<bool>)
    requires i < |bytes| && Below(vs, 64) && Below(ws, 64) && |text| == |ws|
    requires forall i | 0 <= i < |ws| :: ws[i] < 64 && text[i] == Symbol(alphabet, ws[i])
    requires Flat(vs, 6) == Flat(bytes[..i], 8) && Flat(ws, 6) == Flat(bytes[i..], 8) + zeros
    requires zeros == Zeros(2 * PadCount(|bytes|))
    ensures Encoded(alphabet, bytes) == Symbols(alphabet, vs) + (text + Pads(PadCount(|bytes|)))
  {
    hide Symbol, Symbols, Encoded, Flat, Zeros, Pads, PadCount;
    assert bytes[i..|bytes|] == bytes[i..] && bytes[..|bytes|] == bytes;
    GroupDone(bytes, i, |bytes|, vs, ws, zeros);
    SymbolsOfGroup(alphabet, vs, ws, text);
    EncodedIs(alphabet, bytes, vs + ws);
    var a, b, c := Symbols(alphabet, vs), text, Pads(PadCount(|bytes|));
    assert a + b + c == a + (b + c);
  }

  /** Encoding when nothing is left over. */
  lemma NoLastGroup(alphabet: Alphabet, bytes: seq<nat>, vs: seq<nat>)
    requires |bytes| % 3 == 0 && Below(vs, 64) && Flat(vs, 6) == Flat(bytes, 8)
    ensures Encoded(alphabet, bytes) == Symbols(alphabet, vs)
  {
    hide Symbols, Encoded, Flat;
    assert Zeros(0) == [] && Pads(0) == "";
    assert Flat(bytes, 8) + [] == Flat(bytes, 8) && Symbols(alphabet, vs) + "" == Symbols(alphabet, vs);
    EncodedIs(alphabet, bytes, vs);
  }

  method Encode(bytes: seq<Byte>, alphabet: Alphabet) returns (out: string)
    ensures out == Encoded(alphabet, bytes)
  {
    hide Flat, Encoded, Table, Chunks, Symbols, Zeros, Below;
    var alpha := Table(alphabet);
    TableLength(alphabet);
    out := "";
    var i := 0;
    ghost var vs: seq<nat>, finished := [], false;
    NothingYet(alphabet, bytes);
    BytesBelow(bytes);
    while i != |bytes|
      invariant i <= |bytes| && !finished && i % 3 == 0
      invariant Below(vs, 64) && out == Symbols(alphabet, vs)
      invariant Flat(vs, 6) == Flat(bytes[..i], 8)
      decreases |bytes| - i
    {
      ghost var from := i;
      var i0 := bytes[i];
      i := i + 1;
      out := out + [alpha[i0 / 4]];
      if i == |bytes| {
        out := out + [alpha[i0 % 4 * 16]] + [PAD] + [PAD];
        finished := true;
        EncodeOne(alphabet, bytes, vs);
        break;
      }
      var i1 := bytes[i];
      i := i + 1;
      out := out + [alpha[i0 % 4 * 16 + i1 / 16]];
      if i == |bytes| {
        out := out + [alpha[i1 % 16 * 4]] + [PAD];
        finished := true;
        EncodeTwo(alphabet, bytes, vs);
        break;
      }
      var i2 := bytes[i];
      i := i + 1;
      out := out + [alpha[i1 % 16 * 4 + i2 / 64]] + [alpha[i2 % 64]];
      vs := EncodeThree(alphabet, bytes, from, vs);
    }
    if !finished {
      assert bytes[..i] == bytes;
      NoLastGroup(alphabet, bytes, vs);
    }
  }

  lemma BytesBelow(bytes: seq<Byte>)
    ensures Below(bytes, 256)
  {
  }

  lemma NothingYet(alphabet: Alphabet, bytes: seq<nat>)
    ensures Symbols(alphabet, []) == "" && Flat([], 6) == Flat(bytes[..0], 8) && Below([], 64)
  {
  }

  lemma EncodeOne(alphabet: Alphabet, bytes: seq<nat>, vs: seq<nat>)
    requires |bytes| % 3 == 1 && Below(bytes, 256) && Below(vs, 64) && Flat(vs, 6) == Flat(bytes[..|bytes| - 1], 8)
    ensures var i0 := bytes[|bytes| - 1];
      i0 < 256 && Encoded(alphabet, bytes) ==
        Symbols(alphabet, vs) + [Symbol(alphabet, i0 / 4)] + [Symbol(alphabet, i0 % 4 * 16)] + [PAD] + [PAD]
  {
    hide Flat, Encoded, Symbol, Symbols;
    var i := |bytes| - 1;
    var i0 := bytes[i];
    assert i0 in bytes;
    var ws, text := [i0 / 4, i0 % 4 * 16], [Symbol(alphabet, i0 / 4), Symbol(alphabet, i0 % 4 * 16)];
    assert bytes[i..] == [i0] && Pads(2) == [PAD, PAD];
    OneByte(i0);
    LastGroup(alphabet, bytes, i, vs, ws, text, Zeros(4));
  }

  lemma EncodeTwo(alphabet: Alphabet, bytes: seq<nat>, vs: seq<nat>)
    requires |bytes| % 3 == 2 && Below(bytes, 256) && Below(vs, 64) && Flat(vs, 6) == Flat(bytes[..|bytes| - 2], 8)
    ensures var i0, i1 := bytes[|bytes| - 2], bytes[|bytes| - 1];
      i0 < 256 && i1 < 256 && Encoded(alphabet, bytes) ==
        Symbols(alphabet, vs) + [Symbol(alphabet, i0 / 4)] + [Symbol(alphabet, i0 % 4 * 16 + i1 / 16)]
        + [Symbol(alphabet, i1 % 16 * 4)] + [PAD]
  {
    hide Flat, Encoded, Symbol, Symbols;
    var i := |bytes| - 2;
    var i0, i1 := bytes[i], bytes[i + 1];
    assert i0 in bytes && i1 in bytes;
    var ws := [i0 / 4, i0 % 4 * 16 + i1 / 16, i1 % 16 * 4];
    var text := [Symbol(alphabet, ws[0]), Symbol(alphabet, ws[1]), Symbol(alphabet, ws[2])];
    assert bytes[i..] == [i0, i1] && Pads(1) == [PAD];
    TwoBytes(i0, i1);
    LastGroup(alphabet, bytes, i, vs, ws, text, Zeros(2));
  }

  lemma EncodeThree(alphabet: Alphabet, bytes: seq<nat>, i: nat, vs: seq<nat>) returns (us: seq<nat>)
    requires i + 3 <= |bytes| && Below(bytes, 256) && Below(vs, 64) && Flat(vs, 6) == Flat(bytes[..i], 8)
    ensures Below(us, 64) && Flat(us, 6) == Flat(bytes[..i + 3], 8)
    ensures var i0, i1, i2 := bytes[i], bytes[i + 1], bytes[i + 2];
      i0 < 256 && i1 < 256 && i2 < 256 && Symbols(alphabet, us) ==
        Symbols(alphabet, vs) + [Symbol(alphabet, i0 / 4)] + [Symbol(alphabet, i0 % 4 * 16 + i1 / 16)]
        + [Symbol(alphabet, i1 % 16 * 4 + i2 / 64)] + [Symbol(alphabet, i2 % 64)]
  {
    hide Flat, Encoded, Symbol, Symbols;
    var i0, i1, i2 := bytes[i], bytes[i + 1], bytes[i + 2];
    assert i0 in bytes && i1 in bytes && i2 in bytes;
    var ws := [i0 / 4, i0 % 4 * 16 + i1 / 16, i1 % 16 * 4 + i2 / 64, i2 % 64];
    var text := [Symbol(alphabet, ws[0]), Symbol(alphabet, ws[1]), Symbol(alphabet, ws[2]), Symbol(alphabet, ws[3])];
    us := vs + ws;
    assert bytes[i..i + 3] == [i0, i1, i2];
    ThreeBytes(i0, i1, i2);
    assert Flat([i0, i1, i2], 8) + [] == Flat([i0, i1, i2], 8) &&
        Flat(bytes[..i + 3], 8) + [] == Flat(bytes[..i + 3], 8);
    GroupDone(bytes, i, i + 3, vs, ws, []);
    SymbolsOfGroup(alphabet, vs, ws, text);
  }

  // ---- decoding ----

  lemma PendingStep(low: nat, b: nat, part: nat)
    requires b in {2, 4, 6} && low < Pow2(b) && part < 64
    ensures Pow2(b - 2) > 0 && part / Pow2(b - 2) < Pow2(8 - b) && part % Pow2(b - 2) < Pow2(b - 2)
    ensures low * Pow2(8 - b) + part / Pow2(b - 2) < 256
    ensures BitsOf(low, b) + BitsOf(part, 6) ==
            BitsOf(low * Pow2(8 - b) + part / Pow2(b - 2), 8) + BitsOf(part % Pow2(b - 2), b - 2)
  {
    SmallPowers();
    hide Pow2, BitsOf;
    var p := Pow2(b - 2);
    var hi, lo := part / p, part % p;
    assert part == hi * p + lo;
    BitsSplit(hi, 8 - b, lo, b - 2);
    BitsSplit(low, b, hi, 8 - b);
    assert BitsOf(low, b) + (BitsOf(hi, 8 - b) + BitsOf(lo, b - 2)) ==
        BitsOf(low, b) + BitsOf(hi, 8 - b) + BitsOf(lo, b - 2);
  }

  /** The bits not yet part of a byte: the lowest b of the last value. */
  function Pending(last: nat, b: nat): seq<bool> { BitsOf(last % Pow2(b), b) }

  /** The byte the next value completes when b bits are pending; what does not fit is cut off. */
  function NextByte(last: nat, b: nat, part: nat): nat
    requires b in {2, 4, 6}
  {
    last * Pow2(8 - b) % 256 + part / Pow2(b - 2)
  }

  lemma CutOff(last: nat, b: nat)
    requires b in {2, 4, 6} && last < 64
    ensures last * Pow2(8 - b) % 256 == last % Pow2(b) * Pow2(8 - b)
  {
    SmallPowers();
    if b == 2 {
      CutOffBy(last, 4, 64);
    } else if b == 4 {
      CutOffBy(last, 16, 16);
    } else {
      CutOffBy(last, 64, 4);
    }
  }

  /** Of x times q, what exceeds p times q is what x exceeds p by, times q. */
  lemma CutOffBy(x: nat, p: nat, q: nat)
    requires (p, q) in {(4, 64), (16, 16), (64, 4)}
    ensures x * q % 256 == x % p * q
  {
    if q == 64 {
      ModSmall(x / 4, x % 4 * 64);
    } else if q == 16 {
      ModSmall(x / 16, x % 16 * 16);
    } else {
      ModSmall(x / 64, x % 64 * 4);
    }
  }

  lemma ModSmall(h: nat, r: nat)
    requires r < 256
    ensures (h * 256 + r) % 256 == r
  {
  }

  /** The first value of a group completes no byte. */
  lemma DecodeFirst(vs: seq<nat>, out: seq<nat>, last: nat, part: nat)
    requires part < 64 && Flat(vs, 6) == Flat(out, 8) + Pending(last, 0)
    ensures Flat(vs + [part], 6) == Flat(out, 8) + Pending(part, 6)
  {
    SmallPowers();
    hide Flat, BitsOf, Pow2;
    FlatAppend(vs, [part], 6);
    FlatOne(part, 6);
    assert Pending(last, 0) == [] && Flat(out, 8) + [] == Flat(out, 8);
  }

  /** Every other value completes one. */
  lemma DecodeNext(vs: seq<nat>, out: seq<nat>, last: nat, b: nat, part: nat)
    requires b in {2, 4, 6} && last < 64 && part < 64 && Flat(vs, 6) == Flat(out, 8) + Pending(last, b)
    ensures NextByte(last, b, part) < 256
    ensures Flat(vs + [part], 6) == Flat(out + [NextByte(last, b, part)], 8) + Pending(part, b - 2)
  {
    SmallPowers();
    hide Flat, BitsOf, Pow2;
    var x, f := NextByte(last, b, part), Flat(out, 8);
    CutOff(last, b);
    PendingStep(last % Pow2(b), b, part);
    FlatAppend(vs, [part], 6);
    FlatAppend(out, [x], 8);
    FlatOne(part, 6);
    FlatOne(x, 8);
    Regroup(f, Pending(last, b), BitsOf(part, 6), BitsOf(x, 8), Pending(part, b - 2));
  }

  lemma Regroup(f: seq<bool>, a: seq<bool>, b: seq<bool>, c: seq<bool>, d: seq<bool>)
    requires a + b == c + d
    ensures f + a + b == f + c + d
  {
    assert f + a + b == f + (a + b) && f + c + d == f + (c + d);
  }

  /** One more value: the bits read so far are the bytes written and the bits pending. */
  lemma DecodeStep(vs: seq<nat>, out: seq<nat>, last: nat, b: nat, part: nat)
    requires b in {0, 2, 4, 6} && last < 64 && part < 64
    requires Flat(vs, 6) == Flat(out, 8) + Pending(last, b)
    ensures b == 0 ==> Flat(vs + [part], 6) == Flat(out, 8) + Pending(part, 6)
    ensures b != 0 ==> NextByte(last, b, part) < 256
    ensures b != 0 ==> Flat(vs + [part], 6) == Flat(out + [NextByte(last, b, part)], 8) + Pending(part, b - 2)
  {
    hide Flat, Pending, NextByte;
    if b == 0 {
      DecodeFirst(vs, out, last, part);
    } else {
      DecodeNext(vs, out, last, b, part);
    }
  }

  lemma DecodeDone(vs: seq<nat>, out: seq<nat>, last: nat, b: nat)
    requires b < 8 && Below(out, 256) && Flat(vs, 6) == Flat(out, 8) + Pending(last, b)
    ensures Octets(vs) == out
  {
    SmallPowers();
    hide Flat, Pow2, Chunks;
    ChunksOfFlat(out, 8, Pending(last, b));
  }

  lemma BodyLenAt(text: string, k: nat)
    requires k <= |text| && PAD !in text[..k] && (k < |text| ==> text[k] == PAD)
    ensures BodyLen(text) == k
  {
    hide BodyLen;
  }

  /** The state of the decoder after i characters: text[..i] has values vs and leaves alphabet a. */
  predicate Read(a0: Alphabet, text: string, i: nat, vs: seq<nat>, a: Alphabet) {
    i <= |text| && PAD !in text[..i] && Values(a0, text[..i]) == Some((vs, a))
  }

  lemma {:induction false} ValuesAppend(a: Alphabet, s: string, t: string)
    ensures Values(a, s + t) ==
            if Values(a, s).None? then None else Prepend(Values(a, s).value.0, Values(Values(a, s).value.1, t))
    decreases |s|
  {
    hide Value;
    if s == "" {
      assert s + t == t;
      assert Values(a, t).Some? ==> [] + Values(a, t).value.0 == Values(a, t).value.0;
    } else {
      assert (s + t)[0] == s[0] && (s + t)[1..] == s[1..] + t;
      var r := Value(a, s[0]);
      if r.Some? {
        ValuesAppend(r.value.1, s[1..], t);
        var x, y := Values(r.value.1, s[1..]), Values(r.value.1, s[1..] + t);
        if x.Some? && y.Some? {
          var z := Values(x.value.1, t).value.0;
          assert [r.value.0] + (x.value.0 + z) == [r.value.0] + x.value.0 + z;
        }
      }
    }
  }

  lemma ValuesOne(a: Alphabet, c: char)
    ensures Values(a, [c]) == if Value(a, c).None? then None else Some(([Value(a, c).value.0], Value(a, c).value.1))
  {
    hide Value;
    assert [c][1..] == "";
    if Value(a, c).Some? {
      var v := Value(a, c).value;
      assert Values(v.1, "") == Some(([], v.1)) && [v.0] + [] == [v.0];
    }
  }

  /** Reading the next character. */
  lemma ReadStep(a0: Alphabet, text: string, i: nat, vs: seq<nat>, a: Alphabet)
    requires Read(a0, text, i, vs, a) && i < |text| && text[i] != PAD
    ensures var r := Value(a, text[i]);
      if r.None? then forall behavior :: Decoded(a0, behavior, text) == None
      else Read(a0, text, i + 1, vs + [r.value.0], r.value.1)
  {
    hide Values, Octets, Value;
    assert text[..i + 1] == text[..i] + [text[i]];
    ValuesAppend(a0, text[..i], [text[i]]);
    ValuesOne(a, text[i]);
    if Value(a, text[i]).None? {
      var k := BodyLen(text);
      assert k > i;
      assert text[..k] == text[..i + 1] + text[i + 1..k];
      ValuesAppend(a0, text[..i + 1], text[i + 1..k]);
    }
  }

  /** The body ends after i characters. */
  lemma ReadDone(a0: Alphabet, text: string, i: nat, vs: seq<nat>, a: Alphabet, behavior: Behavior)
    requires Read(a0, text, i, vs, a) && (i < |text| ==> text[i] == PAD)
    ensures Decoded(a0, behavior, text) ==
            if behavior != Loose && exists j | i <= j < |text| :: text[j] != PAD then None else Some(Octets(vs))
  {
    hide Values, Octets;
    BodyLenAt(text, i);
  }

  method Base64Value(alphabet: Alphabet, c: char) returns (r: Option<nat>, detected: Alphabet)
    ensures Value(alphabet, c) == if r.None? then None else Some((r.value, detected))
  {
    detected := alphabet;
    if 'A' <= c <= 'Z' {
      return Some(c as int - 'A' as int), detected;
    } else if 'a' <= c <= 'z' {
      return Some(c as int - 'a' as int + 26), detected;
    } else if '0' <= c <= '9' {
      return Some(c as int - '0' as int + 52), detected;
    }
    if alphabet == Standard {
      if c == '+' {
        return Some(62), detected;
      } else if c == '/' {
        return Some(63), detected;
      }
    } else if alphabet == UrlFilenameSafe {
      if c == '-' {
        return Some(62), detected;
      } else if c == '_' {
        return Some(63), detected;
      }
    } else {
      if c == '+' {
        return Some(62), Standard;
      } else if c == '/' {
        return Some(63), Standard;
      } else if c == '-' {
        return Some(62), UrlFilenameSafe;
      } else if c == '_' {
        return Some(63), UrlFilenameSafe;
      }
    }
    return None, detected;
  }

  lemma DecodeStart(a: Alphabet, text: string)
    ensures Read(a, text, 0, [], a) && Flat([], 6) == Flat([], 8) + Pending(0, 0)
  {
  }

  method Decode(text: string, alphabet: Alphabet, behavior: Behavior) returns (result: Option<seq<nat>>)
    ensures result == Decoded(alphabet, behavior, text)
  {
    hide Flat, Decoded, Value, Values, Pending, Read, Octets, Pow2;
    var out: seq<nat>, last: nat, bits: nat, detected := [], 0, 0, alphabet;
    var i := 0;
    ghost var vs: seq<nat>, body := [], 0;
    DecodeStart(alphabet, text);
    while i != |text|
      invariant i <= |text| && body == i
      invariant Read(alphabet, text, i, vs, detected)
      invariant last < 64 && bits in {0, 2, 4, 6} && Below(out, 256)
      invariant Flat(vs, 6) == Flat(out, 8) + Pending(last, bits)
      decreases |text| - i
    {
      var c := text[i];
      i := i + 1;
      if c == PAD {
        break;
      }
      ReadStep(alphabet, text, body, vs, detected);
      var value;
      value, detected := Base64Value(detected, c);
      if value.None? {
        return None;
      }
      var part := value.value;
      DecodeStep(vs, out, last, bits, part);
      if bits + 6 >= 8 {
        out := out + [last * Pow2(8 - bits) % 256 + part / Pow2(bits - 2)];
        bits := bits - 2;
      } else {
        bits := bits + 6;
      }
      last := part;
      vs, body := vs + [part], i;
    }
    DecodeDone(vs, out, last, bits);
    ReadDone(alphabet, text, body, vs, detected, behavior);
    if behavior != Loose {
      while i != |text|
        invariant body <= i <= |text|
        invariant forall j | body <= j < i :: text[j] == PAD
        decreases |text| - i
      {
        var c := text[i];
        i := i + 1;
        if c != PAD {
          return None;
        }
      }
    }
    return Some(out);
  }

  /** Bytes as the characters that hold them in a text buffer. */
  function Chars(bytes: seq<nat>): (s: string)
    requires Below(bytes, 256)
    ensures |s| == |bytes|
  {
    seq(|bytes|, i requires 0 <= i < |bytes| => assert bytes[i] in bytes; bytes[i] as char)
  }

  /** Decoding in one buffer: the bytes come out the same, because a byte is only written
      over characters already read, and nothing beyond the last byte changes. */
  method DecodeInPlace(a: array<char>, alphabet: Alphabet, behavior: Behavior) returns (length: Option<nat>)
    modifies a
    ensures var d := Decoded(alphabet, behavior, old(a[..]));
      && (d.None? ==> length == None)
      && (d.Some? ==> length == Some(|d.value|) && |d.value| <= a.Length && Below(d.value, 256)
                      && a[..|d.value|] == Chars(d.value) && a[|d.value|..] == old(a[..])[|d.value|..])
  {
    hide Flat, Decoded, Value, Values, Pending, Read, Octets, Pow2, Chars, Table, BodyLen;
    ghost var text := a[..];
    var n: nat, last: nat, bits: nat, detected := 0, 0, 0, alphabet;
    var i := 0;
    ghost var vs: seq<nat>, out: seq<nat>, body := [], [], 0;
    DecodeStart(alphabet, text);
    while i != a.Length
      invariant i <= a.Length && body == i && n == |out|
      invariant 8 * n + bits == 6 * i
      invariant forall j | n <= j < a.Length :: a[j] == text[j]
      invariant Read(alphabet, text, i, vs, detected)
      invariant last < 64 && bits in {0, 2, 4, 6} && Below(out, 256)
      invariant forall j | 0 <= j < n :: a[j] == Chars(out)[j]
      invariant Flat(vs, 6) == Flat(out, 8) + Pending(last, bits)
      decreases a.Length - i
    {
      var c := a[i];
      i := i + 1;
      if c == PAD {
        break;
      }
      ReadStep(alphabet, text, body, vs, detected);
      var value;
      value, detected := Base64Value(detected, c);
      if value.None? {
        return None;
      }
      var part := value.value;
      DecodeStep(vs, out, last, bits, part);
      if bits + 6 >= 8 {
        ghost var x := last * Pow2(8 - bits) % 256 + part / Pow2(bits - 2);
        a[n] := (last * Pow2(8 - bits) % 256 + part / Pow2(bits - 2)) as char;
        CharsSnoc(out, x);
        out := out + [x];
        n := n + 1;
        bits := bits - 2;
      } else {
        bits := bits + 6;
      }
      last := part;
      vs, body := vs + [part], i;
    }
    DecodeDone(vs, out, last, bits);
    ReadDone(alphabet, text, body, vs, detected, behavior);
    if behavior != Loose {
      while i != a.Length
        invariant body <= i <= a.Length
        invariant forall j | body <= j < i :: text[j] == PAD
        decreases a.Length - i
      {
        var c := a[i];
        i := i + 1;
        if c != PAD {
          return None;
        }
      }
    }
    return Some(n);
  }

  lemma CharsSnoc(bytes: seq<nat>, x: nat)
    requires Below(bytes, 256) && x < 256
    ensures Below(bytes + [x], 256) && Chars(bytes + [x]) == Chars(bytes) + [x as char]
  {
  }
}
