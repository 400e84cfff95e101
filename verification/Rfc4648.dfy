/** Base 64 as section 4 of RFC 4648 describes it: a reference encoding over 24-bit groups, a strict
    decoder, and the reading of both as one stream of bits. */
module Rfc4648 {
  import opened Wrappers

  const UPPER: string := "ABCDEFGHIJKLMNOPQRSTUVWXYZ"
  const LOWER: string := "abcdefghijklmnopqrstuvwxyz"
  const DIGITS: string := "0123456789"
  // Table 1 of the RFC: position k holds the symbol of the 6-bit value k.
  const ALPHABET: string := UPPER + LOWER + DIGITS + "+/"
  const PAD: char := '='

  //// Symbols and their values

  function Symbol(x: bv6): (c: char)
    ensures InAlphabet(c) && c != PAD
  {
    SymbolRows(x as int);
    ALPHABET[x as int]
  }

  predicate InAlphabet(c: char) {
    'A' <= c <= 'Z' || 'a' <= c <= 'z' || '0' <= c <= '9' || c == '+' || c == '/'
  }

  function Value(c: char): (x: bv6)
    requires InAlphabet(c)
  {
    if 'A' <= c <= 'Z' then (c as int - 65) as bv6
    else if 'a' <= c <= 'z' then (c as int - 71) as bv6
    else if '0' <= c <= '9' then (c as int + 4) as bv6
    else if c == '+' then 62
    else 63
  }

  lemma UpperRow(i: nat)
    requires i < 26
    ensures UPPER[i] as int == 65 + i
  {}

  lemma LowerRow(i: nat)
    requires i < 26
    ensures LOWER[i] as int == 97 + i
  {}

  lemma DigitRow(i: nat)
    requires i < 10
    ensures DIGITS[i] as int == 48 + i
  {}

  lemma SymbolRows(i: nat)
    requires i < 64
    ensures ALPHABET[i] as int == (if i < 26 then 65 + i else if i < 52 then 71 + i else if i < 62 then i - 4
                                   else if i == 62 then 43 else 47)
  {
    if i < 26 { UpperRow(i); } else if i < 52 { LowerRow(i - 26); } else if i < 62 { DigitRow(i - 52); }
  }

  lemma ValueOfSymbol(x: bv6)
    ensures Value(Symbol(x)) == x
  {
    SymbolRows(x as int);
  }

  lemma SymbolOfValue(c: char)
    requires InAlphabet(c)
    ensures Symbol(Value(c)) == c
  {
    var code := c as int;
    var x := if code >= 97 then code - 71 else if code >= 65 then code - 65 else if code >= 48 then code + 4
             else if code == 43 then 62 else 63;
    assert 0 <= x < 64 && Value(c) as int == x by { SextetRange(x); }
    SymbolRows(x);
  }

  lemma SextetRange(x: nat)
    requires x < 64
    ensures (x as bv6) as int == x
  {}

  //// Bytes and sextets

  // The four 6-bit groups of a 24-bit group.
  function Quad(a: bv8, b: bv8, c: bv8): (s: (bv6, bv6, bv6, bv6))
  {
    ((a >> 2) as bv6,
     (((a & 0x3) << 4) | (b >> 4)) as bv6,
     (((b & 0xF) << 2) | (c >> 6)) as bv6,
     (c & 0x3F) as bv6)
  }

  // The three bytes of four 6-bit groups.
  function Triple(s: bv6, t: bv6, u: bv6, v: bv6): (b: (bv8, bv8, bv8))
  {
    (((s as bv8) << 2) | ((t as bv8) >> 4),
     ((t as bv8) << 4) | ((u as bv8) >> 2),
     ((u as bv8) << 6) | (v as bv8))
  }

  // The 6-bit groups of a byte sequence; a final partial group is filled up with zero bits.
  function Sextets(bytes: seq<bv8>): (x: seq<bv6>)
    ensures 4 * |bytes| <= 3 * |x| <= 4 * |bytes| + 2
  {
    if |bytes| == 0 then []
    else if |bytes| == 1 then var q := Quad(bytes[0], 0, 0); [q.0, q.1]
    else if |bytes| == 2 then var q := Quad(bytes[0], bytes[1], 0); [q.0, q.1, q.2]
    else var q := Quad(bytes[0], bytes[1], bytes[2]); [q.0, q.1, q.2, q.3] + Sextets(bytes[3..])
  }

  function Bytes(x: seq<bv6>): (bytes: seq<bv8>)
    requires |x| % 4 != 1
    ensures 4 * |bytes| <= 3 * |x| < 4 * |bytes| + 4
  {
    if |x| == 0 then []
    else if |x| == 2 then [Triple(x[0], x[1], 0, 0).0]
    else if |x| == 3 then var b := Triple(x[0], x[1], x[2], 0); [b.0, b.1]
    else var b := Triple(x[0], x[1], x[2], x[3]); [b.0, b.1, b.2] + Bytes(x[4..])
  }

  // The bits of the last sextet that belong to no byte are zero (section 3.5 of the RFC).
  predicate UnusedBitsZero(x: seq<bv6>) {
    && (|x| % 4 == 2 ==> x[|x| - 1] & 0xF == 0)
    && (|x| % 4 == 3 ==> x[|x| - 1] & 0x3 == 0)
  }

  lemma TripleOfQuad(a: bv8, b: bv8, c: bv8)
    ensures var q := Quad(a, b, c); Triple(q.0, q.1, q.2, q.3) == (a, b, c)
  {}

  lemma QuadOfTriple(s: bv6, t: bv6, u: bv6, v: bv6)
    ensures var b := Triple(s, t, u, v); Quad(b.0, b.1, b.2) == (s, t, u, v)
  {}

  lemma ShortQuad(a: bv8, b: bv8)
    ensures Quad(a, 0, 0).2 == 0 && Quad(a, 0, 0).3 == 0 && Quad(a, b, 0).3 == 0
  {}

  lemma ShortTriple(s: bv6, t: bv6, u: bv6)
    ensures t & 0xF == 0 ==> Triple(s, t, 0, 0).1 == 0 && Triple(s, t, 0, 0).2 == 0
    ensures u & 0x3 == 0 ==> Triple(s, t, u, 0).2 == 0
  {}

  lemma BytesOfGroup(s: bv6, t: bv6, u: bv6, v: bv6, rest: seq<bv6>)
    requires |rest| % 4 != 1
    ensures Bytes([s, t, u, v] + rest) == (var b := Triple(s, t, u, v); [b.0, b.1, b.2] + Bytes(rest))
  {
    assert ([s, t, u, v] + rest)[4..] == rest;
  }

  lemma {:induction false} BytesOfSextets(bytes: seq<bv8>)
    ensures Bytes(Sextets(bytes)) == bytes
  {
    hide Quad, Triple;
    if |bytes| == 0 {
    } else if |bytes| < 3 {
      TripleOfQuad(bytes[0], if |bytes| == 1 then 0 else bytes[1], 0);
      ShortQuad(bytes[0], if |bytes| == 1 then 0 else bytes[1]);
    } else {
      var q := Quad(bytes[0], bytes[1], bytes[2]);
      TripleOfQuad(bytes[0], bytes[1], bytes[2]);
      BytesOfSextets(bytes[3..]);
      BytesOfGroup(q.0, q.1, q.2, q.3, Sextets(bytes[3..]));
    }
  }

  lemma FilledUpWithZeros(a: bv8, b: bv8)
    ensures Quad(a, 0, 0).1 & 0xF == 0 && Quad(a, b, 0).2 & 0x3 == 0
  {}

  lemma {:induction false} SextetsLeaveNoBits(bytes: seq<bv8>)
    ensures UnusedBitsZero(Sextets(bytes))
  {
    hide Quad;
    if |bytes| >= 3 {
      SextetsLeaveNoBits(bytes[3..]);
      assert Sextets(bytes)[4..] == Sextets(bytes[3..]);
    } else if |bytes| > 0 {
      FilledUpWithZeros(bytes[0], if |bytes| == 1 then 0 else bytes[1]);
    }
  }

  lemma {:induction false} SextetsOfBytes(x: seq<bv6>)
    requires |x| % 4 != 1 && UnusedBitsZero(x)
    ensures Sextets(Bytes(x)) == x
  {
    hide Quad, Triple;
    if |x| == 0 {
    } else if |x| < 4 {
      QuadOfTriple(x[0], x[1], if |x| == 2 then 0 else x[2], 0);
      ShortTriple(x[0], x[1], if |x| == 2 then 0 else x[2]);
    } else {
      QuadOfTriple(x[0], x[1], x[2], x[3]);
      SextetsOfBytes(x[4..]);
      assert Bytes(x)[3..] == Bytes(x[4..]);
    }
  }

  // Whole 24-bit groups are encoded independently of what follows them.
  lemma {:induction false} SextetsOfConcat(a: seq<bv8>, b: seq<bv8>)
    requires |a| % 3 == 0
    ensures Sextets(a + b) == Sextets(a) + Sextets(b)
  {
    hide Quad;
    if |a| == 0 {
      assert a + b == b;
    } else {
      assert (a + b)[3..] == a[3..] + b;
      SextetsOfConcat(a[3..], b);
    }
  }

  //// Texts

  function Symbols(x: seq<bv6>): (text: string)
    ensures |text| == |x|
    ensures forall i :: 0 <= i < |x| ==> text[i] == Symbol(x[i])
  {
    seq(|x|, i requires 0 <= i < |x| => Symbol(x[i]))
  }

  function Values(text: string): (x: seq<bv6>)
    requires forall i :: 0 <= i < |text| ==> InAlphabet(text[i])
    ensures |x| == |text|
    ensures forall i :: 0 <= i < |x| ==> x[i] == Value(text[i])
  {
    seq(|text|, i requires 0 <= i < |text| => Value(text[i]))
  }

  function Pads(n: nat): (text: string)
    ensures |text| == n && forall i :: 0 <= i < n ==> text[i] == PAD
  {
    seq(n, i => PAD)
  }

  // Number of '=' needed after the encoding of n bytes.
  function PadCount(n: nat): (p: nat)
    ensures p <= 2
  {
    if n % 3 == 0 then 0 else 3 - n % 3
  }

  function Encode(bytes: seq<bv8>): (text: string)
    ensures |text| == 4 * ((|bytes| + 2) / 3)
  {
    Symbols(Sextets(bytes)) + Pads(PadCount(|bytes|))
  }

  function TrailingPads(text: string): (p: nat)
    ensures p <= 2 && p <= |text|
  {
    if |text| == 0 || text[|text| - 1] != PAD then 0
    else if |text| == 1 || text[|text| - 2] != PAD then 1
    else 2
  }

  // Canonical base 64 text: whole groups of four, '=' in no place but the last or the last two,
  // every other character in the alphabet, unused bits zero.
  predicate Canonical(text: string) {
    var body := text[..|text| - TrailingPads(text)];
    && |text| % 4 == 0
    && (forall i :: 0 <= i < |body| ==> InAlphabet(body[i]))
    && UnusedBitsZero(Values(body))
  }

  // The strict decoder: anything that is not canonical is refused.
  function Decode(text: string): Option<seq<bv8>>
  {
    if Canonical(text) then Some(Bytes(Values(text[..|text| - TrailingPads(text)]))) else None
  }

  lemma EncodeShape(bytes: seq<bv8>)
    ensures TrailingPads(Encode(bytes)) == PadCount(|bytes|)
    ensures var text := Encode(bytes); text[..|text| - TrailingPads(text)] == Symbols(Sextets(bytes))
  {
    hide Sextets;
    var text, x := Encode(bytes), Sextets(bytes);
    if |x| > 0 { assert text[|x| - 1] == Symbol(x[|x| - 1]); }
  }

  lemma ValuesOfSymbols(x: seq<bv6>)
    ensures Values(Symbols(x)) == x
  {
    forall i | 0 <= i < |x| ensures Values(Symbols(x))[i] == x[i] { ValueOfSymbol(x[i]); }
  }

  lemma SymbolsOfValues(text: string)
    requires forall i :: 0 <= i < |text| ==> InAlphabet(text[i])
    ensures Symbols(Values(text)) == text
  {
    forall i | 0 <= i < |text| ensures Symbols(Values(text))[i] == text[i] { SymbolOfValue(text[i]); }
  }

  // Round trip for every byte sequence.
  lemma DecodeEncode(bytes: seq<bv8>)
    ensures Decode(Encode(bytes)) == Some(bytes)
  {
    hide Sextets, Bytes, UnusedBitsZero, TrailingPads, Encode;
    EncodeShape(bytes);
    ValuesOfSymbols(Sextets(bytes));
    BytesOfSextets(bytes);
    SextetsLeaveNoBits(bytes);
  }

  lemma PadCountOfText(n: nat, p: nat)
    requires n % 4 == 0 && p <= 2 && p <= n
    ensures PadCount(3 * (n - p) / 4) == p
  {
    var m := n / 4;
    assert 3 * (n - p) / 4 == 3 * m - p by { assert n == 4 * m; }
  }

  lemma EncodeOfBody(body: string, p: nat)
    requires p <= 2 && (|body| + p) % 4 == 0
    requires forall i :: 0 <= i < |body| ==> InAlphabet(body[i])
    requires UnusedBitsZero(Values(body))
    ensures |body| % 4 != 1 && Encode(Bytes(Values(body))) == body + Pads(p)
  {
    hide Sextets, Bytes, UnusedBitsZero;
    assert |body| % 4 != 1;
    SextetsOfBytes(Values(body));
    SymbolsOfValues(body);
    PadCountOfText(|body| + p, p);
  }

  lemma SplitPads(text: string)
    ensures text == text[..|text| - TrailingPads(text)] + Pads(TrailingPads(text))
  {}

  // Round trip for every canonical text.
  lemma EncodeDecode(text: string)
    requires Canonical(text)
    ensures Encode(Decode(text).value) == text
  {
    hide Sextets, Bytes, UnusedBitsZero, TrailingPads, Encode;
    EncodeOfBody(text[..|text| - TrailingPads(text)], TrailingPads(text));
    SplitPads(text);
  }

  // The encoder is a bijection from byte sequences onto canonical texts.
  lemma EncodeIsBijection(text: string, bytes: seq<bv8>)
    ensures Decode(text) == Some(bytes) <==> text == Encode(bytes)
    ensures Canonical(text) <==> exists b :: text == Encode(b)
  {
    DecodeEncode(bytes);
    if Canonical(text) { EncodeDecode(text); }
    forall b | text == Encode(b) ensures Canonical(text) { DecodeEncode(b); }
  }
}
