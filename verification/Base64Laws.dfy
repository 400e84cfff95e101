/** Laws of the base 64 encoding: what it says about the bits of its input, and when encoding
    commutes with concatenation. */
module Base64Laws {
  import opened Rfc4648

  //// The encoding as a stream of bits

  // Bit k of a byte and of a sextet, most significant first.
  predicate Bit8(b: bv8, k: nat)
    requires k < 8
  {
    if k == 0 then b & 0x80 != 0 else if k == 1 then b & 0x40 != 0
    else if k == 2 then b & 0x20 != 0 else if k == 3 then b & 0x10 != 0
    else if k == 4 then b & 0x8 != 0 else if k == 5 then b & 0x4 != 0
    else if k == 6 then b & 0x2 != 0 else b & 0x1 != 0
  }

  predicate Bit6(x: bv6, k: nat)
    requires k < 6
  {
    if k == 0 then x & 0x20 != 0 else if k == 1 then x & 0x10 != 0
    else if k == 2 then x & 0x8 != 0 else if k == 3 then x & 0x4 != 0
    else if k == 4 then x & 0x2 != 0 else x & 0x1 != 0
  }

  // Bit i of the stream that a sequence spells; beyond the last byte the stream is zero.
  predicate ByteBit(bytes: seq<bv8>, i: nat) {
    i < 8 * |bytes| && Bit8(bytes[i / 8], i % 8)
  }

  predicate SextetBit(x: seq<bv6>, i: nat)
    requires i < 6 * |x|
  {
    Bit6(x[i / 6], i % 6)
  }

  predicate SpellsBits(x: seq<bv6>, bytes: seq<bv8>) {
    forall i: nat :: i < 6 * |x| ==> SextetBit(x, i) == ByteBit(bytes, i)
  }

  // What section 4 of RFC 4648 asks of a text, said without saying how to compute it.
  predicate IsBase64Of(text: string, bytes: seq<bv8>) {
    var p := PadCount(|bytes|);
    && |text| == 4 * ((|bytes| + 2) / 3)
    && p <= |text|
    && text[|text| - p..] == Pads(p)
    && (forall i :: 0 <= i < |text| - p ==> InAlphabet(text[i]))
    && SpellsBits(Values(text[..|text| - p]), bytes)
  }

  lemma QuadBits(a: bv8, b: bv8, c: bv8, i: nat)
    requires i < 24
    ensures var q := Quad(a, b, c);
            Bit6(if i < 6 then q.0 else if i < 12 then q.1 else if i < 18 then q.2 else q.3, i % 6)
            == Bit8(if i < 8 then a else if i < 16 then b else c, i % 8)
  {
    match i
    case 0 => case 1 => case 2 => case 3 => case 4 => case 5 =>
    case 6 => case 7 => case 8 => case 9 => case 10 => case 11 =>
    case 12 => case 13 => case 14 => case 15 => case 16 => case 17 =>
    case 18 => case 19 => case 20 => case 21 => case 22 => case 23 =>
  }

  lemma ZeroByte(k: nat)
    requires k < 8
    ensures !Bit8(0, k)
  {}

  // The sextets spell the bits of the bytes, in order, followed only by zero bits.
  lemma {:induction false} SextetsSpellBits(bytes: seq<bv8>, i: nat)
    requires i < 6 * |Sextets(bytes)|
    ensures SextetBit(Sextets(bytes), i) == ByteBit(bytes, i)
  {
    hide Bit6, Bit8, Quad;
    if |bytes| > 2 && i >= 24 {
      SextetsSpellBits(bytes[3..], i - 24);
      assert i / 6 == (i - 24) / 6 + 4 && i / 8 == (i - 24) / 8 + 3;
    } else {
      var b: bv8 := if |bytes| == 1 then 0 else bytes[1];
      var c: bv8 := if |bytes| <= 2 then 0 else bytes[2];
      QuadBits(bytes[0], b, c, i);
      ZeroByte(i % 8);
    }
  }

  lemma SextetFromBits(x: bv6, y: bv6)
    requires forall k :: 0 <= k < 6 ==> Bit6(x, k) == Bit6(y, k)
    ensures x == y
  {
    assert Bit6(x, 0) == Bit6(y, 0) && Bit6(x, 1) == Bit6(y, 1) && Bit6(x, 2) == Bit6(y, 2);
    assert Bit6(x, 3) == Bit6(y, 3) && Bit6(x, 4) == Bit6(y, 4) && Bit6(x, 5) == Bit6(y, 5);
  }

  lemma SpellingIsUnique(x: seq<bv6>, y: seq<bv6>, bytes: seq<bv8>)
    requires |x| == |y| && SpellsBits(x, bytes) && SpellsBits(y, bytes)
    ensures x == y
  {
    forall j | 0 <= j < |x| ensures x[j] == y[j] {
      forall k | 0 <= k < 6 ensures Bit6(x[j], k) == Bit6(y[j], k) {
        var i := 6 * j + k;
        assert i / 6 == j && i % 6 == k;
        assert SextetBit(x, i) == SextetBit(y, i);
      }
      SextetFromBits(x[j], y[j]);
    }
  }

  // The encoding is the one text that the RFC allows.
  lemma EncodeIsTheBase64(text: string, bytes: seq<bv8>)
    ensures IsBase64Of(text, bytes) <==> text == Encode(bytes)
  {
    hide Sextets, SextetBit, ByteBit;
    var p, x := PadCount(|bytes|), Sextets(bytes);
    forall i: nat | i < 6 * |x| ensures SextetBit(x, i) == ByteBit(bytes, i) { SextetsSpellBits(bytes, i); }
    ValuesOfSymbols(x);
    assert Encode(bytes)[..|Encode(bytes)| - p] == Symbols(x);
    if IsBase64Of(text, bytes) {
      var body := text[..|text| - p];
      SpellingIsUnique(Values(body), x, bytes);
      SymbolsOfValues(body);
      assert text == body + text[|text| - p..];
    }
  }

  //// Concatenation

  lemma PadsAtEnd(bytes: seq<bv8>, k: nat)
    requires k < |Encode(bytes)|
    ensures Encode(bytes)[k] == PAD <==> k >= |Encode(bytes)| - PadCount(|bytes|)
  {
    hide Sextets;
  }

  lemma EncodeWholeGroups(a: seq<bv8>, b: seq<bv8>)
    requires |a| % 3 == 0
    ensures Encode(a + b) == Encode(a) + Encode(b)
  {
    hide Sextets;
    SextetsOfConcat(a, b);
    assert Symbols(Sextets(a + b)) == Symbols(Sextets(a)) + Symbols(Sextets(b));
  }

  // Encoding commutes with concatenation exactly when the split falls between 24-bit groups.
  lemma EncodeOfConcat(a: seq<bv8>, b: seq<bv8>)
    ensures Encode(a + b) == Encode(a) + Encode(b) <==> |a| % 3 == 0 || b == []
  {
    hide Encode;
    if b == [] {
      assert a + b == a && Encode(b) == "";
    } else if |a| % 3 == 0 {
      EncodeWholeGroups(a, b);
    } else {
      NoPadInside(a, b, Encode(b));
    }
  }

  // Text after the padding of a partial group cannot be part of one encoding.
  lemma NoPadInside(a: seq<bv8>, b: seq<bv8>, tail: string)
    requires |a| % 3 != 0 && |tail| >= 2
    ensures Encode(a) + tail != Encode(a + b)
  {
    hide Encode;
    if Encode(a) + tail == Encode(a + b) {
      var k := |Encode(a)| - 1;
      PadsAtEnd(a, k);
      PadsAtEnd(a + b, k);
    }
  }

  function Flatten<T>(parts: seq<seq<T>>): seq<T> {
    if |parts| == 0 then [] else parts[0] + Flatten(parts[1..])
  }

  function EncodeEach(parts: seq<seq<bv8>>): string {
    if |parts| == 0 then "" else Encode(parts[0]) + EncodeEach(parts[1..])
  }

  predicate WholeGroupsButLast(parts: seq<seq<bv8>>) {
    forall i :: 0 <= i < |parts| - 1 ==> |parts[i]| % 3 == 0
  }

  // Encoding piece by piece gives the one-shot encoding exactly when every piece but the last is
  // made of whole 24-bit groups.
  lemma {:induction false} ChunkedEncoding(parts: seq<seq<bv8>>)
    requires forall i :: 0 <= i < |parts| ==> parts[i] != []
    ensures EncodeEach(parts) == Encode(Flatten(parts)) <==> WholeGroupsButLast(parts)
  {
    hide Encode;
    if |parts| == 0 {
      EncodeOfConcat([], []);
    } else if |parts| == 1 {
      assert parts[0] + [] == parts[0];
      assert Encode(parts[0]) + "" == Encode(parts[0]);
    } else {
      var a, rest := parts[0], parts[1..];
      assert Flatten(parts) == a + Flatten(rest) && EncodeEach(parts) == Encode(a) + EncodeEach(rest);
      assert Flatten(rest) != [] && |EncodeEach(rest)| >= 4 by {
        assert Flatten(rest) == rest[0] + Flatten(rest[1..]);
        assert EncodeEach(rest) == Encode(rest[0]) + EncodeEach(rest[1..]);
      }
      ChunkedEncoding(rest);
      EncodeOfConcat(a, Flatten(rest));
      assert WholeGroupsButLast(parts) <==> |a| % 3 == 0 && WholeGroupsButLast(rest) by {
        assert forall i :: 0 <= i < |rest| ==> rest[i] == parts[i + 1];
        if |a| % 3 == 0 && WholeGroupsButLast(rest) {
          forall i | 0 <= i < |parts| - 1 ensures |parts[i]| % 3 == 0 {
            if i > 0 { assert parts[i] == rest[i - 1]; }
          }
        }
      }
      if |a| % 3 != 0 {
        NoPadInside(a, Flatten(rest), EncodeEach(rest));
      } else if EncodeEach(parts) == Encode(Flatten(parts)) {
        assert EncodeEach(rest) == EncodeEach(parts)[|Encode(a)|..];
        assert Encode(Flatten(rest)) == Encode(Flatten(parts))[|Encode(a)|..];
      }
    }
  }
}
