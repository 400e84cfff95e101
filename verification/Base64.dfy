/** The C encoder of examples/cbindings/base64.c: a 64-bit size computation and a loop that shifts bytes
    through one machine word into a freshly allocated buffer. */
module Base64 {
  import opened Rfc4648
  import opened Base64Laws

  const WORD_SIZE: int := 0x1_0000_0000_0000_0000
  // size_t on a 64-bit platform; the operators wrap.
  type Word = x: int | 0 <= x < WORD_SIZE

  function AddWord(x: Word, y: Word): Word { (x + y) % WORD_SIZE }
  function MulWord(x: Word, y: Word): Word { (x * y) % WORD_SIZE }

  // The largest input length whose encoded size is a machine word.
  const MAX_LENGTH: int := 3 * (WORD_SIZE / 4 - 1)
  const NUL: char := '\0'

  lemma AddWordExact(x: Word, y: Word)
    requires x + y < WORD_SIZE
    ensures AddWord(x, y) == x + y
  {}

  function Groups(n: nat): (g: nat)
    ensures n <= 3 * g <= n + 2
  {
    (n + 2) / 3
  }

  // No machine word is so close to the limit that rounding it up to a multiple of 3 wraps.
  lemma RoundUpFits(n: Word)
    requires n % 3 != 0
    ensures AddWord(n, 3 - n % 3) == n + 3 - n % 3 == 3 * Groups(n)
  {
    var q := n / 3;
    assert n == 3 * q + n % 3;
    assert q <= (WORD_SIZE - 1) / 3;
  }

  method EncodedSize(inlen: Word) returns (ret: Word)
    ensures ret == 4 * Groups(inlen) % WORD_SIZE
    ensures inlen <= MAX_LENGTH ==> ret == 4 * Groups(inlen)
  {
    ret := inlen;
    if inlen % 3 != 0 {
      RoundUpFits(inlen);
      ret := AddWord(ret, 3 - inlen % 3);
    }
    assert ret == 3 * Groups(inlen);
    ret := ret / 3;
    assert ret == Groups(inlen);
    hide Groups;
    SizeBoundIsExact(inlen);
    ret := MulWord(ret, 4);
  }

  // The computed size is the true size of the encoding exactly up to MAX_LENGTH; one byte more and it is 0.
  lemma SizeBoundIsExact(n: Word)
    ensures 4 * Groups(n) % WORD_SIZE == 4 * Groups(n) <==> n <= MAX_LENGTH
    ensures n == MAX_LENGTH + 1 ==> 4 * Groups(n) % WORD_SIZE == 0
    ensures n <= MAX_LENGTH ==> 4 * Groups(n) + 1 < WORD_SIZE && 3 * Groups(n) < WORD_SIZE
  {
    assert Groups(n) <= (WORD_SIZE + 1) / 3;
  }

  // The terminator always fits into a word with the size, wrapped or not.
  lemma SizeWithTerminator(n: Word)
    ensures 4 * Groups(n) % WORD_SIZE + 1 < WORD_SIZE
  {
    assert 4 * Groups(n) % WORD_SIZE % 4 == 0;
  }

  // The word after the three shift-in steps of one round.
  function Shifted(a: bv8, b: bv8, c: bv8): bv64 {
    ((((a as bv64) << 8) | (b as bv64)) << 8) | (c as bv64)
  }

  // The six bits of symbol k of a round.
  function Cut(v: bv64, k: nat): bv6
    requires k < 4
  {
    if k == 0 then ((v >> 18) & 0x3F) as bv6
    else if k == 1 then ((v >> 12) & 0x3F) as bv6
    else if k == 2 then ((v >> 6) & 0x3F) as bv6
    else (v & 0x3F) as bv6
  }

  lemma ShiftedIsQuad(a: bv8, b: bv8, c: bv8)
    ensures var v := Shifted(a, b, c);
            Quad(a, b, c) == (Cut(v, 0), Cut(v, 1), Cut(v, 2), Cut(v, 3))
  {}

  // Shifting without or-ing a byte in fills the word with a zero byte.
  lemma ShiftSteps(a: bv8, b: bv8, c: bv8)
    ensures Shifted(a, b, c) == ((((a as bv64) << 8) | (b as bv64)) << 8) | (c as bv64)
    ensures Shifted(a, b, 0) == (((a as bv64) << 8) | (b as bv64)) << 8
    ensures Shifted(a, 0, 0) == ((a as bv64) << 8) << 8
  {}

  // The 1 to 3 bytes that the round at index i consumes.
  function Chunk(bytes: seq<bv8>, i: nat): (c: seq<bv8>)
    requires i < |bytes|
    ensures 1 <= |c| <= 3
  {
    if i + 3 <= |bytes| then bytes[i..i + 3] else bytes[i..]
  }

  // The four characters that encode a chunk, given its four sextets.
  lemma TextOfChunk(c: seq<bv8>, s: bv6, t: bv6, u: bv6, w: bv6)
    requires 1 <= |c| <= 3
    requires Quad(c[0], if |c| > 1 then c[1] else 0, if |c| > 2 then c[2] else 0) == (s, t, u, w)
    ensures Encode(c) == [Symbol(s), Symbol(t), if |c| > 1 then Symbol(u) else PAD, if |c| > 2 then Symbol(w) else PAD]
  {
    hide Quad;
    var x := if |c| == 1 then [s, t] else if |c| == 2 then [s, t, u] else [s, t, u, w];
    assert Sextets(c) == x by { assert |c| == 3 ==> Sextets(c[3..]) == []; }
    hide Sextets;
    assert Encode(c) == Symbols(x) + Pads(3 - |c|);
  }

  lemma VectorSymbols()
    ensures Symbol(25) == 'Z' && Symbol(32) == 'g' && Symbol(38) == 'm' && Symbol(60) == '8' && Symbol(61) == '9'
    ensures Symbol(47) == 'v' && Symbol(24) == 'Y' && Symbol(4) == 'E' && Symbol(5) == 'F' && Symbol(50) == 'y'
  {
    SymbolRows(25); SymbolRows(32); SymbolRows(38); SymbolRows(60); SymbolRows(61);
    SymbolRows(47); SymbolRows(24); SymbolRows(4); SymbolRows(5); SymbolRows(50);
  }

  lemma VectorQuads()
    ensures Quad(102, 0, 0) == (25, 32, 0, 0) && Quad(102, 111, 0) == (25, 38, 60, 0)
    ensures Quad(102, 111, 111) == (25, 38, 61, 47) && Quad(98, 0, 0) == (24, 32, 0, 0)
    ensures Quad(98, 97, 0) == (24, 38, 4, 0) && Quad(98, 97, 114) == (24, 38, 5, 50)
  {}

  // The test vectors of section 10 of RFC 4648, with one, two and no '='.
  lemma TestVectors()
    ensures Encode([]) == "" && Encode([102]) == "Zg==" && Encode([102, 111]) == "Zm8="
    ensures Encode([102, 111, 111]) == "Zm9v" && Encode([102, 111, 111, 98]) == "Zm9vYg=="
    ensures Encode([102, 111, 111, 98, 97]) == "Zm9vYmE=" && Encode([102, 111, 111, 98, 97, 114]) == "Zm9vYmFy"
  {
    hide Quad, Symbol, Encode;
    VectorSymbols();
    VectorQuads();
    var none: seq<bv8> := [];
    EncodeOfConcat(none, none);
    assert none + none == none;
    TextOfChunk([102], 25, 32, 0, 0);
    TextOfChunk([102, 111], 25, 38, 60, 0);
    TextOfChunk([102, 111, 111], 25, 38, 61, 47);
    TextOfChunk([98], 24, 32, 0, 0);
    TextOfChunk([98, 97], 24, 38, 4, 0);
    TextOfChunk([98, 97, 114], 24, 38, 5, 50);
    var foo: seq<bv8> := [102, 111, 111];
    EncodeOfConcat(foo, [98]);
    EncodeOfConcat(foo, [98, 97]);
    EncodeOfConcat(foo, [98, 97, 114]);
    assert foo + [98] == [102, 111, 111, 98];
    assert foo + [98, 97] == [102, 111, 111, 98, 97];
    assert foo + [98, 97, 114] == [102, 111, 111, 98, 97, 114];
  }

  // The word of the chunk at index i; bytes beyond the end count as zero.
  function GroupWord(bytes: seq<bv8>, i: nat): bv64
    requires i < |bytes|
  {
    var c := Chunk(bytes, i);
    Shifted(c[0], if |c| > 1 then c[1] else 0, if |c| > 2 then c[2] else 0)
  }

  lemma GroupWordParts(bytes: seq<bv8>, i: nat)
    requires i < |bytes|
    ensures GroupWord(bytes, i)
            == Shifted(bytes[i], if i + 1 < |bytes| then bytes[i + 1] else 0,
                       if i + 2 < |bytes| then bytes[i + 2] else 0)
  {
    hide Shifted;
    var c := Chunk(bytes, i);
    assert c[0] == bytes[i] && (|c| > 1 <==> i + 1 < |bytes|) && (|c| > 2 <==> i + 2 < |bytes|);
  }

  // The three shift-in steps of a round.
  method LoadGroup(input: array<bv8>, len: Word, i: Word) returns (v: bv64)
    requires i < len <= input.Length && i + 2 < WORD_SIZE
    ensures v == GroupWord(input[..len], i)
  {
    AddWordExact(i, 1);
    AddWordExact(i, 2);
    ghost var bytes := input[..len];
    GroupWordParts(bytes, i);
    hide GroupWord, Shifted;
    v := input[i] as bv64;
    v := if AddWord(i, 1) < len then (v << 8) | (input[AddWord(i, 1)] as bv64) else v << 8;
    v := if AddWord(i, 2) < len then (v << 8) | (input[AddWord(i, 2)] as bv64) else v << 8;
    ShiftSteps(bytes[i], if i + 1 < len then bytes[i + 1] else 0, if i + 2 < len then bytes[i + 2] else 0);
  }

  // The four characters that one round stores, '=' for a byte that is not there.
  function GroupText(v: bv64, n: nat): (text: string)
    ensures |text| == 4
  {
    [Symbol(Cut(v, 0)), Symbol(Cut(v, 1)),
     if n > 1 then Symbol(Cut(v, 2)) else PAD,
     if n > 2 then Symbol(Cut(v, 3)) else PAD]
  }

  // The four stores of a round at index j, in the order of their indices.
  method StoreGroup(v: bv64, len: Word, i: Word, out: array<char>, j: Word) returns (ghost writes: seq<nat>)
    requires i < len && i + 2 < WORD_SIZE && j + 3 < out.Length <= WORD_SIZE
    modifies out
    ensures out[..] == old(out[..j] + GroupText(v, len - i) + out[j + 4..])
    ensures writes == [j, j + 1, j + 2, j + 3]
  {
    hide Cut, Symbol;
    AddWordExact(i, 1);
    AddWordExact(i, 2);
    out[j] := Symbol(Cut(v, 0));
    out[j + 1] := Symbol(Cut(v, 1));
    writes := [j, j + 1];
    if AddWord(i, 1) < len {
      out[j + 2] := Symbol(Cut(v, 2));
      writes := writes + [j + 2];
    } else {
      out[j + 2] := '=';
      writes := writes + [j + 2];
    }
    if AddWord(i, 2) < len {
      out[j + 3] := Symbol(Cut(v, 3));
      writes := writes + [j + 3];
    } else {
      out[j + 3] := '=';
      writes := writes + [j + 3];
    }
    assert out[..] == out[..j] + [out[j], out[j + 1], out[j + 2], out[j + 3]] + out[j + 4..];
  }

  lemma TextOfRound(c: seq<bv8>, v: bv64, n: nat)
    requires 1 <= |c| <= 3 && (n == |c| || n >= 3 == |c|)
    requires v == Shifted(c[0], if |c| > 1 then c[1] else 0, if |c| > 2 then c[2] else 0)
    ensures GroupText(v, n) == Encode(c)
  {
    hide Encode, Cut, Shifted, Quad, Symbol;
    ShiftedIsQuad(c[0], if |c| > 1 then c[1] else 0, if |c| > 2 then c[2] else 0);
    TextOfChunk(c, Cut(v, 0), Cut(v, 1), Cut(v, 2), Cut(v, 3));
  }

  // The bytes read in the first g rounds.
  function Consumed(bytes: seq<bv8>, g: nat): seq<bv8> {
    if 3 * g < |bytes| then bytes[..3 * g] else bytes
  }

  // The buffer after g rounds: the prefix written so far encodes the bytes read so far, and the
  // terminator is in place.
  ghost predicate Progress(text: string, bytes: seq<bv8>, g: nat) {
    && 4 * g <= 4 * Groups(|bytes|) == |text| - 1
    && text[|text| - 1] == NUL
    && text[..4 * g] == Encode(Consumed(bytes, g))
  }

  lemma RoundEncodes(bytes: seq<bv8>, g: nat, v: bv64)
    requires 3 * g < |bytes| && v == GroupWord(bytes, 3 * g)
    ensures Encode(Consumed(bytes, g)) + GroupText(v, |bytes| - 3 * g) == Encode(Consumed(bytes, g + 1))
  {
    hide Encode, Shifted, GroupText;
    var c := Chunk(bytes, 3 * g);
    TextOfRound(c, v, |bytes| - 3 * g);
    EncodeOfConcat(bytes[..3 * g], c);
    assert bytes[..3 * g] + c == Consumed(bytes, g + 1);
  }

  lemma NextRound(before: string, after: string, bytes: seq<bv8>, g: nat, v: bv64)
    requires Progress(before, bytes, g) && 3 * g < |bytes| && v == GroupWord(bytes, 3 * g)
    requires after == before[..4 * g] + GroupText(v, |bytes| - 3 * g) + before[4 * g + 4..]
    ensures Progress(after, bytes, g + 1)
  {
    hide Encode, GroupWord, GroupText, Groups, Consumed;
    RoundEncodes(bytes, g, v);
    assert after[..4 * g + 4] == before[..4 * g] + GroupText(v, |bytes| - 3 * g);
  }

  lemma FirstRound(text: string, bytes: seq<bv8>)
    requires bytes != [] && |text| == 4 * Groups(|bytes|) + 1 && text[|text| - 1] == NUL
    ensures Progress(text, bytes, 0)
  {
    hide Encode, Groups;
    EncodeOfConcat([], []);
    assert bytes[..0] == [] && text[..0] == "";
  }

  lemma LastRound(text: string, bytes: seq<bv8>, g: nat)
    requires Progress(text, bytes, g) && 3 * g >= |bytes|
    ensures text == Encode(bytes) + [NUL]
  {
    hide Encode;
    assert text == text[..4 * g] + [NUL];
  }

  // A buffer of the computed size has room for a round, unless the size wrapped; then the loop comes to
  // the end of the buffer, and never to the end of the input. No index wraps before that.
  lemma RoomForRound(n: Word, g: nat)
    requires 3 * g < n && 4 * g <= 4 * Groups(n) % WORD_SIZE
    ensures n <= MAX_LENGTH ==> 4 * g + 4 <= 4 * Groups(n) % WORD_SIZE
    ensures n <= MAX_LENGTH || 4 * g + 4 <= 4 * Groups(n) % WORD_SIZE ==> 3 * g + 3 < WORD_SIZE && 4 * g + 4 < WORD_SIZE
  {
    SizeBoundIsExact(n);
    assert n > MAX_LENGTH ==> 4 * Groups(n) % WORD_SIZE == 4 * Groups(n) - WORD_SIZE;
  }

  lemma WrappedSizeIsShort(n: Word, g: nat)
    requires n > MAX_LENGTH && 4 * g <= 4 * Groups(n) % WORD_SIZE
    ensures 3 * g < n
  {
    assert 4 * Groups(n) % WORD_SIZE == 4 * Groups(n) - WORD_SIZE;
  }

  function UpTo(n: nat): seq<nat> { seq(n, k => k) }

  // The loop of b64_encode over a buffer that already holds its terminator: it writes every cell before
  // the terminator once, in order. A store beyond the buffer, which is undefined in C, ends the run here.
  method FillBuffer(input: array<bv8>, len: Word, out: array<char>)
    returns (overrun: bool, ghost writes: seq<nat>)
    requires 0 < len <= input.Length && input as object != out
    requires out.Length == 4 * Groups(len) % WORD_SIZE + 1 && out[out.Length - 1] == NUL
    modifies out
    ensures overrun <==> len > MAX_LENGTH
    ensures !overrun ==> out[..] == Encode(old(input[..len])) + [NUL]
    ensures !overrun ==> writes == UpTo(out.Length - 1)
  {
    hide Encode, AddWord, GroupText, GroupWord, Progress, Groups;
    ghost var bytes, g := input[..len], 0;
    SizeBoundIsExact(len);
    if len <= MAX_LENGTH { FirstRound(out[..], bytes); }
    var i: Word, j: Word := 0, 0;
    writes := [];
    while i < len
      invariant i == 3 * g && j == 4 * g <= out.Length - 1
      invariant input[..len] == bytes
      invariant writes == UpTo(j)
      invariant len <= MAX_LENGTH ==> Progress(out[..], bytes, g)
      decreases len - i
    {
      ghost var before := out[..];
      RoomForRound(len, g);
      if j + 3 >= out.Length {
        return true, writes;
      }
      var v := LoadGroup(input, len, i);
      ghost var stored := StoreGroup(v, len, i, out, j);
      writes := writes + stored;
      if len <= MAX_LENGTH { NextRound(before, out[..], bytes, g, v); }
      AddWordExact(i, 3);
      AddWordExact(j, 4);
      i, j, g := AddWord(i, 3), AddWord(j, 4), g + 1;
    }
    if len > MAX_LENGTH { WrappedSizeIsShort(len, g); }
    LastRound(out[..], bytes, g);
    assert j == out.Length - 1;
    overrun := false;
  }

  // b64_encode. The buffer that malloc returns may hold anything. The text is right, for all inputs and
  // lengths, exactly when the size of the text does not wrap.
  method Encode64(input: array?<bv8>, len: Word) returns (out: array?<char>, overrun: bool)
    requires input != null ==> len <= input.Length
    ensures out == null <==> input == null || len == 0
    ensures overrun <==> input != null && len > MAX_LENGTH
    ensures out != null ==> fresh(out) && (!overrun ==> out[..] == Encode(input[..len]) + [NUL])
  {
    if input == null || len == 0 {
      return null, false;
    }
    hide Encode, Groups;
    var elen := EncodedSize(len);
    SizeWithTerminator(len);
    AddWordExact(elen, 1);
    out := new char[AddWord(elen, 1)];
    out[elen] := NUL;
    ghost var writes;
    overrun, writes := FillBuffer(input, len, out);
  }
}
