/** The Protocol Buffers wire format (Encoding guide, sections 'Base 128 Varints' and 'Message Structure'):
    fields written one after another, and a reader that accepts any sequence of them. */
module Protobuf {
  import opened Wrappers

  const TWO_64: int := 0x1_0000_0000_0000_0000
  const MAX_FIELD: int := 0x1FFF_FFFF

  //// Varints

  function Varint(n: nat): (b: Bytes)
    ensures |b| >= 1
    decreases n
  {
    if n < 128 then [n] else [128 + n % 128] + Varint(n / 128)
  }

  // Value and length of the varint at the front, at most `fuel` bytes long.
  function ReadDigits(buf: Bytes, fuel: nat): (r: Option<(nat, nat)>)
    ensures r.Some? ==> 1 <= r.value.1 <= |buf| && r.value.1 <= fuel
  {
    if |buf| == 0 || fuel == 0 then None
    else if buf[0] < 128 then Some((buf[0], 1))
    else
      match ReadDigits(buf[1..], fuel - 1)
      case None => None
      case Some((high, used)) => Some((buf[0] - 128 + 128 * high, used + 1))
  }

  // A 64-bit varint: at most ten bytes, and no more than 64 significant bits.
  function ReadVarint(buf: Bytes): (r: Option<(nat, nat)>)
    ensures r.Some? ==> 1 <= r.value.1 <= |buf| && r.value.0 < TWO_64
  {
    match ReadDigits(buf, 10)
    case None => None
    case Some((n, used)) => if n < TWO_64 then Some((n, used)) else None
  }

  function Pow128(k: nat): (p: nat)
    ensures p >= 1
  {
    if k == 0 then 1 else 128 * Pow128(k - 1)
  }

  lemma {:induction false} DigitsRoundTrip(n: nat, fuel: nat, rest: Bytes)
    requires fuel >= 1 && n < Pow128(fuel)
    ensures |Varint(n)| <= fuel
    ensures ReadDigits(Varint(n) + rest, fuel) == Some((n, |Varint(n)|))
    decreases fuel
  {
    if n >= 128 {
      assert n / 128 < Pow128(fuel - 1);
      DigitsRoundTrip(n / 128, fuel - 1, rest);
      assert (Varint(n) + rest)[1..] == Varint(n / 128) + rest;
    }
  }

  lemma VarintRoundTrip(n: nat, rest: Bytes)
    requires n < TWO_64
    ensures ReadVarint(Varint(n) + rest) == Some((n, |Varint(n)|))
  {
    assert Pow128(10) >= TWO_64 by {
      assert Pow128(5) == 0x8_0000_0000 by { assert Pow128(2) == 16384 && Pow128(3) == 2097152; }
      assert Pow128(7) == 0x8_0000_0000 * 16384;
      assert Pow128(9) == 0x8_0000_0000 * 16384 * 16384;
    }
    DigitsRoundTrip(n, 10, rest);
  }

  // The number whose 7-bit groups the bytes hold, least significant first.
  function GroupsValue(b: Bytes): nat {
    if |b| == 0 then 0 else b[0] % 128 + 128 * GroupsValue(b[1..])
  }

  // A varint holds the 7-bit groups of its number, all but the last marked by the top bit, and no more of
  // them than needed.
  lemma {:induction false} VarintIsBase128(n: nat)
    ensures var b := Varint(n);
            && GroupsValue(b) == n
            && (forall i :: 0 <= i < |b| - 1 ==> b[i] >= 128) && b[|b| - 1] < 128
            && (|b| > 1 ==> b[|b| - 1] != 0)
    decreases n
  {
    if n < 128 {
      assert Varint(n)[1..] == [];
    } else {
      VarintIsBase128(n / 128);
      assert Varint(n)[1..] == Varint(n / 128);
      assert forall i :: 1 <= i < |Varint(n)| ==> Varint(n)[i] == Varint(n / 128)[i - 1];
    }
  }

  // A varint that is cut off is not a varint.
  lemma {:induction false} TruncatedVarint(n: nat, k: nat, fuel: nat)
    requires k < |Varint(n)|
    ensures ReadDigits(Varint(n)[..k], fuel) == None
    decreases n
  {
    if k > 0 && fuel > 0 {
      assert Varint(n)[..k][1..] == Varint(n / 128)[..k - 1];
      TruncatedVarint(n / 128, k - 1, fuel - 1);
    }
  }

  //// Fields

  datatype Content =
    | Number(value: nat)
    | Fixed64(bytes: Bytes)
    | Blob(bytes: Bytes)
    | Fixed32(bytes: Bytes)

  datatype Field = Field(number: nat, content: Content)

  predicate ValidField(f: Field) {
    && 1 <= f.number <= MAX_FIELD
    && match f.content
       case Number(value) => value < TWO_64
       case Fixed64(bytes) => |bytes| == 8
       case Blob(bytes) => |bytes| < TWO_64
       case Fixed32(bytes) => |bytes| == 4
  }

  function WireType(c: Content): (w: nat)
    ensures w <= 5
  {
    match c case Number(_) => 0 case Fixed64(_) => 1 case Blob(_) => 2 case Fixed32(_) => 5
  }

  function WriteContent(c: Content): Bytes {
    match c
    case Number(value) => Varint(value)
    case Fixed64(bytes) => bytes
    case Blob(bytes) => Varint(|bytes|) + bytes
    case Fixed32(bytes) => bytes
  }

  function WriteField(f: Field): (b: Bytes)
    ensures |b| >= 1
  {
    Varint(8 * f.number + WireType(f.content)) + WriteContent(f.content)
  }

  // The examples of the Encoding guide: field 1 holding the number 150, field 2 holding "testing".
  lemma GuideExamples()
    ensures Varint(150) == [0x96, 0x01]
    ensures WriteField(Field(1, Number(150))) == [0x08, 0x96, 0x01]
    ensures WriteField(Field(2, Blob([0x74, 0x65, 0x73, 0x74, 0x69, 0x6e, 0x67])))
            == [0x12, 0x07, 0x74, 0x65, 0x73, 0x74, 0x69, 0x6e, 0x67]
  {
    assert Varint(1) == [1] && Varint(8) == [8] && Varint(18) == [18] && Varint(7) == [7];
  }

  function Serialize(fs: seq<Field>): Bytes {
    if |fs| == 0 then [] else WriteField(fs[0]) + Serialize(fs[1..])
  }

  // Content of the given wire type at the front of the buffer, with its length.
  function ReadContent(wire: nat, buf: Bytes): (r: Option<(Content, nat)>)
    ensures r.Some? ==> r.value.1 <= |buf|
  {
    if wire == 0 then
      match ReadVarint(buf)
      case None => None
      case Some((n, used)) => Some((Number(n), used))
    else if wire == 1 then
      if |buf| < 8 then None else Some((Fixed64(buf[..8]), 8))
    else if wire == 2 then
      match ReadVarint(buf)
      case None => None
      case Some((n, used)) => if |buf| - used < n then None else Some((Blob(buf[used..used + n]), used + n))
    else if wire == 5 then
      if |buf| < 4 then None else Some((Fixed32(buf[..4]), 4))
    else None
  }

  function ReadField(buf: Bytes): (r: Option<(Field, nat)>)
    ensures r.Some? ==> 1 <= r.value.1 <= |buf|
  {
    match ReadVarint(buf)
    case None => None
    case Some((header, used)) =>
      if !(1 <= header / 8 <= MAX_FIELD) then None
      else
        match ReadContent(header % 8, buf[used..])
        case None => None
        case Some((content, more)) => Some((Field(header / 8, content), used + more))
  }

  function Parse(buf: Bytes): Option<seq<Field>>
    decreases |buf|
  {
    if |buf| == 0 then Some([])
    else
      match ReadField(buf)
      case None => None
      case Some((f, used)) =>
        match Parse(buf[used..])
        case None => None
        case Some(fs) => Some([f] + fs)
  }

  lemma ContentRoundTrip(c: Content, rest: Bytes)
    requires ValidField(Field(1, c))
    ensures ReadContent(WireType(c), WriteContent(c) + rest) == Some((c, |WriteContent(c)|))
  {
    match c
    case Number(value) => VarintRoundTrip(value, rest);
    case Blob(bytes) =>
      VarintRoundTrip(|bytes|, bytes + rest);
      assert WriteContent(c) + rest == Varint(|bytes|) + (bytes + rest);
      var used := |Varint(|bytes|)|;
      assert (WriteContent(c) + rest)[used..used + |bytes|] == bytes;
    case Fixed64(bytes) => assert (bytes + rest)[..8] == bytes;
    case Fixed32(bytes) => assert (bytes + rest)[..4] == bytes;
  }

  lemma FieldRoundTrip(f: Field, rest: Bytes)
    requires ValidField(f)
    ensures ReadField(WriteField(f) + rest) == Some((f, |WriteField(f)|))
  {
    hide Varint, ReadVarint, ReadContent, WriteContent;
    var header := 8 * f.number + WireType(f.content);
    var content := WriteContent(f.content);
    assert header / 8 == f.number && header % 8 == WireType(f.content);
    assert WriteField(f) + rest == Varint(header) + (content + rest);
    VarintRoundTrip(header, content + rest);
    assert (WriteField(f) + rest)[|Varint(header)|..] == content + rest;
    ContentRoundTrip(f.content, rest);
  }

  // Whatever was written is read back, however many fields there are and whatever follows them.
  lemma {:induction false} ParseSerialized(fs: seq<Field>, rest: Bytes)
    requires forall f :: f in fs ==> ValidField(f)
    ensures Parse(Serialize(fs) + rest) == (match Parse(rest) case None => None case Some(more) => Some(fs + more))
  {
    hide WriteField, ReadField, ValidField;
    if |fs| == 0 {
      assert [] + rest == rest;
      match Parse(rest) case None => case Some(more) => assert fs + more == more;
    } else {
      var tail := Serialize(fs[1..]) + rest;
      assert Serialize(fs) + rest == WriteField(fs[0]) + tail;
      FieldRoundTrip(fs[0], tail);
      assert (Serialize(fs) + rest)[|WriteField(fs[0])|..] == tail;
      ParseSerialized(fs[1..], rest);
      match Parse(rest) case None => case Some(more) => assert fs + more == [fs[0]] + (fs[1..] + more);
    }
  }

  lemma {:induction false} SerializeConcat(fs: seq<Field>, gs: seq<Field>)
    ensures Serialize(fs + gs) == Serialize(fs) + Serialize(gs)
  {
    hide WriteField;
    if |fs| == 0 {
      assert fs + gs == gs;
    } else {
      assert (fs + gs)[1..] == fs[1..] + gs;
      SerializeConcat(fs[1..], gs);
    }
  }

  //// Truncation

  lemma TruncatedContent(c: Content, k: nat)
    requires ValidField(Field(1, c)) && k < |WriteContent(c)|
    ensures ReadContent(WireType(c), WriteContent(c)[..k]) == None
  {
    match c
    case Number(value) => TruncatedVarint(value, k, 10);
    case Blob(bytes) =>
      var n := |Varint(|bytes|)|;
      if k < n {
        assert WriteContent(c)[..k] == Varint(|bytes|)[..k];
        TruncatedVarint(|bytes|, k, 10);
      } else {
        assert WriteContent(c)[..k] == Varint(|bytes|) + bytes[..k - n];
        VarintRoundTrip(|bytes|, bytes[..k - n]);
      }
    case Fixed64(_) =>
    case Fixed32(_) =>
  }

  lemma TruncatedField(f: Field, k: nat)
    requires ValidField(f) && k < |WriteField(f)|
    ensures ReadField(WriteField(f)[..k]) == None
  {
    hide Varint, ReadContent, WriteContent;
    var header := 8 * f.number + WireType(f.content);
    var content := WriteContent(f.content);
    var n := |Varint(header)|;
    if k < n {
      assert WriteField(f)[..k] == Varint(header)[..k];
      TruncatedVarint(header, k, 10);
    } else {
      hide ReadVarint;
      assert header / 8 == f.number && header % 8 == WireType(f.content);
      assert WriteField(f)[..k] == Varint(header) + content[..k - n];
      VarintRoundTrip(header, content[..k - n]);
      assert WriteField(f)[..k][n..] == content[..k - n];
      TruncatedContent(f.content, k - n);
    }
  }

  // k bytes of a serialized message hold a whole number of its fields.
  predicate OnBoundary(fs: seq<Field>, k: nat) {
    exists j: nat :: j <= |fs| && k == |Serialize(fs[..j])|
  }

  lemma BoundaryOfRest(fs: seq<Field>, k: nat)
    requires |fs| > 0
    ensures OnBoundary(fs, k) <==> k == 0 || (k >= |WriteField(fs[0])| && OnBoundary(fs[1..], k - |WriteField(fs[0])|))
  {
    hide WriteField;
    var n := |WriteField(fs[0])|;
    forall j: nat | j < |fs| ensures |Serialize(fs[..j + 1])| == n + |Serialize(fs[1..][..j])| {
      assert fs[..j + 1][1..] == fs[1..][..j];
    }
    assert Serialize(fs[..0]) == [];
    if OnBoundary(fs, k) && k > 0 {
      var j: nat :| j <= |fs| && k == |Serialize(fs[..j])|;
      assert k - n == |Serialize(fs[1..][..j - 1])|;
    }
    if k >= n && OnBoundary(fs[1..], k - n) {
      var j: nat :| j <= |fs[1..]| && k - n == |Serialize(fs[1..][..j])|;
      assert k == |Serialize(fs[..j + 1])|;
    }
  }

  // A message that was cut off is refused, unless the cut falls between two fields.
  lemma {:induction false} TruncationIsDetected(fs: seq<Field>, k: nat)
    requires forall f :: f in fs ==> ValidField(f)
    requires k <= |Serialize(fs)|
    ensures Parse(Serialize(fs)[..k]).Some? <==> OnBoundary(fs, k)
  {
    hide WriteField, ReadField, ValidField, OnBoundary;
    if |fs| == 0 {
      assert OnBoundary(fs, 0) by { NoFields(); }
    } else {
      BoundaryOfRest(fs, k);
      var n := |WriteField(fs[0])|;
      if k < n {
        assert Serialize(fs)[..k] == WriteField(fs[0])[..k];
        TruncatedField(fs[0], k);
      } else {
        var tail := Serialize(fs[1..])[..k - n];
        assert Serialize(fs)[..k] == WriteField(fs[0]) + tail;
        FieldRoundTrip(fs[0], tail);
        assert Serialize(fs)[..k][n..] == tail;
        TruncationIsDetected(fs[1..], k - n);
      }
    }
  }

  lemma NoFields()
    ensures OnBoundary([], 0)
  {
    var none: seq<Field> := [];
    assert none[..0] == none && |Serialize(none)| == 0;
  }
}
