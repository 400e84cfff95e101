/** The two messages of the chat client that cross the wire: its own Chat2Message (apps/chat2/chat2.nim) and
    the rate limit proof attached to it (waku/waku_rln_relay/protocol_types.nim). */
module ChatCodec {
  import opened Wrappers
  import opened Protobuf

  const TWO_63: int := 0x8000_0000_0000_0000
  type Int64 = x: int | -TWO_63 <= x < TWO_63

  // Conversion between int64 and uint64 keeps the 64 bits.
  function ToUint64(x: Int64): (u: nat)
    ensures u < TWO_64
  {
    if x < 0 then x + TWO_64 else x
  }

  function FromUint64(u: nat): Int64
    requires u < TWO_64
  {
    if u < TWO_63 then u else u - TWO_64
  }

  //// Field access: the last field with the number and the expected wire type counts

  function LastNumber(fs: seq<Field>, n: nat): (v: Option<nat>)
  {
    if |fs| == 0 then None
    else
      var f := fs[|fs| - 1];
      if f.number == n && f.content.Number? then Some(f.content.value) else LastNumber(fs[..|fs| - 1], n)
  }

  function LastBlob(fs: seq<Field>, n: nat): Option<Bytes>
  {
    if |fs| == 0 then None
    else
      var f := fs[|fs| - 1];
      if f.number == n && f.content.Blob? then Some(f.content.bytes) else LastBlob(fs[..|fs| - 1], n)
  }

  function BlobOr(fs: seq<Field>, n: nat): Bytes {
    match LastBlob(fs, n) case None => [] case Some(b) => b
  }

  lemma {:induction false} LastOfConcat(fs: seq<Field>, gs: seq<Field>, n: nat)
    ensures LastNumber(fs + gs, n) == (if LastNumber(gs, n).Some? then LastNumber(gs, n) else LastNumber(fs, n))
    ensures LastBlob(fs + gs, n) == (if LastBlob(gs, n).Some? then LastBlob(gs, n) else LastBlob(fs, n))
    decreases |gs|
  {
    if |gs| == 0 {
      assert fs + gs == fs;
    } else {
      var k := |gs| - 1;
      assert (fs + gs)[..|fs + gs| - 1] == fs + gs[..k];
      LastOfConcat(fs, gs[..k], n);
    }
  }

  predicate AllValid(fs: seq<Field>) {
    forall f :: f in fs ==> ValidField(f)
  }

  //// Chat2Message

  datatype Chat2Message = Chat2Message(timestamp: Int64, nick: Bytes, payload: Bytes)

  predicate Representable(m: Chat2Message) { |m.nick| < TWO_63 && |m.payload| < TWO_63 }

  function MessageFields(m: Chat2Message): seq<Field> {
    [Field(1, Number(ToUint64(m.timestamp))), Field(2, Blob(m.nick)), Field(3, Blob(m.payload))]
  }

  function EncodeMessage(m: Chat2Message): Bytes { Serialize(MessageFields(m)) }

  // Chat2Message.init: an absent field keeps its default. A parsed number always fits its 64 bits.
  function InitMessage(buffer: Bytes): Option<Chat2Message> {
    match Parse(buffer)
    case None => None
    case Some(fs) =>
      var timestamp := match LastNumber(fs, 1) case None => 0 case Some(u) => u % TWO_64;
      Some(Chat2Message(FromUint64(timestamp), BlobOr(fs, 2), BlobOr(fs, 3)))
  }

  // Neither of the three fields of a message.
  predicate Foreign(f: Field) {
    && !(f.number == 1 && f.content.Number?)
    && !(f.number == 2 && f.content.Blob?)
    && !(f.number == 3 && f.content.Blob?)
  }

  lemma {:induction false} ForeignFieldsAreSkipped(fs: seq<Field>)
    requires forall f :: f in fs ==> Foreign(f)
    ensures LastNumber(fs, 1) == None && LastBlob(fs, 2) == None && LastBlob(fs, 3) == None
    decreases |fs|
  {
    if |fs| > 0 {
      var k := |fs| - 1;
      assert Foreign(fs[k]);
      ForeignFieldsAreSkipped(fs[..k]);
    }
  }

  lemma LastOfMessage(m: Chat2Message)
    ensures var fs := MessageFields(m);
            LastNumber(fs, 1) == Some(ToUint64(m.timestamp)) && LastBlob(fs, 2) == Some(m.nick)
            && LastBlob(fs, 3) == Some(m.payload)
  {
    var fs := MessageFields(m);
    assert LastNumber([fs[0]], 1) == Some(ToUint64(m.timestamp));
    assert [fs[0], fs[1]][..1] == [fs[0]] && fs[..2] == [fs[0], fs[1]];
    assert LastNumber([fs[0], fs[1]], 1) == LastNumber([fs[0]], 1);
    assert LastNumber(fs, 1) == LastNumber(fs[..2], 1) && LastBlob(fs, 2) == LastBlob(fs[..2], 2);
  }

  // A message is read back from its encoding, whatever fields come before it, earlier messages
  // included, and whatever unknown fields come after it.
  lemma MessageRoundTrip(before: seq<Field>, m: Chat2Message, after: seq<Field>)
    requires Representable(m) && AllValid(before) && AllValid(after)
    requires forall f :: f in after ==> Foreign(f)
    ensures InitMessage(Serialize(before) + EncodeMessage(m) + Serialize(after)) == Some(m)
  {
    hide Serialize, Parse, ValidField, LastNumber, LastBlob, MessageFields;
    var fs := before + MessageFields(m) + after;
    SerializeConcat(before, MessageFields(m));
    SerializeConcat(before + MessageFields(m), after);
    AllValidTogether(before, m, after);
    ParseAll(fs);
    LastOfConcat(before + MessageFields(m), after, 1);
    LastOfConcat(before + MessageFields(m), after, 2);
    LastOfConcat(before + MessageFields(m), after, 3);
    LastOfConcat(before, MessageFields(m), 1);
    LastOfConcat(before, MessageFields(m), 2);
    LastOfConcat(before, MessageFields(m), 3);
    ForeignFieldsAreSkipped(after);
    LastOfMessage(m);
  }

  lemma AllValidTogether(before: seq<Field>, m: Chat2Message, after: seq<Field>)
    requires Representable(m) && AllValid(before) && AllValid(after)
    ensures AllValid(MessageFields(m)) && AllValid(before + MessageFields(m) + after)
  {}

  lemma ParseAll(fs: seq<Field>)
    requires AllValid(fs)
    ensures Parse(Serialize(fs)) == Some(fs)
  {
    ParseSerialized(fs, []);
    assert Serialize(fs) + [] == Serialize(fs) && fs + [] == fs;
  }

  // Of several messages run together, the last one is read.
  lemma LastMessageWins(first: Chat2Message, last: Chat2Message)
    requires Representable(first) && Representable(last)
    ensures InitMessage(EncodeMessage(last)) == Some(last)
    ensures InitMessage(EncodeMessage(first) + EncodeMessage(last)) == Some(last)
  {
    hide Serialize, Parse, LastNumber, LastBlob, MessageFields;
    AllValidTogether([], first, []);
    MessageRoundTrip([], last, []);
    MessageRoundTrip(MessageFields(first), last, []);
    NothingSerialized();
    assert [] + EncodeMessage(last) + [] == EncodeMessage(last);
    assert EncodeMessage(first) + EncodeMessage(last) + [] == EncodeMessage(first) + EncodeMessage(last);
  }

  lemma NothingSerialized()
    ensures Serialize([]) == []
  {}

  // Two messages have the same encoding only if they are equal.
  lemma EncodingIsInjective(a: Chat2Message, b: Chat2Message)
    requires Representable(a) && Representable(b)
    ensures EncodeMessage(a) == EncodeMessage(b) <==> a == b
  {
    LastMessageWins(b, a);
    LastMessageWins(a, b);
  }

  // A message that was cut off is refused, unless the cut falls between its fields.
  lemma CutMessage(m: Chat2Message, k: nat)
    requires Representable(m) && k <= |EncodeMessage(m)|
    ensures InitMessage(EncodeMessage(m)[..k]).Some? <==> OnBoundary(MessageFields(m), k)
  {
    AllValidTogether([], m, []);
    TruncationIsDetected(MessageFields(m), k);
    hide Serialize, Parse, OnBoundary, ValidField;
  }

  lemma LastOfPrefix(m: Chat2Message, j: nat)
    requires j <= 3
    ensures var fs := MessageFields(m)[..j];
            && LastNumber(fs, 1) == (if j >= 1 then Some(ToUint64(m.timestamp)) else None)
            && LastBlob(fs, 2) == (if j >= 2 then Some(m.nick) else None)
            && LastBlob(fs, 3) == (if j >= 3 then Some(m.payload) else None)
  {
    var all := MessageFields(m);
    var fs := all[..j];
    if j == 1 {
      assert fs[..0] == [];
    } else if j == 2 {
      assert fs[..1] == all[..1] && fs[..1][..0] == [] && fs == [all[0], all[1]];
      assert LastNumber(fs, 1) == LastNumber(fs[..1], 1) && LastBlob(fs, 3) == LastBlob(fs[..1], 3);
      assert LastBlob(fs[..1], 3) == LastBlob(fs[..1][..0], 3) && LastBlob(fs[..1][..0], 3) == None;
    } else if j == 3 {
      LastOfMessage(m);
      assert fs == all;
    }
  }

  // Each cut between two fields leaves the fields before it, and the defaults for the others.
  lemma CutMessageReads(m: Chat2Message, j: nat)
    requires Representable(m) && j <= 3
    ensures var k := |Serialize(MessageFields(m)[..j])|;
            && k <= |EncodeMessage(m)|
            && InitMessage(EncodeMessage(m)[..k])
               == Some(Chat2Message(if j >= 1 then m.timestamp else 0, if j >= 2 then m.nick else [],
                                    if j >= 3 then m.payload else []))
  {
    var fs := MessageFields(m)[..j];
    CutIsPrefix(MessageFields(m), j);
    assert AllValid(fs) by { AllValidTogether([], m, []); }
    hide Serialize, Parse, LastNumber, LastBlob, ValidField, AllValid, MessageFields, InitMessage;
    ParseAll(fs);
    LastOfPrefix(m, j);
    InitOfFields(Serialize(fs), fs, m, j);
  }

  lemma InitOfFields(buffer: Bytes, fs: seq<Field>, m: Chat2Message, j: nat)
    requires Parse(buffer) == Some(fs)
    requires LastNumber(fs, 1) == if j >= 1 then Some(ToUint64(m.timestamp)) else None
    requires LastBlob(fs, 2) == if j >= 2 then Some(m.nick) else None
    requires LastBlob(fs, 3) == if j >= 3 then Some(m.payload) else None
    ensures InitMessage(buffer) == Some(Chat2Message(if j >= 1 then m.timestamp else 0, if j >= 2 then m.nick else [],
                                                     if j >= 3 then m.payload else []))
  {
    hide Parse, LastNumber, LastBlob;
    var u := ToUint64(m.timestamp);
    assert u % TWO_64 == u && FromUint64(u) == m.timestamp;
  }

  lemma CutIsPrefix(fs: seq<Field>, j: nat)
    requires j <= |fs|
    ensures |Serialize(fs[..j])| <= |Serialize(fs)| && Serialize(fs)[..|Serialize(fs[..j])|] == Serialize(fs[..j])
  {
    hide Serialize;
    assert fs == fs[..j] + fs[j..];
    SerializeConcat(fs[..j], fs[j..]);
  }

  // The bytes of a message: three keys, the number as a varint, and two length-delimited strings.
  lemma MessageOnTheWire(m: Chat2Message)
    ensures var number := if m.timestamp < 0 then m.timestamp + 0x1_0000_0000_0000_0000 else m.timestamp;
            EncodeMessage(m) == ([0x08] + Varint(number)) + ([0x12] + (Varint(|m.nick|) + m.nick))
                                + ([0x1a] + (Varint(|m.payload|) + m.payload))
  {
    assert Varint(8) == [0x08] && Varint(18) == [0x12] && Varint(26) == [0x1a];
    hide Varint, Serialize;
    SerializeThree(MessageFields(m));
  }

  lemma SerializeThree(fs: seq<Field>)
    requires |fs| == 3
    ensures Serialize(fs) == WriteField(fs[0]) + WriteField(fs[1]) + WriteField(fs[2])
  {
    hide WriteField;
    assert fs[1..][1..] == fs[2..] && fs[1..][0] == fs[1] && fs[2..][1..] == [] && fs[2..][0] == fs[2];
    assert Serialize(fs[2..]) == WriteField(fs[2]);
    assert Serialize(fs[1..]) == WriteField(fs[1]) + Serialize(fs[2..]);
    assert Serialize(fs) == WriteField(fs[0]) + Serialize(fs[1..]);
    hide Serialize;
  }

  //// RateLimitProof

  datatype RateLimitProof = RateLimitProof(
    proof: Bytes, merkleRoot: Bytes, epoch: Bytes, shareX: Bytes, shareY: Bytes, nullifier: Bytes, rlnIdentifier: Bytes)

  predicate WellSized(p: RateLimitProof) {
    && |p.proof| == 128 && |p.merkleRoot| == 32 && |p.epoch| == 32 && |p.shareX| == 32 && |p.shareY| == 32
    && |p.nullifier| == 32 && |p.rlnIdentifier| == 32
  }

  function Parts(p: RateLimitProof): (parts: seq<Bytes>)
    ensures |parts| == 7
  {
    [p.proof, p.merkleRoot, p.epoch, p.shareX, p.shareY, p.nullifier, p.rlnIdentifier]
  }

  // Blobs numbered from 1.
  function NumberedBlobs(bs: seq<Bytes>): (fs: seq<Field>)
    ensures |fs| == |bs|
  {
    seq(|bs|, i requires 0 <= i < |bs| => Field(i + 1, Blob(bs[i])))
  }

  function EncodeProof(p: RateLimitProof): Bytes { Serialize(NumberedBlobs(Parts(p))) }

  // Copies as much as fits into an array of n zero bytes.
  function CopyInto(n: nat, b: Bytes): (a: Bytes)
    ensures |a| == n
    ensures |b| == n ==> a == b
    ensures forall i :: 0 <= i < n ==> a[i] == if i < |b| then b[i] else 0
  {
    if |b| >= n then b[..n] else b + seq(n - |b|, i => 0)
  }

  function InitProof(buffer: Bytes): (r: Option<RateLimitProof>)
    ensures r.Some? ==> WellSized(r.value)
  {
    match Parse(buffer)
    case None => None
    case Some(fs) =>
      Some(RateLimitProof(CopyInto(128, BlobOr(fs, 1)), CopyInto(32, BlobOr(fs, 2)), CopyInto(32, BlobOr(fs, 3)),
                          CopyInto(32, BlobOr(fs, 4)), CopyInto(32, BlobOr(fs, 5)), CopyInto(32, BlobOr(fs, 6)),
                          CopyInto(32, BlobOr(fs, 7))))
  }

  lemma {:induction false} BlobByNumber(bs: seq<Bytes>, k: nat)
    requires k < |bs|
    ensures BlobOr(NumberedBlobs(bs), k + 1) == bs[k]
    decreases |bs|
  {
    var last := |bs| - 1;
    var fs := NumberedBlobs(bs);
    assert fs[..last] == NumberedBlobs(bs[..last]);
    if k < last {
      BlobByNumber(bs[..last], k);
      assert LastBlob(fs, k + 1) == LastBlob(fs[..last], k + 1);
    }
  }

  lemma ProofRoundTrip(p: RateLimitProof)
    requires WellSized(p)
    ensures InitProof(EncodeProof(p)) == Some(p)
  {
    hide Serialize, Parse, BlobOr, NumberedBlobs;
    var bs := Parts(p);
    assert AllValid(NumberedBlobs(bs)) by { PartsAreValid(p); }
    hide AllValid;
    ParseAll(NumberedBlobs(bs));
    BlobByNumber(bs, 0); BlobByNumber(bs, 1); BlobByNumber(bs, 2); BlobByNumber(bs, 3);
    BlobByNumber(bs, 4); BlobByNumber(bs, 5); BlobByNumber(bs, 6);
  }

  lemma PartsAreValid(p: RateLimitProof)
    requires WellSized(p)
    ensures AllValid(NumberedBlobs(Parts(p)))
  {
    var bs := Parts(p);
    assert forall k :: 0 <= k < 7 ==> |bs[k]| <= 128;
  }

  // Key, length and content of one part; a length of 128 takes two bytes.
  function PartOnTheWire(number: nat, part: Bytes): Bytes
    requires 1 <= number <= 7 && (|part| == 32 || |part| == 128)
  {
    [8 * number + 2] + (if |part| == 128 then [0x80, 0x01] else [0x20]) + part
  }

  lemma PartIsWritten(number: nat, part: Bytes)
    requires 1 <= number <= 7 && (|part| == 32 || |part| == 128)
    ensures WriteField(Field(number, Blob(part))) == PartOnTheWire(number, part)
  {
    assert Varint(8 * number + 2) == [8 * number + 2] && Varint(32) == [0x20];
    assert Varint(1) == [1] && Varint(128) == [0x80, 0x01];
    hide Varint;
  }

  // The bytes of a proof: its seven parts as fields 1 to 7.
  lemma ProofOnTheWire(p: RateLimitProof)
    requires WellSized(p)
    ensures EncodeProof(p)
            == PartOnTheWire(1, p.proof) + PartOnTheWire(2, p.merkleRoot) + PartOnTheWire(3, p.epoch)
               + PartOnTheWire(4, p.shareX) + PartOnTheWire(5, p.shareY) + PartOnTheWire(6, p.nullifier)
               + PartOnTheWire(7, p.rlnIdentifier)
  {
    hide WriteField, PartOnTheWire;
    var fs := NumberedBlobs(Parts(p));
    PartIsWritten(1, p.proof); PartIsWritten(2, p.merkleRoot); PartIsWritten(3, p.epoch); PartIsWritten(4, p.shareX);
    PartIsWritten(5, p.shareY); PartIsWritten(6, p.nullifier); PartIsWritten(7, p.rlnIdentifier);
    SerializeSeven(fs);
  }

  lemma SerializeSeven(fs: seq<Field>)
    requires |fs| == 7
    ensures Serialize(fs) == WriteField(fs[0]) + WriteField(fs[1]) + WriteField(fs[2]) + WriteField(fs[3])
                             + WriteField(fs[4]) + WriteField(fs[5]) + WriteField(fs[6])
  {
    hide WriteField;
    assert forall i :: 0 <= i < 7 ==> fs[i..][1..] == fs[i + 1..] && fs[i..][0] == fs[i];
    assert Serialize(fs[7..]) == [] && Serialize(fs[6..]) == WriteField(fs[6]);
    assert Serialize(fs[5..]) == WriteField(fs[5]) + Serialize(fs[6..]);
    assert Serialize(fs[4..]) == WriteField(fs[4]) + Serialize(fs[5..]);
    assert Serialize(fs[3..]) == WriteField(fs[3]) + Serialize(fs[4..]);
    assert Serialize(fs[2..]) == WriteField(fs[2]) + Serialize(fs[3..]);
    assert Serialize(fs[1..]) == WriteField(fs[1]) + Serialize(fs[2..]);
    assert fs[0..] == fs && Serialize(fs) == WriteField(fs[0]) + Serialize(fs[1..]);
    hide Serialize;
  }
}
