/** Topic strings: as the C API formats them (library/libwaku.nim), and as the node takes them apart again
    (waku/waku_core/topics). */
module Topics {
  import opened Wrappers

  const SLASH: Byte := 47

  //// Decimal numbers

  function Decimal(n: nat): (d: Bytes)
    ensures |d| > 0 && forall x :: x in d ==> 48 <= x <= 57
  {
    if n < 10 then [48 + n] else Decimal(n / 10) + [48 + n % 10]
  }

  function FromDecimal(d: Bytes): int {
    if |d| == 0 then 0 else 10 * FromDecimal(d[..|d| - 1]) + d[|d| - 1] - 48
  }

  lemma {:induction false} DecimalRoundTrip(n: nat)
    ensures FromDecimal(Decimal(n)) == n
    decreases n
  {
    if n >= 10 {
      DecimalRoundTrip(n / 10);
      assert Decimal(n)[..|Decimal(n)| - 1] == Decimal(n / 10);
    }
  }

  // A decimal numeral as people write it: digits, the first of them zero only if it is the only one.
  predicate IsNumeral(d: Bytes) {
    d != [] && (forall x :: x in d ==> 48 <= x <= 57) && (d[0] == 48 ==> |d| == 1)
  }

  lemma {:induction false} NumeralIsPositive(d: Bytes)
    requires IsNumeral(d)
    ensures FromDecimal(d) >= 0 && (|d| > 1 || d[0] != 48 ==> FromDecimal(d) > 0)
    decreases |d|
  {
    var k := |d| - 1;
    assert d[k] in d && forall x :: x in d[..k] ==> x in d;
    if k > 0 { NumeralIsPositive(d[..k]); } else { assert FromDecimal(d[..0]) == 0; }
  }

  lemma {:induction false} NumeralIsDecimal(d: Bytes)
    requires IsNumeral(d)
    ensures FromDecimal(d) >= 0 && d == Decimal(FromDecimal(d))
    decreases |d|
  {
    var k := |d| - 1;
    assert d[k] in d && forall x :: x in d[..k] ==> x in d;
    if k > 0 {
      NumeralIsPositive(d[..k]);
      NumeralIsDecimal(d[..k]);
      assert d == d[..k] + [d[k]];
    } else {
      assert FromDecimal(d[..0]) == 0;
    }
  }

  lemma {:induction false} DecimalIsNumeral(n: nat)
    ensures IsNumeral(Decimal(n)) && (n > 0 ==> Decimal(n)[0] != 48)
    decreases n
  {
    if n >= 10 {
      DecimalIsNumeral(n / 10);
      assert Decimal(n)[0] == Decimal(n / 10)[0];
    }
  }

  // The decimal representation of a number is its one numeral.
  lemma DecimalIsTheNumeral(d: Bytes, n: nat)
    ensures IsNumeral(d) && FromDecimal(d) == n <==> d == Decimal(n)
  {
    DecimalIsNumeral(n);
    DecimalRoundTrip(n);
    if IsNumeral(d) { NumeralIsDecimal(d); }
    hide Decimal, FromDecimal, IsNumeral;
  }

  // Most significant digit first.
  lemma DecimalExamples()
    ensures Decimal(0) == [48] && Decimal(2) == [50] && Decimal(120) == [49, 50, 48]
  {
    assert Decimal(12) == [49, 50];
  }

  //// Splitting at slashes: n slashes make n + 1 parts, some of them possibly empty

  function Split(s: Bytes): (parts: seq<Bytes>)
    ensures |parts| >= 1
  {
    if |s| == 0 then [[]]
    else
      var rest := Split(s[1..]);
      if s[0] == SLASH then [[]] + rest else [[s[0]] + rest[0]] + rest[1..]
  }

  lemma {:induction false} SplitAtSlash(part: Bytes, rest: Bytes)
    requires SLASH !in part
    ensures Split(part + [SLASH] + rest) == [part] + Split(rest)
  {
    var s := part + [SLASH] + rest;
    if |part| == 0 {
      assert s[1..] == rest;
    } else {
      assert s[1..] == part[1..] + [SLASH] + rest;
      SplitAtSlash(part[1..], rest);
      assert [part[0]] + part[1..] == part;
    }
  }

  lemma {:induction false} SplitNothing(part: Bytes)
    requires SLASH !in part
    ensures Split(part) == [part]
  {
    if |part| > 0 {
      SplitNothing(part[1..]);
      assert [part[0]] + part[1..] == part;
    }
  }

  lemma {:induction false} PartsHaveNoSlash(s: Bytes)
    ensures forall p :: p in Split(s) ==> SLASH !in p
  {
    if |s| > 0 {
      PartsHaveNoSlash(s[1..]);
      var rest := Split(s[1..]);
      assert rest[0] in rest;
      assert forall p :: p in rest[1..] ==> p in rest;
    }
  }

  //// Content topics

  function FormatContentTopic(app: Bytes, version: nat, name: Bytes, encoding: Bytes): Bytes {
    [SLASH] + app + [SLASH] + Decimal(version) + [SLASH] + name + [SLASH] + encoding
  }

  datatype ParsingError = InvalidFormat | MissingPart
  datatype NsContentTopic = NsContentTopic(generation: Option<int>, application: Bytes, version: Bytes, name: Bytes,
                                           encoding: Bytes)

  function AllPresent(generation: Option<int>, app: Bytes, version: Bytes, name: Bytes,
                      encoding: Bytes): Result<NsContentTopic, ParsingError> {
    if app == [] || version == [] || name == [] || encoding == [] then Failure(MissingPart)
    else Success(NsContentTopic(generation, app, version, name, encoding))
  }

  // parseInt: the standard library's reading of a number, nothing if it raises.
  function ParseContentTopic(topic: Bytes, parseInt: Bytes -> Option<int>): Result<NsContentTopic, ParsingError> {
    if |topic| == 0 || topic[0] != SLASH then Failure(InvalidFormat)
    else
      var parts := Split(topic[1..]);
      if |parts| == 4 then AllPresent(None, parts[0], parts[1], parts[2], parts[3])
      else if |parts| == 5 then
        if parts[0] == [] then Failure(MissingPart)
        else
          match parseInt(parts[0])
          case None => Failure(InvalidFormat)
          case Some(gen) => AllPresent(Some(gen), parts[1], parts[2], parts[3], parts[4])
      else Failure(InvalidFormat)
  }

  lemma SplitContentTopic(app: Bytes, version: nat, name: Bytes, encoding: Bytes)
    requires SLASH !in app && SLASH !in name && SLASH !in encoding
    ensures Split(FormatContentTopic(app, version, name, encoding)[1..]) == [app, Decimal(version), name, encoding]
  {
    hide Split;
    var d := Decimal(version);
    SplitNothing(encoding);
    SplitAtSlash(name, encoding);
    SplitAtSlash(d, name + [SLASH] + encoding);
    SplitAtSlash(app, d + [SLASH] + (name + [SLASH] + encoding));
    assert FormatContentTopic(app, version, name, encoding)[1..]
           == app + [SLASH] + (d + [SLASH] + (name + [SLASH] + encoding));
  }

  // The node reads back what waku_content_topic was given exactly when no component is empty or
  // contains a slash.
  lemma ContentTopicRoundTrip(app: Bytes, version: nat, name: Bytes, encoding: Bytes, parseInt: Bytes -> Option<int>)
    ensures ParseContentTopic(FormatContentTopic(app, version, name, encoding), parseInt)
            == Success(NsContentTopic(None, app, Decimal(version), name, encoding))
            <==> app != [] && name != [] && encoding != [] && SLASH !in app && SLASH !in name && SLASH !in encoding
    ensures SLASH !in app && SLASH !in name && SLASH !in encoding && (app == [] || name == [] || encoding == []) ==>
              ParseContentTopic(FormatContentTopic(app, version, name, encoding), parseInt) == Failure(MissingPart)
  {
    hide Split, Decimal;
    if SLASH !in app && SLASH !in name && SLASH !in encoding {
      SplitContentTopic(app, version, name, encoding);
    } else {
      PartsHaveNoSlash(FormatContentTopic(app, version, name, encoding)[1..]);
    }
  }

  // A topic with a generation in front is read back with its five parts, exactly when the generation is a
  // number and no part is empty or contains a slash.
  lemma GenerationRoundTrip(gen: Bytes, app: Bytes, version: nat, name: Bytes, encoding: Bytes,
                            parseInt: Bytes -> Option<int>)
    requires SLASH !in gen && SLASH !in app && SLASH !in name && SLASH !in encoding
    ensures var parsed := ParseContentTopic([SLASH] + gen + FormatContentTopic(app, version, name, encoding), parseInt);
            parsed.Success? && parsed.value == NsContentTopic(parseInt(gen), app, Decimal(version), name, encoding)
            <==> gen != [] && parseInt(gen).Some? && app != [] && name != [] && encoding != []
  {
    hide Split, Decimal;
    var rest := FormatContentTopic(app, version, name, encoding);
    var topic := [SLASH] + gen + rest;
    SplitContentTopic(app, version, name, encoding);
    SplitAtSlash(gen, rest[1..]);
    assert topic[1..] == gen + [SLASH] + rest[1..];
  }

  // Different components, slash-free but possibly empty, never share a topic.
  lemma ContentTopicIsInjective(app: Bytes, version: nat, name: Bytes, encoding: Bytes,
                                app': Bytes, version': nat, name': Bytes, encoding': Bytes)
    requires SLASH !in app && SLASH !in name && SLASH !in encoding
    requires SLASH !in app' && SLASH !in name' && SLASH !in encoding'
    ensures FormatContentTopic(app, version, name, encoding) == FormatContentTopic(app', version', name', encoding')
            <==> app == app' && version == version' && name == name' && encoding == encoding'
  {
    hide Split, Decimal;
    SplitContentTopic(app, version, name, encoding);
    SplitContentTopic(app', version', name', encoding');
    DecimalRoundTrip(version);
    DecimalRoundTrip(version');
  }

  //// Pubsub topics

  const WAKU2: Bytes := [47, 119, 97, 107, 117, 47, 50]
  const RS: Bytes := [114, 115]

  // The bytes of a text of ASCII characters.
  function Ascii(text: string): Bytes
    requires forall i :: 0 <= i < |text| ==> text[i] as int < 128
  {
    seq(|text|, i requires 0 <= i < |text| => Code(text[i]))
  }

  function Code(c: char): Byte
    requires c as int < 128
  {
    c as int
  }

  lemma Prefixes()
    ensures Ascii("/") == [SLASH] && Ascii("/waku/2") == WAKU2 && Ascii("rs") == RS
  {}

  function FormatPubsubTopic(name: Bytes): Bytes { WAKU2 + [SLASH] + name }

  function FormatShard(cluster: nat, shard: nat): Bytes {
    WAKU2 + [SLASH] + RS + [SLASH] + Decimal(cluster) + [SLASH] + Decimal(shard)
  }

  // Crash: a slice that starts beyond the end of its string raises a defect.
  datatype PubsubTopic = StaticSharding(cluster: nat, shard: nat) | NamedSharding(name: Bytes) | Invalid | Crash

  // Base10.decode for uint16.
  function DecodeUint16(d: Bytes): (r: Option<nat>)
  {
    if d != [] && (forall x :: x in d ==> 48 <= x <= 57) && 0 <= FromDecimal(d) < 65536 then Some(FromDecimal(d))
    else None
  }

  function ParseStaticSharding(topic: Bytes): PubsubTopic {
    if |topic| < 11 then Crash
    else
      var parts := Split(topic[11..]);
      if |parts| != 2 then Invalid
      else
        match (DecodeUint16(parts[0]), DecodeUint16(parts[1]))
        case (Some(cluster), Some(shard)) => StaticSharding(cluster, shard)
        case _ => Invalid
  }

  function ParsePubsubTopic(topic: Bytes): PubsubTopic {
    if WAKU2 + [SLASH] + RS <= topic then ParseStaticSharding(topic)
    else if !(WAKU2 <= topic) then Invalid
    else if |topic| < 8 then Crash
    else if |topic| == 8 then Invalid
    else NamedSharding(topic[8..])
  }

  // Every shard topic is read back.
  lemma ShardRoundTrip(cluster: nat, shard: nat)
    requires cluster < 65536 && shard < 65536
    ensures ParsePubsubTopic(FormatShard(cluster, shard)) == StaticSharding(cluster, shard)
  {
    hide Split, Decimal, FromDecimal;
    var c, s := Decimal(cluster), Decimal(shard);
    assert FormatShard(cluster, shard)[11..] == c + [SLASH] + s;
    SplitAtSlash(c, s);
    SplitNothing(s);
    DecimalRoundTrip(cluster);
    DecimalRoundTrip(shard);
  }

  // A name given to waku_pubsub_topic is read back exactly when it is not empty and does not begin
  // with the letters of the shard prefix.
  lemma NamedTopicRoundTrip(name: Bytes)
    ensures ParsePubsubTopic(FormatPubsubTopic(name)) == NamedSharding(name) <==> name != [] && !(RS <= name)
  {
    hide Split, FromDecimal;
    var topic := FormatPubsubTopic(name);
    assert topic[8..] == name;
    assert WAKU2 + [SLASH] + RS <= topic <==> RS <= name by {
      assert |topic| >= 10 ==> topic[8..10] == name[..2];
      if RS <= name { assert name == RS + name[2..]; assert topic == WAKU2 + [SLASH] + RS + name[2..]; }
      if WAKU2 + [SLASH] + RS <= topic { assert topic[..10][8..] == RS; }
    }
  }

  // The parser slices beyond the end of exactly two topics: the bare prefix, and the shard prefix.
  lemma WhenParsingCrashes(topic: Bytes)
    ensures ParsePubsubTopic(topic).Crash? <==> topic == WAKU2 || topic == WAKU2 + [SLASH] + RS
  {
    hide Split, FromDecimal;
    var shards := WAKU2 + [SLASH] + RS;
    assert shards <= topic && |topic| < 11 ==> topic == shards;
    assert WAKU2 <= topic && |topic| < 8 ==> topic == WAKU2;
  }

  // Among the topics that waku_pubsub_topic formats, it is the one named "rs".
  lemma WhenNamedTopicCrashes(name: Bytes)
    ensures ParsePubsubTopic(FormatPubsubTopic(name)).Crash? <==> name == RS
  {
    WhenParsingCrashes(FormatPubsubTopic(name));
    assert FormatPubsubTopic(name)[8..] == name && (WAKU2 + [SLASH] + RS)[8..] == RS;
    hide ParsePubsubTopic;
  }
}
