/** Publishing lines of chat (apps/chat2/chat2.nim): encode a line, attach a rate limit proof if one can be
    had, compare its epoch with the last one, hand the message on. All but the encoding happens only on a
    node with an RLN relay. */
module Chat {
  import opened Wrappers
  import opened ChatCodec
  import opened EpochTracker

  const NANOSECONDS: int := 1_000_000_000

  datatype WakuMessage = WakuMessage(payload: Bytes, contentTopic: Bytes, version: nat, timestamp: int, proof: Bytes)

  // What the client prints about the rate limit.
  datatype Echo = Silent | EpochLine(epoch: nat) | RateViolation(epoch: nat)

  datatype Route = Lightpush | Relay

  // A proof as the group manager makes it: its parts are arrays of fixed sizes.
  type Proof = p: RateLimitProof | WellSized(p)
    witness RateLimitProof(Zeros(128), Zeros(32), Zeros(32), Zeros(32), Zeros(32), Zeros(32), Zeros(32))

  function Zeros(n: nat): Bytes { seq(n, i => 0) }

  // A line of chat, the second it was published in, and the proof that the group manager made for it, if
  // it could make one.
  datatype Line = Line(text: Bytes, time: Int64, generated: Option<Proof>)

  function EpochOf(line: Line): Option<Epoch> {
    match line.generated case None => None case Some(p) => Some(p.epoch)
  }

  function Epochs(lines: seq<Line>): seq<Option<Epoch>> {
    seq(|lines|, i requires 0 <= i < |lines| => EpochOf(lines[i]))
  }

  function Violations(echoes: seq<Echo>): nat {
    if |echoes| == 0 then 0
    else Violations(echoes[..|echoes| - 1]) + (if echoes[|echoes| - 1].RateViolation? then 1 else 0)
  }

  // The receiver of the message can read off the line, its author and its time.
  predicate Carries(m: WakuMessage, contentTopic: Bytes, nick: Bytes, line: Line) {
    && InitMessage(m.payload) == Some(Chat2Message(line.time, nick, line.text))
    && m.contentTopic == contentTopic && m.version == 0 && m.timestamp == line.time * 1_000_000_000
    && match line.generated case None => m.proof == [] case Some(p) => m.proof == EncodeProof(p)
  }

  // The messages are those of the lines, in order.
  predicate Deliver(out: seq<(Route, WakuMessage)>, route: Route, contentTopic: Bytes, nick: Bytes, lines: seq<Line>) {
    && |out| == |lines|
    && forall k :: 0 <= k < |lines| ==> out[k].0 == route && Carries(out[k].1, contentTopic, nick, lines[k])
  }

  lemma DeliverOneMore(out: seq<(Route, WakuMessage)>, next: (Route, WakuMessage), contentTopic: Bytes, nick: Bytes,
                       lines: seq<Line>, i: nat)
    requires i < |lines| && Deliver(out, next.0, contentTopic, nick, lines[..i])
    requires Carries(next.1, contentTopic, nick, lines[i])
    ensures Deliver(out + [next], next.0, contentTopic, nick, lines[..i + 1])
  {
    hide Carries;
  }

  // One of the messages carries the line.
  predicate HandedOn(out: seq<(Route, WakuMessage)>, contentTopic: Bytes, nick: Bytes, line: Line) {
    exists m :: m in out && Carries(m.1, contentTopic, nick, line)
  }

  lemma DeliveredIsHandedOn(out: seq<(Route, WakuMessage)>, route: Route, contentTopic: Bytes, nick: Bytes,
                            lines: seq<Line>)
    requires Deliver(out, route, contentTopic, nick, lines)
    ensures forall line :: line in lines ==> HandedOn(out, contentTopic, nick, line)
  {
    hide Carries;
    forall k | 0 <= k < |lines| ensures HandedOn(out, contentTopic, nick, lines[k]) {
      assert out[k] in out;
    }
  }

  lemma StartOfRun(first: Epoch, route: Route, contentTopic: Bytes, nick: Bytes, lines: seq<Line>)
    ensures Deliver([], route, contentTopic, nick, lines[..0])
    ensures Tracker(first, Violations([])) == TrackAll(Tracker(first, 0), Epochs(lines)[..0])
  {}

  lemma NextEcho(first: Epoch, last: Epoch, next: Epoch, echoes: seq<Echo>, echo: Echo, lines: seq<Line>, i: nat)
    requires i < |lines|
    requires Tracker(last, Violations(echoes)) == TrackAll(Tracker(first, 0), Epochs(lines)[..i])
    requires Tracker(next, if echo.RateViolation? then 1 else 0) == Track(Tracker(last, 0), EpochOf(lines[i]))
    ensures Tracker(next, Violations(echoes + [echo])) == TrackAll(Tracker(first, 0), Epochs(lines)[..i + 1])
  {
    hide FromEpoch;
    assert (echoes + [echo])[..|echoes|] == echoes;
    assert Epochs(lines)[..i + 1][..i] == Epochs(lines)[..i];
  }

  class WakuRlnRelay {
    var lastEpoch: Epoch

    constructor ()
      ensures FromEpoch(lastEpoch) == 0
    {
      lastEpoch := ToEpoch(0);
      EpochRoundTrip(0);
    }
  }

  class ChatClient {
    const contentTopic: Bytes
    const wakuRlnRelay: WakuRlnRelay?
    const hasLightpush: bool
    var nick: Bytes
    // The messages handed to the node, in order, with the protocol they were handed to.
    var sent: seq<(Route, WakuMessage)>

    constructor (contentTopic: Bytes, wakuRlnRelay: WakuRlnRelay?, hasLightpush: bool, nick: Bytes)
      ensures this.contentTopic == contentTopic && this.wakuRlnRelay == wakuRlnRelay
      ensures this.hasLightpush == hasLightpush && this.nick == nick && sent == []
    {
      this.contentTopic, this.wakuRlnRelay, this.hasLightpush := contentTopic, wakuRlnRelay, hasLightpush;
      this.nick, sent := nick, [];
    }

    // Attaches the proof that the group manager made for this message, if it could make one, and
    // compares its epoch with the last one.
    method AttachProof(rln: WakuRlnRelay, generated: Option<Proof>) returns (proof: Bytes, echo: Echo)
      modifies rln
      ensures proof == match generated case None => [] case Some(p) => EncodeProof(p)
      ensures Tracker(rln.lastEpoch, if echo.RateViolation? then 1 else 0)
              == Track(Tracker(old(rln.lastEpoch), 0), match generated case None => None case Some(p) => Some(p.epoch))
      ensures match generated
              case None => echo == Silent
              case Some(p) => !echo.Silent? && echo.epoch == FromEpoch(p.epoch)
    {
      hide InitProof, EncodeProof, FromEpoch;
      match generated
      case None => return [], Silent;
      case Some(p) =>
        proof := EncodeProof(p);
        ProofRoundTrip(p);
        // the decoding that the source takes for granted cannot fail
        var decoded := InitProof(proof).value;
        var msgEpoch := FromEpoch(decoded.epoch);
        if FromEpoch(rln.lastEpoch) == msgEpoch {
          echo := RateViolation(msgEpoch);
        } else {
          echo := EpochLine(msgEpoch);
        }
        rln.lastEpoch := decoded.epoch;
    }

    // Without an RLN relay the line is encoded and dropped.
    method Publish(line: Line) returns (echo: Echo)
      requires |nick| < TWO_63 && |line.text| < TWO_63
      modifies this`sent, wakuRlnRelay
      ensures wakuRlnRelay == null ==> sent == old(sent) && echo == Silent
      ensures wakuRlnRelay != null ==>
                && |sent| == |old(sent)| + 1 && sent[..|old(sent)|] == old(sent)
                && sent[|old(sent)|].0 == (if hasLightpush then Lightpush else Relay)
                && Carries(sent[|old(sent)|].1, contentTopic, nick, line)
                && Tracker(wakuRlnRelay.lastEpoch, if echo.RateViolation? then 1 else 0)
                   == Track(Tracker(old(wakuRlnRelay.lastEpoch), 0), EpochOf(line))
                && match line.generated
                   case None => echo == Silent
                   case Some(p) => !echo.Silent? && echo.epoch == FromEpoch(p.epoch)
    {
      hide EncodeMessage, InitMessage, EncodeProof, FromEpoch, Track;
      echo := Silent;
      var chatMessage := Chat2Message(line.time, nick, line.text);
      LastMessageWins(chatMessage, chatMessage);
      var message := WakuMessage(EncodeMessage(chatMessage), contentTopic, 0, line.time * NANOSECONDS, []);
      if wakuRlnRelay != null {
        var proof;
        proof, echo := AttachProof(wakuRlnRelay, line.generated);
        message := message.(proof := proof);
        if hasLightpush {
          sent := sent + [(Lightpush, message)];
        } else {
          sent := sent + [(Relay, message)];
        }
      }
    }

    // The lines of a conversation, one after the other: every one of them is handed on if and only if the
    // node has an RLN relay.
    method PublishAll(lines: seq<Line>) returns (echoes: seq<Echo>)
      requires |nick| < TWO_63 && forall line :: line in lines ==> |line.text| < TWO_63
      modifies this`sent, wakuRlnRelay
      ensures |echoes| == |lines| && |old(sent)| <= |sent| && sent[..|old(sent)|] == old(sent)
      ensures wakuRlnRelay == null ==> sent == old(sent) && forall echo :: echo in echoes ==> echo == Silent
      ensures wakuRlnRelay != null && hasLightpush ==>
                Deliver(sent[|old(sent)|..], Lightpush, contentTopic, nick, lines)
      ensures wakuRlnRelay != null && !hasLightpush ==>
                Deliver(sent[|old(sent)|..], Relay, contentTopic, nick, lines)
      ensures (forall line :: line in lines ==> HandedOn(sent[|old(sent)|..], contentTopic, nick, line))
              <==> wakuRlnRelay != null || lines == []
      ensures wakuRlnRelay != null ==>
                var xs, last := Attached(Epochs(lines)), FromEpoch(old(wakuRlnRelay.lastEpoch));
                Violations(echoes) + Returns(xs) + |Distinct(xs)| == |xs| + (if xs != [] && xs[0] == last then 1 else 0)
    {
      hide Carries, FromEpoch, Track, Attached, Returns, Distinct, Deliver, TrackAll, Violations;
      echoes := [];
      ghost var route := if hasLightpush then Lightpush else Relay;
      StartOfRun(if wakuRlnRelay == null then ToEpoch(0) else wakuRlnRelay.lastEpoch, route, contentTopic, nick, lines);
      var i := 0;
      assert sent[|sent|..] == [];
      while i < |lines|
        invariant 0 <= i <= |lines| && |echoes| == i && |old(sent)| <= |sent| && sent[..|old(sent)|] == old(sent)
        invariant wakuRlnRelay == null ==> sent == old(sent) && forall echo :: echo in echoes ==> echo == Silent
        invariant wakuRlnRelay != null ==> Deliver(sent[|old(sent)|..], route, contentTopic, nick, lines[..i])
        invariant wakuRlnRelay != null ==>
                    Tracker(wakuRlnRelay.lastEpoch, Violations(echoes))
                    == TrackAll(Tracker(old(wakuRlnRelay.lastEpoch), 0), Epochs(lines)[..i])
      {
        ghost var last, before := if wakuRlnRelay == null then ToEpoch(0) else wakuRlnRelay.lastEpoch, sent;
        assert lines[i] in lines;
        var echo := Publish(lines[i]);
        if wakuRlnRelay != null {
          NextEcho(old(wakuRlnRelay.lastEpoch), last, wakuRlnRelay.lastEpoch, echoes, echo, lines, i);
          DeliverOneMore(before[|old(sent)|..], sent[|before|], contentTopic, nick, lines, i);
          assert sent[|old(sent)|..] == before[|old(sent)|..] + [sent[|before|]];
        }
        echoes := echoes + [echo];
        i := i + 1;
      }
      assert lines[..|lines|] == lines;
      if wakuRlnRelay != null {
        DeliveredIsHandedOn(sent[|old(sent)|..], route, contentTopic, nick, lines);
        assert Epochs(lines)[..|lines|] == Epochs(lines);
        TrackAllCounts(Tracker(old(wakuRlnRelay.lastEpoch), 0), Epochs(lines));
        WarningCount(FromEpoch(old(wakuRlnRelay.lastEpoch)), Attached(Epochs(lines)));
      } else if lines != [] {
        assert lines[0] in lines && !HandedOn([], contentTopic, nick, lines[0]);
      }
    }
  }
}
