/** The exported procs themselves: blocks allocated and freed one by one on the shared heap, callbacks
    made as they come, all against the outcomes of LibWaku. */
module LibWakuApi {
  import opened Wrappers
  import opened SharedHeap
  import opened Topics
  import opened LibWaku

  // Everything that was live still is, unchanged, and n blocks have been added.
  ghost predicate Grown(before: map<Addr, Bytes>, after: map<Addr, Bytes>, n: nat) {
    && before.Keys <= after.Keys
    && (forall a :: a in before ==> after[a] == before[a])
    && |after.Keys - before.Keys| == n
  }

  lemma GrownTwice(a: map<Addr, Bytes>, b: map<Addr, Bytes>, c: map<Addr, Bytes>, m: nat, n: nat)
    requires Grown(a, b, m) && Grown(b, c, n)
    ensures Grown(a, c, m + n)
  {
    assert c.Keys - a.Keys == (b.Keys - a.Keys) + (c.Keys - b.Keys);
  }

  // n addresses from `start` on.
  ghost function Range(start: Addr, n: nat): (r: set<Addr>)
    ensures forall a :: a in r <==> start <= a < start + n
    ensures |r| == n
  {
    if n == 0 then {} else Range(start, n - 1) + {start + n - 1}
  }

  lemma GrownBy(before: map<Addr, Bytes>, after: map<Addr, Bytes>, added: set<Addr>)
    requires forall a :: a in after <==> a in before || a in added
    requires forall a :: a in added ==> a !in before
    requires forall a :: a in before ==> after[a] == before[a]
    ensures Grown(before, after, |added|)
  {
    assert after.Keys - before.Keys == added;
  }

  // With the two blocks of an answer on the heap, and without them.
  lemma AnswerOnHeap(before: map<Addr, Bytes>, after: map<Addr, Bytes>, residue: set<Addr>, resp: Addr, content: Addr)
    requires forall a :: a in after <==> a in before || a in residue || a == resp || a == content
    requires forall a :: a in residue ==> a !in before
    requires forall a :: a in before ==> after[a] == before[a]
    requires resp != content && resp !in before && content !in before && resp !in residue && content !in residue
    ensures Grown(before, after, |residue| + 2)
    ensures Grown(before, after - {resp, content}, |residue|)
  {
    hide Grown;
    assert |residue + {resp, content}| == |residue| + 2;
    GrownBy(before, after, residue + {resp, content});
    GrownBy(before, after - {resp, content}, residue);
  }

  // The blocks of a request made from `start` on; its pubsub topic, if it has one, is the second.
  predicate BlockOf(r: Request, start: Addr, a: Addr) { start <= a < start + BlockCount(r) }

  predicate Forgotten(r: Request, start: Addr, a: Addr) { r.RelayRequest? && a == start + 1 }

  // The struct that the pointer to a request points to. The proof of a message has no place in it.
  datatype SharedRequest =
    | RelayStruct(relay: RelayOperation, pubsubTopic: Addr, payload: SharedSeq, contentTopic: Addr, meta: SharedSeq,
                  version: nat, timestamp: int, ephemeral: bool)
    | LifecycleStruct(lifecycle: LifecycleOperation, configJson: Addr)
    | PeerStruct(peerMultiAddr: Addr)
    | DebugStruct

  function SeqsOf(x: SharedRequest): set<SharedSeq> { if x.RelayStruct? then {x.payload, x.meta} else {} }

  ghost predicate HoldsBytes(blocks: map<Addr, Bytes>, p: SharedSeq, data: Addr, s: Bytes)
    reads p
  {
    p.data == data && p.elementSize == 1 && p.len == |s| && data in blocks && blocks[data] == s
  }

  // The struct's fields and the blocks they point to hold the request.
  ghost predicate Stored(blocks: map<Addr, Bytes>, r: Request, self: Addr, x: SharedRequest)
    reads SeqsOf(x)
  {
    && (forall a :: BlockOf(r, self, a) ==> a in blocks)
    && match r
       case RelayRequest(operation, topic, m) =>
         && x.RelayStruct? && x.relay == operation && x.payload != x.meta
         && x.pubsubTopic == self + 1 && blocks[self + 1] == topic + [NUL]
         && HoldsBytes(blocks, x.payload, self + 2, m.payload)
         && x.contentTopic == self + 3 && blocks[self + 3] == m.contentTopic + [NUL]
         && HoldsBytes(blocks, x.meta, self + 4, m.meta)
         && x.version == m.version && x.timestamp == m.timestamp && x.ephemeral == m.ephemeral
       case LifecycleRequest(operation) => x == LifecycleStruct(operation, self + 1)
       case PeerRequest(addr) => x == PeerStruct(self + 1) && blocks[self + 1] == addr + [NUL]
       case DebugRequest => x == DebugStruct
  }

  class Library {
    const heap: Heap
    var userData: Pointer
    var eventCallback: Pointer
    var eventUserData: Pointer
    // The callbacks made so far, and the requests that reached the node.
    var trace: seq<Callback>
    var handled: seq<Request>

    predicate Valid()
      reads this, heap
    {
      heap.Valid()
    }

    function Registered(): Registration
      reads this
    {
      Registration(eventCallback, eventUserData)
    }

    constructor ()
      ensures Valid() && fresh(heap) && Registered() == Registration(NIL, NIL) && trace == [] && handled == []
      ensures heap.blocks == map[] && heap.misfrees == 0
    {
      heap := new Heap();
      userData, eventCallback, eventUserData := NIL, NIL, NIL;
      trace, handled := [], [];
    }

    method Report(callback: Pointer, status: int, msg: Bytes, userData: Pointer)
      modifies this`trace
      ensures trace == old(trace) + [Callback(callback, status, msg, userData)]
    {
      trace := trace + [Callback(callback, status, msg, userData)];
    }

    // allocSharedSeq for bytes.
    method AllocByteSeq(s: Bytes) returns (p: SharedSeq)
      requires heap.Valid()
      modifies heap
      ensures heap.Valid() && fresh(p) && p.data == old(heap.next) && heap.next == p.data + 1
      ensures heap.misfrees == old(heap.misfrees) && p.len == |s| && p.elementSize == 1
      ensures p.data !in old(heap.blocks) && heap.blocks == old(heap.blocks)[p.data := s]
    {
      SinglesAreFlat(s);
      p := new SharedSeq(heap, Singles(s), 1);
      assert heap.blocks[p.data] == s;
    }

    // toSeq for bytes.
    method ReadByteSeq(p: SharedSeq) returns (s: Bytes)
      requires p.elementSize == 1 && p.data in heap.blocks && |heap.blocks[p.data]| == p.len
      ensures s == heap.blocks[p.data]
    {
      var elements := p.ToSeq(heap);
      FlatOfChunks(heap.blocks[p.data], 1, p.len);
      s := Flat(elements);
    }

    // The four copies of a relay request.
    method CopyRelay(operation: RelayOperation, topic: Bytes, m: Message) returns (x: SharedRequest)
      requires heap.Valid()
      modifies heap
      ensures heap.Valid() && heap.misfrees == old(heap.misfrees) && heap.next == old(heap.next) + 4
      ensures x.RelayStruct? && fresh(SeqsOf(x)) && x.payload != x.meta
      ensures x.relay == operation && x.pubsubTopic == old(heap.next) && x.contentTopic == x.pubsubTopic + 2
      ensures x.version == m.version && x.timestamp == m.timestamp && x.ephemeral == m.ephemeral
      ensures heap.blocks == old(heap.blocks)[x.pubsubTopic := topic + [NUL]][x.pubsubTopic + 1 := m.payload]
                             [x.contentTopic := m.contentTopic + [NUL]][x.contentTopic + 1 := m.meta]
      ensures HoldsBytes(heap.blocks, x.payload, x.pubsubTopic + 1, m.payload)
      ensures HoldsBytes(heap.blocks, x.meta, x.contentTopic + 1, m.meta)
    {
      var pubsubTopic := heap.AllocString(topic);
      var payload := AllocByteSeq(m.payload);
      var contentTopic := heap.AllocString(m.contentTopic);
      var meta := AllocByteSeq(m.meta);
      x := RelayStruct(operation, pubsubTopic, payload, contentTopic, meta, m.version, m.timestamp, m.ephemeral);
    }

    // createShared: the struct first, then its strings and sequences.
    method CreateRequest(r: Request) returns (self: Addr, x: SharedRequest)
      requires heap.Valid()
      modifies heap
      ensures heap.Valid() && heap.misfrees == old(heap.misfrees)
      ensures self == old(heap.next) && heap.next == self + BlockCount(r)
      ensures forall a :: a in heap.blocks <==> a in old(heap.blocks) || BlockOf(r, self, a)
      ensures forall a :: a in old(heap.blocks) ==> heap.blocks[a] == old(heap.blocks)[a]
      ensures fresh(SeqsOf(x)) && Stored(heap.blocks, r, self, x)
    {
      self := heap.AllocShared(1);
      match r
      case RelayRequest(operation, topic, m) =>
        x := CopyRelay(operation, topic, m);
      case LifecycleRequest(operation) =>
        var configJson := heap.AllocString([]);
        x := LifecycleStruct(operation, configJson);
      case PeerRequest(addr) =>
        var peerMultiAddr := heap.AllocString(addr);
        x := PeerStruct(peerMultiAddr);
      case DebugRequest =>
        x := DebugStruct;
    }

    // The request as the worker reads it off the heap.
    method ReadRequest(self: Addr, x: SharedRequest, ghost r: Request) returns (read: Request)
      requires Stored(heap.blocks, r, self, x)
      ensures read == Received(r)
    {
      hide CString;
      match x
      case RelayStruct(operation, pubsubTopic, payload, contentTopic, meta, version, timestamp, ephemeral) =>
        CopyReadsBack(r.pubsubTopic);
        CopyReadsBack(r.message.contentTopic);
        var payloadBytes := ReadByteSeq(payload);
        var metaBytes := ReadByteSeq(meta);
        var topic := CString(heap.blocks[contentTopic]);
        var message := Message(payloadBytes, topic, metaBytes, version, timestamp, ephemeral, []);
        read := RelayRequest(operation, CString(heap.blocks[pubsubTopic]), message);
      case LifecycleStruct(operation, _) =>
        read := LifecycleRequest(operation);
      case PeerStruct(peerMultiAddr) =>
        CopyReadsBack(r.peerMultiAddr);
        read := PeerRequest(CString(heap.blocks[peerMultiAddr]));
      case DebugStruct =>
        read := DebugRequest;
    }

    // destroyShared: the pubsub topic of a relay request is not among the blocks that are freed.
    method DestroyRequest(self: Addr, x: SharedRequest, ghost r: Request)
      requires heap.Valid() && Stored(heap.blocks, r, self, x)
      modifies heap, SeqsOf(x)
      ensures heap.Valid() && heap.misfrees == old(heap.misfrees) && heap.next == old(heap.next)
      ensures forall a :: a in heap.blocks <==> a in old(heap.blocks) && (BlockOf(r, self, a) ==> Forgotten(r, self, a))
      ensures forall a :: a in heap.blocks ==> heap.blocks[a] == old(heap.blocks)[a]
    {
      match x
      case RelayStruct(_, _, payload, contentTopic, meta, _, _, _) =>
        payload.Dealloc(heap);
        heap.DeallocShared(contentTopic);
        meta.Dealloc(heap);
        heap.DeallocShared(self);
      case LifecycleStruct(_, configJson) =>
        heap.DeallocShared(configJson);
        heap.DeallocShared(self);
      case PeerStruct(peerMultiAddr) =>
        heap.DeallocShared(peerMultiAddr);
        heap.DeallocShared(self);
      case DebugStruct =>
        heap.DeallocShared(self);
    }

    // The worker's side: read the request, destroy it and its envelope, answer with a struct and a C string.
    method Process(self: Addr, x: SharedRequest, ghost r: Request, envelope: Addr, text: Bytes)
      returns (resp: Addr, content: Addr)
      requires heap.Valid() && Stored(heap.blocks, r, self, x)
      requires envelope in heap.blocks && envelope == self + BlockCount(r)
      modifies heap, this`handled, SeqsOf(x)
      ensures handled == old(handled) + [Received(r)]
      ensures heap.Valid() && heap.misfrees == old(heap.misfrees)
      ensures resp == old(heap.next) && content == resp + 1 && resp != 0
      ensures forall a :: a in heap.blocks <==>
                || (a in old(heap.blocks) && a != envelope && (BlockOf(r, self, a) ==> Forgotten(r, self, a)))
                || a == resp || a == content
      ensures forall a :: a in heap.blocks && a in old(heap.blocks) ==> heap.blocks[a] == old(heap.blocks)[a]
      ensures heap.blocks[content] == text + [NUL]
    {
      hide Received;
      var request := ReadRequest(self, x, r);
      handled := handled + [request];
      DestroyRequest(self, x, r);
      hide Stored;
      heap.DeallocShared(envelope);
      resp := heap.AllocShared(1);
      content := heap.AllocString(text);
    }

    // The request and its envelope, before it is sent.
    method MakeRequest(r: Request) returns (self: Addr, x: SharedRequest, envelope: Addr)
      requires heap.Valid()
      modifies heap
      ensures heap.Valid() && heap.misfrees == old(heap.misfrees)
      ensures self == old(heap.next) && envelope == self + BlockCount(r) && heap.next == envelope + 1
      ensures forall a :: a in heap.blocks <==> a in old(heap.blocks) || BlockOf(r, self, a) || a == envelope
      ensures forall a :: a in old(heap.blocks) ==> heap.blocks[a] == old(heap.blocks)[a]
      ensures fresh(SeqsOf(x)) && Stored(heap.blocks, r, self, x)
    {
      self, x := CreateRequest(r);
      envelope := heap.AllocShared(1);
    }

    // A request that never reaches the worker stays where it is.
    method LeaveRequest(r: Request)
      requires Valid()
      modifies heap
      ensures Valid() && heap.misfrees == old(heap.misfrees)
      ensures Grown(old(heap.blocks), heap.blocks, BlockCount(r) + 1)
    {
      hide Stored;
      ghost var before, start := heap.blocks, heap.next;
      var _, _, _ := MakeRequest(r);
      GrownBy(before, heap.blocks, Range(start, BlockCount(r) + 1));
    }

    // A request that the worker handles; its answer lies on the heap.
    method PassRequest(r: Request, text: Bytes) returns (resp: Addr, content: Addr, ghost residue: set<Addr>)
      requires Valid()
      modifies heap, this`handled
      ensures Valid() && heap.misfrees == old(heap.misfrees) && handled == old(handled) + [Received(r)]
      ensures |residue| == Residue(r) && content == resp + 1
      ensures resp !in old(heap.blocks) && content !in old(heap.blocks) && resp !in residue && content !in residue
      ensures forall a :: a in residue ==> a !in old(heap.blocks)
      ensures forall a :: a in heap.blocks <==> a in old(heap.blocks) || a in residue || a == resp || a == content
      ensures forall a :: a in old(heap.blocks) ==> heap.blocks[a] == old(heap.blocks)[a]
      ensures heap.blocks[content] == text + [NUL]
    {
      hide Stored, Received;
      var self, x, envelope := MakeRequest(r);
      residue := if r.RelayRequest? then {self + 1} else {};
      resp, content := Process(self, x, r, envelope, text);
    }

    // Reads the answer and frees both of its blocks.
    method TakeAnswer(resp: Addr, content: Addr, ghost text: Bytes) returns (answer: Bytes)
      requires Valid() && resp in heap.blocks && content in heap.blocks && resp != content
      requires heap.blocks[content] == text + [NUL]
      modifies heap
      ensures Valid() && heap.misfrees == old(heap.misfrees) && heap.blocks == old(heap.blocks) - {resp, content}
      ensures answer == CString(text)
    {
      CopyReadsBack(text);
      answer := CString(heap.blocks[content]);
      heap.DeallocShared(content);
      heap.DeallocShared(resp);
    }

    // A request that the worker handles; its answer is read, or stays unread.
    method HandleRequest(r: Request, text: Bytes, read: bool) returns (answer: Bytes)
      requires Valid()
      modifies heap, this`handled
      ensures Valid() && heap.misfrees == old(heap.misfrees) && handled == old(handled) + [Received(r)]
      ensures answer == CString(text)
      ensures Grown(old(heap.blocks), heap.blocks, Residue(r) + (if read then 0 else 2))
    {
      hide CString, Grown;
      ghost var before := heap.blocks;
      var resp, content, residue := PassRequest(r, text);
      AnswerOnHeap(before, heap.blocks, residue, resp, content);
      if read {
        answer := TakeAnswer(resp, content, text);
      } else {
        answer := CString(text);
      }
    }

    // sendRequestToWakuThread, from the creation of the request to the reading of the answer.
    method SendRequest(r: Request, t: Transport) returns (answer: Result<Bytes, Bytes>)
      requires Valid()
      modifies heap, this`handled
      ensures Valid() && heap.misfrees == old(heap.misfrees)
      ensures answer == AnswerOf(t)
      ensures Grown(old(heap.blocks), heap.blocks, RequestLeak(r, t))
      ensures handled == old(handled) + (if Handled(t) then [Received(r)] else [])
    {
      hide CString, Grown, Residue, BlockCount;
      if t.NotSent? || t.NotSignalled? {
        LeaveRequest(r);
        return Failure(t.error);
      }
      if t.NoResponse? {
        var _ := HandleRequest(r, t.error, false);
        return Failure(t.error);
      }
      var value := t.answer;
      var text := HandleRequest(r, if value.Success? then value.value else value.error, true);
      answer := if value.Success? then Success(text) else Failure(text);
    }

    //// The exported procs

    // The effect of a step on the heap, the callbacks and the node.
    twostate predicate Performed(o: Outcome)
      reads this, heap
    {
      && Valid()
      && trace == old(trace) + o.callbacks
      && handled == old(handled) + o.handled
      && Grown(old(heap.blocks), heap.blocks, o.leaked)
      && heap.misfrees == old(heap.misfrees) + o.misfrees
      && Registered() == old(Registered())
    }

    // waku_version and waku_default_pubsub_topic: a constant text.
    method ReportConstant(text: Bytes, callback: Pointer, userData: Pointer) returns (status: int)
      requires Valid()
      modifies this
      ensures status == if callback == NIL then RET_MISSING_CALLBACK else RET_OK
      ensures this.userData == userData && Valid() && Registered() == old(Registered()) && handled == old(handled)
      ensures trace == old(trace) + (if callback == NIL then [] else [Callback(callback, RET_OK, text, userData)])
    {
      this.userData := userData;
      if callback == NIL {
        return RET_MISSING_CALLBACK;
      }
      Report(callback, RET_OK, text, userData);
      return RET_OK;
    }

    // The three copies live only while the topic is formatted.
    method BuildContentTopic(appName: Bytes, appVersion: nat, contentTopicName: Bytes, encoding: Bytes)
      returns (contentTopic: Bytes)
      requires Valid() && Terminated(appName) && Terminated(contentTopicName) && Terminated(encoding)
      modifies heap
      ensures Valid() && heap.blocks == old(heap.blocks) && heap.misfrees == old(heap.misfrees)
      ensures contentTopic
              == FormatContentTopic(CString(appName), appVersion, CString(contentTopicName), CString(encoding))
    {
      hide CString, CLen, FormatContentTopic;
      CStringReadsBack(appName);
      CStringReadsBack(contentTopicName);
      CStringReadsBack(encoding);
      var appStr := heap.AllocCString(appName);
      var ctnStr := heap.AllocCString(contentTopicName);
      var encodingStr := heap.AllocCString(encoding);
      contentTopic := FormatContentTopic(CString(heap.blocks[appStr]), appVersion, CString(heap.blocks[ctnStr]),
                                         CString(heap.blocks[encodingStr]));
      heap.DeallocShared(appStr);
      heap.DeallocShared(ctnStr);
      heap.DeallocShared(encodingStr);
    }

    // waku_content_topic; the callback is made before the copies are freed, which it cannot see.
    method WakuContentTopic(appName: Bytes, appVersion: nat, contentTopicName: Bytes, encoding: Bytes,
                            callback: Pointer, userData: Pointer)
      returns (status: int)
      requires Valid() && Terminated(appName) && Terminated(contentTopicName) && Terminated(encoding)
      modifies this, heap
      ensures this.userData == userData
      ensures var o := OutcomeOf(old(Registered()),
                                 Invoke(MakeContentTopic(appName, appVersion, contentTopicName, encoding),
                                        callback, userData));
              Some(status) == o.status && Performed(o)
    {
      hide CString, FormatContentTopic, Grown;
      NotGrown(heap.blocks);
      this.userData := userData;
      if callback == NIL {
        return RET_MISSING_CALLBACK;
      }
      var contentTopic := BuildContentTopic(appName, appVersion, contentTopicName, encoding);
      Report(callback, RET_OK, contentTopic, userData);
      return RET_OK;
    }

    // waku_pubsub_topic
    method WakuPubsubTopic(topicName: Bytes, callback: Pointer, userData: Pointer) returns (status: int)
      requires Valid() && Terminated(topicName)
      modifies this, heap
      ensures this.userData == userData
      ensures var o := OutcomeOf(old(Registered()), Invoke(MakePubsubTopic(topicName), callback, userData));
              Some(status) == o.status && Performed(o)
    {
      hide CString, FormatPubsubTopic, CLen, Grown;
      NotGrown(heap.blocks);
      ghost var before := heap.blocks;
      this.userData := userData;
      if callback == NIL {
        return RET_MISSING_CALLBACK;
      }
      CStringReadsBack(topicName);
      var topicNameStr := heap.AllocCString(topicName);
      var outPubsubTopic := FormatPubsubTopic(CString(heap.blocks[topicNameStr]));
      Report(callback, RET_OK, outPubsubTopic, userData);
      heap.DeallocShared(topicNameStr);
      assert heap.blocks == before;
      return RET_OK;
    }

    // The part that publishing, subscribing and unsubscribing share: copy the topic, send, free the copy.
    method SendOnTopic(operation: RelayOperation, pubSubTopic: Bytes, message: Message, t: Transport)
      returns (answer: Result<Bytes, Bytes>)
      requires Valid() && Terminated(pubSubTopic)
      modifies heap, this`handled
      ensures Valid() && heap.misfrees == old(heap.misfrees) && answer == AnswerOf(t)
      ensures var r := RelayRequest(operation, CString(pubSubTopic), message);
              && Grown(old(heap.blocks), heap.blocks, RequestLeak(r, t))
              && handled == old(handled) + (if Handled(t) then [Received(r)] else [])
    {
      hide CString, CLen, RequestLeak, AnswerOf, Grown;
      ghost var before := heap.blocks;
      CStringReadsBack(pubSubTopic);
      var pst := heap.AllocCString(pubSubTopic);
      ghost var copied := heap.blocks;
      var r := RelayRequest(operation, CString(heap.blocks[pst]), message);
      answer := SendRequest(r, t);
      TemporaryBlock(before, copied, heap.blocks, pst, RequestLeak(r, t));
      heap.DeallocShared(pst);
    }

    // The JSON text is copied and freed again, twice if it does not parse.
    method ParseJson(jsonWakuMessage: Bytes, parse: ParseOutcome, callback: Pointer, userData: Pointer)
      requires Valid() && Terminated(jsonWakuMessage)
      modifies heap, this`trace
      ensures Valid() && heap.blocks == old(heap.blocks)
      ensures heap.misfrees == old(heap.misfrees) + (if parse.ParsingError? then 1 else 0)
      ensures trace
              == old(trace) + (if parse.ParsingError? then [Callback(callback, RET_ERR, parse.text, userData)] else [])
    {
      var jwm := heap.AllocCString(jsonWakuMessage);
      if parse.ParsingError? {
        heap.DeallocShared(jwm);
        Report(callback, RET_ERR, parse.text, userData);
      }
      // the finally branch
      heap.DeallocShared(jwm);
    }

    // waku_relay_publish; no status when an exception other than a parsing error leaves it.
    method WakuRelayPublish(pubSubTopic: Bytes, jsonWakuMessage: Bytes, parse: ParseOutcome, t: Transport,
                            callback: Pointer, userData: Pointer)
      returns (status: Option<int>)
      requires Valid() && Terminated(pubSubTopic) && Terminated(jsonWakuMessage)
      modifies this, heap
      ensures this.userData == userData
      ensures var o := OutcomeOf(old(Registered()),
                                 Invoke(RelayPublish(pubSubTopic, jsonWakuMessage, parse, t), callback, userData));
              status == o.status && Performed(o)
    {
      hide Grown, OutcomeOf;
      PublishOutcome(Registered(), pubSubTopic, jsonWakuMessage, parse, t, callback, userData);
      hide CString, RequestLeak, AnswerOf;
      NotGrown(heap.blocks);
      this.userData := userData;
      if callback == NIL {
        return Some(RET_MISSING_CALLBACK);
      }
      ParseJson(jsonWakuMessage, parse, callback, userData);
      match parse
      case ParsingError(_) => return Some(RET_ERR);
      case OtherError => return None;
      case Parsed(built) =>
        if built.Failure? {
          Report(callback, RET_ERR, built.error, userData);
          return Some(RET_ERR);
        }
        var sendReqRes := SendOnTopic(PUBLISH, pubSubTopic, built.value, t);
        match sendReqRes {
          case Failure(msg) =>
            Report(callback, RET_ERR, msg, userData);
            return Some(RET_ERR);
          case Success(msgHash) =>
            Report(callback, RET_OK, msgHash, userData);
            return Some(RET_OK);
        }
    }

    // waku_relay_subscribe, and waku_relay_unsubscribe, which sends the same operation.
    method WakuRelaySubscribe(unsubscribe: bool, pubSubTopic: Bytes, t: Transport, callback: Pointer,
                              userData: Pointer) returns (status: int)
      requires Valid() && Terminated(pubSubTopic) && callback != NIL
      modifies this, heap
      ensures this.userData == userData
      ensures var call := if unsubscribe then RelayUnsubscribe(pubSubTopic, t) else RelaySubscribe(pubSubTopic, t);
              var o := OutcomeOf(old(Registered()), Invoke(call, callback, userData));
              Some(status) == o.status && Performed(o)
    {
      hide Grown, OutcomeOf;
      SubscribeOutcome(Registered(), unsubscribe, pubSubTopic, t, callback, userData);
      hide CString, RequestLeak, AnswerOf;
      this.userData := userData;
      var sendReqRes := SendOnTopic(SUBSCRIBE, pubSubTopic, NO_MESSAGE, t);
      if sendReqRes.Failure? {
        Report(callback, RET_ERR, sendReqRes.error, userData);
        return RET_ERR;
      }
      return RET_OK;
    }

    // waku_connect
    method WakuConnect(peerMultiAddr: Bytes, t: Transport, callback: Pointer, userData: Pointer) returns (status: int)
      requires Valid() && Terminated(peerMultiAddr) && callback != NIL
      modifies this, heap
      ensures this.userData == userData
      ensures var o := OutcomeOf(old(Registered()), Invoke(Connect(peerMultiAddr, t), callback, userData));
              Some(status) == o.status && Performed(o)
    {
      hide Grown, OutcomeOf;
      ConnectOutcome(Registered(), peerMultiAddr, t, callback, userData);
      hide CString, RequestLeak, AnswerOf;
      this.userData := userData;
      var connRes := SendRequest(PeerRequest(CString(peerMultiAddr)), t);
      if connRes.Failure? {
        Report(callback, RET_ERR, connRes.error, userData);
        return RET_ERR;
      }
      return RET_OK;
    }

    // waku_listen_addresses
    method WakuListenAddresses(t: Transport, callback: Pointer, userData: Pointer) returns (status: int)
      requires Valid() && callback != NIL
      modifies this, heap
      ensures this.userData == userData
      ensures var o := OutcomeOf(old(Registered()), Invoke(ListenAddresses(t), callback, userData));
              Some(status) == o.status && Performed(o)
    {
      hide Grown, OutcomeOf;
      OtherOutcomes(Registered(), t, callback, userData);
      hide RequestLeak, AnswerOf;
      this.userData := userData;
      var connRes := SendRequest(DebugRequest, t);
      match connRes
      case Failure(msg) =>
        Report(callback, RET_ERR, msg, userData);
        return RET_ERR;
      case Success(msg) =>
        Report(callback, RET_OK, msg, userData);
        return RET_OK;
    }

    // waku_start and waku_stop: the answer is discarded.
    method WakuStartStop(stop: bool, t: Transport, callback: Pointer, userData: Pointer) returns (status: int)
      requires Valid()
      modifies this, heap
      ensures this.userData == userData
      ensures var o := OutcomeOf(old(Registered()), Invoke(if stop then Stop(t) else Start(t), callback, userData));
              Some(status) == o.status && Performed(o)
    {
      hide Grown, OutcomeOf;
      OtherOutcomes(Registered(), t, callback, userData);
      hide RequestLeak, AnswerOf;
      this.userData := userData;
      var _ := SendRequest(LifecycleRequest(if stop then STOP_NODE else START_NODE), t);
      return RET_OK;
    }

    // waku_destroy: a thread that cannot be stopped is reported; the context itself is not modelled.
    method WakuDestroy(stopped: Result<(), Bytes>, callback: Pointer, userData: Pointer) returns (status: int)
      requires Valid()
      modifies this`trace
      ensures var o := OutcomeOf(old(Registered()), Invoke(Destroy(stopped), callback, userData));
              Some(status) == o.status && Performed(o)
    {
      hide Grown;
      NotGrown(heap.blocks);
      if callback == NIL {
        return RET_MISSING_CALLBACK;
      }
      if stopped.Failure? {
        Report(callback, RET_ERR, stopped.error, userData);
        return RET_ERR;
      }
      return RET_OK;
    }

    // waku_set_event_callback
    method WakuSetEventCallback(callback: Pointer, userData: Pointer)
      modifies this`eventCallback, this`eventUserData
      ensures Registered() == Registration(callback, userData)
    {
      eventCallback := callback;
      eventUserData := userData;
    }

    // relayEventCallback
    method DeliverRelayEvent(event: Result<Bytes, Bytes>)
      requires Valid()
      modifies this`trace
      ensures Performed(OutcomeOf(old(Registered()), RelayEvent(event)))
    {
      NotGrown(heap.blocks);
      if eventCallback == NIL {
        return;
      }
      if eventUserData == NIL {
        return;
      }
      match event
      case Success(text) => Report(eventCallback, RET_OK, text, eventUserData);
      case Failure(text) => Report(eventCallback, RET_ERR, text, eventUserData);
    }

    // One step of an application.
    method Execute(s: Step) returns (status: Option<int>)
      requires Valid() && WellFormed(s)
      modifies this, heap
      ensures var o := OutcomeOf(old(Registered()), s);
              && status == o.status && Valid()
              && trace == old(trace) + o.callbacks && handled == old(handled) + o.handled
              && Grown(old(heap.blocks), heap.blocks, o.leaked) && heap.misfrees == old(heap.misfrees) + o.misfrees
      ensures Registered() == NextRegistration(old(Registered()), s)
    {
      hide Grown, OutcomeOf;
      status := None;
      match s
      case SetEventCallback(callback, userData) =>
        SimpleOutcomes(Registered(), s);
        NotGrown(heap.blocks);
        WakuSetEventCallback(callback, userData);
      case RelayEvent(event) =>
        SimpleOutcomes(Registered(), s);
        DeliverRelayEvent(event);
      case Invoke(call, callback, userData) =>
        status := ExecuteCall(call, callback, userData);
    }

    method ExecuteCall(call: Call, callback: Pointer, userData: Pointer) returns (status: Option<int>)
      requires Valid() && WellFormed(Invoke(call, callback, userData))
      modifies this, heap
      ensures var o := OutcomeOf(old(Registered()), Invoke(call, callback, userData));
              status == o.status && Performed(o)
    {
      hide Grown, OutcomeOf;
      var code: int;
      match call {
        case RelayPublish(topic, json, parse, t) =>
          status := WakuRelayPublish(topic, json, parse, t, callback, userData);
          return;
        case Version(text) =>
          SimpleOutcomes(Registered(), Invoke(call, callback, userData));
          NotGrown(heap.blocks);
          code := ReportConstant(text, callback, userData);
        case DefaultTopic =>
          SimpleOutcomes(Registered(), Invoke(call, callback, userData));
          NotGrown(heap.blocks);
          code := ReportConstant(DEFAULT_PUBSUB_TOPIC, callback, userData);
        case StoreQuery =>
          SimpleOutcomes(Registered(), Invoke(call, callback, userData));
          NotGrown(heap.blocks);
          this.userData := userData;
          code := RET_OK;
        case MakeContentTopic(app, version, name, encoding) =>
          code := WakuContentTopic(app, version, name, encoding, callback, userData);
        case MakePubsubTopic(name) => code := WakuPubsubTopic(name, callback, userData);
        case RelaySubscribe(topic, t) => code := WakuRelaySubscribe(false, topic, t, callback, userData);
        case RelayUnsubscribe(topic, t) => code := WakuRelaySubscribe(true, topic, t, callback, userData);
        case Connect(addr, t) => code := WakuConnect(addr, t, callback, userData);
        case ListenAddresses(t) => code := WakuListenAddresses(t, callback, userData);
        case Start(t) => code := WakuStartStop(false, t, callback, userData);
        case Stop(t) => code := WakuStartStop(true, t, callback, userData);
        case Destroy(stopped) => code := WakuDestroy(stopped, callback, userData);
      }
      status := Some(code);
    }

    // A whole application: the callbacks it sees, the requests that the node handles and the blocks left
    // behind are those of the steps.
    method Session(steps: seq<Step>)
      requires Valid() && WellFormedRun(steps)
      modifies this, heap
      ensures Valid() && trace == old(trace) + Trace(old(Registered()), steps)
      ensures Grown(old(heap.blocks), heap.blocks, Leaked(steps))
      ensures heap.misfrees == old(heap.misfrees) + Misfrees(steps)
      ensures handled == old(handled) + HandledIn(steps)
      decreases |steps|
    {
      hide Grown, OutcomeOf, WellFormed, NextRegistration;
      RunOfOneMore(Registered(), steps);
      hide Trace, Leaked, Misfrees, HandledIn;
      if |steps| == 0 {
        NotGrown(heap.blocks);
      } else {
        ghost var before, o := heap.blocks, OutcomeOf(Registered(), steps[0]);
        var _ := Execute(steps[0]);
        ghost var here := heap.blocks;
        Session(steps[1..]);
        GrownTwice(before, here, heap.blocks, o.leaked, Leaked(steps[1..]));
      }
    }
  }

  lemma RunOfOneMore(reg: Registration, steps: seq<Step>)
    ensures steps == [] ==> Trace(reg, steps) == [] && Leaked(steps) == Misfrees(steps) == 0 && HandledIn(steps) == []
    ensures steps != [] ==>
              var o, rest := OutcomeOf(reg, steps[0]), steps[1..];
              && Trace(reg, steps) == o.callbacks + Trace(NextRegistration(reg, steps[0]), rest)
              && Leaked(steps) == o.leaked + Leaked(rest) && Misfrees(steps) == o.misfrees + Misfrees(rest)
              && HandledIn(steps) == o.handled + HandledIn(rest)
  {
    hide OutcomeOf;
    if steps != [] { RegistrationIsIrrelevant(reg, steps[0]); }
  }

  // The outcomes of the steps that touch neither heap nor node.
  lemma SimpleOutcomes(reg: Registration, s: Step)
    ensures var o := OutcomeOf(reg, s);
            match s
            case SetEventCallback(_, _) => o == Outcome(None, [], 0, 0, [])
            case RelayEvent(_) => o.status == None && o.leaked == 0 && o.misfrees == 0
            case Invoke(Version(text), callback, userData) => o == ConstantOutcome(text, callback, userData)
            case Invoke(DefaultTopic, callback, userData) =>
              o == ConstantOutcome(DEFAULT_PUBSUB_TOPIC, callback, userData)
            case Invoke(StoreQuery, _, _) => o == Outcome(Some(RET_OK), [], 0, 0, [])
            case _ => true
  {}

  function ConstantOutcome(text: Bytes, callback: Pointer, userData: Pointer): Outcome {
    if callback == NIL then Outcome(Some(RET_MISSING_CALLBACK), [], 0, 0, [])
    else Outcome(Some(RET_OK), [Callback(callback, RET_OK, text, userData)], 0, 0, [])
  }

  lemma NotGrown(blocks: map<Addr, Bytes>)
    ensures Grown(blocks, blocks, 0)
  {
    assert blocks.Keys - blocks.Keys == {};
  }

  //// The outcomes of the calls that send requests, case by case

  function SentOutcome(status: int, callbacks: seq<Callback>, r: Request, t: Transport): Outcome {
    Outcome(Some(status), callbacks, RequestLeak(r, t), 0, if Handled(t) then [Received(r)] else [])
  }

  function QuietOutcome(r: Request, t: Transport, callback: Pointer, userData: Pointer): Outcome {
    match AnswerOf(t)
    case Success(_) => SentOutcome(RET_OK, [], r, t)
    case Failure(e) => SentOutcome(RET_ERR, [Callback(callback, RET_ERR, e, userData)], r, t)
  }

  function TellingOutcome(r: Request, t: Transport, callback: Pointer, userData: Pointer): Outcome {
    match AnswerOf(t)
    case Success(v) => SentOutcome(RET_OK, [Callback(callback, RET_OK, v, userData)], r, t)
    case Failure(e) => SentOutcome(RET_ERR, [Callback(callback, RET_ERR, e, userData)], r, t)
  }

  lemma SubscribeOutcome(reg: Registration, unsubscribe: bool, topic: Bytes, t: Transport, callback: Pointer,
                         userData: Pointer)
    ensures OutcomeOf(reg,
                      Invoke(if unsubscribe then RelayUnsubscribe(topic, t) else RelaySubscribe(topic, t),
                             callback, userData))
            == QuietOutcome(RelayRequest(SUBSCRIBE, CString(topic), NO_MESSAGE), t, callback, userData)
  {
    hide CString, RequestLeak, AnswerOf;
  }

  lemma ConnectOutcome(reg: Registration, addr: Bytes, t: Transport, callback: Pointer, userData: Pointer)
    ensures OutcomeOf(reg, Invoke(Connect(addr, t), callback, userData))
            == QuietOutcome(PeerRequest(CString(addr)), t, callback, userData)
  {
    hide CString, RequestLeak, AnswerOf;
  }

  lemma OtherOutcomes(reg: Registration, t: Transport, callback: Pointer, userData: Pointer)
    ensures OutcomeOf(reg, Invoke(ListenAddresses(t), callback, userData))
            == TellingOutcome(DebugRequest, t, callback, userData)
    ensures OutcomeOf(reg, Invoke(Start(t), callback, userData))
            == SentOutcome(RET_OK, [], LifecycleRequest(START_NODE), t)
    ensures OutcomeOf(reg, Invoke(Stop(t), callback, userData))
            == SentOutcome(RET_OK, [], LifecycleRequest(STOP_NODE), t)
  {
    hide RequestLeak, AnswerOf;
  }

  lemma PublishOutcome(reg: Registration, topic: Bytes, json: Bytes, parse: ParseOutcome, t: Transport,
                       callback: Pointer, userData: Pointer)
    ensures OutcomeOf(reg, Invoke(RelayPublish(topic, json, parse, t), callback, userData))
            == if callback == NIL then Outcome(Some(RET_MISSING_CALLBACK), [], 0, 0, [])
               else match parse
                    case ParsingError(text) =>
                      Outcome(Some(RET_ERR), [Callback(callback, RET_ERR, text, userData)], 0, 1, [])
                    case OtherError => Outcome(None, [], 0, 0, [])
                    case Parsed(Failure(text)) =>
                      Outcome(Some(RET_ERR), [Callback(callback, RET_ERR, text, userData)], 0, 0, [])
                    case Parsed(Success(m)) =>
                      TellingOutcome(RelayRequest(PUBLISH, CString(topic), m), t, callback, userData)
  {
    hide CString, RequestLeak, AnswerOf;
  }

  lemma CStringReadsBack(a: Bytes)
    ensures CString(CString(a) + [NUL]) == CString(a)
  {
    CLenOfConcat(CString(a), []);
    assert CString(a) + [NUL] + [] == CString(a) + [NUL];
  }

  // A block that is taken before some growth and given back after it.
  lemma TemporaryBlock(before: map<Addr, Bytes>, copied: map<Addr, Bytes>, after: map<Addr, Bytes>, p: Addr, n: nat)
    requires p !in before && p in copied && copied == before[p := copied[p]]
    requires Grown(copied, after, n)
    ensures p in after && Grown(before, after - {p}, n)
  {
    assert (after - {p}).Keys - before.Keys == after.Keys - copied.Keys;
  }
}
