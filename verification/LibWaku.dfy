/** The C API of the node (library/libwaku.nim) with the requests it passes to the worker thread
    (library/waku_thread): what every call returns, reports and leaves behind on the shared heap. */
module LibWaku {
  import opened Wrappers
  import opened SharedHeap
  import opened Topics

  type Pointer = nat
  const NIL: Pointer := 0

  const RET_OK: int := 0
  const RET_ERR: int := 1
  const RET_MISSING_CALLBACK: int := 2

  // "/waku/2/default-waku/proto"
  const DEFAULT_PUBSUB_TOPIC: Bytes :=
    [47, 119, 97, 107, 117, 47, 50, 47, 100, 101, 102, 97, 117, 108, 116, 45, 119, 97, 107, 117, 47, 112, 114, 111,
     116, 111]

  datatype Callback = Callback(fn: Pointer, status: int, msg: Bytes, userData: Pointer)

  //// Requests to the worker thread

  datatype RelayOperation = SUBSCRIBE | UNSUBSCRIBE | PUBLISH
  datatype LifecycleOperation = CREATE_NODE | START_NODE | STOP_NODE
  datatype Message = Message(payload: Bytes, contentTopic: Bytes, meta: Bytes, version: nat, timestamp: int,
                             ephemeral: bool, proof: Bytes)

  datatype Request =
    | RelayRequest(relay: RelayOperation, pubsubTopic: Bytes, message: Message)
    | LifecycleRequest(lifecycle: LifecycleOperation)
    | PeerRequest(peerMultiAddr: Bytes)
    | DebugRequest

  const NO_MESSAGE: Message := Message([], [], [], 0, 0, false, [])

  // The request as the worker reads it: strings travel as C strings, and the proof of a message does not
  // travel at all.
  function Received(r: Request): Request {
    match r
    case RelayRequest(operation, topic, m) =>
      RelayRequest(operation, CString(topic), m.(contentTopic := CString(m.contentTopic), proof := []))
    case PeerRequest(addr) => PeerRequest(CString(addr))
    case _ => r
  }

  lemma CStringIsWhole(s: Bytes)
    ensures CString(s) == s <==> NUL !in s
  {
    if NUL in s { TerminatedLength(s); }
  }

  // A request is handled as it was sent exactly when its strings are free of NULs and there is no proof.
  lemma RequestArrivesIntact(r: Request)
    ensures Received(r) == r
            <==> match r
                 case RelayRequest(_, topic, m) => NUL !in topic && NUL !in m.contentTopic && m.proof == []
                 case PeerRequest(addr) => NUL !in addr
                 case _ => true
  {
    hide CString;
    match r
    case RelayRequest(_, topic, m) =>
      CStringIsWhole(topic);
      CStringIsWhole(m.contentTopic);
    case PeerRequest(addr) => CStringIsWhole(addr);
    case _ =>
  }

  // How far a request gets: the channel refuses it, the signal fails, the worker's answer does not come
  // back, or it does.
  datatype Transport =
    | NotSent(error: Bytes)
    | NotSignalled(error: Bytes)
    | NoResponse(error: Bytes)
    | Answered(answer: Result<Bytes, Bytes>)

  predicate Handled(t: Transport) { t.NoResponse? || t.Answered? }

  // What the caller gets: the answer travels as a C string.
  function AnswerOf(t: Transport): Result<Bytes, Bytes> {
    match t
    case Answered(Success(value)) => Success(CString(value))
    case Answered(Failure(error)) => Failure(CString(error))
    case NotSent(error) => Failure(error)
    case NotSignalled(error) => Failure(error)
    case NoResponse(error) => Failure(error)
  }

  // The blocks a request is made of, without the envelope.
  function BlockCount(r: Request): nat {
    match r
    case RelayRequest(_, _, _) => 5
    case LifecycleRequest(_) => 2
    case PeerRequest(_) => 2
    case DebugRequest => 1
  }

  // A relay request is destroyed without its pubsub topic; the others completely.
  function Residue(r: Request): nat { if r.RelayRequest? then 1 else 0 }

  function RequestLeak(r: Request, t: Transport): nat {
    match t
    case Answered(_) => Residue(r)
    case NoResponse(_) => Residue(r) + 2
    case _ => BlockCount(r) + 1
  }

  //// Calls of the API and what they amount to

  datatype ParseOutcome = Parsed(built: Result<Message, Bytes>) | ParsingError(text: Bytes) | OtherError

  // String arguments are the caller's memory, terminated by a NUL.
  datatype Call =
    | Version(text: Bytes)
    | DefaultTopic
    | MakeContentTopic(appName: Bytes, appVersion: nat, contentTopicName: Bytes, encoding: Bytes)
    | MakePubsubTopic(topicName: Bytes)
    | RelayPublish(pubSubTopic: Bytes, json: Bytes, parse: ParseOutcome, transport: Transport)
    | RelaySubscribe(pubSubTopic: Bytes, transport: Transport)
    | RelayUnsubscribe(pubSubTopic: Bytes, transport: Transport)
    | Connect(peerMultiAddr: Bytes, transport: Transport)
    | ListenAddresses(transport: Transport)
    | Start(transport: Transport)
    | Stop(transport: Transport)
    | StoreQuery
    | Destroy(stopped: Result<(), Bytes>)

  datatype Step =
    | Invoke(call: Call, callback: Pointer, userData: Pointer)
    | SetEventCallback(callback: Pointer, userData: Pointer)
    | RelayEvent(event: Result<Bytes, Bytes>)

  datatype Registration = Registration(eventCallback: Pointer, eventUserData: Pointer)

  // status is absent when an exception leaves the call, and for steps that return nothing.
  datatype Outcome = Outcome(status: Option<int>, callbacks: seq<Callback>, leaked: nat, misfrees: nat,
                             handled: seq<Request>)

  predicate ChecksCallback(c: Call) {
    c.Version? || c.DefaultTopic? || c.MakeContentTopic? || c.MakePubsubTopic? || c.RelayPublish? || c.Destroy?
  }

  // The request a call sends, if it gets that far. Unsubscribing sends a subscribe operation, and an
  // empty topic is sent as it is.
  function RequestOf(c: Call): Option<(Request, Transport)> {
    match c
    case RelayPublish(topic, _, Parsed(Success(m)), t) => Some((RelayRequest(PUBLISH, CString(topic), m), t))
    case RelaySubscribe(topic, t) => Some((RelayRequest(SUBSCRIBE, CString(topic), NO_MESSAGE), t))
    case RelayUnsubscribe(topic, t) => Some((RelayRequest(SUBSCRIBE, CString(topic), NO_MESSAGE), t))
    case Connect(addr, t) => Some((PeerRequest(CString(addr)), t))
    case ListenAddresses(t) => Some((DebugRequest, t))
    case Start(t) => Some((LifecycleRequest(START_NODE), t))
    case Stop(t) => Some((LifecycleRequest(STOP_NODE), t))
    case _ => None
  }

  // What a call says, unless it returns early: a status, and the message reported with it.
  function Answer(c: Call): (Option<int>, Option<Bytes>) {
    match c
    case Version(text) => (Some(RET_OK), Some(text))
    case DefaultTopic => (Some(RET_OK), Some(DEFAULT_PUBSUB_TOPIC))
    case MakeContentTopic(app, version, name, encoding) =>
      (Some(RET_OK), Some(FormatContentTopic(CString(app), version, CString(name), CString(encoding))))
    case MakePubsubTopic(name) => (Some(RET_OK), Some(FormatPubsubTopic(CString(name))))
    case RelayPublish(_, _, ParsingError(text), _) => (Some(RET_ERR), Some(text))
    case RelayPublish(_, _, OtherError, _) => (None, None)
    case RelayPublish(_, _, Parsed(Failure(text)), _) => (Some(RET_ERR), Some(text))
    case RelayPublish(_, _, Parsed(Success(_)), t) =>
      (match AnswerOf(t) case Success(v) => (Some(RET_OK), Some(v)) case Failure(e) => (Some(RET_ERR), Some(e)))
    case RelaySubscribe(_, t) => SilentOnSuccess(t)
    case RelayUnsubscribe(_, t) => SilentOnSuccess(t)
    case Connect(_, t) => SilentOnSuccess(t)
    case ListenAddresses(t) =>
      (match AnswerOf(t) case Success(v) => (Some(RET_OK), Some(v)) case Failure(e) => (Some(RET_ERR), Some(e)))
    case Start(_) => (Some(RET_OK), None)
    case Stop(_) => (Some(RET_OK), None)
    case StoreQuery => (Some(RET_OK), None)
    case Destroy(Success(_)) => (Some(RET_OK), None)
    case Destroy(Failure(e)) => (Some(RET_ERR), Some(e))
  }

  function SilentOnSuccess(t: Transport): (Option<int>, Option<Bytes>) {
    match AnswerOf(t) case Success(_) => (Some(RET_OK), None) case Failure(e) => (Some(RET_ERR), Some(e))
  }

  function OutcomeOf(reg: Registration, s: Step): Outcome {
    match s
    case SetEventCallback(_, _) => Outcome(None, [], 0, 0, [])
    case RelayEvent(event) =>
      if reg.eventCallback == NIL || reg.eventUserData == NIL then Outcome(None, [], 0, 0, [])
      else
        var (status, text) := match event case Success(e) => (RET_OK, e) case Failure(e) => (RET_ERR, e);
        Outcome(None, [Callback(reg.eventCallback, status, text, reg.eventUserData)], 0, 0, [])
    case Invoke(call, callback, userData) =>
      if ChecksCallback(call) && callback == NIL then Outcome(Some(RET_MISSING_CALLBACK), [], 0, 0, [])
      else
        var (status, message) := Answer(call);
        var callbacks :=
          if status.Some? && message.Some? then [Callback(callback, status.value, message.value, userData)] else [];
        var misfrees := if call.RelayPublish? && call.parse.ParsingError? then 1 else 0;
        match RequestOf(call)
        case None => Outcome(status, callbacks, 0, misfrees, [])
        case Some((r, t)) =>
          Outcome(status, callbacks, RequestLeak(r, t), misfrees, if Handled(t) then [Received(r)] else [])
  }

  function NextRegistration(reg: Registration, s: Step): Registration {
    match s
    case SetEventCallback(callback, userData) => Registration(callback, userData)
    case _ => reg
  }

  predicate TerminatedArguments(c: Call) {
    match c
    case MakeContentTopic(app, version, name, encoding) =>
      Terminated(app) && Terminated(name) && Terminated(encoding) && version < 0x1_0000_0000
    case MakePubsubTopic(name) => Terminated(name)
    case RelayPublish(topic, json, _, _) => Terminated(topic) && Terminated(json)
    case RelaySubscribe(topic, _) => Terminated(topic)
    case RelayUnsubscribe(topic, _) => Terminated(topic)
    case Connect(addr, _) => Terminated(addr)
    case _ => true
  }

  // What the source takes for granted: C strings, and a callback wherever it is called unchecked.
  predicate WellFormed(s: Step) {
    s.Invoke? ==> TerminatedArguments(s.call) && (ChecksCallback(s.call) || s.callback != NIL)
  }

  // A destroyed context is freed: nothing can be called with it any more, and its node sends no events.
  predicate FreesContext(s: Step) {
    s.Invoke? && s.callback != NIL && s.call.Destroy? && s.call.stopped.Success?
  }

  predicate WellFormedRun(steps: seq<Step>) {
    && (forall i :: 0 <= i < |steps| ==> WellFormed(steps[i]))
    && (forall i :: 0 <= i < |steps| - 1 ==> !FreesContext(steps[i]))
  }

  //// Callback discipline over runs

  lemma CallDiscipline(reg: Registration, s: Step)
    ensures var o := OutcomeOf(reg, s);
            && |o.callbacks| <= 1
            && (s.Invoke? ==> forall cb :: cb in o.callbacks ==>
                  cb.fn == s.callback && cb.userData == s.userData && o.status == Some(cb.status))
            && (s.Invoke? && o.status == Some(RET_ERR) ==> |o.callbacks| == 1)
            && (o.status == Some(RET_MISSING_CALLBACK)
                <==> s.Invoke? && s.callback == NIL
                     && (s.call.Version? || s.call.DefaultTopic? || s.call.MakeContentTopic? || s.call.MakePubsubTopic?
                         || s.call.RelayPublish? || s.call.Destroy?))
            && (s.RelayEvent? ==> (|o.callbacks| == 1 <==> reg.eventCallback != NIL && reg.eventUserData != NIL)
                                  && forall cb :: cb in o.callbacks ==>
                                       cb.fn == reg.eventCallback && cb.userData == reg.eventUserData)
  {}

  function RegistrationAfter(reg: Registration, steps: seq<Step>): Registration
    decreases |steps|
  {
    if |steps| == 0 then reg else RegistrationAfter(NextRegistration(reg, steps[0]), steps[1..])
  }

  // The callbacks of a run, each with the position of the step that made it.
  function Trace(reg: Registration, steps: seq<Step>): seq<Callback>
    decreases |steps|
  {
    if |steps| == 0 then []
    else OutcomeOf(reg, steps[0]).callbacks + Trace(NextRegistration(reg, steps[0]), steps[1..])
  }

  // The pair set last before position i, or the initial one.
  function RegisteredAt(reg: Registration, steps: seq<Step>, i: nat): Registration
    requires i <= |steps|
  {
    RegistrationAfter(reg, steps[..i])
  }

  lemma RegisteredLater(reg: Registration, steps: seq<Step>, i: nat)
    requires i < |steps|
    ensures RegisteredAt(reg, steps, i + 1) == RegisteredAt(NextRegistration(reg, steps[0]), steps[1..], i)
  {
    assert steps[..i + 1][1..] == steps[1..][..i];
  }

  // It is the pair of the last registration before i, or the initial one if there is none.
  lemma {:induction false} RegisteredIsLastSet(reg: Registration, steps: seq<Step>, i: nat, j: nat)
    requires i <= |steps|
    requires j < i && steps[j].SetEventCallback? && forall k :: j < k < i ==> !steps[k].SetEventCallback?
    ensures RegisteredAt(reg, steps, i) == Registration(steps[j].callback, steps[j].userData)
    decreases i
  {
    if j == 0 {
      RegisteredLater(reg, steps, i - 1);
      assert forall k :: 0 <= k < i - 1 ==> steps[1..][k] == steps[k + 1];
      NothingSet(NextRegistration(reg, steps[0]), steps[1..], i - 1);
    } else {
      RegisteredLater(reg, steps, i - 1);
      assert forall k :: 0 <= k < i - 1 ==> steps[1..][k] == steps[k + 1];
      RegisteredIsLastSet(NextRegistration(reg, steps[0]), steps[1..], i - 1, j - 1);
    }
  }

  lemma {:induction false} NothingSet(reg: Registration, steps: seq<Step>, i: nat)
    requires i <= |steps| && forall k :: 0 <= k < i ==> !steps[k].SetEventCallback?
    ensures RegisteredAt(reg, steps, i) == reg
    decreases i
  {
    if i > 0 {
      RegisteredLater(reg, steps, i - 1);
      assert forall k :: 0 <= k < i - 1 ==> steps[1..][k] == steps[k + 1];
      NothingSet(NextRegistration(reg, steps[0]), steps[1..], i - 1);
    }
  }

  predicate MadeBy(reg: Registration, steps: seq<Step>, cb: Callback, i: nat)
    requires i < |steps|
  {
    var s, here := steps[i], RegisteredAt(reg, steps, i);
    match s
    case Invoke(_, callback, userData) =>
      cb.fn == callback && cb.userData == userData && OutcomeOf(here, s).status == Some(cb.status)
    case RelayEvent(_) => cb.fn == here.eventCallback != NIL && cb.userData == here.eventUserData != NIL
    case SetEventCallback(_, _) => false
  }

  // The steps that owe a callback: calls that return RET_ERR, and events while both pointers are set.
  predicate OwesCallback(reg: Registration, s: Step) {
    match s
    case Invoke(_, _, _) => OutcomeOf(reg, s).status == Some(RET_ERR)
    case RelayEvent(_) => reg.eventCallback != NIL && reg.eventUserData != NIL
    case SetEventCallback(_, _) => false
  }

  // makers[k] is the position of the step that made callback k: no step makes two, their order is that
  // of the steps, and no step that owes a callback is left out.
  predicate Attributed(reg: Registration, steps: seq<Step>, trace: seq<Callback>, makers: seq<nat>) {
    && |makers| == |trace|
    && (forall k, l :: 0 <= k < l < |makers| ==> makers[k] < makers[l])
    && (forall k :: 0 <= k < |makers| ==> makers[k] < |steps| && MadeBy(reg, steps, trace[k], makers[k]))
    && (forall i :: 0 <= i < |steps| && OwesCallback(RegisteredAt(reg, steps, i), steps[i]) ==> i in makers)
  }

  lemma FirstStepAttributed(reg: Registration, s: Step)
    ensures var made := OutcomeOf(reg, s).callbacks;
            && |made| <= 1 && (OwesCallback(reg, s) ==> made != [])
            && (forall steps: seq<Step> :: |steps| > 0 && steps[0] == s && made != [] ==>
                  MadeBy(reg, steps, made[0], 0))
  {
    CallDiscipline(reg, s);
  }

  lemma MadeLater(reg: Registration, steps: seq<Step>, cb: Callback, i: nat)
    requires i + 1 < |steps| && MadeBy(NextRegistration(reg, steps[0]), steps[1..], cb, i)
    ensures MadeBy(reg, steps, cb, i + 1)
  {
    RegisteredLater(reg, steps, i);
    hide OutcomeOf;
  }

  function Makers(here: seq<Callback>, later: seq<nat>): seq<nat> {
    seq(|here|, k => 0) + seq(|later|, k requires 0 <= k < |later| => later[k] + 1)
  }

  lemma NoneLeftOut(reg: Registration, steps: seq<Step>, here: seq<Callback>, later: seq<nat>)
    requires |steps| > 0 && (OwesCallback(reg, steps[0]) ==> here != [])
    requires var reg', rest := NextRegistration(reg, steps[0]), steps[1..];
             forall i :: 0 <= i < |rest| && OwesCallback(RegisteredAt(reg', rest, i), rest[i]) ==> i in later
    ensures forall i :: 0 <= i < |steps| && OwesCallback(RegisteredAt(reg, steps, i), steps[i]) ==>
              i in Makers(here, later)
  {
    hide OwesCallback;
    var makers := Makers(here, later);
    forall i | 0 <= i < |steps| && OwesCallback(RegisteredAt(reg, steps, i), steps[i]) ensures i in makers {
      if i == 0 {
        assert RegisteredAt(reg, steps, 0) == reg;
        assert makers[0] == 0;
      } else {
        RegisteredLater(reg, steps, i - 1);
        assert steps[1..][i - 1] == steps[i];
        var k :| 0 <= k < |later| && later[k] == i - 1;
        assert makers[|here| + k] == i;
      }
    }
  }

  lemma AllMade(reg: Registration, steps: seq<Step>, k: nat, here: seq<Callback>, later: seq<nat>)
    requires |steps| > 0 && here == OutcomeOf(reg, steps[0]).callbacks && k < |here| + |later|
    requires var reg', rest := NextRegistration(reg, steps[0]), steps[1..];
             && |later| == |Trace(reg', rest)|
             && forall l :: 0 <= l < |later| ==> later[l] < |rest| && MadeBy(reg', rest, Trace(reg', rest)[l], later[l])
    ensures var i := Makers(here, later)[k];
            |Trace(reg, steps)| == |here| + |later| && i < |steps| && MadeBy(reg, steps, Trace(reg, steps)[k], i)
  {
    hide OutcomeOf, MadeBy;
    var reg', rest := NextRegistration(reg, steps[0]), steps[1..];
    FirstStepAttributed(reg, steps[0]);
    assert Trace(reg, steps) == here + Trace(reg', rest);
    if k >= |here| { MadeLater(reg, steps, Trace(reg', rest)[k - |here|], later[k - |here|]); }
  }

  // In any interleaving of calls, registrations and relay events, the callbacks made belong one to one
  // to steps: to calls, with their callback, their user data and the code they return, or to events, with
  // the pair registered at that time; and every call that returns RET_ERR has its callback.
  lemma {:induction false} EveryCallbackIsAttributed(reg: Registration, steps: seq<Step>) returns (makers: seq<nat>)
    ensures Attributed(reg, steps, Trace(reg, steps), makers)
    decreases |steps|
  {
    hide OutcomeOf, MadeBy, OwesCallback, RegisteredAt, NextRegistration;
    if |steps| == 0 { return []; }
    var here := OutcomeOf(reg, steps[0]).callbacks;
    var later := EveryCallbackIsAttributed(NextRegistration(reg, steps[0]), steps[1..]);
    makers := Makers(here, later);
    FirstStepAttributed(reg, steps[0]);
    NoneLeftOut(reg, steps, here, later);
    assert |Trace(reg, steps)| == |makers|;
    hide Trace;
    forall k | 0 <= k < |makers| ensures makers[k] < |steps| && MadeBy(reg, steps, Trace(reg, steps)[k], makers[k]) {
      AllMade(reg, steps, k, here, later);
    }
  }

  //// The heap over runs

  function Leaked(steps: seq<Step>): nat {
    if |steps| == 0 then 0 else OutcomeOf(Registration(NIL, NIL), steps[0]).leaked + Leaked(steps[1..])
  }

  function Misfrees(steps: seq<Step>): nat {
    if |steps| == 0 then 0 else OutcomeOf(Registration(NIL, NIL), steps[0]).misfrees + Misfrees(steps[1..])
  }

  // A step that gives back exactly the blocks it took: it sends no relay request, any other request it
  // sends is answered, and it does not stumble over malformed JSON.
  predicate Clean(s: Step) {
    s.Invoke? && !(ChecksCallback(s.call) && s.callback == NIL) ==>
      && !(s.call.RelayPublish? && s.call.parse.ParsingError?)
      && match RequestOf(s.call)
         case None => true
         case Some((r, t)) => !r.RelayRequest? && t.Answered?
  }

  lemma {:induction false} HeapConservation(steps: seq<Step>)
    ensures Leaked(steps) == 0 && Misfrees(steps) == 0 <==> forall i :: 0 <= i < |steps| ==> Clean(steps[i])
  {
    if |steps| > 0 {
      HeapConservation(steps[1..]);
      assert forall i :: 0 <= i < |steps| - 1 ==> steps[1..][i] == steps[i + 1];
      StepConservation(steps[0]);
      if forall i :: 0 <= i < |steps| - 1 ==> Clean(steps[1..][i]) {
        assert forall i :: 1 <= i < |steps| ==> steps[i] == steps[1..][i - 1];
      }
      hide OutcomeOf, Clean;
    }
  }

  lemma StepConservation(s: Step)
    ensures var o := OutcomeOf(Registration(NIL, NIL), s);
            o.leaked == 0 && o.misfrees == 0 <==> Clean(s)
  {}

  // A subscription that succeeds leaves a block behind.
  lemma LeakExample(reg: Registration, callback: Pointer, userData: Pointer)
    ensures var o := OutcomeOf(reg, Invoke(RelaySubscribe([116, NUL], Answered(Success([]))), callback, userData));
            o.status == Some(RET_OK) && o.leaked == 1
  {}

  // The blocks that a call leaves behind, by what becomes of its request.
  lemma LeakTable(reg: Registration, c: Call, callback: Pointer, userData: Pointer)
    requires callback != NIL
    ensures var leaked := OutcomeOf(reg, Invoke(c, callback, userData)).leaked;
            match c
            case RelayPublish(_, _, Parsed(Success(_)), t) => leaked == RelayLeak(t)
            case RelaySubscribe(_, t) => leaked == RelayLeak(t)
            case RelayUnsubscribe(_, t) => leaked == RelayLeak(t)
            case Connect(_, t) => leaked == if t.Answered? then 0 else if t.NoResponse? then 2 else 3
            case Start(t) => leaked == if t.Answered? then 0 else if t.NoResponse? then 2 else 3
            case Stop(t) => leaked == if t.Answered? then 0 else if t.NoResponse? then 2 else 3
            case ListenAddresses(t) => leaked == if t.Answered? then 0 else 2
            case _ => leaked == 0
  {
    hide CString, AnswerOf, Received;
  }

  function RelayLeak(t: Transport): nat { if t.Answered? then 1 else if t.NoResponse? then 3 else 6 }

  // The requests that the node handles in a run, as it reads them.
  function HandledIn(steps: seq<Step>): seq<Request> {
    if |steps| == 0 then [] else OutcomeOf(Registration(NIL, NIL), steps[0]).handled + HandledIn(steps[1..])
  }

  // The heap and the node do not depend on what is registered.
  lemma RegistrationIsIrrelevant(reg: Registration, s: Step)
    ensures OutcomeOf(reg, s).leaked == OutcomeOf(Registration(NIL, NIL), s).leaked
    ensures OutcomeOf(reg, s).misfrees == OutcomeOf(Registration(NIL, NIL), s).misfrees
    ensures OutcomeOf(reg, s).handled == OutcomeOf(Registration(NIL, NIL), s).handled
  {}

  //// What the node is told

  // The message that the node publishes is the one built from the JSON text exactly when its content
  // topic has no NUL and it carries no proof.
  lemma PublishedIntact(reg: Registration, topic: Bytes, json: Bytes, m: Message, t: Transport,
                        callback: Pointer, userData: Pointer)
    requires callback != NIL && Handled(t)
    ensures var o := OutcomeOf(reg, Invoke(RelayPublish(topic, json, Parsed(Success(m)), t), callback, userData));
            o.handled == [RelayRequest(PUBLISH, CString(topic), m)] <==> NUL !in m.contentTopic && m.proof == []
  {
    RequestArrivesIntact(RelayRequest(PUBLISH, CString(topic), m));
    assert NUL !in CString(topic);
    hide CString, AnswerOf, RequestLeak;
  }

  // A message on the content topic "a", NUL, "b" goes out on "a", whatever text it was built from.
  lemma CutTopicExample(reg: Registration, json: Bytes, callback: Pointer, userData: Pointer)
    requires callback != NIL
    ensures var m := NO_MESSAGE.(contentTopic := [97, NUL, 98]);
            var o := OutcomeOf(reg, Invoke(RelayPublish([NUL], json, Parsed(Success(m)), Answered(Success([]))),
                                           callback, userData));
            && |o.handled| == 1 && o.handled[0].RelayRequest?
            && o.handled[0].message.contentTopic == [97]
  {
    CLenOfConcat([97], [98]);
    assert [97, NUL, 98] == [97] + [NUL] + [98];
  }

  lemma WhenHandled(t: Transport)
    ensures Handled(t) <==> !t.NotSent? && !t.NotSignalled?
  {}

  // The request that each call passes on, once it is handled; unsubscribing subscribes.
  lemma RequestsHandled(reg: Registration, c: Call, callback: Pointer, userData: Pointer)
    requires callback != NIL
    ensures var handled := OutcomeOf(reg, Invoke(c, callback, userData)).handled;
            match c
            case RelayPublish(topic, _, Parsed(Success(m)), t) =>
              var cut := m.(contentTopic := CString(m.contentTopic), proof := []);
              handled == if Handled(t) then [RelayRequest(PUBLISH, CString(topic), cut)] else []
            case RelaySubscribe(topic, t) =>
              handled == if Handled(t) then [RelayRequest(SUBSCRIBE, CString(topic), NO_MESSAGE)] else []
            case RelayUnsubscribe(topic, t) =>
              handled == if Handled(t) then [RelayRequest(SUBSCRIBE, CString(topic), NO_MESSAGE)] else []
            case Connect(addr, t) => handled == if Handled(t) then [PeerRequest(CString(addr))] else []
            case Start(t) => handled == if Handled(t) then [LifecycleRequest(START_NODE)] else []
            case Stop(t) => handled == if Handled(t) then [LifecycleRequest(STOP_NODE)] else []
            case ListenAddresses(t) => handled == if Handled(t) then [DebugRequest] else []
            case _ => handled == []
  {
    match c
    case RelayPublish(topic, _, Parsed(Success(_)), _) => CutOnce(topic);
    case RelaySubscribe(topic, _) => CutOnce(topic); CutOnce([]);
    case RelayUnsubscribe(topic, _) => CutOnce(topic); CutOnce([]);
    case Connect(addr, _) => CutOnce(addr);
    case _ =>
    hide CString, AnswerOf, RequestLeak;
  }

  lemma CutOnce(s: Bytes)
    ensures CString(CString(s)) == CString(s) && CString([]) == []
  {
    CStringIsWhole(CString(s));
  }

  //// What the caller is told

  // What a call reports that got its request sent: success exactly if the worker answered with success,
  // and the worker's text as a C string, or the error of the transport.
  lemma SendingCall(reg: Registration, c: Call, callback: Pointer, userData: Pointer)
    requires callback != NIL
    requires || (c.RelayPublish? && c.parse.Parsed? && c.parse.built.Success?)
             || c.RelaySubscribe? || c.RelayUnsubscribe? || c.Connect? || c.ListenAddresses?
    ensures var o, t := OutcomeOf(reg, Invoke(c, callback, userData)), c.transport;
            && (o.status == Some(RET_OK) <==> t.Answered? && t.answer.Success?)
            && (o.status == Some(RET_ERR) <==> !(t.Answered? && t.answer.Success?))
            && (t.Answered? && t.answer.Success? ==>
                  o.callbacks == if c.RelayPublish? || c.ListenAddresses?
                                 then [Callback(callback, RET_OK, CString(t.answer.value), userData)] else [])
            && (t.Answered? && t.answer.Failure? ==>
                  o.callbacks == [Callback(callback, RET_ERR, CString(t.answer.error), userData)])
            && (!t.Answered? ==> o.callbacks == [Callback(callback, RET_ERR, t.error, userData)])
  {
    hide CString, RequestLeak, Received;
  }

  // What a publish call reports that does not get that far: it raises, or gives the error of the JSON
  // parser or of the message.
  lemma UnsentPublish(reg: Registration, topic: Bytes, json: Bytes, parse: ParseOutcome, t: Transport,
                      callback: Pointer, userData: Pointer)
    requires callback != NIL
    ensures var o := OutcomeOf(reg, Invoke(RelayPublish(topic, json, parse, t), callback, userData));
            match parse
            case OtherError => o.status == None && o.callbacks == []
            case ParsingError(text) =>
              o.status == Some(RET_ERR) && o.callbacks == [Callback(callback, RET_ERR, text, userData)]
            case Parsed(Failure(text)) =>
              o.status == Some(RET_ERR) && o.callbacks == [Callback(callback, RET_ERR, text, userData)]
            case _ => true
  {
    hide CString;
  }

  lemma DefaultTopicText()
    ensures Ascii("/waku/2/default-waku/proto") == DEFAULT_PUBSUB_TOPIC
  {
    forall i | 0 <= i < 26 ensures Ascii("/waku/2/default-waku/proto")[i] == DEFAULT_PUBSUB_TOPIC[i] {}
  }

  // The calls that send nothing or discard the answer.
  lemma PlainCalls(reg: Registration, c: Call, callback: Pointer, userData: Pointer)
    requires callback != NIL
    ensures var o := OutcomeOf(reg, Invoke(c, callback, userData));
            match c
            case Version(text) =>
              o.status == Some(RET_OK) && o.callbacks == [Callback(callback, RET_OK, text, userData)]
            case DefaultTopic =>
              && o.status == Some(RET_OK)
              && o.callbacks == [Callback(callback, RET_OK, Ascii("/waku/2/default-waku/proto"), userData)]
            case Start(_) => o.status == Some(RET_OK) && o.callbacks == []
            case Stop(_) => o.status == Some(RET_OK) && o.callbacks == []
            case StoreQuery => o.status == Some(RET_OK) && o.callbacks == []
            case Destroy(Success(_)) => o.status == Some(RET_OK) && o.callbacks == []
            case Destroy(Failure(e)) =>
              o.status == Some(RET_ERR) && o.callbacks == [Callback(callback, RET_ERR, e, userData)]
            case _ => true
    ensures RET_OK == 0 && RET_ERR == 1 && RET_MISSING_CALLBACK == 2
  {
    DefaultTopicText();
    hide CString, RequestLeak, Received, Ascii;
  }

  // A delivered event arrives as it is; an exception while making it as an error.
  lemma EventDelivery(reg: Registration, event: Result<Bytes, Bytes>)
    requires reg.eventCallback != NIL && reg.eventUserData != NIL
    ensures OutcomeOf(reg, RelayEvent(event)).callbacks
            == match event
               case Success(text) => [Callback(reg.eventCallback, RET_OK, text, reg.eventUserData)]
               case Failure(text) => [Callback(reg.eventCallback, RET_ERR, text, reg.eventUserData)]
  {}

  // The one callback of a pubsub topic call reports a topic that the node reads back as the name the
  // caller passed, exactly when that is not empty and does not begin with rs.
  lemma PubsubTopicCall(reg: Registration, name: Bytes, callback: Pointer, userData: Pointer)
    requires callback != NIL
    ensures var o := OutcomeOf(reg, Invoke(MakePubsubTopic(name), callback, userData));
            && o.status == Some(RET_OK) && |o.callbacks| == 1 && o.leaked == 0
            && o.callbacks[0].msg == Ascii("/waku/2/") + CString(name)
            && (ParsePubsubTopic(o.callbacks[0].msg) == NamedSharding(CString(name))
                <==> CString(name) != [] && !(Ascii("rs") <= CString(name)))
  {
    Prefixes();
    assert Ascii("/waku/2/") == WAKU2 + [SLASH];
    hide CString, ParsePubsubTopic, Ascii;
    NamedTopicRoundTrip(CString(name));
  }

  // The one callback of a content topic call reports a topic that the node takes apart into the strings
  // the caller passed and the numeral of the number, exactly when none of the strings is empty or
  // contains a slash.
  lemma ContentTopicCall(reg: Registration, app: Bytes, version: nat, name: Bytes, encoding: Bytes, numeral: Bytes,
                         callback: Pointer, userData: Pointer, parseInt: Bytes -> Option<int>)
    requires callback != NIL && IsNumeral(numeral) && FromDecimal(numeral) == version
    ensures var o := OutcomeOf(reg, Invoke(MakeContentTopic(app, version, name, encoding), callback, userData));
            var (a, n, e) := (CString(app), CString(name), CString(encoding));
            && o.status == Some(RET_OK) && |o.callbacks| == 1 && o.leaked == 0
            && o.callbacks[0].msg == [SLASH] + a + [SLASH] + numeral + [SLASH] + n + [SLASH] + e
            && (ParseContentTopic(o.callbacks[0].msg, parseInt) == Success(NsContentTopic(None, a, numeral, n, e))
                <==> a != [] && n != [] && e != [] && SLASH !in a && SLASH !in n && SLASH !in e)
  {
    hide ParseContentTopic, CString, Decimal;
    DecimalIsTheNumeral(numeral, version);
    ContentTopicRoundTrip(CString(app), version, CString(name), CString(encoding), parseInt);
  }
}
