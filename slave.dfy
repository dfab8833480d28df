/** The worker side of the protocol (SlaveProcess in src/processmanager.js):
    two handler slots and the dispatcher that turns each message from the
    parent into handler invocations and replies. */
module Slave {
  import opened JsValues
  import opened Messages

  /** What a handler slot holds: the constructor's default, a user
      function, or a value that is not a function (on(event, null)). */
  datatype Handler = Builtin | User(id: nat) | NotCallable

  /** One call `cb(e, res)` made by a request handler. */
  datatype Completion = Completion(err: Value, res: Value)

  /** What a request handler does once invoked: the completions it makes,
      in order, and what it throws afterwards, if anything. The handler is
      user code, so this is an input of the model. */
  datatype Run = Run(completions: seq<Completion>, thrown: Option<Value>)

  /** The default request handler replies `cb(undefined, null)`. */
  const BuiltinRun: Run := Run([Completion(Undefined, Null)], None)

  /** Calling a slot that holds no function throws a TypeError. */
  const CallFailure: Run := Run([], Some(Error("handler is not a function")))

  /** How the handler in slot h behaves, given how a user handler would. */
  function Behaviour(h: Handler, run: Run): Run {
    match h
    case Builtin => BuiltinRun
    case User(_) => run
    case NotCallable => CallFailure
  }

  /** The response one completion sends, when `req` is the request. */
  function CompletionReply(req: Msg, c: Completion): (r: Msg)
    ensures r.tag == RESPONSE && r.reqId == req.reqId && IsStatus(r.status)
    ensures r.status == Some(ERROR) <==> !IsNullish(c.err)
    ensures r.status == Some(ERROR) ==> Some(r.content) == MessageOf(c.err)
    ensures r.status == Some(OK) ==> r.content == c.res
  {
    if !IsNullish(c.err) then GenErrorResponse(Some(req), MessageOf(c.err).value).value
    else GenResponse(Some(req), c.res).value
  }

  function CompletionReplies(req: Msg, cs: seq<Completion>): seq<Msg>
    decreases |cs|
  {
    if cs == [] then []
    else CompletionReplies(req, cs[..|cs| - 1]) + [CompletionReply(req, cs[|cs| - 1])]
  }

  /** What the catch around the handler sends: an error response with the
      thrown value's message; nothing when reading that message throws. */
  function ThrowReply(req: Msg, thrown: Option<Value>): (rs: seq<Msg>)
    ensures |rs| == (if thrown.Some? && !IsNullish(thrown.value) then 1 else 0)
    ensures forall m :: m in rs ==> && m.tag == RESPONSE && m.reqId == req.reqId
                                    && m.status == Some(ERROR) && Some(m.content) == MessageOf(thrown.value)
  {
    if thrown.Some? && !IsNullish(thrown.value)
    then [GenErrorResponse(Some(req), MessageOf(thrown.value).value).value]
    else []
  }

  /** Everything the dispatcher sends to the parent for one inbound message,
      when the request slot holds h and a user handler would behave as run. */
  function Replies(msg: Msg, h: Handler, run: Run): (rs: seq<Msg>)
    ensures msg.tag != PING && msg.tag != REQUEST ==> rs == []
    ensures forall m :: m in rs ==>
              if msg.tag == PING then m == GenPong()
              else m.tag == RESPONSE && m.reqId == msg.reqId && IsStatus(m.status)
  {
    if msg.tag == PING then [GenPong()]
    else if msg.tag == REQUEST then
      var b := Behaviour(h, run);
      CompletionRepliesAnswerRequest(msg, b.completions);
      CompletionReplies(msg, b.completions) + ThrowReply(msg, b.thrown)
    else []
  }

  /** The invocations of a user message handler one inbound message causes. */
  function Invoked(msg: Msg, h: Handler): seq<(nat, Value)> {
    if msg.tag == MESSAGE && h.User? then [(h.id, msg.content)] else []
  }

  function SlotFor(handler: Option<nat>): Handler {
    if handler.Some? then User(handler.value) else NotCallable
  }

  class SlaveProcess {
    var requestHandler: Handler
    var messageHandler: Handler
    /** Everything this worker has sent to its parent, in order. */
    var sent: seq<Msg>
    /** Every invocation of a user message handler, with its content. */
    var delivered: seq<(nat, Value)>

    constructor ()
      ensures requestHandler == Builtin && messageHandler == Builtin
      ensures sent == [] && delivered == []
    {
      requestHandler := Builtin;
      messageHandler := Builtin;
      sent := [];
      delivered := [];
    }

    /** Replaces one slot; any event other than request or message fails
      and changes nothing. */
    method On(event: string, handler: Option<nat>) returns (err: Option<string>)
      modifies this
      ensures err.Some? <==> event != REQUEST && event != MESSAGE
      ensures err.Some? ==> err.value == "Unknown event: " + event
      ensures requestHandler == (if event == REQUEST then SlotFor(handler) else old(requestHandler))
      ensures messageHandler == (if event == MESSAGE then SlotFor(handler) else old(messageHandler))
      ensures sent == old(sent) && delivered == old(delivered)
    {
      if event != REQUEST && event != MESSAGE {
        return Some("Unknown event: " + event);
      }
      if event == REQUEST {
        requestHandler := SlotFor(handler);
      } else {
        messageHandler := SlotFor(handler);
      }
      err := None;
    }

    /** Sends a note to the parent. */
    method SendMsg(content: Value)
      modifies this
      ensures sent == old(sent) + [GenMessage(content)]
      ensures requestHandler == old(requestHandler) && messageHandler == old(messageHandler)
      ensures delivered == old(delivered)
    {
      Send(GenMessage(content));
    }

    method Send(m: Msg)
      modifies this
      ensures sent == old(sent) + [m]
      ensures requestHandler == old(requestHandler) && messageHandler == old(messageHandler)
      ensures delivered == old(delivered)
    {
      sent := sent + [m];
    }

    /** Dispatches one message from the parent. */
    method OnMessage(msg: Msg, run: Run)
      modifies this
      ensures sent == old(sent) + Replies(msg, old(requestHandler), run)
      ensures delivered == old(delivered) + Invoked(msg, old(messageHandler))
      ensures requestHandler == old(requestHandler) && messageHandler == old(messageHandler)
    {
      if msg.tag == PING {
        Send(GenPong());
      } else if msg.tag == REQUEST {
        var b := Behaviour(requestHandler, run);
        var i := 0;
        while i < |b.completions|
          invariant 0 <= i <= |b.completions|
          invariant sent == old(sent) + CompletionReplies(msg, b.completions[..i])
          invariant requestHandler == old(requestHandler) && messageHandler == old(messageHandler)
          invariant delivered == old(delivered)
        {
          var c := b.completions[i];
          if !IsNullish(c.err) {
            var reply := GenErrorResponse(Some(msg), MessageOf(c.err).value);
            Send(reply.value);
          } else {
            var reply := GenResponse(Some(msg), c.res);
            Send(reply.value);
          }
          assert b.completions[..i + 1][..i] == b.completions[..i];
          i := i + 1;
        }
        assert b.completions[..i] == b.completions;
        if b.thrown.Some? {
          var explain := MessageOf(b.thrown.value);
          if explain.Some? {
            var reply := GenErrorResponse(Some(msg), explain.value);
            Send(reply.value);
          }
        }
      } else if msg.tag == MESSAGE {
        if messageHandler.User? {
          delivered := delivered + [(messageHandler.id, msg.content)];
        }
      }
    }
  }

  /** A ping always gets exactly one pong, whatever the handlers are. */
  lemma PingGetsOnePong(msg: Msg, h: Handler, run: Run)
    requires msg.tag == PING
    ensures Replies(msg, h, run) == [GenPong()]
  {
  }

  /** Notes and unknown tags get no reply, whatever the handlers are. */
  lemma OnlyPingsAndRequestsAreAnswered(msg: Msg, h: Handler, run: Run)
    requires msg.tag != PING && msg.tag != REQUEST
    ensures Replies(msg, h, run) == []
  {
  }

  lemma {:induction false} CompletionRepliesAnswerRequest(req: Msg, cs: seq<Completion>)
    ensures |CompletionReplies(req, cs)| == |cs|
    ensures forall i :: 0 <= i < |cs| ==>
              CompletionReplies(req, cs)[i] == CompletionReply(req, cs[i])
    decreases |cs|
  {
    if cs != [] {
      CompletionRepliesAnswerRequest(req, cs[..|cs| - 1]);
    }
  }

  /** Every reply to a request is a response carrying the request's id and
      a valid status; there is one per completion the handler makes, plus
      one when it throws a non-null value. */
  lemma RequestRepliesAreResponses(req: Msg, h: Handler, run: Run)
    requires req.tag == REQUEST
    ensures var b := Behaviour(h, run);
            |Replies(req, h, run)| ==
              |b.completions| + (if b.thrown.Some? && !IsNullish(b.thrown.value) then 1 else 0)
    ensures forall m :: m in Replies(req, h, run) ==>
              m.tag == RESPONSE && m.reqId == req.reqId && IsStatus(m.status)
  {
    var b := Behaviour(h, run);
    CompletionRepliesAnswerRequest(req, b.completions);
  }

  /** A handler that calls cb once and does not throw produces exactly one
      response: an error with e.message when e != null, else ok with res. */
  lemma OneCompletionOneResponse(req: Msg, id: nat, c: Completion)
    requires req.tag == REQUEST
    ensures var rs := Replies(req, User(id), Run([c], None));
            && |rs| == 1
            && rs[0].tag == RESPONSE && rs[0].reqId == req.reqId
            && (!IsNullish(c.err) ==> rs[0].status == Some(ERROR) && Some(rs[0].content) == MessageOf(c.err))
            && (IsNullish(c.err) ==> rs[0].status == Some(OK) && rs[0].content == c.res)
  {
    assert [c][..0] == [];
    assert CompletionReplies(req, [c]) == [CompletionReply(req, c)];
  }

  /** A handler that throws before calling cb produces exactly one error
      response whose content is the thrown error's message. */
  lemma ThrowOneErrorResponse(req: Msg, id: nat, e: Value)
    requires req.tag == REQUEST && !IsNullish(e)
    ensures var rs := Replies(req, User(id), Run([], Some(e)));
            && |rs| == 1 && rs[0].tag == RESPONSE && rs[0].reqId == req.reqId
            && rs[0].status == Some(ERROR) && Some(rs[0].content) == MessageOf(e)
  {
  }

  /** A handler that calls cb and then throws gets two responses to one
      request: the dispatcher does not enforce a single reply. */
  lemma CompletionThenThrowTwoResponses(req: Msg, id: nat, res: Value, e: Value)
    requires req.tag == REQUEST && !IsNullish(e)
    ensures var rs := Replies(req, User(id), Run([Completion(Undefined, res)], Some(e)));
            && |rs| == 2 && rs[0].status == Some(OK) && rs[1].status == Some(ERROR)
            && rs[0].reqId == rs[1].reqId == req.reqId
  {
    var c := Completion(Undefined, res);
    assert [c][..0] == [];
    assert CompletionReplies(req, [c]) == [CompletionReply(req, c)];
  }

  /** An unconfigured worker answers every request with an ok response whose
      content is null. */
  lemma BuiltinAnswersNull(req: Msg, run: Run)
    requires req.tag == REQUEST
    ensures Replies(req, Builtin, run) == [Msg(RESPONSE, req.reqId, Some(OK), Null)]
  {
    assert BuiltinRun.completions[..0] == [];
  }

  /** A slot set to something that is not a function turns every request
      into one error response carrying the TypeError's message. */
  lemma NotCallableAnswersError(req: Msg, run: Run)
    requires req.tag == REQUEST
    ensures Replies(req, NotCallable, run) ==
              [Msg(RESPONSE, req.reqId, Some(ERROR), Str("handler is not a function"))]
  {
  }
}
