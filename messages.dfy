/** The five wire shapes exchanged between master and worker and the pure
    constructors that build them (src/messages.js). */
module Messages {
  import opened JsValues

  /** A message object. `tag` is its `type` property. A field that is absent,
      or that holds undefined, is None (or Undefined for `content`): the
      channel's JSON encoding drops such fields. */
  datatype Msg = Msg(tag: string, reqId: Option<int>, status: Option<string>, content: Value)

  /** The property names a message carries. */
  function Fields(m: Msg): set<string> {
    {"type"}
    + (if m.reqId.Some? then {"reqId"} else {})
    + (if m.status.Some? then {"status"} else {})
    + (if m.content != Undefined then {"content"} else {})
  }

  const PING := "ping"
  const PONG := "pong"
  const MESSAGE := "message"
  const REQUEST := "request"
  const RESPONSE := "response"
  const OK := "ok"
  const ERROR := "error"

  /** The status values a response may carry. */
  predicate IsStatus(s: Option<string>) {
    s == Some(OK) || s == Some(ERROR)
  }

  function GenPing(): (m: Msg)
    ensures m.tag == PING && Fields(m) == {"type"}
  {
    Msg(PING, None, None, Undefined)
  }

  function GenPong(): (m: Msg)
    ensures m.tag == PONG && Fields(m) == {"type"}
  {
    Msg(PONG, None, None, Undefined)
  }

  /** A fire-and-forget note carrying `content` unchanged. */
  function GenMessage(content: Value): (m: Msg)
    ensures m.tag == MESSAGE && m.content == content
    ensures Fields(m) <= {"type", "content"}
  {
    Msg(MESSAGE, None, None, content)
  }

  /** Fails when the request id is missing (null or undefined). */
  function GenRequest(content: Value, reqId: Option<int>): (r: Result<Msg>)
    ensures r.Err? <==> reqId.None?
    ensures r.Ok? ==> r.value.tag == REQUEST && r.value.reqId == reqId
                      && r.value.content == content && r.value.status.None?
  {
    if reqId.None? then Err("Sequential number missing in genRequest!")
    else Ok(Msg(REQUEST, reqId, None, content))
  }

  /** A success response to `req`; fails when there is no request. */
  function GenResponse(req: Option<Msg>, content: Value): (r: Result<Msg>)
    ensures r.Err? <==> req.None?
    ensures r.Ok? ==> r.value.tag == RESPONSE && r.value.reqId == req.value.reqId
                      && r.value.status == Some(OK) && r.value.content == content
  {
    if req.None? then Err("Request not defined in genResponse!")
    else Ok(Msg(RESPONSE, req.value.reqId, Some(OK), content))
  }

  /** An error response to `req` whose content is the explanation. There is
      no explicit guard: an absent request makes the read of `req.reqId`
      throw the runtime's TypeError. The text below is the one for a null
      request; for an undefined one the runtime says `of undefined`. */
  function GenErrorResponse(req: Option<Msg>, explain: Value): (r: Result<Msg>)
    ensures r.Err? <==> req.None?
    ensures r.Ok? ==> r.value.tag == RESPONSE && r.value.reqId == req.value.reqId
                      && r.value.status == Some(ERROR) && r.value.content == explain
  {
    if req.None? then Err("Cannot read properties of null (reading 'reqId')")
    else Ok(Msg(RESPONSE, req.value.reqId, Some(ERROR), explain))
  }

  /** Every response either builder produces has a valid status and answers
      its request: the request id is copied, nothing else of the request is. */
  lemma ResponsesAnswerTheirRequest(req: Msg, content: Value, explain: Value)
    ensures var ok := GenResponse(Some(req), content);
            var err := GenErrorResponse(Some(req), explain);
            && ok.Ok? && err.Ok?
            && IsStatus(ok.value.status) && IsStatus(err.value.status)
            && ok.value.reqId == req.reqId && err.value.reqId == req.reqId
            && ok.value.status != err.value.status
  {
  }

  /** A response to a request built by GenRequest carries that request's id. */
  lemma ResponseCarriesRequestId(content: Value, reqId: int, res: Value)
    ensures var req := GenRequest(content, Some(reqId));
            && req.Ok?
            && GenResponse(Some(req.value), res).value.reqId == Some(reqId)
            && GenErrorResponse(Some(req.value), res).value.reqId == Some(reqId)
  {
  }
}
