/** `RequestHandler` of src/maillog/api/handler.py: read one framed message,
    dispatch on its class, reply, close.

    Every `with EventBuffer() as buf` block opens a buffer session: a fresh
    buffer restored from the buffer file. As written `EventBuffer` defines
    neither the context manager nor `get_all_events`
    (src/maillog/event/buffer.py:13-55), and the handler receives and replies
    through `APISocket`, which speaks JSON and so never yields one of the
    message classes. The model keeps the intended structure: a session is the
    message-buffer state machine restored from the file (insert / get-all), and
    the payload is decoded by an abstract `Codec`. */
module Handler {
  import opened Wrappers
  import opened Framing
  import opened Events
  import opened ApiMessages
  import opened MessageBuffer
  import opened Connection

  /** The buffer file after the exchange, and the reply. */
  type HandlerExchange = Exchange<BufferFile<MaillogEvent>, ApiMessage>

  /** The object the handler reads off the connection: at most one frame. */
  function Incoming(stream: seq<byte>, c: Codec<Unpickled>): Option<Unpickled>
  {
    FromPayload(Receive(stream).payload, c)
  }

  predicate IsSubmit(d: Option<Unpickled>)
  {
    d.Some? && d.value.Api? && d.value.msg.SubmitEventRequest?
  }

  predicate IsStatus(d: Option<Unpickled>)
  {
    d.Some? && d.value.Api? && d.value.msg.GetStatusRequest?
  }

  /** The events a readable buffer file holds. */
  function Contents(file: BufferFile<MaillogEvent>): seq<MaillogEvent>
  {
    if file.Stored? then file.items else []
  }

  /** `handle_submit`: a buffer session that inserts the event, then the
      success reply. A file that cannot be restored, or an insert that raises,
      ends the handler with the exception, and nothing is sent. */
  function HandleSubmit(file: BufferFile<MaillogEvent>, e: MaillogEvent, w: WriteOutcome): (r: HandlerExchange)
    ensures r.reply.Some? <==> !file.Unreadable? && w.Written?
    ensures r.reply.Some? ==> r.reply.value == SubmitEventResponse(true)
    ensures r.raised <==> r.reply.None?
    ensures file.Unreadable? || w.OpenFailed? ==> r.state == file
    ensures !file.Unreadable? && w.Written? ==> r.state == Stored(Contents(file) + [e])
    ensures !file.Unreadable? && w.DumpFailed? ==> r.state == Unreadable
  {
    match Restore(file)
    case Failure(_) => Exchange(file, None, true, false)
    case Success(b) =>
      var step := Insert(b, e, w);
      if step.outcome.Success? then Exchange(step.buffer.file, Some(SubmitEventResponse(true)), false, false)
      else Exchange(step.buffer.file, None, true, false)
  }

  /** `handle_status`: a buffer session that reads every event, then the reply
      carrying them. Nothing is written. */
  function HandleStatus(file: BufferFile<MaillogEvent>): (r: HandlerExchange)
    ensures r.state == file
    ensures r.raised <==> file.Unreadable?
    ensures r.reply.Some? <==> !file.Unreadable?
    ensures r.reply.Some? ==> r.reply.value == GetStatusResponse(true, Contents(file))
  {
    match Restore(file)
    case Failure(_) => Exchange(file, None, true, false)
    case Success(b) => Exchange(file, Some(GetStatusResponse(true, GetAll(b))), false, false)
  }

  /** `handle_request`. A payload that does not unpickle raises; a response
      variant or a foreign object is only logged. */
  function HandleRequest(file: BufferFile<MaillogEvent>, stream: seq<byte>, c: Codec<Unpickled>, w: WriteOutcome)
    : (r: HandlerExchange)
    ensures r.closed
    ensures r.reply != Some(SubmitEventResponse(false))
    ensures IsSubmit(Incoming(stream, c)) ==>
      && (r.reply.Some? <==> !file.Unreadable? && w.Written?)
      && (!file.Unreadable? && w.Written? ==> r.state == Stored(Contents(file) + [Incoming(stream, c).value.msg.event]))
      && (file.Unreadable? || w.OpenFailed? ==> r.state == file)
      && (!file.Unreadable? && w.DumpFailed? ==> r.state == Unreadable)
    ensures IsStatus(Incoming(stream, c)) ==>
      && r.state == file
      && (r.reply.Some? <==> !file.Unreadable?)
      && (r.reply.Some? ==> r.reply.value == GetStatusResponse(true, Contents(file)))
    ensures !IsSubmit(Incoming(stream, c)) && !IsStatus(Incoming(stream, c)) ==>
      r.state == file && r.reply.None?
    ensures r.raised <==>
      || Incoming(stream, c).None?
      || (IsSubmit(Incoming(stream, c)) && (file.Unreadable? || !w.Written?))
      || (IsStatus(Incoming(stream, c)) && file.Unreadable?)
  {
    var handled :=
      match Incoming(stream, c)
      case None => Exchange(file, None, true, false)
      case Some(Api(SubmitEventRequest(e))) => HandleSubmit(file, e, w)
      case Some(Api(GetStatusRequest)) => HandleStatus(file)
      case Some(_) => Exchange(file, None, false, false);
    Close(handled)
  }

  /** Exactly one message is read per connection: whatever follows the first
      frame has no effect. */
  lemma OneMessagePerConnection(file: BufferFile<MaillogEvent>, m: ApiMessage, c: Codec<Unpickled>,
                                w: WriteOutcome, rest1: seq<byte>, rest2: seq<byte>)
    requires |c.dumps(Api(m))| < PrefixLimit
    ensures ToFrame(m, c).Success?
    ensures HandleRequest(file, ToFrame(m, c).value + rest1, c, w)
         == HandleRequest(file, ToFrame(m, c).value + rest2, c, w)
  {
    ReceiveEncoded(c.dumps(Api(m)), rest1);
    ReceiveEncoded(c.dumps(Api(m)), rest2);
  }

  /** End to end: a submitted event is acknowledged and then reported by the
      next status request, after everything buffered before it. */
  lemma SubmitThenStatus(file: BufferFile<MaillogEvent>, e: MaillogEvent, c: Codec<Unpickled>,
                         w: WriteOutcome, rest1: seq<byte>, rest2: seq<byte>)
    requires !file.Unreadable?
    requires c.loads(c.dumps(Api(SubmitEventRequest(e)))) == Some(Api(SubmitEventRequest(e)))
    requires c.loads(c.dumps(Api(GetStatusRequest))) == Some(Api(GetStatusRequest))
    requires |c.dumps(Api(SubmitEventRequest(e)))| < PrefixLimit
    requires |c.dumps(Api(GetStatusRequest))| < PrefixLimit
    ensures ToFrame(SubmitEventRequest(e), c).Success? && ToFrame(GetStatusRequest, c).Success?
    ensures var first := HandleRequest(file, ToFrame(SubmitEventRequest(e), c).value + rest1, c, Written);
      && first.reply == Some(SubmitEventResponse(true))
      && HandleRequest(first.state, ToFrame(GetStatusRequest, c).value + rest2, c, w).reply
         == Some(GetStatusResponse(true, Contents(file) + [e]))
  {
    WireRoundTrip(SubmitEventRequest(e), c, rest1);
    WireRoundTrip(GetStatusRequest, c, rest2);
  }

  /** A submit whose write cannot open the file is not acknowledged, and the
      next status request reports exactly what was buffered before it: each
      session reads the file, so no unsaved event is ever reported. */
  lemma UnsavedSubmitNotReported(file: BufferFile<MaillogEvent>, e: MaillogEvent, c: Codec<Unpickled>,
                                 w: WriteOutcome, rest1: seq<byte>, rest2: seq<byte>)
    requires !file.Unreadable?
    requires c.loads(c.dumps(Api(SubmitEventRequest(e)))) == Some(Api(SubmitEventRequest(e)))
    requires c.loads(c.dumps(Api(GetStatusRequest))) == Some(Api(GetStatusRequest))
    requires |c.dumps(Api(SubmitEventRequest(e)))| < PrefixLimit
    requires |c.dumps(Api(GetStatusRequest))| < PrefixLimit
    ensures ToFrame(SubmitEventRequest(e), c).Success? && ToFrame(GetStatusRequest, c).Success?
    ensures var first := HandleRequest(file, ToFrame(SubmitEventRequest(e), c).value + rest1, c, OpenFailed);
      && first.reply.None? && first.raised
      && HandleRequest(first.state, ToFrame(GetStatusRequest, c).value + rest2, c, w).reply
         == Some(GetStatusResponse(true, Contents(file)))
  {
    WireRoundTrip(SubmitEventRequest(e), c, rest1);
    WireRoundTrip(GetStatusRequest, c, rest2);
  }
}
