/** The dict-based request server of src/maillog/api_server.py: read the whole
    request until the client shuts its side, parse it as JSON, dispatch on its
    "action" field, reply, close. JSON parsing is an abstract `parse` function
    (`None` where `json.loads` raises); the payload bytes are opaque, so the
    per-chunk UTF-8 decoding is not modelled. */
module ApiServer {
  import opened Wrappers
  import opened Framing
  import opened Values
  import opened MessageBuffer
  import opened Connection

  /** What the server writes back: `{"status": "ok"}`, or the buffer contents. */
  datatype Reply = StatusOk | Contents(messages: seq<Message>)

  /** The server's long-lived buffer after the exchange, and the reply. */
  type ServerExchange = Exchange<Buffer<Message>, Reply>

  /** The request bytes: the `recv` results up to the first empty one (end of
      stream); running out of results also counts as end of stream. */
  function UntilEof(chunks: seq<seq<byte>>): seq<byte>
  {
    if |chunks| == 0 || chunks[0] == [] then [] else chunks[0] + UntilEof(chunks[1..])
  }

  lemma UntilEofStep(chunks: seq<seq<byte>>, i: nat)
    requires i < |chunks| && chunks[i] != []
    ensures UntilEof(chunks[i..]) == chunks[i] + UntilEof(chunks[i + 1..])
  {
    assert chunks[i..][1..] == chunks[i + 1..];
  }

  /** The read loop of `handle_client_request`. */
  method ReadRequest(chunks: seq<seq<byte>>) returns (data: seq<byte>)
    ensures data == UntilEof(chunks)
  {
    data := [];
    var i := 0;
    while i < |chunks| && chunks[i] != []
      invariant 0 <= i <= |chunks|
      invariant data + UntilEof(chunks[i..]) == UntilEof(chunks)
    {
      UntilEofStep(chunks, i);
      assert data + (chunks[i] + UntilEof(chunks[i + 1..])) == (data + chunks[i]) + UntilEof(chunks[i + 1..]);
      data := data + chunks[i];
      i := i + 1;
    }
    assert UntilEof(chunks[i..]) == [];
  }

  /** What `getattr(logging, name, logging.warning)` finds for a level name:
      one of the module's logging functions, one of its level constants (plain
      integers), or no attribute of that name, which gives the default
      `logging.warning`. */
  datatype LogAttribute = LogFunction | LevelConstant | NoSuchAttribute

  function LookupLevel(name: string): LogAttribute
  {
    if name in {"debug", "info", "warning", "warn", "error", "exception", "critical", "fatal"} then LogFunction
    else if name in {"DEBUG", "INFO", "WARNING", "WARN", "ERROR", "CRITICAL", "FATAL", "NOTSET"} then LevelConstant
    else NoSuchAttribute
  }

  /** `log_func(...)` returns: `getattr` raises `TypeError` for a name that is
      not a string, and calling an integer constant raises `TypeError`. */
  predicate LogCallReturns(level: Value)
  {
    level.Str? && LookupLevel(level.s) != LevelConstant
  }

  /** The level a request asks for, "warning" when it names none. */
  function LogLevel(fields: map<string, Value>): Value
  {
    Get(fields, "log_level", Str("warning"))
  }

  /** The record `handle_send` means to build. The source passes `timestamp`,
      `process_name` and `process_id` as keywords that `Message` declares with
      `init=False`, and omits the required `immediate`, so the call as written
      raises `TypeError` (src/maillog/message.py:24-34). The record here takes
      every field from the request with the source's defaults. */
  function Record(fields: map<string, Value>, now: int): (r: Message)
    ensures "msg" !in fields ==> r.message == "None"
    ensures "msg" in fields ==> r.message == PyStr(fields["msg"])
    ensures "msg" in fields && fields["msg"].Str? ==> r.message == fields["msg"].s
    ensures "immediate" !in fields ==> !r.immediate
    ensures "immediate" in fields ==> r.immediate == Truthy(fields["immediate"])
    ensures "log_level" in fields ==> r.logLevel == fields["log_level"]
    ensures "log_level" !in fields ==> r.logLevel == Str("warning")
    ensures "process_name" in fields ==> r.processName == fields["process_name"]
    ensures "process_name" !in fields ==> r.processName == Str("unknown")
    ensures "process_id" in fields ==> r.processId == fields["process_id"]
    ensures "process_id" !in fields ==> r.processId == Str("unknown")
    ensures r.timestamp == now
  {
    Message(
      PyStr(Get(fields, "msg", Null)),
      Truthy(Get(fields, "immediate", Bool(false))),
      LogLevel(fields),
      Get(fields, "process_name", Str("unknown")),
      Get(fields, "process_id", Str("unknown")),
      now)
  }

  /** `handle_send`: first the log call at the requested level, which raises
      for a level that is not a string or names an integer constant; then an
      immediate message is not buffered (its mailing is not implemented) and
      any other is appended once. `{"status": "ok"}` is sent unless something
      raised. */
  function HandleSend(b: Buffer<Message>, fields: map<string, Value>, now: int, w: WriteOutcome)
    : (r: ServerExchange)
    ensures r.reply.Some? ==> r.reply.value == StatusOk
    ensures r.reply.Some? <==> !r.raised
    ensures !LogCallReturns(LogLevel(fields)) ==> r.state == b && r.raised
    ensures LogCallReturns(LogLevel(fields)) && Truthy(Get(fields, "immediate", Bool(false))) ==>
      r.state == b && !r.raised
    ensures LogCallReturns(LogLevel(fields)) && !Truthy(Get(fields, "immediate", Bool(false))) ==>
      && |r.state.data| == |b.data| + 1
      && r.state.data[..|b.data|] == b.data
      && r.state.data[|b.data|] == Record(fields, now)
      && (r.raised <==> !w.Written?)
      && (w.Written? ==> r.state.file == Stored(r.state.data))
  {
    if !LogCallReturns(LogLevel(fields)) then Exchange(b, None, true, false)
    else
      var message := Record(fields, now);
      if message.immediate then Exchange(b, Some(StatusOk), false, false)
      else
        var step := Insert(b, message, w);
        if step.outcome.Success? then Exchange(step.buffer, Some(StatusOk), false, false)
        else Exchange(step.buffer, None, true, false)
  }

  /** The level names the logging module spells in upper case are its integer
      constants, so a request naming one raises before anything is buffered or
      sent; so does a level that is not a string. */
  lemma UnusableLevelRaises(b: Buffer<Message>, fields: map<string, Value>, now: int, w: WriteOutcome)
    requires "log_level" in fields
    requires fields["log_level"] in {Str("INFO"), Str("WARNING"), Str("ERROR")} || !fields["log_level"].Str?
    ensures HandleSend(b, fields, now, w) == Exchange(b, None, true, false)
  {
  }

  /** `handle_status`: send the whole buffer, change nothing. */
  function HandleStatus(b: Buffer<Message>): (r: ServerExchange)
    ensures r.state == b
    ensures r.reply == Some(Contents(b.data))
    ensures !r.raised
  {
    Exchange(b, Some(Contents(GetAll(b))), false, false)
  }

  /** The request is not empty and reads as a JSON object. */
  predicate IsObject(parse: seq<byte> -> Option<Document>, data: seq<byte>)
  {
    data != [] && parse(data).Some? && parse(data).value.Object?
  }

  /** The request, read as a JSON object, names this action. */
  predicate Requests(parse: seq<byte> -> Option<Document>, data: seq<byte>, action: string)
  {
    IsObject(parse, data) && Get(parse(data).value.fields, "action", Null) == Str(action)
  }

  /** `handle_client_request`. An empty request is ignored; a request that is
      not JSON, or not an object, raises; "send" and "status" are dispatched
      and any other action, or none, only logs. */
  function HandleClientRequest(b: Buffer<Message>, chunks: seq<seq<byte>>,
                               parse: seq<byte> -> Option<Document>, now: int, w: WriteOutcome)
    : (r: ServerExchange)
    ensures r.closed
    ensures UntilEof(chunks) == [] ==> r.state == b && r.reply.None? && !r.raised
    ensures UntilEof(chunks) != [] && !IsObject(parse, UntilEof(chunks)) ==>
      r.state == b && r.reply.None? && r.raised
    ensures Requests(parse, UntilEof(chunks), "send") ==>
      var sent := HandleSend(b, parse(UntilEof(chunks)).value.fields, now, w);
      r.state == sent.state && r.reply == sent.reply && r.raised == sent.raised
    ensures Requests(parse, UntilEof(chunks), "status") ==>
      r.state == b && r.reply == Some(Contents(b.data)) && !r.raised
    ensures (&& IsObject(parse, UntilEof(chunks))
             && !Requests(parse, UntilEof(chunks), "send")
             && !Requests(parse, UntilEof(chunks), "status")) ==>
      r.state == b && r.reply.None? && !r.raised
  {
    var data := UntilEof(chunks);
    var handled :=
      if data == [] then Exchange(b, None, false, false)
      else
        match parse(data)
        case None => Exchange(b, None, true, false)
        case Some(NotObject) => Exchange(b, None, true, false)
        case Some(Object(fields)) =>
          var action := Get(fields, "action", Null);
          if action == Str("send") then HandleSend(b, fields, now, w)
          else if action == Str("status") then HandleStatus(b)
          else Exchange(b, None, false, false);
    Close(handled)
  }

  /** A request that only says `{"action": "send"}` buffers the message "None"
      at level "warning" from process "unknown"/"unknown", and is acknowledged. */
  lemma SendDefaults(b: Buffer<Message>, chunks: seq<seq<byte>>,
                     parse: seq<byte> -> Option<Document>, now: int)
    requires UntilEof(chunks) != []
    requires parse(UntilEof(chunks)) == Some(Object(map["action" := Str("send")]))
    ensures var r := HandleClientRequest(b, chunks, parse, now, Written);
      && r.state.data == b.data + [Message("None", false, Str("warning"), Str("unknown"), Str("unknown"), now)]
      && r.reply == Some(StatusOk)
  {
    var r := HandleClientRequest(b, chunks, parse, now, Written);
    assert r.state.data == b.data + [r.state.data[|b.data|]];
  }
}
