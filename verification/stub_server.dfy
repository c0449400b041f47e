/** The framed request server of src/maillog/api/server.py. It reads one frame
    through `APISocket.receive` and looks at the "action" field, but both the
    "send" and the "status" branch have their handler calls commented out, so
    every request is only logged. Its `handle_send` and `handle_status` are the
    same code as in src/maillog/api_server.py and are modelled there
    (`ApiServer.HandleSend`, `ApiServer.HandleStatus`). */
module StubServer {
  import opened Wrappers
  import opened Framing
  import opened Values
  import opened MessageBuffer
  import opened Connection
  import ApiServer

  /** `handle_client_request`: a payload that is not JSON, or not an object,
      raises at `json.loads` or `msg.get`; every other request is logged only. */
  function HandleClientRequest(b: Buffer<Message>, stream: seq<byte>,
                               parse: seq<byte> -> Option<Document>)
    : (r: Exchange<Buffer<Message>, ApiServer.Reply>)
    ensures r.closed
    ensures r.state == b
    ensures r.reply.None?
    ensures r.raised <==> !(parse(Receive(stream).payload).Some? && parse(Receive(stream).payload).value.Object?)
  {
    var handled :=
      match parse(Receive(stream).payload)
      case None => Exchange(b, None, true, false)
      case Some(NotObject) => Exchange(b, None, true, false)
      case Some(Object(fields)) =>
        // "send", "status" and any other action: a log line and nothing else.
        Exchange(b, None, false, false);
    Close(handled)
  }
}
