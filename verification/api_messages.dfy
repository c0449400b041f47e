/** The pickled API messages of src/maillog/api/messages.py: a closed set of
    four variants, their framing (`APIMessage.to_frame`,
    `APIMessageFrame.from_api_message`) and their decoding (`from_payload`,
    `APIMessageFrame.decode`). `pickle` is an abstract `Codec`. */
module ApiMessages {
  import opened Wrappers
  import opened Framing
  import opened Events

  /** The four message classes; each carries exactly the fields it declares. */
  datatype ApiMessage =
    | SubmitEventRequest(event: MaillogEvent)
    | SubmitEventResponse(success: bool)
    | GetStatusRequest
    | GetStatusResponse(success: bool, events: seq<MaillogEvent>)

  /** What `pickle.loads` may hand back: one of the four variants, or some other object. */
  datatype Unpickled = Api(msg: ApiMessage) | OtherObject

  /** `APIMessage.to_frame`: pickle the message, then prefix its length. */
  function ToFrame(m: ApiMessage, c: Codec<Unpickled>): (r: Result<seq<byte>, FrameError>)
    ensures r.Success? <==> |c.dumps(Api(m))| < PrefixLimit
    ensures r.Success? ==>
      && |r.value| == PrefixLength + |c.dumps(Api(m))|
      && FromBytes(r.value[..PrefixLength]) == |c.dumps(Api(m))|
      && r.value[PrefixLength..] == c.dumps(Api(m))
  {
    Encode(c.dumps(Api(m)))
  }

  /** `APIMessage.from_payload`: unpickle the payload; no length is involved. */
  function FromPayload(payload: seq<byte>, c: Codec<Unpickled>): Option<Unpickled>
  {
    c.loads(payload)
  }

  /** `APIMessageFrame.from_api_message`: the same bytes as `to_frame`, kept as
      a 4-byte length field and a message field. */
  function FromApiMessage(m: ApiMessage, c: Codec<Unpickled>): (r: Result<MessageFrame, FrameError>)
    ensures r.Success? <==> ToFrame(m, c).Success?
    ensures r.Success? ==>
      && |r.value.length| == PrefixLength
      && FromBytes(r.value.length) == |r.value.message|
      && ToFrame(m, c) == Success(Wire(r.value))
  {
    FrameOf(c.dumps(Api(m)))
  }

  /** `APIMessageFrame.decode`: unpickle the message field only. */
  function Decode(f: MessageFrame, c: Codec<Unpickled>): Option<Unpickled>
  {
    c.loads(f.message)
  }

  /** The length field plays no part in decoding. */
  lemma DecodeIgnoresLength(f: MessageFrame, length: seq<byte>, c: Codec<Unpickled>)
    ensures Decode(MessageFrame(length, f.message), c) == Decode(f, c)
  {
  }

  /** Given a serialiser that reads back what it wrote, a frame built from a
      message decodes to that message. */
  lemma FrameRoundTrip(m: ApiMessage, c: Codec<Unpickled>)
    requires c.loads(c.dumps(Api(m))) == Some(Api(m))
    requires |c.dumps(Api(m))| < PrefixLimit
    ensures FromApiMessage(m, c).Success?
    ensures Decode(FromApiMessage(m, c).value, c) == Some(Api(m))
  {
  }

  /** Over the socket: receiving from a stream that starts with `to_frame(m)`
      yields `m` and leaves the following bytes unread. */
  lemma WireRoundTrip(m: ApiMessage, c: Codec<Unpickled>, rest: seq<byte>)
    requires c.loads(c.dumps(Api(m))) == Some(Api(m))
    requires |c.dumps(Api(m))| < PrefixLimit
    ensures ToFrame(m, c).Success?
    ensures Receive(ToFrame(m, c).value + rest).rest == rest
    ensures FromPayload(Receive(ToFrame(m, c).value + rest).payload, c) == Some(Api(m))
  {
    ReceiveEncoded(c.dumps(Api(m)), rest);
  }
}
