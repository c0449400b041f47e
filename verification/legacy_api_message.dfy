/** The older API message of src/maillog/api/message.py: a single `command`
    string, framed by `APIMessageFrame.from_api_message` and read back by
    `APIMessageFrame.decode`. */
module LegacyApiMessage {
  import opened Wrappers
  import opened Framing

  /** `APIMessage(command)`. */
  datatype CommandMessage = CommandMessage(command: string)

  /** `from_api_message`: pickle, then a 4-byte big-endian length of the result. */
  function FromApiMessage(m: CommandMessage, c: Codec<CommandMessage>): (r: Result<MessageFrame, FrameError>)
    ensures r.Success? <==> |c.dumps(m)| < PrefixLimit
    ensures r.Success? ==>
      && |r.value.length| == PrefixLength
      && FromBytes(r.value.length) == |r.value.message|
      && r.value.message == c.dumps(m)
  {
    FrameOf(c.dumps(m))
  }

  /** `decode`: unpickle the message field. */
  function Decode(f: MessageFrame, c: Codec<CommandMessage>): Option<CommandMessage>
  {
    c.loads(f.message)
  }

  /** A framed command decodes to the same command, whatever the length field says. */
  lemma CommandRoundTrip(m: CommandMessage, length: seq<byte>, c: Codec<CommandMessage>)
    requires c.loads(c.dumps(m)) == Some(m)
    requires |c.dumps(m)| < PrefixLimit
    ensures FromApiMessage(m, c).Success?
    ensures Decode(FromApiMessage(m, c).value, c) == Some(m)
    ensures Decode(MessageFrame(length, FromApiMessage(m, c).value.message), c) == Some(m)
  {
  }
}
