/** The wire format of the daemon's socket protocol (src/maillog/api/socket.py,
    and the byte level of `APIMessage.to_frame` / `APIMessageFrame`): a frame is
    a 4-byte big-endian length followed by that many payload bytes. Payloads are
    opaque here; what they mean is the business of a `Codec`. */
module Framing {
  import opened Wrappers

  /** One octet on the wire. */
  type byte = b: int | 0 <= b < 256

  /** Width of the length prefix (`MSG_LEN_PFX_SIZE`, `FRAME_PREFIX_LENGTH`). */
  const PrefixLength: nat := 4

  /** 256^4: the first payload length the prefix cannot express. */
  const PrefixLimit: nat := 0x1_0000_0000

  /** `int.to_bytes` raises `OverflowError` when the number needs more bytes than given. */
  datatype FrameError = Overflow

  /** A serialiser (pickle, json) as a pair of functions over payload bytes.
      `loads` yields `None` where the library would raise. */
  datatype Codec<!M> = Codec(dumps: M -> seq<byte>, loads: seq<byte> -> Option<M>)

  function Pow256(n: nat): (r: nat)
    ensures r > 0
  {
    if n == 0 then 1 else 256 * Pow256(n - 1)
  }

  lemma PrefixLimitIsPow256()
    ensures Pow256(PrefixLength) == PrefixLimit
  {
  }

  /** `int.from_bytes(bs, "big")`: any number of bytes, the empty string reading as 0. */
  function FromBytes(bs: seq<byte>): (r: nat)
    ensures r < Pow256(|bs|)
  {
    if |bs| == 0 then 0
    else
      var high := FromBytes(bs[..|bs| - 1]);
      assert high * 256 + bs[|bs| - 1] < Pow256(|bs|) by {
        assert high <= Pow256(|bs| - 1) - 1;
        assert high * 256 <= (Pow256(|bs| - 1) - 1) * 256;
      }
      high * 256 + bs[|bs| - 1]
  }

  /** Base-256 digits of `n`, most significant first, padded to `width`. */
  function Digits(n: nat, width: nat): (r: seq<byte>)
    requires n < Pow256(width)
    ensures |r| == width
    ensures FromBytes(r) == n
  {
    if width == 0 then []
    else
      var high := Digits(n / 256, width - 1);
      assert (high + [n % 256])[..width - 1] == high;
      high + [n % 256]
  }

  /** `n.to_bytes(width, "big")`. */
  function ToBytes(n: nat, width: nat): (r: Result<seq<byte>, FrameError>)
    ensures r.Success? <==> n < Pow256(width)
    ensures r.Success? ==> |r.value| == width && FromBytes(r.value) == n
    ensures r.Failure? ==> r.error == Overflow
  {
    if n < Pow256(width) then Success(Digits(n, width)) else Failure(Overflow)
  }

  /** The four prefix bytes read as b0·2^24 + b1·2^16 + b2·2^8 + b3. */
  lemma BigEndianPrefix(bs: seq<byte>)
    requires |bs| == PrefixLength
    ensures FromBytes(bs) == (bs[0] as int) * 0x100_0000 + (bs[1] as int) * 0x1_0000 + (bs[2] as int) * 0x100 + bs[3]
  {
    assert FromBytes(bs[..1]) == bs[0];
    assert bs[..2][..1] == bs[..1];
    assert FromBytes(bs[..2]) == (bs[0] as int) * 0x100 + bs[1];
    assert bs[..3][..2] == bs[..2];
    assert FromBytes(bs[..3]) == (bs[0] as int) * 0x1_0000 + (bs[1] as int) * 0x100 + bs[2];
    assert bs[..3] == bs[..|bs| - 1];
  }

  /** The byte string `APISocket.send` hands to `sendall`: prefix, then payload. */
  function Encode(payload: seq<byte>): (r: Result<seq<byte>, FrameError>)
    ensures r.Success? <==> |payload| < PrefixLimit
    ensures r.Success? ==>
      && |r.value| == PrefixLength + |payload|
      && FromBytes(r.value[..PrefixLength]) == |payload|
      && r.value[PrefixLength..] == payload
  {
    PrefixLimitIsPow256();
    match ToBytes(|payload|, PrefixLength)
    case Success(prefix) =>
      assert (prefix + payload)[..PrefixLength] == prefix;
      Success(prefix + payload)
    case Failure(e) => Failure(e)
  }

  /** `socket.recv(n)` on a connection whose peer has written `stream` and then
      closed: `n` bytes, or what is left when fewer remain. */
  function Recv(stream: seq<byte>, n: nat): (r: (seq<byte>, seq<byte>))
    ensures r.0 + r.1 == stream
    ensures |r.0| == if n <= |stream| then n else |stream|
  {
    if n <= |stream| then (stream[..n], stream[n..]) else (stream, [])
  }

  /** What `APISocket.receive` reads before deserialising: the payload bytes, and
      the bytes it left unread on the connection. */
  datatype Received = Received(payload: seq<byte>, rest: seq<byte>)

  /** `APISocket.receive` up to `json.loads`: one `recv` for the prefix, however
      short, then one `recv` of the length it encodes. */
  function Receive(stream: seq<byte>): (r: Received)
    ensures |r.payload| <= FromBytes(Recv(stream, PrefixLength).0)
    ensures Recv(stream, PrefixLength).0 + r.payload + r.rest == stream
  {
    var (prefix, afterPrefix) := Recv(stream, PrefixLength);
    var (payload, rest) := Recv(afterPrefix, FromBytes(prefix));
    Received(payload, rest)
  }

  /** Sending then receiving: a stream that starts with `Encode(p)` gives back
      exactly `p` and consumes exactly 4 + |p| bytes. */
  lemma {:induction false} ReceiveEncoded(payload: seq<byte>, rest: seq<byte>)
    requires |payload| < PrefixLimit
    ensures Encode(payload).Success?
    ensures Receive(Encode(payload).value + rest) == Received(payload, rest)
  {
    var frame := Encode(payload).value;
    var stream := frame + rest;
    assert stream[..PrefixLength] == frame[..PrefixLength];
    assert stream[PrefixLength..] == payload + rest;
    assert (payload + rest)[..|payload|] == payload;
    assert (payload + rest)[|payload|..] == rest;
  }

  /** A peer that closes without writing: the empty prefix read decodes as
      length 0, so the payload read is empty rather than an error. */
  lemma ClosedPeerReadsEmptyPayload()
    ensures Receive([]) == Received([], [])
  {
  }

  /** A prefix cut short by the peer is still interpreted as a length: a stream
      of fewer than 4 bytes is read whole as the prefix, nothing follows it, so
      the payload is empty whatever length it announces; two bytes [0, 3]
      announce 3 bytes. A full prefix [0, 0, 0, 3] reads the next 3 bytes. */
  lemma ShortPrefixStillDecoded(short: seq<byte>, tail: seq<byte>)
    requires |short| < PrefixLength
    requires |tail| >= 3
    ensures Recv(short, PrefixLength).0 == short
    ensures Receive(short) == Received([], [])
    ensures FromBytes(Recv([0, 3], PrefixLength).0) == 3
    ensures Receive([0, 0, 0, 3] + tail).payload == tail[..3]
  {
    assert [0, 3][..1] == [0];
    BigEndianPrefix([0, 0, 0, 3]);
    assert ([0, 0, 0, 3] + tail)[..PrefixLength] == [0, 0, 0, 3];
    assert ([0, 0, 0, 3] + tail)[PrefixLength..] == tail;
  }

  /** `APIMessageFrame`: the length prefix and the payload kept apart. */
  datatype MessageFrame = MessageFrame(length: seq<byte>, message: seq<byte>)

  /** The bytes of a frame on the wire, `length + message`. */
  function Wire(f: MessageFrame): seq<byte>
  {
    f.length + f.message
  }

  /** `APIMessageFrame.from_api_message` once the message is pickled. */
  function FrameOf(payload: seq<byte>): (r: Result<MessageFrame, FrameError>)
    ensures r.Success? <==> |payload| < PrefixLimit
    ensures r.Success? ==>
      && |r.value.length| == PrefixLength
      && FromBytes(r.value.length) == |payload|
      && r.value.message == payload
      && Encode(payload) == Success(Wire(r.value))
  {
    PrefixLimitIsPow256();
    match ToBytes(|payload|, PrefixLength)
    case Success(prefix) => Success(MessageFrame(prefix, payload))
    case Failure(e) => Failure(e)
  }
}
