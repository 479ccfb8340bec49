/**
 Properties that relate several calls of the transport: the decoder
 against its reference meaning, against the send path, and against the
 foreign functions it must not consult.
 */
module Properties {
  import opened Wrappers
  import opened Types
  import opened Foreign
  import opened WsImpl

  /** Together with ConvertWsMessage's contract: a message decodes to `v` exactly when `v` is its complete decoding. */
  lemma DecodeComplete(c: Codec, m: Message, v: Value)
    ensures ConvertWsMessage(c, Some(m)) == Ok(Some(v)) <==> FullyDecoded(c, m, v)
  {
  }

  /** A Binary message that inflates to `s` decodes exactly as the Text message `s`. */
  lemma BinaryDecodesAsText(c: Codec, bytes: seq<byte>, s: string)
    requires c.inflate(bytes) == Ok(s)
    ensures ConvertWsMessage(c, Some(Binary(bytes))) == ConvertWsMessage(c, Some(Text(s)))
  {
  }

  /** When inflation fails the parser is never consulted: any other parser gives the same result. */
  lemma InflateFailureSkipsParser(c: Codec, c': Codec, bytes: seq<byte>)
    requires c.inflate(bytes).Err?
    requires c'.inflate(bytes) == c.inflate(bytes)
    ensures ConvertWsMessage(c, Some(Binary(bytes))) == ConvertWsMessage(c', Some(Binary(bytes)))
    ensures ConvertWsMessage(c, Some(Binary(bytes))) == Err(Io(c.inflate(bytes).error))
  {
  }

  /** A Close with a reason consults no foreign function at all. */
  lemma ClosureIgnoresCodec(c: Codec, c': Codec, frame: CloseFrame)
    ensures ConvertWsMessage(c, Some(Close(Some(frame)))) == ConvertWsMessage(c', Some(Close(Some(frame))))
  {
  }

  /** What the send path hands over, the decoder reads back, when the JSON library round-trips. */
  lemma SentTextDecodes(c: Codec, sink: Sink, wire: seq<Message>, v: Value)
    requires SerializeParseRoundTrip(c)
    requires c.serialize(v).Ok?
    ensures |SendJson(c, sink, wire, v).wire| == |wire| + 1
    ensures ConvertWsMessage(c, Some(SendJson(c, sink, wire, v).wire[|wire|])) == Ok(Some(v))
  {
  }

  /** A Binary message that inflates to the serialisation of `v` decodes to `v`. */
  lemma CompressedTextDecodes(c: Codec, bytes: seq<byte>, v: Value)
    requires SerializeParseRoundTrip(c)
    requires c.serialize(v).Ok?
    requires c.inflate(bytes) == Ok(c.serialize(v).value)
    ensures ConvertWsMessage(c, Some(Binary(bytes))) == Ok(Some(v))
  {
  }

  /** A transport error reaches the caller as is and the decoder is not consulted. */
  lemma RecvFailureSkipsDecoder(c: Codec, c': Codec, e: WsError)
    ensures RecvJson(c, Failed(e)) == RecvJson(c', Failed(e)) == Err(Tungstenite(e))
  {
  }

  /** A receive reports a transport error exactly when the stream failed, so it is never confused with a decode error. */
  lemma RecvTransportErrorIffFailed(c: Codec, poll: Poll)
    ensures (RecvJson(c, poll).Err? && RecvJson(c, poll).error.Tungstenite?) <==> poll.Failed?
  {
  }

  /** A receive delivers `v` exactly when a message arrived whose complete decoding is `v`. */
  lemma RecvDataIffDecoded(c: Codec, poll: Poll, v: Value)
    ensures RecvJson(c, poll) == Ok(Some(v)) <==> poll.Received? && FullyDecoded(c, poll.message, v)
  {
  }

  /** When serialisation fails the sink is never consulted: any other sink gives the same outcome. */
  lemma SerializeFailureSkipsSink(c: Codec, sink: Sink, sink': Sink, wire: seq<Message>, v: Value)
    requires c.serialize(v).Err?
    ensures SendJson(c, sink, wire, v) == SendJson(c, sink', wire, v)
    ensures SendJson(c, sink, wire, v) == Sent(Err(Json(c.serialize(v).error)), wire)
  {
  }
}
