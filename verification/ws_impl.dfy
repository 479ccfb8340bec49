/**
 The gateway transport of the serenity client: the frame decoder, the
 bounded-wait receive and the serialise-then-send path.
 */
module WsImpl {
  import opened Wrappers
  import opened Types
  import opened Foreign

  /**
   `v` is the complete decoding of `m`: a Text payload that parses to `v`,
   or a Binary payload that the inflater reports as inflating to text that
   parses to `v`.
   */
  predicate FullyDecoded(c: Codec, m: Message, v: Value) {
    || (m.Text? && c.parse(m.text) == Ok(v))
    || (m.Binary? && c.inflate(m.bytes).Ok? && c.parse(c.inflate(m.bytes).value) == Ok(v))
  }

  /**
   Decode one optional message into "no data" (`Ok(None)`), a value
   (`Ok(Some(v))`) or an error.
   */
  function ConvertWsMessage(c: Codec, message: Option<Message>): (r: Result<Option<Value>, Error>)
    // no data: no message, or a message with neither payload nor closure
    ensures r == Ok(None) <==>
              message.None? || (!CarriesPayload(message.value) && !IsClosure(message.value))
    // data only from a complete decoding of the message
    ensures r.Ok? && r.value.Some? ==> message.Some? && FullyDecoded(c, message.value, r.value.value)
    // a Close with a reason is terminal and carries exactly the received frame
    ensures message.Some? && IsClosure(message.value) ==> r == Err(Gateway(Closed(message.value.frame)))
    ensures r.Err? && r.error.Gateway? ==> message.Some? && IsClosure(message.value)
    // a Binary payload that does not inflate yields the inflation error
    ensures message.Some? && message.value.Binary? && c.inflate(message.value.bytes).Err? ==>
              r == Err(Io(c.inflate(message.value.bytes).error))
    ensures r.Err? && r.error.Io? ==> message.Some? && message.value.Binary? && c.inflate(message.value.bytes).Err?
    // a Text payload that does not parse yields the parse error
    ensures message.Some? && message.value.Text? && c.parse(message.value.text).Err? ==>
              r == Err(Json(c.parse(message.value.text).error))
    // an inflated Binary payload that does not parse yields the parse error
    ensures message.Some? && message.value.Binary? && c.inflate(message.value.bytes).Ok?
            && c.parse(c.inflate(message.value.bytes).value).Err? ==>
              r == Err(Json(c.parse(c.inflate(message.value.bytes).value).error))
    // the decoder never reports a transport error
    ensures !(r.Err? && r.error.Tungstenite?)
  {
    match message
    case Some(Binary(bytes)) =>
      (match c.inflate(bytes)
       case Err(why) => Err(Io(why))
       case Ok(decompressed) =>
         (match c.parse(decompressed)
          case Ok(v) => Ok(Some(v))
          case Err(why) => Err(Json(why))))
    case Some(Text(payload)) =>
      (match c.parse(payload)
       case Ok(v) => Ok(Some(v))
       case Err(why) => Err(Json(why)))
    case Some(Close(Some(frame))) => Err(Gateway(Closed(Some(frame))))
    case _ => Ok(None)
  }

  /**
   What waiting at most 500 ms for the stream's next item produced:
   a message, a transport error, the end of the stream, or the timeout.
   */
  datatype Poll =
    | Received(message: Message)
    | Failed(failure: WsError)
    | Ended
    | TimedOut

  /** The bounded-wait receive: a transport error is returned as is, anything else goes through the decoder. */
  function RecvJson(c: Codec, poll: Poll): (r: Result<Option<Value>, Error>)
    ensures poll.Failed? ==> r == Err(Tungstenite(poll.failure))
    ensures poll.Ended? || poll.TimedOut? ==> r == Ok(None)
    ensures poll.Received? ==> r == ConvertWsMessage(c, Some(poll.message))
  {
    match poll
    case Failed(e) => Err(Tungstenite(e))
    case Received(m) => ConvertWsMessage(c, Some(m))
    case _ => ConvertWsMessage(c, None)
  }

  /**
   The outcome of one send: the result returned to the caller and every
   message the sink has been handed so far, oldest first.
   */
  datatype Sent = Sent(result: Result<(), Error>, wire: seq<Message>)

  /**
   Serialise `value` and hand it to the sink as one Text message. `wire`
   holds the messages handed to the sink before this call.
   */
  function SendJson(c: Codec, sink: Sink, wire: seq<Message>, value: Value): (r: Sent)
    // nothing already handed over is changed
    ensures wire <= r.wire
    // a serialisation failure is returned and nothing is handed to the sink
    ensures c.serialize(value).Err? ==> r.wire == wire && r.result == Err(Json(c.serialize(value).error))
    // otherwise exactly one Text message holding the serialised text is handed over
    ensures c.serialize(value).Ok? ==> r.wire == wire + [Text(c.serialize(value).value)]
    // success means both steps succeeded; a sink failure is returned as a transport error
    ensures r.result.Ok? <==> c.serialize(value).Ok? && sink(wire, Text(c.serialize(value).value)).Ok?
    ensures c.serialize(value).Ok? && sink(wire, Text(c.serialize(value).value)).Err? ==>
              r.result == Err(Tungstenite(sink(wire, Text(c.serialize(value).value)).error))
  {
    match c.serialize(value)
    case Err(why) => Sent(Err(Json(why)), wire)
    case Ok(s) =>
      var m := Text(s);
      match sink(wire, m)
      case Err(e) => Sent(Err(Tungstenite(e)), wire + [m])
      case Ok(_) => Sent(Ok(()), wire + [m])
  }
}
