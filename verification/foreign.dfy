/**
 The library calls the transport relies on but does not implement: zlib
 inflation to a UTF-8 string, JSON parsing and JSON serialisation, and the
 sink's send primitive. Each is a parameter, so every property below holds
 for every implementation of them.
 */
module Foreign {
  import opened Wrappers
  import opened Types

  /** Inflate a zlib stream (RFC 1950) into text; parse and print JSON text. */
  datatype Codec = Codec(
    inflate: seq<byte> -> Result<string, IoError>,
    parse: string -> Result<Value, JsonError>,
    serialize: Value -> Result<string, JsonError>)

  /**
   The stream's send-and-flush: its outcome for a message may depend on
   every message handed to it before (the first argument).
   */
  type Sink = (seq<Message>, Message) -> Result<(), WsError>

  /** The JSON library reads back what it writes. The transport does not rely on this. */
  ghost predicate SerializeParseRoundTrip(c: Codec) {
    forall v :: c.serialize(v).Ok? ==> c.parse(c.serialize(v).value) == Ok(v)
  }
}
