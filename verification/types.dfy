/**
 The data that crosses the gateway transport: WebSocket messages as the
 WebSocket engine hands them over (section 5.2 of RFC 6455), the structured
 JSON value delivered to the caller, and the crate's error taxonomy.
 */
module Types {
  import opened Wrappers

  newtype byte = x: int | 0 <= x < 0x100

  /** Close status codes are 16-bit (section 5.5.1 of RFC 6455). */
  newtype u16 = x: int | 0 <= x < 0x1_0000

  /** A generic JSON value (RFC 8259). Numbers are integers only. */
  datatype Value =
    | Null
    | Bool(b: bool)
    | Number(n: int)
    | Str(s: string)
    | Array(items: seq<Value>)
    | Object(fields: map<string, Value>)

  /** The body of a Close control frame: a status code and a UTF-8 reason. */
  datatype CloseFrame = CloseFrame(code: u16, reason: string)

  /**
   One message of the WebSocket engine. `Frame` is a raw frame the engine
   passes through without assembling it; only its payload bytes are kept.
   */
  datatype Message =
    | Text(text: string)
    | Binary(bytes: seq<byte>)
    | Ping(ping: seq<byte>)
    | Pong(pong: seq<byte>)
    | Close(frame: Option<CloseFrame>)
    | Frame(raw: seq<byte>)

  /** Text and Binary messages carry an application payload; control frames do not. */
  predicate CarriesPayload(m: Message) {
    m.Text? || m.Binary?
  }

  /** A Close message that states a status code and reason: the peer ended the session. */
  predicate IsClosure(m: Message) {
    m.Close? && m.frame.Some?
  }

  /** Opaque causes reported by the foreign libraries. */
  datatype IoError = IoError(cause: string)          // zlib inflation or UTF-8 check
  datatype JsonError = JsonError(cause: string)      // JSON parse or serialise
  datatype WsError = WsError(cause: string)          // WebSocket transport

  /** The gateway-level error raised on a Close with a reason. */
  datatype GatewayError = Closed(frame: Option<CloseFrame>)

  /** The crate's error type, reduced to the kinds this transport produces. */
  datatype Error =
    | Gateway(gateway: GatewayError)
    | Io(io: IoError)
    | Json(json: JsonError)
    | Tungstenite(ws: WsError)
}
