# Gateway WebSocket transport — Dafny model

This project models the JSON-over-WebSocket transport that the serenity
client uses for its gateway connection (`src/internal/ws_impl.rs`):

- the frame decoder `convert_ws_message`, which turns an optional WebSocket
  message (section 5.2 of RFC 6455) into "no data", a JSON value (RFC 8259),
  or an error — inflating Binary messages as zlib streams (RFC 1950) first and
  turning a Close message that carries a status code and reason (section 5.5.1
  of RFC 6455) into the terminal `GatewayError::Closed` error;
- the bounded-wait receive `recv_json`, which maps the four outcomes of waiting
  for the next message (a message, a transport error, the end of the stream,
  the 500 ms timeout) onto either an input of the decoder or an error;
- the send path `send_json`, which serialises a value and hands exactly one
  Text message to the stream, or returns the serialisation error and hands
  over nothing.

The zlib inflater, the JSON parser and serialiser, and the stream's send
primitive are foreign code. They are parameters of the model (`Foreign.Codec`
and `Foreign.Sink`), so every property holds for every implementation of them.
The sink sees every message handed to it before, so its outcome may depend on
the stream's history. The stream's "next item" primitive together with the
timeout is replaced by its result, the `WsImpl.Poll` datatype.

Layout: `wrappers.dfy` (Option, Result), `types.dfy` (messages, JSON values,
errors), `foreign.dfy` (the foreign functions), `ws_impl.dfy` (the three
operations), `properties.dfy` (lemmas relating several calls), `session.dfy`
(a caller's sequence of sends on one stream).

## Model

| member | source | states |
|---|---|---|
| WsImpl.ConvertWsMessage | src/internal/ws_impl.rs:51-81 | "no data" exactly for an absent message, Ping, Pong, raw Frame or Close without reason; a value only when it is the complete decoding of the message; a Close with a reason always becomes `Closed` carrying that very frame, and that is the only source of a gateway error; an inflation failure yields the inflation error and is the only source of an I/O error; a parse failure (of the text or of the inflated text) yields the parse error; never a transport error |
| WsImpl.RecvJson | src/internal/ws_impl.rs:30-40 | a transport error is returned unchanged; end of stream and timeout give "no data"; a received message gives exactly what the decoder gives for it |
| WsImpl.SendJson | src/internal/ws_impl.rs:45-47 | earlier traffic is untouched; a serialisation failure is returned and nothing is handed to the sink; otherwise exactly one Text message holding the serialised text is handed over; the result is Ok exactly when serialisation and the send both succeed, and a send failure is returned as a transport error |
| Session.SendInOrder | src/internal/ws_impl.rs:45-47 | repeated sends that stop at the first error hand the sink one Text frame per completed value, plus the frame of the failed value when it serialised, in the caller's order, each the serialisation of its value; the result is Ok exactly when every value went through, and otherwise it is the error of the first send that failed |
| Properties.DecodeComplete | src/internal/ws_impl.rs:54-80 | with the decoder's contract: a message decodes to `v` if and only if `v` is its complete decoding (raw text, or the text the inflater reports for a Binary payload, parsing to `v`) |
| Properties.BinaryDecodesAsText | src/internal/ws_impl.rs:55-74 | a Binary message that inflates to `s` gives the same result as the Text message `s` |
| Properties.InflateFailureSkipsParser | src/internal/ws_impl.rs:58-62 | when inflation fails the result is the inflation error whatever the parser is, so the parser is never consulted |
| Properties.ClosureIgnoresCodec | src/internal/ws_impl.rs:75-77 | a Close with a reason gives the same result whatever the inflater and parser are, so neither is consulted |
| Properties.SentTextDecodes | src/internal/ws_impl.rs:45-74 | if the JSON library reads back what it writes, the frame the send path hands over decodes to the value that was sent |
| Properties.CompressedTextDecodes | src/internal/ws_impl.rs:55-69 | if the JSON library reads back what it writes, a Binary message that inflates to the serialisation of `v` decodes to `v` |
| Properties.RecvFailureSkipsDecoder | src/internal/ws_impl.rs:33-35 | a transport error is returned as is whatever the decoder's foreign functions are |
| Properties.RecvTransportErrorIffFailed | src/internal/ws_impl.rs:33-39 | a receive reports a transport error if and only if the stream failed, so a transport error is never confused with a decode or closure error |
| Properties.RecvDataIffDecoded | src/internal/ws_impl.rs:33-39 | a receive delivers `v` if and only if a message arrived and `v` is its complete decoding |
| Properties.SerializeFailureSkipsSink | src/internal/ws_impl.rs:46 | when serialisation fails the outcome is the same whatever the sink is, and nothing is handed over |

## Left out

- `create_client` (src/internal/ws_impl.rs:83-117): the handshake request with its fixed browser-fingerprint header table, the per-connection random key and the WebSocket configuration constants are network set-up with no behaviour beyond the constants.
- The zlib inflation, JSON parsing and JSON serialisation algorithms: foreign library calls, modelled as the function parameters of `Foreign.Codec`. The round trip "parse what was serialised" is not promised by this code; it appears only as the hypothesis `SerializeParseRoundTrip` of two lemmas.
- The UTF-8 check of `read_to_string` is part of the foreign inflater: invalid UTF-8 after inflation counts as an inflation error. Whether a truncated zlib stream is reported as an error or yields partial text is up to the inflater; the model takes whatever it reports as Ok to be the inflated text.
- Timing: the 500 ms wait, its cancellation and the async suspension points are replaced by the `Poll` datatype of what the wait produced.
- The `warn!` log lines and the `#[instrument]` tracing: output side channels, not part of any result.
- The capacity pre-sizing of the inflation buffer (three times the compressed length): a performance hint with no effect on results.
- The `From`/`into` error conversions beyond the error kind; error causes are opaque strings, and `GatewayError` keeps only its `Closed` variant.
- JSON numbers are integers only; floating-point numbers are not modelled.
- A raw `Frame` message keeps only its payload bytes; the frame header is not modelled.
- The session loop that calls the transport is not part of this code; `Session.SendInOrder` models only the ordering of successive awaited sends on one stream.
