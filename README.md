# Maelstrom echo node: envelope and replies, in Dafny

This project models the core of a minimal Maelstrom node written in Rust. The node reads one JSON message per line on standard input. It answers the first line, an `init` request, with `init_ok`. It answers every later line, an `echo` request, with `echo_ok`. Each reply is written as one line on standard output.

The model has five modules:

- `Wrappers`: `Option` and `Result`.
- `Json`: JSON values. An object is an ordered key/value sequence. `Find` looks a key up the way serde's derived deserializers do: the key is absent, present once, or repeated.
- `Wire`: the compact text `serde_json::to_string` writes for a value, and the reply line with its trailing newline.
- `Envelope`: `Message` (`src`, `dest`, `body`) and `Body` (`msg_id`, `in_reply_to`, payload). It also holds the payload structs `Init`, `InitOk`, `Echo` and the tests' `{key, type}` struct, and their encoding to and decoding from JSON values.
- `Node`: the `init_ok` and `echo_ok` reply records, and `Run`, the loop of `main` over the input lines.

`src/main.rs` and `src/message.rs` declare the same `Body<T>` and `Message<T>` twice. The binary uses its own copies in `main.rs`. The model defines them once.

Rust's `Message<T>` is generic. The type argument `T` chooses, at compile time, which payload struct a line is read as. In the model, a `Kind` argument to decoding plays that role. The model never chooses a payload by the value under `"type"`, and neither does the code.

Decoding follows the derived serde implementations:

- the payload's fields are flattened into the body object;
- a missing or `null` optional id reads as `None`;
- an id must be a number in `u32` range;
- a known key given twice is an error;
- unknown keys are ignored;
- a `Message` may also be given in the positional form `[src, dest, body]`.

What the code does, and so what the model does:

- There is no dispatch on the `"type"` value, no error reply, no init/ready state, no stored node identity and no outbound id counter.
- An `echo_ok` reply's `msg_id` is the request's `msg_id`.
- The `init_ok` reply writes `msg_id` as `null`.
- Absent ids are written as `null`, not left out, because no skip attribute is present.
- The value under `"type"` is never checked, not even for being non-empty.
- A line that cannot be read, or an `echo` without `msg_id`, makes `unwrap` panic. The panic message goes to standard error, and the loop does not go on.

## Model

| member | source | states |
|---|---|---|
| `Envelope.MessageRoundTrip` | src/main.rs:132-149 | Decoding an encoded message, as its own payload struct, gives back the same message. This holds for every `src`, `dest`, id pair (`in_reply_to = None` included), `"type"` value and payload. |
| `Envelope.BodyRoundTrip` | src/message.rs:3-9 | Decoding an encoded body, as its own payload struct, gives back the same body: both optional `u32` ids and the payload. |
| `Envelope.FlattenedBody` | src/message.rs:4-9 | The body object holds `"type"` with the payload's type string at the same level as `msg_id` and `in_reply_to`. There is no nested `"payload"` key. An id that is `None` is written as `null`, and an id `Some(n)` as the number `n`. |
| `Envelope.MissingIdReadsAsNull` | src/message.rs:31-41 | For every body and payload kind: a body without a `msg_id` key, or without an `in_reply_to` key, decodes exactly as the same body with that key given as `null`. So a missing id is never an error, and it reads as `None`. |
| `Envelope.BodyDecodesIff` | src/message.rs:4-9 | A body object decodes exactly when each of `msg_id` and `in_reply_to` is absent, `null`, or a number in `u32` range given once, and the payload decodes. So a string, boolean, array, object, out-of-range number or repeated key under either id is refused. |
| `Envelope.MissingIdReadsNone` | src/message.rs:31-41 | If a body decodes and has no `in_reply_to` key, it reads `in_reply_to = None`. The same holds for `msg_id`. |
| `Envelope.PresentIdReadsSome` | src/message.rs:31-38 | If `msg_id` occurs once as a number `n` in `u32` range and the body decodes, it reads `msg_id = Some(n)`. |
| `Envelope.BadIdRejected` | src/message.rs:5-6 | A body whose `msg_id` is a number outside the `u32` range fails to decode. So does a body that gives `msg_id` twice. |
| `Envelope.TypeKeyFillsTyp` | src/message.rs:27-28 | In every body that decodes, `"type"` occurs exactly once, and its string is the payload's `typ` field. |
| `Envelope.UnknownKeyIgnored` | src/main.rs:18-24 | Adding a body member under a key the payload kind does not read leaves the decoding result unchanged. |
| `Envelope.ArrayFormReadsAlike` | src/main.rs:26-31 | For any three JSON values, the positional form `[src, dest, body]` decodes exactly as the object `{"src": src, "dest": dest, "body": body}` does. |
| `Envelope.EncodeMessage` | src/main.rs:26-31 | No contract of its own. See `Envelope.MessageRoundTrip`. |
| `Envelope.DecodeMessage` | src/main.rs:26-31 | No contract of its own. See `Envelope.MessageRoundTrip` and `Envelope.ArrayFormReadsAlike`. |
| `Envelope.EncodeBody` | src/main.rs:18-24 | No contract of its own. See `Envelope.BodyRoundTrip` and `Envelope.FlattenedBody`. |
| `Envelope.DecodeBody` | src/main.rs:18-24 | No contract of its own. See `Envelope.BodyRoundTrip`, `Envelope.BodyDecodesIff` and `Envelope.UnknownKeyIgnored`. |
| `Envelope.IdField` | src/main.rs:20-21 | No contract of its own. See `Envelope.MissingIdReadsAsNull`, `Envelope.PresentIdReadsSome` and `Envelope.BodyDecodesIff`. |
| `Envelope.PayloadMembers` | src/main.rs:4-16 | No contract of its own. See `Envelope.PayloadRoundTrip` and `Envelope.FlattenedBody`. |
| `Envelope.DecodePayload` | src/main.rs:33-38 | No contract of its own. See `Envelope.PayloadRoundTrip` and `Envelope.TypeKeyFillsTyp`. |
| `Envelope.PayloadRoundTrip` | src/main.rs:4-16 | Every payload struct (`Init`, `InitOk`, `Echo`, the tests' `{key, type}`), encoded into a body, decodes back as its own kind. |
| `Envelope.SampleLineDecodes` | src/message.rs:31-49 | The tests' sample line decodes, as `{key, type}`, to `src = "test1"`, `dest = "test2"`, `msg_id = Some(123)`, `in_reply_to = None`, `type = "read"` and `key = 3`. `type` and `key` are read from the same body level as `msg_id`. `src/main.rs:103-120` repeats this test. |
| `Wire.Render` | src/main.rs:61 | The compact text of any JSON value contains no raw newline, because newlines inside strings are escaped. |
| `Wire.Line` | src/main.rs:82-83 | A reply line ends with `'\n'` and contains no other newline. |
| `Node.InitOkReply` | src/main.rs:49-59 | No contract of its own. See `Node.InitOkOnTheWire` and `Node.InitOkIgnoresPayload`. |
| `Node.EchoOkReply` | src/main.rs:69-80 | No contract of its own. See `Node.EchoOkOnTheWire`. |
| `Node.InitOkOnTheWire` | src/main.rs:49-59 | Decoding the object written for an `init` request's reply gives: `src` = the request's `dest`, `dest` = the request's `src`, type `"init_ok"`, `in_reply_to` = the request's `msg_id`, and `msg_id = None`. On the wire, `msg_id` is `null`, and `in_reply_to` is `null` when the request had no `msg_id`. |
| `Node.InitOkIgnoresPayload` | src/main.rs:45-59 | Two `init` requests with the same `src`, `dest` and `msg_id` get the same reply, whatever their `node_id`, `node_ids`, `"type"` value and `in_reply_to`. |
| `Node.EchoOkOnTheWire` | src/main.rs:69-80 | An `echo` request gets a reply exactly when it has a `msg_id`. Decoding the object written for that reply gives: endpoints swapped, payload `Echo("echo_ok", e)` where `e` is the request's `echo` text unchanged (the empty text included), and `in_reply_to` and `msg_id` both equal to the request's `msg_id`. |
| `Node.Run` | src/main.rs:40-88 | The output holds at most one line per input line. Line 0 is the `init_ok` line for input 0, and line `i > 0` is the `echo_ok` line for input `i`, in order. A run that reaches the end of input wrote exactly one line per input line. A run that stops has either written nothing (no input, or an unreadable `init`) or stopped at the first later line that cannot be read as an echo or has no `msg_id`. The lines written before that stay written. |

## Left out

- Standard-stream I/O: reading lines, the lock on standard output, and writing. `Node.Run` takes the input lines as a sequence and returns the written lines as a sequence.
- I/O errors and invalid UTF-8 on input: these make `read_line` return an error or `line.unwrap()` panic. They are not modelled.
- JSON text parsing by `serde_json::from_str`: whitespace, number syntax and string escapes on input. The model starts from parsed JSON values. An input line that is not JSON text at all is `None`.
- JSON numbers other than integers. The node reads and writes only `u32` values.
- `Wire.Render` follows serde_json's compact writer: members in order, no whitespace, serde_json's escape table. It is used only to show that a reply is one line. No text-level round trip is proved.
- `Envelope.DecodeMessage` and `Envelope.DecodeBody`: serde reports the first error it meets in input key order. The model checks the fields in declaration order. So when several things are wrong, the reported error may differ. Whether decoding succeeds, and the decoded value, do not depend on this.
- `Envelope.BadIdRejected` states only that decoding fails, not which error is reported. `Envelope.BodyDecodesIff` gives the full rule for when a body decodes.
- Process aborts: a failed `unwrap` ends the session, with `completed == false`. Process exit and its status are not modelled.
- The `?` on `serde_json::to_string` is not modelled: serializing these structs cannot fail.
- `src/echo.rs` `handle_echo` is not part of this model. It calls `get_payload` and `switch_src_dest`, which no file of the repository defines. `src/main.rs` does not declare that module.
