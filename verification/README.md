# flytsim line protocol, modelled in Dafny

flytsim drives a simulated drone over TCP. The client library (`cli`)
queues commands and sends each as one text request line. The server
(`srv`) parses the line with a Boost.Spirit grammar, calls the matching
flight service, and answers with two lines: `result:<code> message:"<text>"`
and a data line. For `get_image` the data line carries the latest camera
frame, Base32-encoded. Every line ends in CR LF.

This project models that protocol as pure functions over `seq<char>` and
proves properties of it:

- `Base32` (with `Bits`): the server's encoder and decoder. The encoder's
  bit-buffer loop works on the 32-bit pattern of its `int` buffer. It is
  proved equal to a reference encoding, and decoding an encoding gives the
  bytes back.
- `Lexical`, `DecimalLiteral`: the Spirit primitives the grammars use.
  These are the `ascii::space` skipper, `lit`, `bool_` and `int_` (32-bit),
  and `float_` over an abstract decimal literal: sign, digits, optional
  fraction, optional exponent. Floating-point values never appear.
- `ServerCommands`, `CommandsParser`: the eight-way command variant and a
  recursive-descent parser. It tries the alternatives in variant order,
  makes optional fields restore the input, and ignores trailing input.
- `LineReader`: `readLine`, shared by both sides. Its delimiter matcher
  ends a line only at an LF preceded by an odd run of CRs.
- `ClientCommands`, `ResponseText`, `ResponseParser`, `LineShapes`: the
  client's `writeRequest` texts, the two response lines the server prints,
  and the client's result and image readers. `GetImage` takes its decoder
  as a parameter.
- `ServerConnection`: the server's session loop. It reads a line, parses
  it, dispatches on the variant index, and writes two lines. Service calls
  come from an oracle indexed by request number. The latest image is an
  `Option` per request.
- `ClientConnection`: the client's connection state machine: `connect`,
  `asyncSendCommand`, `disconnect`, and the coroutine's drain loop. All of
  them share one `iostream` state bit.
- `Protocol`: the two sides against each other.
  - Every client request parses on the server as the same command.
  - The server answers it and calls the service the client meant.
  - The client reads back the code and message.
  - An image crosses the wire intact.

## Model

| member | source | states |
|---|---|---|
| `Base32.Encode` | src/flytsim_srv/Base32.cpp:9-37 | An encoding of n bytes is ceil(8n/5) symbols, all from `A`-`Z` and `2`-`7`, never `=`. It is empty exactly when the input is. |
| `Base32.EncodeToStream` | src/flytsim_srv/Base32.cpp:5-38 | The loop as written returns true and writes exactly the reference encoding. The loop keeps a 32-bit `int` buffer, refills a byte at a time, pads with zeros once the input is exhausted, and emits the top five live bits. |
| `Base32.Refill` | src/flytsim_srv/Base32.cpp:16-30 | With fewer than five live bits, the next byte is shifted in below them. Once the input is exhausted, the buffer is zero-padded to five bits instead. Either way the buffer still holds the live bits, and 5 to 12 bits are live. |
| `Base32.EncodePadsWithZeros` | src/flytsim_srv/Base32.cpp:24-29 | The last symbol of a non-empty encoding has its low padding bits zero. |
| `Base32.SymbolValueDefined` | src/flytsim_srv/Base32.cpp:55-69 | Exactly `A`-`Z`, `a`-`z` and `2`-`7` have a digit value, and the value names the symbol. |
| `Base32.SymbolValueOf` | src/flytsim_srv/Base32.cpp:56-64 | The lookup inverts the alphabet. A lower-case letter has the value of its upper-case form. |
| `Base32.DecodeFrom` | src/flytsim_srv/Base32.cpp:46-83 | The loop only extends the bytes produced, never past `size`. It succeeds exactly when `size` bytes result. |
| `Base32.Decode` | src/flytsim_srv/Base32.cpp:40-84 | `decode` returns true exactly when `size` bytes were produced, and never produces more. |
| `Base32.DecodeNothing` | src/flytsim_srv/Base32.cpp:46-83 | Asking for zero bytes succeeds and leaves the stream untouched. |
| `Base32.DecodeBadStream` | src/flytsim_srv/Base32.cpp:79-83 | On a stream that is not good, exactly one zero byte is produced. The call succeeds only when `size` is 1. |
| `Base32.DecodeSkips` | src/flytsim_srv/Base32.cpp:49-52 | Space, tab, CR, LF and `-` are consumed without changing the decoder's state. |
| `Base32.DecodeIgnoresCase` | src/flytsim_srv/Base32.cpp:56-59 | A lower-case letter decodes exactly as its upper-case form. |
| `Base32.DecodeRejects` | src/flytsim_srv/Base32.cpp:65-69 | Any other character fails the decode on the spot. The character is put back and nothing after it is read. |
| `Base32.DecodeEndOfInput` | src/flytsim_srv/Base32.cpp:46-69 | Running out of input before `size` bytes fails, and the stream is left exhausted. |
| `Base32.DecodeEncode` | src/flytsim_srv/Base32.cpp:5-84 | Decoding the encoding of B with size \|B\| succeeds, gives B, and stops right after the last symbol. |
| `ServerCommands.Which` | src/flytsim_srv/Commands.hpp:69-79 | Each variant has its own index below eight, in the order of the variant's alternatives. |
| `Lexical.Skip` | src/flytsim_srv/CommandsParser.cpp:191-191 | After the skipper the input starts with no white space, and it is no longer than before. |
| `Lexical.SkipSpaces` | src/flytsim_srv/CommandsParser.cpp:191-191 | Any run of white space before a token is skipped. |
| `Lexical.Lit` | src/flytsim_srv/CommandsParser.cpp:116-116 | `lit(word)` matches exactly when `word` is a contiguous prefix of the skipped input, and leaves what follows it. |
| `Lexical.LitFront` | src/flytsim_srv/CommandsParser.cpp:116-116 | A keyword at the front of the input is matched and removed. |
| `Lexical.LitMismatch` | src/flytsim_srv/CommandsParser.cpp:105-113 | A keyword fails when the input starts with a different letter. This is why the alternatives after the first reject each other's lines. |
| `Lexical.LitAfterSpace` | src/flytsim_srv/CommandsParser.cpp:135-138 | A field name written after one space is matched. |
| `Lexical.Bool` | src/flytsim_srv/CommandsParser.cpp:159-159 | `bool_` reads `true` or `false` after the skipper, and fails when neither is there. |
| `Lexical.BoolRoundTrip` | src/flytsim_srv/CommandsParser.cpp:159-159 | The client's `true`/`false` is read back as the same flag. |
| `Lexical.Int` | src/flytsim_cli/ResponseParser.cpp:56-56 | `int_` only yields values that fit 32 bits. |
| `Lexical.IntRoundTrip` | src/flytsim_cli/ResponseParser.cpp:56-56 | The decimal text of a 32-bit integer is read back as the integer. |
| `DecimalLiteral.FloatRoundTrip` | src/flytsim_srv/CommandsParser.cpp:126-126 | A valid literal followed by a character that cannot continue a number is read back by `float_` as the same literal. |
| `DecimalLiteral.RealAtSound` | src/flytsim_srv/CommandsParser.cpp:126-126 | Whatever `float_` reads is a valid literal, and the text it consumed is that literal's text. |
| `CommandsParser.OptionalBool` | src/flytsim_srv/CommandsParser.cpp:137-138 | An optional flag is present exactly when both the name and a bool match. When absent, the input is restored. |
| `CommandsParser.OptionalFloat` | src/flytsim_srv/CommandsParser.cpp:136-136 | An optional number is present exactly when both the name and a number match. When absent, the input is restored. |
| `CommandsParser.FloatField` | src/flytsim_srv/CommandsParser.cpp:126-126 | A required number field matches exactly when its name and a number follow. |
| `CommandsParser.RCommon` | src/flytsim_srv/CommandsParser.cpp:158-159 | When no `async:` flag is read, the common part consumes nothing. |
| `CommandsParser.VectorParts` | src/flytsim_srv/CommandsParser.cpp:161-166 | `r_Vector3` matches exactly when `{`, a number, `,`, a number, `,`, a number and `}` follow one another. Its coordinates are the three numbers read. |
| `CommandsParser.RArm` | src/flytsim_srv/CommandsParser.cpp:115-117 | `r_Arm` matches exactly when `arm` comes first, and builds an Arm. |
| `CommandsParser.RDisarm` | src/flytsim_srv/CommandsParser.cpp:119-121 | `r_Disarm` matches exactly when `disarm` comes first, and builds a Disarm. |
| `CommandsParser.RTakeOff` | src/flytsim_srv/CommandsParser.cpp:123-126 | `r_TakeOff` matches exactly when `take_off`, the common part, and a required `altitude:` number follow. |
| `CommandsParser.RLand` | src/flytsim_srv/CommandsParser.cpp:128-130 | `r_Land` matches exactly when `land` comes first. |
| `CommandsParser.SetpointOptions` | src/flytsim_srv/CommandsParser.cpp:136-138 | Each optional field is present exactly when its name and value match where the field before it stopped. When all three are absent, the input is left as it was. |
| `CommandsParser.RPositionSetpoint` | src/flytsim_srv/CommandsParser.cpp:132-138 | `r_PositionSetpoint` matches exactly when the keyword, the common part, `position:` and a vector follow one another. The optional fields never make it fail. |
| `CommandsParser.RVelocitySetpoint` | src/flytsim_srv/CommandsParser.cpp:140-146 | `r_VelocitySetpoint` matches exactly when the keyword, the common part, `velocity:` and a vector follow one another. The optional fields never make it fail. |
| `CommandsParser.RAttitudeSetpoint` | src/flytsim_srv/CommandsParser.cpp:148-152 | `r_AttitudeSetpoint` matches exactly when the keyword, the common part, `rpy:`, a vector, `thrust:` and a number follow one another. |
| `CommandsParser.RGetImage` | src/flytsim_srv/CommandsParser.cpp:154-156 | `r_GetImage` matches exactly when `get_image` comes first. |
| `CommandsParser.Rule` | src/flytsim_srv/CommandsParser.cpp:105-113 | Alternative i, when it matches, builds the variant with index i. |
| `CommandsParser.Parse` | src/flytsim_srv/CommandsParser.cpp:185-195 | `parse` fails only with `invalid_argument`. |
| `CommandsParser.FirstMatchNone` | src/flytsim_srv/CommandsParser.cpp:105-113 | An alternation fails exactly when every alternative fails. |
| `CommandsParser.FirstMatchWinner` | src/flytsim_srv/CommandsParser.cpp:105-113 | A matching alternation is won by its first matching alternative. |
| `CommandsParser.ParseFirstMatch` | src/flytsim_srv/CommandsParser.cpp:105-113 | `parse` gives variant i exactly when rule i matches and no earlier rule does. The command is then the one rule i built. |
| `CommandsParser.ParseFails` | src/flytsim_srv/CommandsParser.cpp:191-192 | `parse` fails, with `invalid_argument`, exactly when no alternative matches. |
| `CommandsParser.RuleSkip` | src/flytsim_srv/CommandsParser.cpp:100-166 | Every rule gives the same result with or without the white space in front. |
| `CommandsParser.ParseSkipsLeadingSpace` | src/flytsim_srv/CommandsParser.cpp:191-191 | White space in front of a request line does not change its parse. |
| `CommandsParser.ParseArm` | src/flytsim_srv/CommandsParser.cpp:115-117 | `arm` followed by anything is Arm, with the common part read from what follows. |
| `CommandsParser.ParseDisarm` | src/flytsim_srv/CommandsParser.cpp:119-121 | `disarm` followed by anything is Disarm. The earlier `arm` alternative does not take it. |
| `CommandsParser.ParseLand` | src/flytsim_srv/CommandsParser.cpp:128-130 | `land` followed by anything is Land. |
| `CommandsParser.ParseGetImage` | src/flytsim_srv/CommandsParser.cpp:154-156 | `get_image` followed by anything is GetImage. |
| `CommandsParser.ParseTakeOff` | src/flytsim_srv/CommandsParser.cpp:123-126 | `take_off` is TakeOff when `altitude:` and a number follow the common part. Otherwise the whole line fails with `invalid_argument`. |
| `CommandsParser.PositionFirst` | src/flytsim_srv/CommandsParser.cpp:105-113 | No earlier alternative takes a `position_setpoint` line. |
| `CommandsParser.VelocityFirst` | src/flytsim_srv/CommandsParser.cpp:105-113 | No earlier alternative takes a `velocity_setpoint` line. |
| `CommandsParser.AttitudeFirst` | src/flytsim_srv/CommandsParser.cpp:105-113 | No earlier alternative takes an `attitude_setpoint` line, although `arm` shares its first letter. |
| `CommandsParser.ParsePositionSetpoint` | src/flytsim_srv/CommandsParser.cpp:132-138 | `position_setpoint` is PositionSetpoint when `position:` and a vector follow the common part, with the optional fields read after the vector. Otherwise the whole line fails with `invalid_argument`. |
| `CommandsParser.ParseVelocitySetpoint` | src/flytsim_srv/CommandsParser.cpp:140-146 | `velocity_setpoint` is VelocitySetpoint when `velocity:` and a vector follow the common part, with the optional fields read after the vector. Otherwise the whole line fails with `invalid_argument`. |
| `CommandsParser.ParseAttitudeSetpoint` | src/flytsim_srv/CommandsParser.cpp:148-152 | `attitude_setpoint` is AttitudeSetpoint when `rpy:`, a vector, `thrust:` and a number follow the common part. Otherwise the whole line fails with `invalid_argument`. |
| `CommandsParser.ArmIgnoresTrailing` | src/flytsim_srv/CommandsParser.cpp:191-194 | `arm xyz` parses as Arm without `async`: trailing input is not rejected. |
| `CommandsParser.BodyFrameBeforeRelative` | src/flytsim_srv/CommandsParser.cpp:136-138 | The optional fields are read only in grammar order. A tail that gives `body_frame:` first yields no angle and no `relative:`, and leaves the input after the flag. |
| `LineReader.ReadFrom` | src/flytsim_cli/Commands.cpp:19-33 | The read loop either succeeds, consuming input on a good stream, or fails with `illegal_byte_sequence` and leaves the stream bad. |
| `LineReader.FirstEnd` | src/flytsim_cli/Commands.cpp:23-25 | The first position where a line ends: an LF after an odd run of CRs, with none earlier. |
| `LineReader.ReadLineMeetsExpected` | src/flytsim_cli/Commands.cpp:15-34 | `readLine` appends the text before the first line end, without its CR, and leaves the input after the LF. Without a line end it appends everything and fails with `illegal_byte_sequence`. |
| `LineReader.ReadLineCrLf` | src/flytsim_srv/Connection.cpp:284-303 | A line without LF, not ending in CR, followed by CR LF is read exactly, appended to the caller's string. |
| `LineReader.ReadLineBadStream` | src/flytsim_cli/Commands.cpp:21-33 | On a stream that is not good nothing is read, and the error is reported. |
| `LineReader.CrCrLfIsNoLineEnd` | src/flytsim_cli/Commands.cpp:23-23 | CR CR LF does not end a line. |
| `LineReader.CrCrCrLfEndsLine` | src/flytsim_cli/Commands.cpp:23-28 | CR CR CR LF ends a line holding two CRs. |
| `ResponseParser.UntilQuote` | src/flytsim_cli/ResponseParser.cpp:60-60 | The message run stops at the first quote and contains none. |
| `ResponseParser.Quoted` | src/flytsim_cli/ResponseParser.cpp:60-60 | A quoted message is a quote, the text, and a closing quote. |
| `ResponseParser.QuotedRoundTrip` | src/flytsim_cli/ResponseParser.cpp:59-60 | Any text without a quote, white space included, is read back exactly from between its quotes. |
| `ResponseParser.QuotedUnclosed` | src/flytsim_cli/ResponseParser.cpp:60-60 | A message without its closing quote does not match. |
| `ResponseParser.IntField` | src/flytsim_cli/ResponseParser.cpp:74-76 | A numeric field yields a 32-bit value. |
| `ResponseParser.IntFieldOf` | src/flytsim_cli/ResponseParser.cpp:74-76 | A field name and a 32-bit integer are read back, written with or without a space before. |
| `ResponseParser.ResultRule` | src/flytsim_cli/ResponseParser.cpp:55-57 | A result line yields a 32-bit code and a message with no quote. |
| `ResponseParser.SymbolRun` | src/flytsim_cli/ResponseParser.cpp:79-79 | The data run holds only alphabet symbols. |
| `ResponseParser.SymbolRunStep` | src/flytsim_cli/ResponseParser.cpp:79-79 | White space before a symbol is skipped and not stored. |
| `ResponseParser.SymbolRunOf` | src/flytsim_cli/ResponseParser.cpp:79-79 | A run of symbols followed by a non-symbol is read exactly. |
| `ResponseParser.ImageRule` | src/flytsim_cli/ResponseParser.cpp:73-79 | An image line yields 32-bit width, height and size, and symbol-only data. |
| `ResponseParser.ParseResult` | src/flytsim_cli/ResponseParser.cpp:88-98 | `parseResult` fails exactly when the rule does, with `invalid_argument`. |
| `ResponseParser.ParseImage` | src/flytsim_cli/ResponseParser.cpp:100-110 | `parseImage` fails exactly when the rule does, with `invalid_argument`. |
| `ResponseParser.ResultRoundTrip` | src/flytsim_cli/ResponseParser.cpp:55-60 | A result line as the server prints it parses to its code and message, whatever follows. |
| `ResponseParser.ImageRoundTrip` | src/flytsim_cli/ResponseParser.cpp:73-79 | An image line as the server prints it parses to its three numbers and data, the data possibly empty. |
| `LineShapes.ResultTextNoBreak` | src/flytsim_srv/Connection.cpp:108-108 | A result line holds no CR or LF when its message holds none, and ends in a quote. |
| `LineShapes.ImageTextNoBreak` | src/flytsim_srv/Connection.cpp:277-279 | An image line holds no CR or LF, and does not end in CR. |
| `ClientCommands.WriteRequest` | src/flytsim_cli/Commands.cpp:66-167 | Every request is its request line followed by CR LF. With well-formed numbers the line itself holds no CR or LF. |
| `ClientCommands.FixedRequests` | src/flytsim_cli/Commands.cpp:66-167 | Arm, Disarm, Land and GetImage write exactly `arm`, `disarm`, `land async:true` or `land async:false`, and `get_image`, each with CR LF. GetImage writes the same line with or without a callback. |
| `ClientCommands.RequestLineNoBreak` | src/flytsim_cli/Commands.cpp:91-153 | No request line holds a CR or LF. |
| `ClientCommands.VelocityNoBreak` | src/flytsim_cli/Commands.cpp:122-137 | The velocity line, with or without its yaw rate, holds no CR or LF. |
| `ClientCommands.RequestReadBack` | src/flytsim_cli/Commands.cpp:15-34 | `readLine` on a written request appends exactly its request line and leaves the input after it. |
| `ClientCommands.ReadResponseResult` | src/flytsim_cli/Commands.cpp:36-48 | A line-read error passes through as `illegal_byte_sequence`. A mismatch is `invalid_argument`. Otherwise the parsed result is stored. The stream is left where `readLine` leaves it. |
| `ClientCommands.ReadResponseData` | src/flytsim_cli/Commands.cpp:169-195 | Only a `GetImage` with a callback delivers a frame, and only with success. A line-read error passes through. `resize` can throw only for `GetImage` with a callback. |
| `ClientCommands.ReadResultLine` | src/flytsim_cli/Commands.cpp:36-48 | A server result line is read back with its code and message, and the stream moves past it. |
| `ClientCommands.ReadResultMismatch` | src/flytsim_cli/Commands.cpp:42-45 | A line that is not a result line is consumed and reported as `invalid_argument`. |
| `ClientCommands.ReadResultNoLine` | src/flytsim_cli/Commands.cpp:39-40 | Input without a line end is reported as `illegal_byte_sequence`. |
| `ClientCommands.ReadersOnBadStream` | src/flytsim_cli/Commands.cpp:36-54 | On a bad stream both readers fail with `illegal_byte_sequence` and change nothing. |
| `ClientCommands.ReadDataDiscards` | src/flytsim_cli/Commands.cpp:50-54 | The default data reader consumes one line, discards it, and succeeds. |
| `ClientCommands.ReadImageLine` | src/flytsim_cli/Commands.cpp:182-194 | With a callback, a frame is delivered exactly when the decoder succeeds, carrying the decoded bytes. The read succeeds either way. |
| `ClientCommands.ReadImageNegativeSize` | src/flytsim_cli/Commands.cpp:187-187 | A negative size with a callback set makes `resize` throw. |
| `ServerConnection.CallService` | src/flytsim_srv/Connection.cpp:126-132 | A service call gives success exactly when the service succeeds, otherwise `io_error`. It writes no data. |
| `ServerConnection.ClientCall` | src/flytsim_srv/Connection.cpp:122-132 | A call reaches the service exactly when the request's type is the one the client was created for. It succeeds exactly when it reaches a service that succeeds, and otherwise gives `io_error`. |
| `ServerConnection.PositionSetpointRefused` | src/flytsim_srv/Connection.cpp:192-208 | As written, the position handler answers `io_error` with no service call, whatever the service and the request. |
| `ServerConnection.HandlePositionSetpoint` | src/flytsim_srv/Connection.cpp:189-208 | With the client created for the position type, the position request reaches the service. The answer is success exactly when that call succeeds. |
| `ServerConnection.HandleGetImage` | src/flytsim_srv/Connection.cpp:267-282 | Without an image the answer is `no_stream_resources` with no data. Otherwise it is the image line, whose size is the byte count. No service is called. |
| `ServerConnection.Handle` | src/flytsim_srv/Connection.cpp:69-105 | With the position handler corrected, index i calls the i-th service. Service commands write no data and answer success exactly when their call succeeds. GetImage calls nothing. |
| `ServerConnection.HandleAsWritten` | src/flytsim_srv/Connection.cpp:69-105 | The switch as written answers a position setpoint with `io_error` and calls nothing. |
| `ServerConnection.AsWrittenDiffersOnPosition` | src/flytsim_srv/Connection.cpp:69-105 | The switch as written and the corrected dispatch agree on every command except a position setpoint. On a position setpoint the program refuses it, and the corrected server calls the position service and answers by it. |
| `ServerConnection.Respond` | src/flytsim_srv/Connection.cpp:58-106 | A line that does not parse is answered with the parser's error, and nothing runs. Any call or data comes from a parsed command of that kind. |
| `ServerConnection.Serve` | src/flytsim_srv/Connection.cpp:43-117 | A session makes at most one service call per answered line. On a bad stream it writes nothing. |
| `ServerConnection.ServeAnswersLines` | src/flytsim_srv/Connection.cpp:49-111 | A session answers exactly the complete lines of its input, in order, each with its response and calls. An unfinished last line is not answered. |
| `ServerConnection.ResponseLines` | src/flytsim_srv/Connection.cpp:108-110 | A response reads back as two lines, the result line and the data line. |
| `ServerConnection.AnswerIsTwoLines` | src/flytsim_srv/Connection.cpp:108-110 | Every request line, image or not, is answered with exactly two lines, provided the code messages hold no line break: the result line and the data line. |
| `ServerConnection.LandAsync` | src/flytsim_srv/Connection.cpp:175-178 | `land` is asynchronous exactly when the request carried `async:true`. |
| `ServerConnection.SetpointRequests` | src/flytsim_srv/Connection.cpp:189-243 | In a setpoint call, the vector is the linear part and the yaw (rate), if present, is the angular z. The valid flag says whether it was present. Absent flags are false, and async is always set. |
| `ServerConnection.ServiceFailure` | src/flytsim_srv/Connection.cpp:119-265 | With the position handler corrected, a parsed service command fails with `io_error` exactly when its service call fails, with empty data. |
| `ServerConnection.UnparsedLine` | src/flytsim_srv/Connection.cpp:62-66 | An unparsable line is answered `result:22` with the message and an empty data line. Nothing is called, and the session goes on. |
| `ClientConnection.Connect` | src/flytsim_cli/Connection.cpp:28-45 | Connecting while open is `already_connected` and changes nothing. A failed connect returns the error without processing. A successful one empties the queue, starts processing, and keeps the stream's state. |
| `ClientConnection.AsyncSend` | src/flytsim_cli/Connection.cpp:65-75 | Sending while closed is `not_connected` and changes nothing. Otherwise the command joins the back of the queue. |
| `ClientConnection.Disconnect` | src/flytsim_cli/Connection.cpp:52-63 | Disconnect is a no-op when closed. Otherwise processing stops, a running coroutine drains the queue, and the socket is closed. After an exception has ended the process there is no state left to return. |
| `ClientConnection.Step` | src/flytsim_cli/Connection.cpp:329-350 | One pass writes, reads the result, reads the data, then pops the front command and records its outcome. It writes only on a good stream while processing, and then exactly that request. A `resize` exception keeps the command queued. |
| `ClientConnection.Drain` | src/flytsim_cli/Connection.cpp:318-351 | The drain ends with an empty queue unless the coroutine crashed. It only appends to the recorded outcomes. |
| `ClientConnection.RunQueue` | src/flytsim_cli/Connection.cpp:318-351 | The coroutine's loop, one pass per command, ends in exactly the state the drain reaches. When processing, that state has an empty queue unless the coroutine crashed. |
| `ClientConnection.DrainRunsInOrder` | src/flytsim_cli/Connection.cpp:318-351 | Commands run from the front of the queue in order, one outcome each. |
| `ClientConnection.DrainEnds` | src/flytsim_cli/Connection.cpp:318-351 | Without a crash every queued command is run and popped, whatever its outcome. After a crash the throwing command stays at the front. |
| `ClientConnection.DrainSends` | src/flytsim_cli/Connection.cpp:333-341 | What is sent grows by exactly the requests written, in run order. |
| `ClientConnection.DrainOnBadStream` | src/flytsim_cli/Connection.cpp:400-405 | Once processing has stopped, or the stream is bad, nothing is sent. Every command fails with `illegal_byte_sequence`, and the stream is left bad. |
| `ClientConnection.LeftOpenStrands` | src/flytsim_cli/Connection.cpp:30-39 | A failed connect that leaves the socket open strands the client. Commands queue but never run, and reconnecting is refused. |
| `ClientConnection.StaleStreamAfterReconnect` | src/flytsim_cli/Connection.cpp:28-45 | As written, after a disconnect that drained a command, a reconnected client sends nothing and its next command fails. |
| `ClientConnection.Reconnect` | src/flytsim_cli/Connection.cpp:28-45 | `connect` with the stream state cleared and the socket closed after a failure: the same outcomes, with a good stream on a new connection and a closed socket after a failed one. |
| `ClientConnection.ReconnectRetries` | src/flytsim_cli/Connection.cpp:30-39 | After a failed connect, commands are refused as `not_connected`, and the next successful connect starts processing. |
| `ClientConnection.ReconnectSends` | src/flytsim_cli/Connection.cpp:28-45 | With the stream cleared, the first command on a new connection is written, and exactly its request is sent. |
| `Protocol.VectorRoundTrip` | src/flytsim_srv/CommandsParser.cpp:161-166 | `{x,y,z}` as the client prints it is read back as the same vector. |
| `Protocol.VelocityOptionsRoundTrip` | src/flytsim_srv/CommandsParser.cpp:144-146 | The velocity tail is read back with the yaw rate present exactly when written, and both flags present with their values. |
| `Protocol.TakeOffParses` | src/flytsim_srv/CommandsParser.cpp:123-126 | The client's take-off line parses as TakeOff with its altitude, without `async`. |
| `Protocol.LandParses` | src/flytsim_srv/CommandsParser.cpp:128-130 | The client's land line parses as Land with `async` present and equal to the client's flag. |
| `Protocol.VelocityParses` | src/flytsim_srv/CommandsParser.cpp:140-146 | The client's velocity line parses as VelocitySetpoint with its vector, its yaw rate if any, and both flags. |
| `Protocol.OptionsRoundTrip` | src/flytsim_srv/CommandsParser.cpp:136-138 | A setpoint's optional tail, each field written only when present, is read back with exactly the values written and nothing left over. |
| `Protocol.PositionRule` | src/flytsim_srv/CommandsParser.cpp:132-138 | A position line is matched whole by `r_PositionSetpoint`, with its vector and its optional fields. |
| `Protocol.PositionParses` | src/flytsim_srv/CommandsParser.cpp:132-138 | A position line parses as PositionSetpoint with its vector, its yaw if any, and its flags if any. |
| `Protocol.AttitudeParses` | src/flytsim_srv/CommandsParser.cpp:148-152 | The client's attitude line parses as AttitudeSetpoint with its angles and thrust. |
| `Protocol.RequestParses` | src/flytsim_srv/CommandsParser.cpp:105-166 | Every request the client writes parses on the server as the same kind with the same fields. |
| `Protocol.ServerAnswers` | src/flytsim_srv/Connection.cpp:49-111 | A session fed a client request answers it with the response of the command the client meant, then reads on. |
| `Protocol.ClientReachesService` | src/flytsim_srv/Connection.cpp:119-265 | The line a client writes makes the server call exactly the service the client meant, with its values. The answer is `ok` exactly when that call succeeds. |
| `Protocol.ClientReadsResult` | src/flytsim_cli/Commands.cpp:36-48 | The client reads the server's result line back as the handler's code and message. |
| `Protocol.ImageArrives` | src/flytsim_cli/Commands.cpp:169-195 | The server's image reaches a `GetImage` with a callback with its width, height and bytes intact. |
| `Protocol.NoImageRejected` | src/flytsim_srv/Connection.cpp:271-275 | Without an image the empty data line is rejected by the client's image reader as `invalid_argument`. |
| `Protocol.EmptyDataRead` | src/flytsim_cli/Commands.cpp:50-54 | The empty data line of every other command is read and discarded without error. |
| `Protocol.Exchange` | src/flytsim_cli/Connection.cpp:333-350 | One queue step against the server's response sends the request, reads back the code and message, and pops the command. |

## Left out

- Sockets, `asio`, the `streambuf` bridge (`underflow`, `overflow`,
  `sync`, `initBuffers`), partial reads and writes: the wire is a
  `seq<char>`. The stream state those functions set is modelled as one bit.
- The coroutine's timing measurements and logging.
- Concurrency: the mutex, the timer used as a signal, the spin-wait in
  `stopProcessingCommands`, and the interleaving of the application thread
  with the coroutine. Each operation is one atomic step.
- The flight services and the camera subscription: an oracle indexed by
  request number, and an optional image per request.
- `error_code::message()` texts: a function of the error code. The client
  lemmas assume messages without `"` and line breaks.
- `nan` and `inf` spellings of `float_`, and the value semantics of floats.
  Numbers are decimal literals, and the client is assumed to print them in a
  form `float_` reads (`WellFormed`).
- The text the client's `<<` prints for a `float`: the client is given the
  literal to print.
- The client's Base32 decoder: `src/flytsim_cli/Base32.hpp` declares it,
  and its definition is not part of this model. `GetImage` takes the decoder
  as a parameter. `Protocol` uses the server's `decode` in its place
  (`Protocol.Base32Decoder`).
- The partly filled `Result` that a failed `parseResult` can leave behind:
  on a mismatch the model stores nothing.
- The exception `resize` throws for a negative size: nothing catches it,
  so it leaves `io_service::run` on the detached worker thread
  (src/flytsim_cli/Service.cpp:8-10), and `std::terminate` ends the process.
  This is modelled as the `crashed` state, after which `Disconnect` has
  no state to return; the process's end itself is not modelled.
- ServerConnection.Handle: index 4 is dispatched to the corrected
  `HandlePositionSetpoint`, not to the handler as written
  (src/flytsim_srv/Connection.cpp:87-89, 192-207). `Respond`, `Serve`,
  `ServeAnswersLines`, `ServiceFailure` and `SetpointRequests` are built on
  it, so they describe the intended server. The program's answer to a
  position line is `io_error` with no call (`HandleAsWritten`,
  `PositionSetpointRefused`), and `AsWrittenDiffersOnPosition` shows that
  this is the only command on which the two differ.
- The address parsing in `connect`.
- roscpp's service client, apart from its refusal of a request of another
  type: `ServerConnection.ClientCall` compares the types by name. This
  assumes `PositionSet` and `VelocitySet` have different checksums; their
  request fields differ in name (`yaw_valid` and `yaw_rate_valid`).
- The server's `Server` class, its acceptor, and `main`; the client example
  GUI.
- Base32.EncodeToStream: `int buffer <<= 8` can overflow a signed `int`. It
  is modelled as the 32-bit pattern with the shifted-out bits dropped, since
  only the low 13 bits are ever read.
- Base32.DecodeFrom: `buffer <<= 5` overflows a signed `int` on long input
  (src/flytsim_srv/Base32.cpp:53). It is modelled as the 32-bit pattern,
  and only the low 13 bits are read.

## Findings

| source | as written | input that shows it | evidently intended | confidence | as-written member | corrected member |
|---|---|---|---|---|---|---|
| src/flytsim_cli/Connection.cpp:28-45 | `connect` re-initialises the buffers and starts processing, but never clears the `iostream` state. After a failed flush or read, the stream stays bad. | Disconnect while a command is queued: its flush fails, because `overflow` returns eof once processing has stopped (lines 400-405). Then connect and send any command. | A new connection starts with a good stream (`m_Stream.clear()`), as it starts with fresh buffers. | not executed | `ClientConnection.StaleStreamAfterReconnect` | `ClientConnection.ReconnectSends` |
| src/flytsim_srv/Connection.cpp:192-208 | `handlePositionSetpoint` creates its service client for `core_api::VelocitySet` and calls it with a `core_api::PositionSet` request. roscpp refuses a call whose request checksum differs from the client's, so the call returns false. | Any parsed position line, such as `position_setpoint position:{1,2,3}`, even while the position service is up. | The client is created for `core_api::PositionSet`, as every other handler's client is created for its own request type. | not executed; assumes the two service types have different checksums | `ServerConnection.PositionSetpointRefused` | `ServerConnection.HandlePositionSetpoint` |
| src/flytsim_cli/Connection.cpp:30-39 | `connect` returns the error of a failed `m_Socket.connect`, but asio has already opened the socket and leaves it open. `is_open()` is then true. | Connect to an address where nothing listens, then send a command and connect again. | A failed connect leaves the socket closed, so that the client can retry. | not executed; assumes asio's documented behaviour of opening the socket inside `connect` | `ClientConnection.LeftOpenStrands` | `ClientConnection.ReconnectRetries` |
