/**
 * The client's commands: the request line each one writes, and the two
 * response readers every command runs after it, `readResponseResult` and
 * `readResponseData`, the latter overridden by `GetImage`.
 *
 * Numbers are the decimal literals `operator<<` prints for the `float`
 * fields; the conversion from a binary `float` to its text is not modelled.
 * The client's Base32 decoder is not among the modelled sources, so
 * `GetImage` takes the decoder as a parameter.
 */
module ClientCommands {
  import opened Wrappers
  import opened Errors
  import opened Streams
  import opened Lexical
  import opened DecimalLiteral
  import opened LineReader
  import opened ResponseText
  import opened ResponseParser
  import opened LineShapes
  import Base32

  /**
   * The seven command classes. `GetImage` carries only whether its
   * callback is set: the callback itself is what the client does with a
   * delivered frame, outside the protocol.
   */
  datatype Command =
    | Arm
    | Disarm
    | TakeOff(altitude: Number)
    | Land(async: bool)
    | VelocitySetpoint(x: Number, y: Number, z: Number, yawRate: Option<Number>, relative: bool, bodyFrame: bool)
    | AttitudeSetpoint(roll: Number, pitch: Number, yaw: Number, thrust: Number)
    | GetImage(hasCallback: bool)

  /** Every number the command prints is a literal that `float_` reads. */
  predicate WellFormed(c: Command)
  {
    match c
    case TakeOff(a) => Valid(a)
    case VelocitySetpoint(x, y, z, yawRate, _, _) =>
      Valid(x) && Valid(y) && Valid(z) && (yawRate.Some? ==> Valid(yawRate.value))
    case AttitudeSetpoint(roll, pitch, yaw, thrust) =>
      Valid(roll) && Valid(pitch) && Valid(yaw) && Valid(thrust)
    case _ => true
  }

  /** `{x,y,z}` as the setpoints print a vector. */
  function VectorText(x: Number, y: Number, z: Number): seq<char>
  {
    "{" + (Text(x) + ("," + (Text(y) + ("," + (Text(z) + "}")))))
  }

  /** ` yaw_rate:<v>` when a yaw rate is given, nothing otherwise. */
  function YawRateText(yawRate: Option<Number>): seq<char>
  {
    if yawRate.Some? then Spaced("yaw_rate:") + Text(yawRate.value) else []
  }

  /** The request line each `writeRequest` writes, without its CR LF. */
  function RequestLine(c: Command): seq<char>
  {
    match c
    case Arm => "arm"
    case Disarm => "disarm"
    case TakeOff(a) => "take_off" + (Spaced("altitude:") + Text(a))
    case Land(async) => "land" + (Spaced("async:") + BoolText(async))
    case VelocitySetpoint(x, y, z, yawRate, relative, bodyFrame) =>
      "velocity_setpoint" + (Spaced("velocity:") + (VectorText(x, y, z)
        + (YawRateText(yawRate) + (Spaced("relative:") + (BoolText(relative)
        + (Spaced("body_frame:") + BoolText(bodyFrame)))))))
    case AttitudeSetpoint(roll, pitch, yaw, thrust) =>
      "attitude_setpoint" + (Spaced("rpy:") + (VectorText(roll, pitch, yaw) + (Spaced("thrust:") + Text(thrust))))
    case GetImage(_) => "get_image"
  }

  /**
   * `writeRequest`: the request line and its CR LF, flushed. Every request
   * is a single line.
   */
  function WriteRequest(c: Command): (text: seq<char>)
    ensures |text| >= 2 && text[|text| - 2..] == CrLf
    ensures text[..|text| - 2] == RequestLine(c)
    ensures WellFormed(c) ==> NoBreak(text[..|text| - 2])
  {
    var line := RequestLine(c);
    assert (line + CrLf)[..|line|] == line;
    assert WellFormed(c) ==> NoBreak(line) by {
      if WellFormed(c) {
        RequestLineNoBreak(c);
      }
    }
    line + CrLf
  }

  /** The requests without parameters, and `land`, are exactly these words. */
  lemma FixedRequests(async: bool)
    ensures WriteRequest(Arm) == "arm\r\n"
    ensures WriteRequest(Disarm) == "disarm\r\n"
    ensures WriteRequest(GetImage(true)) == "get_image\r\n" && WriteRequest(GetImage(false)) == "get_image\r\n"
    ensures WriteRequest(Land(true)) == "land async:true\r\n"
    ensures WriteRequest(Land(false)) == "land async:false\r\n"
  {
  }

  // ----- the request is one line ------------------------------------------

  lemma VectorNoBreak(x: Number, y: Number, z: Number)
    requires Valid(x) && Valid(y) && Valid(z)
    ensures NoBreak(VectorText(x, y, z))
  {
    NumberNoBreak(x);
    NumberNoBreak(y);
    NumberNoBreak(z);
    NoBreakAppend(Text(z), "}");
    NoBreakAppend(",", Text(z) + "}");
    NoBreakAppend(Text(y), "," + (Text(z) + "}"));
    NoBreakAppend(",", Text(y) + ("," + (Text(z) + "}")));
    NoBreakAppend(Text(x), "," + (Text(y) + ("," + (Text(z) + "}"))));
    NoBreakAppend("{", Text(x) + ("," + (Text(y) + ("," + (Text(z) + "}")))));
  }

  lemma BoolNoBreak(b: bool)
    ensures NoBreak(BoolText(b))
  {
  }

  /** No request line holds a CR or an LF. */
  lemma RequestLineNoBreak(c: Command)
    requires WellFormed(c)
    ensures NoBreak(RequestLine(c))
  {
    match c
    case TakeOff(a) =>
      NumberNoBreak(a);
      NoBreakAppend(Spaced("altitude:"), Text(a));
      NoBreakAppend("take_off", Spaced("altitude:") + Text(a));
    case Land(async) =>
      BoolNoBreak(async);
      NoBreakAppend(Spaced("async:"), BoolText(async));
      NoBreakAppend("land", Spaced("async:") + BoolText(async));
    case VelocitySetpoint(x, y, z, yawRate, relative, bodyFrame) =>
      VelocityNoBreak(x, y, z, yawRate, relative, bodyFrame);
    case AttitudeSetpoint(roll, pitch, yaw, thrust) =>
      AttitudeNoBreak(roll, pitch, yaw, thrust);
    case _ =>
  }

  lemma FlagsNoBreak(relative: bool, bodyFrame: bool)
    ensures NoBreak(Spaced("relative:") + (BoolText(relative) + (Spaced("body_frame:") + BoolText(bodyFrame))))
  {
    BoolNoBreak(relative);
    BoolNoBreak(bodyFrame);
    NoBreakAppend(Spaced("body_frame:"), BoolText(bodyFrame));
    NoBreakAppend(BoolText(relative), Spaced("body_frame:") + BoolText(bodyFrame));
    NoBreakAppend(Spaced("relative:"), BoolText(relative) + (Spaced("body_frame:") + BoolText(bodyFrame)));
  }

  lemma VelocityNoBreak(x: Number, y: Number, z: Number, yawRate: Option<Number>, relative: bool, bodyFrame: bool)
    requires WellFormed(VelocitySetpoint(x, y, z, yawRate, relative, bodyFrame))
    ensures NoBreak(RequestLine(VelocitySetpoint(x, y, z, yawRate, relative, bodyFrame)))
  {
    var flags := Spaced("relative:") + (BoolText(relative) + (Spaced("body_frame:") + BoolText(bodyFrame)));
    FlagsNoBreak(relative, bodyFrame);
    if yawRate.Some? {
      NumberNoBreak(yawRate.value);
      NoBreakAppend(Spaced("yaw_rate:"), Text(yawRate.value));
    }
    NoBreakAppend(YawRateText(yawRate), flags);
    VectorNoBreak(x, y, z);
    NoBreakAppend(VectorText(x, y, z), YawRateText(yawRate) + flags);
    NoBreakAppend(Spaced("velocity:"), VectorText(x, y, z) + (YawRateText(yawRate) + flags));
    NoBreakAppend("velocity_setpoint", Spaced("velocity:") + (VectorText(x, y, z) + (YawRateText(yawRate) + flags)));
  }

  lemma AttitudeNoBreak(roll: Number, pitch: Number, yaw: Number, thrust: Number)
    requires WellFormed(AttitudeSetpoint(roll, pitch, yaw, thrust))
    ensures NoBreak(RequestLine(AttitudeSetpoint(roll, pitch, yaw, thrust)))
  {
    NumberNoBreak(thrust);
    VectorNoBreak(roll, pitch, yaw);
    NoBreakAppend(Spaced("thrust:"), Text(thrust));
    NoBreakAppend(VectorText(roll, pitch, yaw), Spaced("thrust:") + Text(thrust));
    NoBreakAppend(Spaced("rpy:"), VectorText(roll, pitch, yaw) + (Spaced("thrust:") + Text(thrust)));
    NoBreakAppend("attitude_setpoint", Spaced("rpy:") + (VectorText(roll, pitch, yaw) + (Spaced("thrust:") + Text(thrust))));
  }

  /** The line a request is read back as by `readLine`, on either side. */
  lemma RequestReadBack(c: Command, line: seq<char>, tail: seq<char>)
    requires WellFormed(c)
    ensures ReadLine(line, Stream(true, WriteRequest(c) + tail)) == LineRead(NoError, line + RequestLine(c), Stream(true, tail))
  {
    var body := RequestLine(c);
    RequestLineNoBreak(c);
    assert body == [] || body[|body| - 1] != CR;
    assert WriteRequest(c) + tail == body + [CR, LF] + tail;
    ReadLineCrLf(line, body, tail);
  }

  // ----- reading the responses --------------------------------------------

  /** What `readResponseResult` returns, the result it stores, and the stream after it. */
  datatype ResultRead = ResultRead(error: ErrorCode, result: Option<ResultRecord>, rest: Stream)

  /**
   * `readResponseResult`: one line, parsed as a result line. A failed line
   * read is returned as it is, a mismatch becomes `invalid_argument`, and
   * only a match stores a result.
   */
  function ReadResponseResult(input: Stream): (r: ResultRead)
    ensures r.error == NoError || r.error == IllegalByteSequence || r.error == InvalidArgument
    ensures r.error == NoError <==> r.result.Some?
    ensures r.error == IllegalByteSequence <==> ReadLine([], input).error != NoError
    ensures r.rest == ReadLine([], input).rest
    ensures r.result.Some? ==> ParseResult(ReadLine([], input).line) == Success(r.result.value)
  {
    var read := ReadLine([], input);
    if read.error != NoError then ResultRead(read.error, None, read.rest)
    else
      match ParseResult(read.line)
      case Failure(_) => ResultRead(InvalidArgument, None, read.rest)
      case Success(record) => ResultRead(NoError, Some(record), read.rest)
  }

  /** `cli::Image`: the frame handed to the callback. */
  datatype Frame = Frame(width: int, height: int, data: seq<Base32.byte>)

  /**
   * What `readResponseData` ends in: its error, the frame delivered to the
   * callback if any, and the stream; or the exception `resize` throws for a
   * negative size.
   */
  datatype DataRead =
    | DataRead(error: ErrorCode, delivered: Option<Frame>, rest: Stream)
    | ResizeThrows(rest: Stream)

  /**
   * A Base32 decoder as `GetImage` uses it: given the byte count and the
   * symbols, the bytes when it returns true, `None` when it returns false.
   */
  type Decoder = (nat, seq<char>) -> Option<seq<Base32.byte>>

  /**
   * `readResponseData`: the default reads one line and discards it;
   * `GetImage` parses it as an image line and, with a callback set, hands
   * over the frame when the decoder succeeds. A failed decode is not an
   * error.
   */
  function ReadResponseData(c: Command, input: Stream, decode: Decoder): (r: DataRead)
    ensures r.rest == ReadLine([], input).rest
    ensures r.DataRead? ==> (r.error == NoError || r.error == IllegalByteSequence || r.error == InvalidArgument)
    ensures r.DataRead? && r.error == IllegalByteSequence <==> ReadLine([], input).error != NoError
    ensures !c.GetImage? ==> r.DataRead? && r.delivered.None?
    ensures r.DataRead? && r.delivered.Some? ==> c.GetImage? && c.hasCallback && r.error == NoError
    ensures r.ResizeThrows? ==> c.GetImage? && c.hasCallback
  {
    var read := ReadLine([], input);
    if read.error != NoError then DataRead(read.error, None, read.rest)
    else if !c.GetImage? then DataRead(NoError, None, read.rest)
    else
      match ParseImage(read.line)
      case Failure(_) => DataRead(InvalidArgument, None, read.rest)
      case Success(image) =>
        if !c.hasCallback then DataRead(NoError, None, read.rest)
        else if image.size < 0 then ResizeThrows(read.rest)
        else
          match decode(image.size, image.data)
          case None => DataRead(NoError, None, read.rest)
          case Some(bytes) => DataRead(NoError, Some(Frame(image.width, image.height, bytes)), read.rest)
  }

  // ----- properties of the readers ----------------------------------------

  /** A result line is read back: its code and message are stored, and the stream moves past it. */
  lemma ReadResultLine(code: int, message: seq<char>, tail: seq<char>)
    requires IsInt32(code) && NoQuote(message) && NoBreak(message)
    ensures ReadResponseResult(Stream(true, ResultText(code, message) + CrLf + tail))
         == ResultRead(NoError, Some(ResultRecord(code, message)), Stream(true, tail))
  {
    var line := ResultText(code, message);
    ResultTextNoBreak(code, message);
    assert line + CrLf + tail == line + [CR, LF] + tail;
    ReadLineCrLf([], line, tail);
    assert [] + line == line;
    assert line + [] == line;
    ResultRoundTrip(code, message, []);
  }

  /** A line that is not a result line is `invalid_argument`; nothing is stored, and the line is consumed. */
  lemma ReadResultMismatch(line: seq<char>, tail: seq<char>)
    requires NoBreak(line) && (line == [] || line[|line| - 1] != CR)
    requires ParseResult(line).Failure?
    ensures ReadResponseResult(Stream(true, line + CrLf + tail)) == ResultRead(InvalidArgument, None, Stream(true, tail))
  {
    assert line + CrLf + tail == line + [CR, LF] + tail;
    ReadLineCrLf([], line, tail);
    assert [] + line == line;
  }

  /** Without a complete line the read error is passed through, and the input is used up. */
  lemma ReadResultNoLine(chars: seq<char>)
    requires forall j :: 0 <= j < |chars| ==> !EndsLineAt(chars, j)
    ensures ReadResponseResult(Stream(true, chars)) == ResultRead(IllegalByteSequence, None, Exhausted)
  {
    ReadLineMeetsExpected([], chars);
    assert FirstEnd(chars, 0).None?;
  }

  /** On a stream that is no longer good, both readers fail at once and read nothing. */
  lemma ReadersOnBadStream(c: Command, chars: seq<char>, decode: Decoder)
    ensures ReadResponseResult(Stream(false, chars)) == ResultRead(IllegalByteSequence, None, Stream(false, chars))
    ensures ReadResponseData(c, Stream(false, chars), decode) == DataRead(IllegalByteSequence, None, Stream(false, chars))
  {
    ReadLineBadStream([], chars);
  }

  /** The default data reader takes exactly one line, whatever it holds, and discards it. */
  lemma ReadDataDiscards(c: Command, line: seq<char>, tail: seq<char>, decode: Decoder)
    requires !c.GetImage?
    requires forall i :: 0 <= i < |line| ==> line[i] != LF
    requires line == [] || line[|line| - 1] != CR
    ensures ReadResponseData(c, Stream(true, line + CrLf + tail), decode) == DataRead(NoError, None, Stream(true, tail))
  {
    assert line + CrLf + tail == line + [CR, LF] + tail;
    ReadLineCrLf([], line, tail);
  }

  /** An image line and its CR LF are read as that line. */
  lemma ImageLineRead(width: int, height: int, size: int, data: seq<char>, tail: seq<char>)
    requires AllSymbols(data)
    ensures ReadLine([], Stream(true, ImageText(width, height, size, data) + CrLf + tail))
         == LineRead(NoError, ImageText(width, height, size, data), Stream(true, tail))
  {
    var line := ImageText(width, height, size, data);
    ImageTextNoBreak(width, height, size, data);
    assert line + CrLf + tail == line + [CR, LF] + tail;
    ReadLineCrLf([], line, tail);
    assert [] + line == line;
  }

  /**
   * An image line read by `GetImage`: with a callback and a size the
   * decoder meets, the frame is delivered; when the decoder fails, or no
   * callback is set, nothing is delivered and the read still succeeds.
   */
  lemma ReadImageLine(hasCallback: bool, width: int, height: int, size: int, data: seq<char>, tail: seq<char>, decode: Decoder)
    requires IsInt32(width) && IsInt32(height) && IsInt32(size) && AllSymbols(data) && size >= 0
    ensures var r := ReadResponseData(GetImage(hasCallback), Stream(true, ImageText(width, height, size, data) + CrLf + tail), decode);
            && r.DataRead? && r.error == NoError && r.rest == Stream(true, tail)
            && (r.delivered.Some? <==> hasCallback && decode(size, data).Some?)
            && (r.delivered.Some? ==> r.delivered.value == Frame(width, height, decode(size, data).value))
  {
    ImageLineRead(width, height, size, data, tail);
    ImageRoundTrip(width, height, size, data);
  }

  /** A negative size with a callback set makes `resize` throw. */
  lemma ReadImageNegativeSize(width: int, height: int, size: int, data: seq<char>, tail: seq<char>, decode: Decoder)
    requires IsInt32(width) && IsInt32(height) && IsInt32(size) && AllSymbols(data) && size < 0
    ensures ReadResponseData(GetImage(true), Stream(true, ImageText(width, height, size, data) + CrLf + tail), decode)
         == ResizeThrows(Stream(true, tail))
  {
    ImageLineRead(width, height, size, data, tail);
    ImageRoundTrip(width, height, size, data);
  }
}
