/**
 * The server's session: it reads request lines one after another, parses
 * each, hands the command to the handler of its kind, and answers every
 * request with two lines, the result line and the data line.
 *
 * The flight services and the camera are outside the program: the
 * `Environment` says whether the service call made for the k-th request
 * succeeds and which image is the latest when the k-th request is handled.
 * The text of an error code is supplied by it as well.
 */
module ServerConnection {
  import opened Wrappers
  import opened Errors
  import opened Streams
  import opened Lexical
  import opened DecimalLiteral
  import opened LineReader
  import opened ResponseText
  import opened ServerCommands
  import opened CommandsParser
  import opened LineShapes
  import Base32

  /** `geometry_msgs::Twist`: a linear and an angular part. */
  datatype Twist = Twist(linear: Vector3, angular: Vector3)

  /**
   * The request each handler sends to its flight service. Fields a handler
   * does not set keep the message's default, zero or false.
   */
  datatype ServiceCall =
    | ArmCall
    | DisarmCall
    | TakeOffCall(takeoffAlt: Number)
    | LandCall(async: bool)
    | PositionSetCall(twist: Twist, yawValid: bool, relative: bool, bodyFrame: bool, async: bool)
    | VelocitySetCall(twist: Twist, yawRateValid: bool, relative: bool, bodyFrame: bool, async: bool)
    | AttitudeSetCall(angular: Vector3, thrust: Number)

  /** `sensor_msgs::Image`, as far as the handler reads it. */
  datatype Image = Image(width: nat, height: nat, data: seq<Base32.byte>)

  datatype Environment = Environment(
    service: (nat, ServiceCall) -> bool,
    image: nat -> Option<Image>,
    message: ErrorCode -> seq<char>)

  /** What handling one request produced: the result, the data written, the service call made. */
  datatype Handled = Handled(result: ErrorCode, data: seq<char>, call: Option<ServiceCall>)

  /** The value a numeric message field holds when it is not set. */
  const Zero: Number := Number(Unsigned, "0", None, None)

  /** The index of the service a call goes to, in the order of the command kinds. */
  function ServiceIndex(call: ServiceCall): nat
  {
    match call
    case ArmCall => 0
    case DisarmCall => 1
    case TakeOffCall(_) => 2
    case LandCall(_) => 3
    case PositionSetCall(_, _, _, _, _) => 4
    case VelocitySetCall(_, _, _, _, _) => 5
    case AttitudeSetCall(_, _) => 6
  }

  /**
   * The service type a `ros::ServiceClient` is created for: the template
   * argument of `serviceClient<...>`.
   */
  datatype ServiceType = ArmType | DisarmType | TakeOffType | LandType | PositionSetType | VelocitySetType | AttitudeSetType

  /** The service type whose request a call is. */
  function TypeOf(call: ServiceCall): ServiceType
  {
    match call
    case ArmCall => ArmType
    case DisarmCall => DisarmType
    case TakeOffCall(_) => TakeOffType
    case LandCall(_) => LandType
    case PositionSetCall(_, _, _, _, _) => PositionSetType
    case VelocitySetCall(_, _, _, _, _) => VelocitySetType
    case AttitudeSetCall(_, _) => AttitudeSetType
  }

  // ----- the handlers ------------------------------------------------------

  /** `client.call(...)`: `io_error` when the service call fails; no data is written. */
  function CallService(env: Environment, k: nat, call: ServiceCall): (h: Handled)
    ensures h.call == Some(call) && h.data == []
    ensures h.result == NoError || h.result == IoError
    ensures h.result == NoError <==> env.service(k, call)
  {
    Handled(if env.service(k, call) then NoError else IoError, [], Some(call))
  }

  /**
   * `client.call(...)` on a client created for the service type `client`.
   * roscpp compares the checksum of the request's type with the one the
   * client was created with and refuses the call, without reaching the
   * service, when they differ; the handler then answers `io_error`.
   */
  function ClientCall(env: Environment, k: nat, client: ServiceType, call: ServiceCall): (h: Handled)
    ensures h.data == []
    ensures h.call.Some? <==> client == TypeOf(call)
    ensures h.call.Some? ==> h.call.value == call
    ensures h.result == NoError <==> client == TypeOf(call) && env.service(k, call)
    ensures h.result != NoError ==> h.result == IoError
  {
    if client == TypeOf(call) then CallService(env, k, call) else Handled(IoError, [], None)
  }

  function HandleArm(env: Environment, k: nat): Handled
  {
    ClientCall(env, k, ArmType, ArmCall)
  }

  function HandleDisarm(env: Environment, k: nat): Handled
  {
    ClientCall(env, k, DisarmType, DisarmCall)
  }

  function HandleTakeOff(env: Environment, k: nat, altitude: Number): Handled
  {
    ClientCall(env, k, TakeOffType, TakeOffCall(altitude))
  }

  /** `async` is set only when the request carried it. */
  function LandRequest(common: Common): ServiceCall
  {
    LandCall(if common.async.Some? then common.async.value else false)
  }

  function HandleLand(env: Environment, k: nat, common: Common): Handled
  {
    ClientCall(env, k, LandType, LandRequest(common))
  }

  /** The angular part of a setpoint's twist: only the yaw (rate) when given. */
  function YawTwist(linear: Vector3, yaw: Option<Number>): Twist
  {
    Twist(linear, Vector3(Zero, Zero, if yaw.Some? then yaw.value else Zero))
  }

  /** An optional flag that was not written reads as false. */
  function FlagOf(flag: Option<bool>): bool
  {
    if flag.Some? then flag.value else false
  }

  function PositionRequest(position: Vector3, yaw: Option<Number>, relative: Option<bool>, bodyFrame: Option<bool>): ServiceCall
  {
    PositionSetCall(YawTwist(position, yaw), yaw.Some?, FlagOf(relative), FlagOf(bodyFrame), true)
  }

  /**
   * `handlePositionSetpoint` as written: the client is created for the
   * velocity service's type, and the request passed to it is a position
   * request.
   */
  function HandlePositionSetpointAsWritten(env: Environment, k: nat, position: Vector3, yaw: Option<Number>,
                                           relative: Option<bool>, bodyFrame: Option<bool>): Handled
  {
    ClientCall(env, k, VelocitySetType, PositionRequest(position, yaw, relative, bodyFrame))
  }

  /**
   * The handler as written never reaches the position service: whatever
   * the service would answer, and whatever the request holds, the result
   * is `io_error`.
   */
  lemma PositionSetpointRefused(env: Environment, k: nat, position: Vector3, yaw: Option<Number>,
                                relative: Option<bool>, bodyFrame: Option<bool>)
    ensures HandlePositionSetpointAsWritten(env, k, position, yaw, relative, bodyFrame)
            == Handled(IoError, [], None)
  {
  }

  /**
   * `handlePositionSetpoint` with the client created for the position
   * service's type: the position request reaches the service, and the
   * result is `io_error` exactly when the service call fails.
   */
  function HandlePositionSetpoint(env: Environment, k: nat, position: Vector3, yaw: Option<Number>,
                                  relative: Option<bool>, bodyFrame: Option<bool>): (h: Handled)
    ensures h.call == Some(PositionRequest(position, yaw, relative, bodyFrame)) && h.data == []
    ensures h.result == NoError <==> env.service(k, PositionRequest(position, yaw, relative, bodyFrame))
    ensures h.result != NoError ==> h.result == IoError
  {
    ClientCall(env, k, PositionSetType, PositionRequest(position, yaw, relative, bodyFrame))
  }

  function VelocityRequest(velocity: Vector3, yawRate: Option<Number>, relative: Option<bool>, bodyFrame: Option<bool>): ServiceCall
  {
    VelocitySetCall(YawTwist(velocity, yawRate), yawRate.Some?, FlagOf(relative), FlagOf(bodyFrame), true)
  }

  function HandleVelocitySetpoint(env: Environment, k: nat, velocity: Vector3, yawRate: Option<Number>,
                                  relative: Option<bool>, bodyFrame: Option<bool>): Handled
  {
    ClientCall(env, k, VelocitySetType, VelocityRequest(velocity, yawRate, relative, bodyFrame))
  }

  function HandleAttitudeSetpoint(env: Environment, k: nat, rpy: Vector3, thrust: Number): Handled
  {
    ClientCall(env, k, AttitudeSetType, AttitudeSetCall(rpy, thrust))
  }

  /** The data line of an image: its size fields, then its bytes in Base32. */
  function ImageData(image: Image): seq<char>
  {
    ImageText(image.width, image.height, |image.data|, Base32.Encode(image.data))
  }

  /**
   * `handleGetImage`: `no_stream_resources` while no image has arrived;
   * otherwise the image line. No service is called.
   */
  function HandleGetImage(env: Environment, k: nat): (h: Handled)
    ensures h.call.None?
    ensures h.result == NoError || h.result == NoStreamResources
    ensures h.result == NoStreamResources <==> env.image(k).None?
    ensures h.result == NoError ==> h.data == ImageData(env.image(k).value)
    ensures h.result != NoError ==> h.data == []
  {
    match env.image(k)
    case None => Handled(NoStreamResources, [], None)
    case Some(image) => Handled(NoError, ImageData(image), None)
  }

  /**
   * The `switch` on `which()`, with the position handler corrected:
   * alternative i goes to the i-th handler, and a position setpoint goes to
   * `HandlePositionSetpoint` rather than to the handler as written. The
   * session below is built on this dispatch, so it describes the intended
   * server; `HandleAsWritten` is the program's own. The `default` branch
   * leaves the result unset and writes nothing; `which()` is always below
   * eight, so it is never taken.
   */
  function Handle(env: Environment, k: nat, c: Command): (h: Handled)
    ensures h.call.Some? <==> !c.GetImage?
    ensures h.call.Some? ==> ServiceIndex(h.call.value) == Which(c)
    ensures !c.GetImage? ==> h.data == [] && (h.result == NoError || h.result == IoError)
    ensures !c.GetImage? ==> (h.result == NoError <==> env.service(k, h.call.value))
    ensures c.GetImage? ==> h == HandleGetImage(env, k)
  {
    var i := Which(c);
    if i == 0 then HandleArm(env, k)
    else if i == 1 then HandleDisarm(env, k)
    else if i == 2 then HandleTakeOff(env, k, c.altitude)
    else if i == 3 then HandleLand(env, k, c.common)
    else if i == 4 then HandlePositionSetpoint(env, k, c.position, c.yaw, c.relative, c.bodyFrame)
    else if i == 5 then HandleVelocitySetpoint(env, k, c.velocity, c.yawRate, c.relative, c.bodyFrame)
    else if i == 6 then HandleAttitudeSetpoint(env, k, c.rpy, c.thrust)
    else if i == 7 then HandleGetImage(env, k)
    else Handled(NoError, [], None)
  }
  /**
   * The `switch` on `which()` as written: alternative i goes to the i-th
   * handler, and a position setpoint to the handler whose client has the
   * velocity service's type.
   */
  function HandleAsWritten(env: Environment, k: nat, c: Command): (h: Handled)
    ensures c.PositionSetpoint? ==> h == Handled(IoError, [], None)
  {
    var i := Which(c);
    if i == 0 then HandleArm(env, k)
    else if i == 1 then HandleDisarm(env, k)
    else if i == 2 then HandleTakeOff(env, k, c.altitude)
    else if i == 3 then HandleLand(env, k, c.common)
    else if i == 4 then HandlePositionSetpointAsWritten(env, k, c.position, c.yaw, c.relative, c.bodyFrame)
    else if i == 5 then HandleVelocitySetpoint(env, k, c.velocity, c.yawRate, c.relative, c.bodyFrame)
    else if i == 6 then HandleAttitudeSetpoint(env, k, c.rpy, c.thrust)
    else if i == 7 then HandleGetImage(env, k)
    else Handled(NoError, [], None)
  }

  /**
   * The program and the corrected dispatch answer every command alike
   * except a position setpoint: the program refuses it with `io_error` and
   * calls nothing, while the corrected server calls the position service
   * and answers by it.
   */
  lemma AsWrittenDiffersOnPosition(env: Environment, k: nat, c: Command)
    ensures !c.PositionSetpoint? ==> HandleAsWritten(env, k, c) == Handle(env, k, c)
    ensures c.PositionSetpoint? ==>
              && HandleAsWritten(env, k, c) == Handled(IoError, [], None)
              && Handle(env, k, c).call.Some?
              && (Handle(env, k, c).result == NoError <==> env.service(k, Handle(env, k, c).call.value))
  {
  }


  /**
   * One request line: a line that does not parse is answered with the
   * parser's error and an empty data line, and calls nothing.
   */
  function Respond(env: Environment, k: nat, line: seq<char>): (h: Handled)
    ensures Parse(line).Failure? ==> h == Handled(InvalidArgument, [], None)
    ensures h.call.Some? ==> Parse(line).Success? && ServiceIndex(h.call.value) == Which(Parse(line).value)
    ensures h.data != [] ==> Parse(line).Success? && Parse(line).value.GetImage? && h.result == NoError
  {
    match Parse(line)
    case Failure(e) => Handled(e, [], None)
    case Success(c) => Handle(env, k, c)
  }

  /** The two lines written for a handled request, flushed together. */
  function Response(env: Environment, h: Handled): seq<char>
  {
    ResultText(Value(h.result), env.message(h.result)) + CrLf + h.data + CrLf
  }

  // ----- the session -------------------------------------------------------

  /** What a session wrote, the service calls it made, and how many requests it answered. */
  datatype Served = Served(output: seq<char>, calls: seq<ServiceCall>, answered: nat)

  /** The calls of one handled request, in order. */
  function CallsOf(h: Handled): seq<ServiceCall>
  {
    if h.call.Some? then [h.call.value] else []
  }

  /**
   * `processCommands` from request `k` on: each complete line is answered
   * in turn; the first failed line read ends the session without an answer.
   */
  function Serve(env: Environment, k: nat, input: Stream): (r: Served)
    ensures |r.calls| <= r.answered
    ensures !input.good ==> r == Served([], [], 0)
    decreases |input.chars|
  {
    var read := ReadLine([], input);
    if read.error != NoError then Served([], [], 0)
    else
      var h := Respond(env, k, read.line);
      var more := Serve(env, k + 1, read.rest);
      Served(Response(env, h) + more.output, CallsOf(h) + more.calls, 1 + more.answered)
  }

  // ----- the session against the lines of its input ------------------------

  /** The complete request lines of `s`, as `readLine` delimits them, in order. */
  function Lines(s: seq<char>): seq<seq<char>>
    decreases |s|
  {
    match FirstEnd(s, 0)
    case None => []
    case Some(k) => [if k == 0 then [] else s[..k - 1]] + Lines(s[k + 1..])
  }

  /** The answers to `lines`, the first being request `k`. */
  function Answers(env: Environment, k: nat, lines: seq<seq<char>>): seq<char>
    decreases |lines|
  {
    if |lines| == 0 then [] else Response(env, Respond(env, k, lines[0])) + Answers(env, k + 1, lines[1..])
  }

  /** The service calls made for `lines`, the first being request `k`. */
  function CallsFor(env: Environment, k: nat, lines: seq<seq<char>>): seq<ServiceCall>
    decreases |lines|
  {
    if |lines| == 0 then [] else CallsOf(Respond(env, k, lines[0])) + CallsFor(env, k + 1, lines[1..])
  }

  /** `Lines` takes off the line `readLine` reads, or ends where `readLine` fails. */
  lemma LinesOfRead(s: seq<char>)
    ensures var read := ReadLine([], Stream(true, s));
            && (read.error == NoError ==> Lines(s) == [read.line] + Lines(read.rest.chars))
            && (read.error != NoError ==> Lines(s) == [])
  {
    ReadLineMeetsExpected([], s);
    match FirstEnd(s, 0)
    case None =>
    case Some(e) =>
      if e > 0 {
        assert [] + s[..e - 1] == s[..e - 1];
      }
  }

  /**
   * A session on a good stream answers exactly its complete lines, each
   * with its two response lines and in order, makes exactly their service
   * calls, and ignores an unfinished last line.
   */
  lemma {:induction false} ServeAnswersLines(env: Environment, k: nat, s: seq<char>)
    ensures Serve(env, k, Stream(true, s)).output == Answers(env, k, Lines(s))
    ensures Serve(env, k, Stream(true, s)).calls == CallsFor(env, k, Lines(s))
    ensures Serve(env, k, Stream(true, s)).answered == |Lines(s)|
    decreases |s|
  {
    var read := ReadLine([], Stream(true, s));
    LinesOfRead(s);
    if read.error == NoError {
      ServeAnswersLines(env, k + 1, read.rest.chars);
      var lines := Lines(s);
      assert lines[0] == read.line && lines[1..] == Lines(read.rest.chars);
    }
  }

  /** A line, then CR LF: the first of the lines. */
  lemma LinesCrLf(line: seq<char>, tail: seq<char>)
    requires NoBreak(line) && (line == [] || line[|line| - 1] != CR)
    ensures Lines(line + CrLf + tail) == [line] + Lines(tail)
  {
    ReadLineCrLf([], line, tail);
    assert line + CrLf + tail == line + [CR, LF] + tail;
    assert [] + line == line;
    LinesOfRead(line + CrLf + tail);
  }

  /** Each request is answered by exactly two lines, the result line and the data line. */
  lemma ResponseLines(env: Environment, h: Handled)
    requires NoBreak(env.message(h.result)) && NoBreak(h.data) && (h.data == [] || h.data[|h.data| - 1] != CR)
    ensures Lines(Response(env, h)) == [ResultText(Value(h.result), env.message(h.result)), h.data]
  {
    var result := ResultText(Value(h.result), env.message(h.result));
    ResultTextNoBreak(Value(h.result), env.message(h.result));
    assert Response(env, h) == result + CrLf + (h.data + CrLf + []);
    LinesCrLf(result, h.data + CrLf + []);
    LinesCrLf(h.data, []);
    assert Lines([]) == [];
  }

  /**
   * Whatever the line, the server answers it with exactly two lines: the
   * result line with the handler's code and message, and the data line,
   * which is empty unless an image was sent.
   */
  lemma AnswerIsTwoLines(env: Environment, k: nat, line: seq<char>)
    requires NoBreak(env.message(NoError)) && NoBreak(env.message(IoError))
    requires NoBreak(env.message(NoStreamResources)) && NoBreak(env.message(InvalidArgument))
    ensures var h := Respond(env, k, line);
            Lines(Response(env, h)) == [ResultText(Value(h.result), env.message(h.result)), h.data]
  {
    var h := Respond(env, k, line);
    if h.data != [] {
      var image := env.image(k).value;
      ImageTextNoBreak(image.width, image.height, |image.data|, Base32.Encode(image.data));
    }
    ResponseLines(env, h);
  }

  // ----- what the handlers send ------------------------------------------

  /** `land` passes its `async` flag only when the request carried one; otherwise the call is synchronous. */
  lemma LandAsync(env: Environment, k: nat, async: Option<bool>)
    ensures Handle(env, k, Land(Common(async))).call == Some(LandCall(async == Some(true)))
  {
  }

  /**
   * A position or velocity setpoint sends the vector as the linear part and
   * the yaw (rate), when written, as the angular z; the valid flag says
   * whether it was written; unwritten flags are false; the call is always
   * asynchronous.
   */
  lemma SetpointRequests(env: Environment, k: nat, c: Command)
    requires c.PositionSetpoint? || c.VelocitySetpoint?
    ensures var call := Handle(env, k, c).call.value;
            var yaw := if c.PositionSetpoint? then c.yaw else c.yawRate;
            var linear := if c.PositionSetpoint? then c.position else c.velocity;
            && call.twist.linear == linear
            && call.twist.angular.x == Zero && call.twist.angular.y == Zero
            && (yaw.Some? ==> call.twist.angular.z == yaw.value)
            && (yaw.None? ==> call.twist.angular.z == Zero)
            && (if call.PositionSetCall? then call.yawValid else call.yawRateValid) == yaw.Some?
            && call.relative == (c.relative == Some(true))
            && call.bodyFrame == (c.bodyFrame == Some(true))
            && call.async
            && (call.PositionSetCall? <==> c.PositionSetpoint?)
  {
  }

  /** A failed service call is reported as `io_error`, with an empty data line. */
  lemma ServiceFailure(env: Environment, k: nat, line: seq<char>)
    ensures var h := Respond(env, k, line);
            Parse(line).Success? && !Parse(line).value.GetImage? ==>
              h.call.Some? && h.data == [] && (!env.service(k, h.call.value) <==> h.result == IoError)
  {
  }

  /** A line that is no request is answered `invalid_argument` with an empty data line, and nothing is called. */
  lemma UnparsedLine(env: Environment, k: nat, line: seq<char>, tail: seq<char>)
    requires NoBreak(line) && (line == [] || line[|line| - 1] != CR)
    requires Parse(line).Failure?
    requires NoBreak(env.message(InvalidArgument))
    ensures var r := Serve(env, k, Stream(true, line + CrLf + tail));
            && r.output == ResultText(22, env.message(InvalidArgument)) + CrLf + CrLf + Serve(env, k + 1, Stream(true, tail)).output
            && r.calls == Serve(env, k + 1, Stream(true, tail)).calls
  {
    ReadLineCrLf([], line, tail);
    assert line + CrLf + tail == line + [CR, LF] + tail;
    assert [] + line == line;
    assert ResultText(22, env.message(InvalidArgument)) + CrLf + [] + CrLf == ResultText(22, env.message(InvalidArgument)) + CrLf + CrLf;
  }
}
