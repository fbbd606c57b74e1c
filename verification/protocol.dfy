/**
 * The two programs against each other: every request the client writes is
 * one line the server parses as the same command, the server's two
 * response lines are read back by the client's readers, and an image
 * crosses the wire intact.
 *
 * The client's Base32 decoder is not part of this model; where a decoder
 * is needed it is the server's `decode`, run on the received symbols.
 */
module Protocol {
  import opened Wrappers
  import opened Errors
  import opened Streams
  import opened Lexical
  import opened DecimalLiteral
  import opened LineReader
  import opened ResponseText
  import opened ResponseParser
  import opened LineShapes
  import opened ServerCommands
  import opened CommandsParser
  import Cli = ClientCommands
  import Srv = ServerConnection
  import Conn = ClientConnection
  import Base32

  /** The command the server should see for each client command. */
  function ToServer(c: Cli.Command): Command
  {
    match c
    case Arm => Arm(Common(None))
    case Disarm => Disarm(Common(None))
    case TakeOff(a) => TakeOff(Common(None), a)
    case Land(async) => Land(Common(Some(async)))
    case VelocitySetpoint(x, y, z, yawRate, relative, bodyFrame) =>
      VelocitySetpoint(Common(None), Vector3(x, y, z), yawRate, Some(relative), Some(bodyFrame))
    case AttitudeSetpoint(roll, pitch, yaw, thrust) =>
      AttitudeSetpoint(Common(None), Vector3(roll, pitch, yaw), thrust)
    case GetImage(_) => GetImage(Common(None))
  }

  // ----- the request line parses as the command ----------------------------

  /** A word after one space is not matched by a word that differs from it at position `i`. */
  lemma LitMismatchSpaced(word: seq<char>, other: seq<char>, rest: seq<char>, i: nat)
    requires i < |word| && i < |other| && !IsSpace(other[0]) && word[i] != other[i]
    ensures Lit(word, Spaced(other) + rest).None?
  {
    assert Spaced(other) + rest == [' '] + (other + rest);
    SkipSpaces([' '], other + rest);
    SkipNone(other + rest);
    assert (other + rest)[i] == other[i];
  }

  /** A vector as the client prints it is read back by `r_Vector3`. */
  lemma VectorRoundTrip(x: Number, y: Number, z: Number, rest: seq<char>)
    requires Valid(x) && Valid(y) && Valid(z)
    ensures RVector3(Cli.VectorText(x, y, z) + rest) == Some((Vector3(x, y, z), rest))
  {
    var afterZ := "}" + rest;
    var afterY := "," + (Text(z) + afterZ);
    var afterX := "," + (Text(y) + afterY);
    assert Cli.VectorText(x, y, z) + rest == "{" + (Text(x) + afterX);
    LitFront("{", Text(x) + afterX);
    FloatRoundTrip(x, afterX);
    LitFront(",", Text(y) + afterY);
    FloatRoundTrip(y, afterY);
    LitFront(",", Text(z) + afterZ);
    FloatRoundTrip(z, afterZ);
    LitFront("}", rest);
  }

  /** `relative:` and `body_frame:` as the client writes them are both read. */
  lemma FlagsRoundTrip(relative: bool, bodyFrame: bool)
    ensures var flags := Spaced("relative:") + (BoolText(relative) + (Spaced("body_frame:") + BoolText(bodyFrame)));
            var (r, u) := OptionalBool("relative:", flags);
            var (b, v) := OptionalBool("body_frame:", u);
            r == Some(relative) && b == Some(bodyFrame) && v == []
  {
    var last := Spaced("body_frame:") + BoolText(bodyFrame);
    LitAfterSpace("relative:", BoolText(relative) + last);
    BoolRoundTrip(relative, last);
    assert last == Spaced("body_frame:") + (BoolText(bodyFrame) + []);
    LitAfterSpace("body_frame:", BoolText(bodyFrame) + []);
    BoolRoundTrip(bodyFrame, []);
  }

  /** The optional tail of a velocity setpoint: the yaw rate when written, then both flags. */
  lemma VelocityOptionsRoundTrip(yawRate: Option<Number>, relative: bool, bodyFrame: bool)
    requires yawRate.Some? ==> Valid(yawRate.value)
    ensures var flags := Spaced("relative:") + (BoolText(relative) + (Spaced("body_frame:") + BoolText(bodyFrame)));
            SetpointOptions("yaw_rate:", Cli.YawRateText(yawRate) + flags)
            == (yawRate, Some(relative), Some(bodyFrame), [])
  {
    var flags := Spaced("relative:") + (BoolText(relative) + (Spaced("body_frame:") + BoolText(bodyFrame)));
    FlagsRoundTrip(relative, bodyFrame);
    if yawRate.Some? {
      var v := yawRate.value;
      assert Cli.YawRateText(yawRate) + flags == Spaced("yaw_rate:") + (Text(v) + flags);
      LitAfterSpace("yaw_rate:", Text(v) + flags);
      FloatRoundTrip(v, flags);
    } else {
      assert Cli.YawRateText(yawRate) + flags == Spaced("relative:") + (BoolText(relative) + (Spaced("body_frame:") + BoolText(bodyFrame)));
      LitMismatchSpaced("yaw_rate:", "relative:", BoolText(relative) + (Spaced("body_frame:") + BoolText(bodyFrame)), 0);
    }
  }

  lemma TakeOffParses(a: Number)
    requires Valid(a)
    ensures Parse(Cli.RequestLine(Cli.TakeOff(a))) == Success(TakeOff(Common(None), a))
  {
    var t := Spaced("altitude:") + Text(a);
    LitMismatchSpaced("async:", "altitude:", Text(a), 1);
    assert t == Spaced("altitude:") + (Text(a) + []);
    LitAfterSpace("altitude:", Text(a) + []);
    FloatRoundTrip(a, []);
    ParseTakeOff(t);
  }

  lemma LandParses(async: bool)
    ensures Parse(Cli.RequestLine(Cli.Land(async))) == Success(Land(Common(Some(async))))
  {
    var t := Spaced("async:") + BoolText(async);
    assert t == Spaced("async:") + (BoolText(async) + []);
    LitAfterSpace("async:", BoolText(async) + []);
    BoolRoundTrip(async, []);
    ParseLand(t);
  }

  /** The velocity rule reads the client's velocity line in full. */
  lemma VelocityRule(x: Number, y: Number, z: Number, yawRate: Option<Number>, relative: bool, bodyFrame: bool)
    requires Cli.WellFormed(Cli.VelocitySetpoint(x, y, z, yawRate, relative, bodyFrame))
    ensures RVelocitySetpoint(Cli.RequestLine(Cli.VelocitySetpoint(x, y, z, yawRate, relative, bodyFrame)))
         == Some((VelocitySetpoint(Common(None), Vector3(x, y, z), yawRate, Some(relative), Some(bodyFrame)), []))
  {
    var flags := Spaced("relative:") + (BoolText(relative) + (Spaced("body_frame:") + BoolText(bodyFrame)));
    var afterVector := Cli.YawRateText(yawRate) + flags;
    var t := Spaced("velocity:") + (Cli.VectorText(x, y, z) + afterVector);
    assert "velocity_setpoint" + t == Cli.RequestLine(Cli.VelocitySetpoint(x, y, z, yawRate, relative, bodyFrame));
    LitFront("velocity_setpoint", t);
    LitMismatchSpaced("async:", "velocity:", Cli.VectorText(x, y, z) + afterVector, 0);
    LitAfterSpace("velocity:", Cli.VectorText(x, y, z) + afterVector);
    VectorRoundTrip(x, y, z, afterVector);
    VelocityOptionsRoundTrip(yawRate, relative, bodyFrame);
  }

  lemma VelocityParses(x: Number, y: Number, z: Number, yawRate: Option<Number>, relative: bool, bodyFrame: bool)
    requires Cli.WellFormed(Cli.VelocitySetpoint(x, y, z, yawRate, relative, bodyFrame))
    ensures Parse(Cli.RequestLine(Cli.VelocitySetpoint(x, y, z, yawRate, relative, bodyFrame)))
         == Success(VelocitySetpoint(Common(None), Vector3(x, y, z), yawRate, Some(relative), Some(bodyFrame)))
  {
    var line := Cli.RequestLine(Cli.VelocitySetpoint(x, y, z, yawRate, relative, bodyFrame));
    var t := line[|"velocity_setpoint"|..];
    assert line == "velocity_setpoint" + t;
    VelocityRule(x, y, z, yawRate, relative, bodyFrame);
    VelocityFirst(t);
    ParseFirstMatch(line, 5);
  }

  /** The attitude rule reads the client's attitude line in full. */
  lemma AttitudeRule(roll: Number, pitch: Number, yaw: Number, thrust: Number)
    requires Cli.WellFormed(Cli.AttitudeSetpoint(roll, pitch, yaw, thrust))
    ensures RAttitudeSetpoint(Cli.RequestLine(Cli.AttitudeSetpoint(roll, pitch, yaw, thrust)))
         == Some((AttitudeSetpoint(Common(None), Vector3(roll, pitch, yaw), thrust), []))
  {
    var afterVector := Spaced("thrust:") + Text(thrust);
    var t := Spaced("rpy:") + (Cli.VectorText(roll, pitch, yaw) + afterVector);
    assert "attitude_setpoint" + t == Cli.RequestLine(Cli.AttitudeSetpoint(roll, pitch, yaw, thrust));
    LitFront("attitude_setpoint", t);
    LitMismatchSpaced("async:", "rpy:", Cli.VectorText(roll, pitch, yaw) + afterVector, 0);
    LitAfterSpace("rpy:", Cli.VectorText(roll, pitch, yaw) + afterVector);
    VectorRoundTrip(roll, pitch, yaw, afterVector);
    assert afterVector == Spaced("thrust:") + (Text(thrust) + []);
    LitAfterSpace("thrust:", Text(thrust) + []);
    FloatRoundTrip(thrust, []);
  }

  lemma AttitudeParses(roll: Number, pitch: Number, yaw: Number, thrust: Number)
    requires Cli.WellFormed(Cli.AttitudeSetpoint(roll, pitch, yaw, thrust))
    ensures Parse(Cli.RequestLine(Cli.AttitudeSetpoint(roll, pitch, yaw, thrust)))
         == Success(AttitudeSetpoint(Common(None), Vector3(roll, pitch, yaw), thrust))
  {
    var line := Cli.RequestLine(Cli.AttitudeSetpoint(roll, pitch, yaw, thrust));
    var t := line[|"attitude_setpoint"|..];
    assert line == "attitude_setpoint" + t;
    AttitudeRule(roll, pitch, yaw, thrust);
    AttitudeFirst(t);
    ParseFirstMatch(line, 6);
  }

  // ----- a position setpoint line ------------------------------------------

  /** ` <word><number>` when the number is given, nothing otherwise. */
  function NumberOption(word: seq<char>, a: Option<Number>): seq<char>
  {
    if a.Some? then Spaced(word) + Text(a.value) else []
  }

  /** ` <word>true` or ` <word>false` when the flag is given, nothing otherwise. */
  function FlagOption(word: seq<char>, b: Option<bool>): seq<char>
  {
    if b.Some? then Spaced(word) + BoolText(b.value) else []
  }

  /** The optional setpoint fields that are given, in the grammar's order. */
  function OptionsText(angle: seq<char>, a: Option<Number>, relative: Option<bool>, bodyFrame: Option<bool>): seq<char>
  {
    NumberOption(angle, a) + (FlagOption("relative:", relative) + FlagOption("body_frame:", bodyFrame))
  }

  /**
   * A `position_setpoint` line written the way the client writes its
   * velocity line: the client library has no position command, so this is
   * the line any writer of the grammar would send.
   */
  function PositionLine(x: Number, y: Number, z: Number, yaw: Option<Number>,
                        relative: Option<bool>, bodyFrame: Option<bool>): seq<char>
  {
    "position_setpoint" + (Spaced("position:") + (Cli.VectorText(x, y, z) + OptionsText("yaw:", yaw, relative, bodyFrame)))
  }

  /** Two field names that start apart, neither with white space. */
  predicate Distinct(w1: seq<char>, w2: seq<char>)
  {
    |w1| > 0 && |w2| > 0 && !IsSpace(w1[0]) && !IsSpace(w2[0]) && w1[0] != w2[0]
  }

  /** A flag written after one space is read back, leaving what follows it. */
  lemma FlagGiven(word: seq<char>, v: bool, rest: seq<char>)
    requires |word| > 0 && !IsSpace(word[0])
    ensures OptionalBool(word, Spaced(word) + (BoolText(v) + rest)) == (Some(v), rest)
  {
    LitAfterSpace(word, BoolText(v) + rest);
    BoolRoundTrip(v, rest);
  }

  /** The last optional flag is read back as written, or found absent. */
  lemma LastFlagRead(w2: seq<char>, b: Option<bool>)
    requires |w2| > 0 && !IsSpace(w2[0])
    ensures OptionalBool(w2, FlagOption(w2, b)) == (b, [])
  {
    if b.Some? {
      assert FlagOption(w2, b) == Spaced(w2) + (BoolText(b.value) + []);
      FlagGiven(w2, b.value, []);
    }
  }

  /** A field is absent before a flag whose name starts apart from it. */
  lemma AbsentBeforeFlag(word: seq<char>, w: seq<char>, v: bool, rest: seq<char>)
    requires Distinct(word, w)
    ensures Lit(word, FlagOption(w, Some(v)) + rest).None?
  {
    var t := BoolText(v);
    assert FlagOption(w, Some(v)) + rest == Spaced(w) + (t + rest);
    LitMismatchSpaced(word, w, t + rest, 0);
  }

  /** A field is absent from two optional flags whose names start apart from it. */
  lemma FieldAbsent(word: seq<char>, w1: seq<char>, w2: seq<char>, r: Option<bool>, b: Option<bool>)
    requires Distinct(word, w1) && Distinct(word, w2)
    ensures Lit(word, FlagOption(w1, r) + FlagOption(w2, b)).None?
  {
    if r.Some? {
      AbsentBeforeFlag(word, w1, r.value, FlagOption(w2, b));
    } else if b.Some? {
      assert FlagOption(w1, r) + FlagOption(w2, b) == FlagOption(w2, b) + [];
      AbsentBeforeFlag(word, w2, b.value, []);
    } else {
      assert FlagOption(w1, r) + FlagOption(w2, b) == [];
    }
  }

  /** The first of two optional flags is read back as written, or found absent. */
  lemma FirstFlagRead(w1: seq<char>, w2: seq<char>, r: Option<bool>, b: Option<bool>)
    requires Distinct(w1, w2)
    ensures OptionalBool(w1, FlagOption(w1, r) + FlagOption(w2, b)) == (r, FlagOption(w2, b))
  {
    var rest := FlagOption(w2, b);
    if r.Some? {
      var t := BoolText(r.value);
      assert FlagOption(w1, r) + rest == Spaced(w1) + (t + rest);
      FlagGiven(w1, r.value, rest);
    } else if b.Some? {
      var text := FlagOption(w1, r) + rest;
      assert text == rest && text == FlagOption(w2, Some(b.value)) + [];
      AbsentBeforeFlag(w1, w2, b.value, []);
      assert Lit(w1, text).None?;
    } else {
      assert FlagOption(w1, r) + rest == [];
    }
  }

  /** What follows the angle field cannot continue its number. */
  lemma FlagsStop(w1: seq<char>, w2: seq<char>, r: Option<bool>, b: Option<bool>)
    ensures Stop(FlagOption(w1, r) + FlagOption(w2, b))
  {
    var flags := FlagOption(w1, r) + FlagOption(w2, b);
    if r.Some? {
      assert flags[0] == ' ';
    } else if b.Some? {
      assert flags[0] == ' ';
    }
  }

  /** The angle field is read back as written, or found absent. */
  lemma AngleRead(angle: seq<char>, w1: seq<char>, w2: seq<char>, a: Option<Number>, r: Option<bool>, b: Option<bool>)
    requires Distinct(angle, w1) && Distinct(angle, w2)
    requires a.Some? ==> Valid(a.value)
    ensures var flags := FlagOption(w1, r) + FlagOption(w2, b);
            OptionalFloat(angle, NumberOption(angle, a) + flags) == (a, flags)
  {
    var flags := FlagOption(w1, r) + FlagOption(w2, b);
    if a.Some? {
      assert NumberOption(angle, a) + flags == Spaced(angle) + (Text(a.value) + flags);
      LitAfterSpace(angle, Text(a.value) + flags);
      FlagsStop(w1, w2, r, b);
      FloatRoundTrip(a.value, flags);
    } else {
      assert NumberOption(angle, a) + flags == flags;
      FieldAbsent(angle, w1, w2, r, b);
    }
  }

  /** Every combination of the optional fields, written in order, is read back as written. */
  lemma OptionsRoundTrip(angle: seq<char>, a: Option<Number>, r: Option<bool>, b: Option<bool>)
    requires Distinct(angle, "relative:") && Distinct(angle, "body_frame:")
    requires a.Some? ==> Valid(a.value)
    ensures SetpointOptions(angle, OptionsText(angle, a, r, b)) == (a, r, b, [])
  {
    assert Distinct("relative:", "body_frame:");
    AngleRead(angle, "relative:", "body_frame:", a, r, b);
    FirstFlagRead("relative:", "body_frame:", r, b);
    LastFlagRead("body_frame:", b);
  }

  /** After the keyword of a position line: no common fields, then `position:` and the vector. */
  lemma PositionFields(x: Number, y: Number, z: Number, options: seq<char>)
    ensures var t := Spaced("position:") + (Cli.VectorText(x, y, z) + options);
            RCommon(t) == (Common(None), t) && Lit("position:", t) == Some(Cli.VectorText(x, y, z) + options)
  {
    LitMismatchSpaced("async:", "position:", Cli.VectorText(x, y, z) + options, 0);
    LitAfterSpace("position:", Cli.VectorText(x, y, z) + options);
  }

  /** The position rule reads a position line in full, whichever options it carries. */
  lemma PositionRule(x: Number, y: Number, z: Number, yaw: Option<Number>, relative: Option<bool>, bodyFrame: Option<bool>)
    requires Valid(x) && Valid(y) && Valid(z) && (yaw.Some? ==> Valid(yaw.value))
    ensures RPositionSetpoint(PositionLine(x, y, z, yaw, relative, bodyFrame))
         == Some((PositionSetpoint(Common(None), Vector3(x, y, z), yaw, relative, bodyFrame), []))
  {
    var options := OptionsText("yaw:", yaw, relative, bodyFrame);
    var t := Spaced("position:") + (Cli.VectorText(x, y, z) + options);
    LitFront("position_setpoint", t);
    PositionFields(x, y, z, options);
    VectorRoundTrip(x, y, z, options);
    assert Distinct("yaw:", "relative:") && Distinct("yaw:", "body_frame:");
    OptionsRoundTrip("yaw:", yaw, relative, bodyFrame);
  }

  /** A position line parses as a PositionSetpoint with the position, yaw and flags written on it. */
  lemma PositionParses(x: Number, y: Number, z: Number, yaw: Option<Number>, relative: Option<bool>, bodyFrame: Option<bool>)
    requires Valid(x) && Valid(y) && Valid(z) && (yaw.Some? ==> Valid(yaw.value))
    ensures Parse(PositionLine(x, y, z, yaw, relative, bodyFrame))
         == Success(PositionSetpoint(Common(None), Vector3(x, y, z), yaw, relative, bodyFrame))
  {
    var line := PositionLine(x, y, z, yaw, relative, bodyFrame);
    var t := Spaced("position:") + (Cli.VectorText(x, y, z) + OptionsText("yaw:", yaw, relative, bodyFrame));
    PositionRule(x, y, z, yaw, relative, bodyFrame);
    PositionFirst(t);
    ParseFirstMatch(line, 4);
  }

  /**
   * Every request the client writes parses on the server as the command it
   * stands for: the same kind, the same numbers, and the flags the client
   * always writes present with their values.
   */
  lemma RequestParses(c: Cli.Command)
    requires Cli.WellFormed(c)
    ensures Parse(Cli.RequestLine(c)) == Success(ToServer(c))
    ensures Which(ToServer(c)) == KindOf(c)
  {
    match c
    case Arm =>
      ParseArm([]);
      assert "arm" + [] == "arm";
    case Disarm =>
      ParseDisarm([]);
      assert "disarm" + [] == "disarm";
    case TakeOff(a) => TakeOffParses(a);
    case Land(async) => LandParses(async);
    case VelocitySetpoint(x, y, z, yawRate, relative, bodyFrame) =>
      VelocityParses(x, y, z, yawRate, relative, bodyFrame);
    case AttitudeSetpoint(roll, pitch, yaw, thrust) => AttitudeParses(roll, pitch, yaw, thrust);
    case GetImage(_) =>
      ParseGetImage([]);
      assert "get_image" + [] == "get_image";
  }

  /** The server's alternative index for each client command kind. */
  function KindOf(c: Cli.Command): nat
  {
    match c
    case Arm => 0
    case Disarm => 1
    case TakeOff(_) => 2
    case Land(_) => 3
    case VelocitySetpoint(_, _, _, _, _, _) => 5
    case AttitudeSetpoint(_, _, _, _) => 6
    case GetImage(_) => 7
  }

  // ----- the server answers the request ------------------------------------

  /**
   * The server reads the client's request as one line and answers it with
   * the response of the command the client meant, before it reads on.
   */
  lemma ServerAnswers(env: Srv.Environment, k: nat, c: Cli.Command, tail: seq<char>)
    requires Cli.WellFormed(c)
    ensures var served := Srv.Serve(env, k, Stream(true, Cli.WriteRequest(c) + tail));
            var h := Srv.Handle(env, k, ToServer(c));
            && served.output == Srv.Response(env, h) + Srv.Serve(env, k + 1, Stream(true, tail)).output
            && served.calls == Srv.CallsOf(h) + Srv.Serve(env, k + 1, Stream(true, tail)).calls
  {
    Cli.RequestReadBack(c, [], tail);
    assert [] + Cli.RequestLine(c) == Cli.RequestLine(c);
    RequestParses(c);
  }

  /**
   * The flight-service request each client command should end in, stated
   * from the client's side: the altitude, the land flag, the vector with the
   * yaw rate as the only angular part, the flags, asynchronously; and no
   * service for an image.
   */
  function ServiceFor(c: Cli.Command): Option<Srv.ServiceCall>
  {
    match c
    case Arm => Some(Srv.ArmCall)
    case Disarm => Some(Srv.DisarmCall)
    case TakeOff(a) => Some(Srv.TakeOffCall(a))
    case Land(async) => Some(Srv.LandCall(async))
    case VelocitySetpoint(x, y, z, yawRate, relative, bodyFrame) =>
      var yaw := if yawRate.Some? then yawRate.value else Srv.Zero;
      Some(Srv.VelocitySetCall(Srv.Twist(Vector3(x, y, z), Vector3(Srv.Zero, Srv.Zero, yaw)),
                               yawRate.Some?, relative, bodyFrame, true))
    case AttitudeSetpoint(roll, pitch, yaw, thrust) =>
      Some(Srv.AttitudeSetCall(Vector3(roll, pitch, yaw), thrust))
    case GetImage(_) => None
  }

  /**
   * The server, given the line the client wrote, calls exactly the service
   * the client meant, with the values the client gave; and answers `ok`
   * exactly when that service call succeeds.
   */
  lemma ClientReachesService(env: Srv.Environment, k: nat, c: Cli.Command)
    requires Cli.WellFormed(c)
    ensures var h := Srv.Respond(env, k, Cli.RequestLine(c));
            && h.call == ServiceFor(c)
            && (!c.GetImage? ==> (h.result == NoError <==> env.service(k, ServiceFor(c).value)))
  {
    RequestParses(c);
  }

  // ----- the client reads the answer ---------------------------------------

  /** Error texts as `error_code::message()` gives them: one line, without `"`. */
  ghost predicate PlainMessages(env: Srv.Environment)
  {
    forall e :: NoQuote(env.message(e)) && NoBreak(env.message(e))
  }

  /**
   * The client reads back the server's result line: the code the handler
   * returned and its message, leaving the data line to be read.
   */
  lemma ClientReadsResult(env: Srv.Environment, k: nat, c: Command, more: seq<char>)
    requires PlainMessages(env)
    ensures var h := Srv.Handle(env, k, c);
            Cli.ReadResponseResult(Stream(true, Srv.Response(env, h) + more))
            == Cli.ResultRead(NoError, Some(ResultRecord(Value(h.result), env.message(h.result))), Stream(true, h.data + CrLf + more))
  {
    var h := Srv.Handle(env, k, c);
    var result := ResultText(Value(h.result), env.message(h.result));
    assert Srv.Response(env, h) + more == result + CrLf + (h.data + CrLf + more);
    Cli.ReadResultLine(Value(h.result), env.message(h.result), h.data + CrLf + more);
  }

  /** The decoder the client is taken to run: the server's `decode`, reporting its bytes on success. */
  function Base32Decoder(size: nat, text: seq<char>): Option<seq<Base32.byte>>
  {
    var d := Base32.Decode(size, Stream(true, text));
    if d.ok then Some(d.bytes) else None
  }

  /**
   * An image the server has crosses the wire intact: a client `GetImage`
   * with a callback receives exactly its width, height and bytes, provided
   * each of the three numbers fits the client's `int_`.
   */
  lemma ImageArrives(env: Srv.Environment, k: nat, hasCallback: bool, more: seq<char>)
    requires env.image(k).Some?
    requires var image := env.image(k).value;
             IsInt32(image.width) && IsInt32(image.height) && IsInt32(|image.data|)
    ensures var image := env.image(k).value;
            var h := Srv.Handle(env, k, GetImage(Common(None)));
            var r := Cli.ReadResponseData(Cli.GetImage(hasCallback), Stream(true, h.data + CrLf + more), Base32Decoder);
            && h.result == NoError
            && r == Cli.DataRead(NoError, if hasCallback then Some(Cli.Frame(image.width, image.height, image.data)) else None, Stream(true, more))
  {
    var image := env.image(k).value;
    var text := Base32.Encode(image.data);
    Base32.DecodeEncode(image.data, []);
    assert text + [] == text;
    Cli.ReadImageLine(hasCallback, image.width, image.height, |image.data|, text, more, Base32Decoder);
  }

  /**
   * With no image yet, `get_image` is answered `no_stream_resources` and an
   * empty data line, which the client's image reader rejects as
   * `invalid_argument`; nothing is delivered.
   */
  lemma NoImageRejected(env: Srv.Environment, k: nat, hasCallback: bool, more: seq<char>, decode: Cli.Decoder)
    requires env.image(k).None?
    ensures var h := Srv.Handle(env, k, GetImage(Common(None)));
            && h.result == NoStreamResources && h.data == []
            && Cli.ReadResponseData(Cli.GetImage(hasCallback), Stream(true, h.data + CrLf + more), decode)
               == Cli.DataRead(InvalidArgument, None, Stream(true, more))
  {
    assert [] + CrLf + more == [] + [CR, LF] + more;
    ReadLineCrLf([], [], more);
    assert ImageRule([]).None? by {
      SkipNone([]);
    }
  }

  /**
   * Every other command's data line is empty, and the client's default
   * reader takes it and moves on.
   */
  lemma EmptyDataRead(env: Srv.Environment, k: nat, c: Cli.Command, more: seq<char>, decode: Cli.Decoder)
    requires !c.GetImage?
    ensures var h := Srv.Handle(env, k, ToServer(c));
            && h.data == []
            && Cli.ReadResponseData(c, Stream(true, h.data + CrLf + more), decode) == Cli.DataRead(NoError, None, Stream(true, more))
  {
    assert [] + CrLf + more == [] + CrLf + more;
    Cli.ReadDataDiscards(c, [], more, decode);
  }

  // ----- one exchange ------------------------------------------------------

  /**
   * One round of the client's queue against the server: the client writes
   * the front command, the server's two lines for it are waiting, and the
   * client reads back the server's code and message, takes the empty data
   * line and pops the command, with the stream left just after the response.
   */
  lemma Exchange(env: Srv.Environment, k: nat, s: Conn.Client, more: seq<char>, decode: Cli.Decoder)
    requires PlainMessages(env)
    requires s.processing && !s.crashed && |s.queue| > 0
    requires Cli.WellFormed(s.queue[0]) && !s.queue[0].GetImage?
    requires s.stream == Stream(true, Srv.Response(env, Srv.Handle(env, k, ToServer(s.queue[0]))) + more)
    ensures var c := s.queue[0];
            var h := Srv.Handle(env, k, ToServer(c));
            var r := Conn.Step(s, decode);
            var o := r.outcomes[|s.outcomes|];
            && o.wrote && r.sent == s.sent + Cli.WriteRequest(c)
            && o.result.error == NoError && o.result.result == Some(ResultRecord(Value(h.result), env.message(h.result)))
            && o.data == Cli.DataRead(NoError, None, Stream(true, more))
            && !r.crashed && r.queue == s.queue[1..] && r.stream == Stream(true, more)
  {
    var c := s.queue[0];
    var h := Srv.Handle(env, k, ToServer(c));
    ClientReadsResult(env, k, ToServer(c), more);
    EmptyDataRead(env, k, c, more, decode);
  }
}
