/**
 * The server's request grammar as a recursive-descent parser. Each rule
 * returns the record it built and the input left after it, or `None`. Every
 * token skips the white space before it, keywords match contiguously,
 * optional parts restore the input when they do not match in full, and the
 * alternatives are tried in the variant's order.
 */
module CommandsParser {
  import opened Wrappers
  import opened Errors
  import opened Lexical
  import opened DecimalLiteral
  import opened ServerCommands

  /** `-(lit(word) >> bool_)`: the flag after `word`, or nothing and the input untouched. */
  function OptionalBool(word: seq<char>, s: seq<char>): (r: (Option<bool>, seq<char>))
    ensures r.0.None? ==> r.1 == s
    ensures r.0.Some? <==> Lit(word, s).Some? && Bool(Lit(word, s).value).Some?
  {
    match Lit(word, s)
    case None => (None, s)
    case Some(t) =>
      match Bool(t)
      case None => (None, s)
      case Some((b, u)) => (Some(b), u)
  }

  /** `-(lit(word) >> float_)`: the number after `word`, or nothing and the input untouched. */
  function OptionalFloat(word: seq<char>, s: seq<char>): (r: (Option<Number>, seq<char>))
    ensures r.0.None? ==> r.1 == s
    ensures r.0.Some? <==> Lit(word, s).Some? && Float(Lit(word, s).value).Some?
  {
    match Lit(word, s)
    case None => (None, s)
    case Some(t) =>
      match Float(t)
      case None => (None, s)
      case Some((n, u)) => (Some(n), u)
  }

  /** `lit(word) >> float_`: a required number after `word`. */
  function FloatField(word: seq<char>, s: seq<char>): (r: Option<(Number, seq<char>)>)
    ensures r.Some? <==> Lit(word, s).Some? && Float(Lit(word, s).value).Some?
  {
    var t :- Lit(word, s);
    Float(t)
  }

  /** `r_Common`: an optional `async:` flag; it never fails. */
  function RCommon(s: seq<char>): (r: (Common, seq<char>))
    ensures r.0.async.None? ==> r.1 == s
  {
    var (async, t) := OptionalBool("async:", s);
    (Common(async), t)
  }

  /** `r_Vector3`: `{`, three numbers separated by `,`, then `}`. */
  function RVector3(s: seq<char>): (r: Option<(Vector3, seq<char>)>)
    ensures r.Some? ==> Lit("{", s).Some?
  {
    var t0 :- Lit("{", s);
    var x :- Float(t0);
    var t1 :- Lit(",", x.1);
    var y :- Float(t1);
    var t2 :- Lit(",", y.1);
    var z :- Float(t2);
    var t3 :- Lit("}", z.1);
    Some((Vector3(x.0, y.0, z.0), t3))
  }

  /**
   * A vector matches exactly when all seven of its parts do, each after the
   * one before it, and its coordinates are the three numbers read: a missing
   * brace, comma or number rejects it.
   */
  lemma VectorParts(s: seq<char>)
    ensures RVector3(s).Some? <==>
              && FloatField("{", s).Some?
              && FloatField(",", FloatField("{", s).value.1).Some?
              && FloatField(",", FloatField(",", FloatField("{", s).value.1).value.1).Some?
              && Lit("}", FloatField(",", FloatField(",", FloatField("{", s).value.1).value.1).value.1).Some?
    ensures RVector3(s).Some? ==>
              var x := FloatField("{", s).value;
              var y := FloatField(",", x.1).value;
              var z := FloatField(",", y.1).value;
              RVector3(s).value == (Vector3(x.0, y.0, z.0), Lit("}", z.1).value)
  {
  }

  /** `r_Arm`: the keyword, then the common fields. */
  function RArm(s: seq<char>): (r: Option<(Command, seq<char>)>)
    ensures r.Some? <==> Lit("arm", s).Some?
    ensures r.Some? ==> r.value.0.Arm?
  {
    var t :- Lit("arm", s);
    var (common, u) := RCommon(t);
    Some((Arm(common), u))
  }

  function RDisarm(s: seq<char>): (r: Option<(Command, seq<char>)>)
    ensures r.Some? <==> Lit("disarm", s).Some?
    ensures r.Some? ==> r.value.0.Disarm?
  {
    var t :- Lit("disarm", s);
    var (common, u) := RCommon(t);
    Some((Disarm(common), u))
  }

  /** `r_TakeOff`: the keyword, the common fields, and a required `altitude:`. */
  function RTakeOff(s: seq<char>): (r: Option<(Command, seq<char>)>)
    ensures r.Some? ==> Lit("take_off", s).Some? && r.value.0.TakeOff?
    ensures r.Some? <==> Lit("take_off", s).Some?
                         && FloatField("altitude:", RCommon(Lit("take_off", s).value).1).Some?
  {
    var t :- Lit("take_off", s);
    var (common, u) := RCommon(t);
    var altitude :- FloatField("altitude:", u);
    Some((TakeOff(common, altitude.0), altitude.1))
  }

  function RLand(s: seq<char>): (r: Option<(Command, seq<char>)>)
    ensures r.Some? <==> Lit("land", s).Some?
    ensures r.Some? ==> r.value.0.Land?
  {
    var t :- Lit("land", s);
    var (common, u) := RCommon(t);
    Some((Land(common), u))
  }

  /**
   * The optional tail of both setpoints: the angle field named `angle`, then
   * `relative:`, then `body_frame:`, each optional, in that order only.
   */
  function SetpointOptions(angle: seq<char>, s: seq<char>)
    : (r: (Option<Number>, Option<bool>, Option<bool>, seq<char>))
    ensures r.0 == OptionalFloat(angle, s).0
    ensures r.1 == OptionalBool("relative:", OptionalFloat(angle, s).1).0
    ensures r.2 == OptionalBool("body_frame:", OptionalBool("relative:", OptionalFloat(angle, s).1).1).0
    ensures r.0.None? && r.1.None? && r.2.None? ==> r.3 == s
  {
    var (a, t) := OptionalFloat(angle, s);
    var (relative, u) := OptionalBool("relative:", t);
    var (bodyFrame, v) := OptionalBool("body_frame:", u);
    (a, relative, bodyFrame, v)
  }

  /** `r_PositionSetpoint`: the keyword, the common fields, a required `position:` vector, then the options. */
  function RPositionSetpoint(s: seq<char>): (r: Option<(Command, seq<char>)>)
    ensures r.Some? ==> Lit("position_setpoint", s).Some? && r.value.0.PositionSetpoint?
    ensures r.Some? <==> Lit("position_setpoint", s).Some?
                         && var u := RCommon(Lit("position_setpoint", s).value).1;
                            Lit("position:", u).Some? && RVector3(Lit("position:", u).value).Some?
  {
    var t :- Lit("position_setpoint", s);
    var (common, u) := RCommon(t);
    var v :- Lit("position:", u);
    var position :- RVector3(v);
    var (yaw, relative, bodyFrame, w) := SetpointOptions("yaw:", position.1);
    Some((PositionSetpoint(common, position.0, yaw, relative, bodyFrame), w))
  }

  /** `r_VelocitySetpoint`: the keyword, the common fields, a required `velocity:` vector, then the options. */
  function RVelocitySetpoint(s: seq<char>): (r: Option<(Command, seq<char>)>)
    ensures r.Some? ==> Lit("velocity_setpoint", s).Some? && r.value.0.VelocitySetpoint?
    ensures r.Some? <==> Lit("velocity_setpoint", s).Some?
                         && var u := RCommon(Lit("velocity_setpoint", s).value).1;
                            Lit("velocity:", u).Some? && RVector3(Lit("velocity:", u).value).Some?
  {
    var t :- Lit("velocity_setpoint", s);
    var (common, u) := RCommon(t);
    var v :- Lit("velocity:", u);
    var velocity :- RVector3(v);
    var (yawRate, relative, bodyFrame, w) := SetpointOptions("yaw_rate:", velocity.1);
    Some((VelocitySetpoint(common, velocity.0, yawRate, relative, bodyFrame), w))
  }

  /** `r_AttitudeSetpoint`: both `rpy:` and `thrust:` are required. */
  function RAttitudeSetpoint(s: seq<char>): (r: Option<(Command, seq<char>)>)
    ensures r.Some? ==> Lit("attitude_setpoint", s).Some? && r.value.0.AttitudeSetpoint?
    ensures r.Some? <==> Lit("attitude_setpoint", s).Some?
                         && var u := RCommon(Lit("attitude_setpoint", s).value).1;
                            && Lit("rpy:", u).Some? && RVector3(Lit("rpy:", u).value).Some?
                            && FloatField("thrust:", RVector3(Lit("rpy:", u).value).value.1).Some?
  {
    var t :- Lit("attitude_setpoint", s);
    var (common, u) := RCommon(t);
    var v :- Lit("rpy:", u);
    var rpy :- RVector3(v);
    var thrust :- FloatField("thrust:", rpy.1);
    Some((AttitudeSetpoint(common, rpy.0, thrust.0), thrust.1))
  }

  function RGetImage(s: seq<char>): (r: Option<(Command, seq<char>)>)
    ensures r.Some? <==> Lit("get_image", s).Some?
    ensures r.Some? ==> r.value.0.GetImage?
  {
    var t :- Lit("get_image", s);
    var (common, u) := RCommon(t);
    Some((GetImage(common), u))
  }

  /** The rule of alternative `i`, in the variant's order; past the last there is none. */
  function Rule(i: nat, s: seq<char>): (r: Option<(Command, seq<char>)>)
    ensures r.Some? ==> i < KindCount && Which(r.value.0) == i
  {
    match i
    case 0 => RArm(s)
    case 1 => RDisarm(s)
    case 2 => RTakeOff(s)
    case 3 => RLand(s)
    case 4 => RPositionSetpoint(s)
    case 5 => RVelocitySetpoint(s)
    case 6 => RAttitudeSetpoint(s)
    case 7 => RGetImage(s)
    case _ => None
  }

  /** The alternatives' rules, applied to `s`. */
  function Rules(s: seq<char>): nat -> Option<(Command, seq<char>)>
  {
    (i: nat) => Rule(i, s)
  }

  /**
   * Spirit's alternative parser `a | b | ...` over `rule(k)`, ..., `rule(n - 1)`:
   * the first that matches wins.
   */
  function FirstMatch<T>(rule: nat -> Option<T>, k: nat, n: nat): Option<T>
    decreases n - k
  {
    if k >= n then None
    else if rule(k).Some? then rule(k)
    else FirstMatch(rule, k + 1, n)
  }

  /** `r_Command`: the eight alternatives in order. */
  function RCommand(s: seq<char>): Option<(Command, seq<char>)>
  {
    FirstMatch(Rules(s), 0, KindCount)
  }

  /**
   * `parse`: the command a request line holds, or `invalid_argument` when no
   * alternative matches. Input left after the match is not examined.
   */
  function Parse(line: seq<char>): (r: Result<Command, ErrorCode>)
    ensures r.Failure? ==> r.error == InvalidArgument
  {
    match RCommand(line)
    case None => Failure(InvalidArgument)
    case Some((c, _)) => Success(c)
  }

  // ----- the order of the alternatives ------------------------------------

  /** An alternation fails exactly when every alternative does. */
  lemma {:induction false} FirstMatchNone<T>(rule: nat -> Option<T>, k: nat, n: nat)
    ensures FirstMatch(rule, k, n).None? <==> forall i :: k <= i < n ==> rule(i).None?
    decreases n - k
  {
    if k < n {
      FirstMatchNone(rule, k + 1, n);
    }
  }

  /** When an alternation matches, it is by the first alternative that matches. */
  lemma {:induction false} FirstMatchWinner<T>(rule: nat -> Option<T>, k: nat, n: nat) returns (w: nat)
    requires FirstMatch(rule, k, n).Some?
    ensures k <= w < n && rule(w) == FirstMatch(rule, k, n)
    ensures forall j :: k <= j < w ==> rule(j).None?
    decreases n - k
  {
    if rule(k).Some? {
      w := k;
    } else {
      w := FirstMatchWinner(rule, k + 1, n);
    }
  }

  /** Alternations over rules that agree on every alternative agree. */
  lemma {:induction false} FirstMatchSame<T>(rule: nat -> Option<T>, rule': nat -> Option<T>, k: nat, n: nat)
    requires forall i :: k <= i < n ==> rule(i) == rule'(i)
    ensures FirstMatch(rule, k, n) == FirstMatch(rule', k, n)
    decreases n - k
  {
    if k < n {
      FirstMatchSame(rule, rule', k + 1, n);
    }
  }

  /**
   * `parse` yields alternative `i` exactly when rule `i` matches and no rule
   * before it does; the command is then the one rule `i` built.
   */
  lemma ParseFirstMatch(line: seq<char>, i: nat)
    requires i < KindCount
    ensures (Parse(line).Success? && Which(Parse(line).value) == i)
        <==> (Rule(i, line).Some? && forall j :: 0 <= j < i ==> Rule(j, line).None?)
    ensures Rule(i, line).Some? && (forall j :: 0 <= j < i ==> Rule(j, line).None?)
        ==> Parse(line) == Success(Rule(i, line).value.0)
  {
    var rules := Rules(line);
    if RCommand(line).Some? {
      var w := FirstMatchWinner(rules, 0, KindCount);
      assert rules(w) == Rule(w, line);
      assert forall j :: 0 <= j < w ==> Rule(j, line) == rules(j);
    }
  }

  /** `parse` fails, with `invalid_argument`, exactly when no alternative matches. */
  lemma ParseFails(line: seq<char>)
    ensures Parse(line).Failure? <==> forall i :: 0 <= i < KindCount ==> Rule(i, line).None?
    ensures Parse(line).Failure? ==> Parse(line) == Failure(InvalidArgument)
  {
    var rules := Rules(line);
    FirstMatchNone(rules, 0, KindCount);
    assert forall i :: 0 <= i < KindCount ==> Rule(i, line) == rules(i);
  }

  // ----- white space and what follows the match ---------------------------

  /** A literal sees only the input after the skipper. */
  lemma LitSkip(word: seq<char>, s: seq<char>)
    ensures Lit(word, Skip(s)) == Lit(word, s)
  {
    SkipIdempotent(s);
  }

  /** Every rule begins by skipping: it is blind to the white space in front. */
  lemma RuleSkip(i: nat, s: seq<char>)
    ensures Rule(i, Skip(s)) == Rule(i, s)
  {
    match i
    case 0 => LitSkip("arm", s);
    case 1 => LitSkip("disarm", s);
    case 2 => TakeOffSkip(s);
    case 3 => LitSkip("land", s);
    case 4 => PositionSetpointSkip(s);
    case 5 => VelocitySetpointSkip(s);
    case 6 => AttitudeSetpointSkip(s);
    case 7 => LitSkip("get_image", s);
    case _ =>
  }

  lemma TakeOffSkip(s: seq<char>)
    ensures RTakeOff(Skip(s)) == RTakeOff(s)
  {
    LitSkip("take_off", s);
  }

  lemma PositionSetpointSkip(s: seq<char>)
    ensures RPositionSetpoint(Skip(s)) == RPositionSetpoint(s)
  {
    LitSkip("position_setpoint", s);
  }

  lemma VelocitySetpointSkip(s: seq<char>)
    ensures RVelocitySetpoint(Skip(s)) == RVelocitySetpoint(s)
  {
    LitSkip("velocity_setpoint", s);
  }

  lemma AttitudeSetpointSkip(s: seq<char>)
    ensures RAttitudeSetpoint(Skip(s)) == RAttitudeSetpoint(s)
  {
    LitSkip("attitude_setpoint", s);
  }

  /** White space in front of a request line changes nothing. */
  lemma ParseSkipsLeadingSpace(spaces: seq<char>, line: seq<char>)
    requires AllSpace(spaces)
    ensures Parse(spaces + line) == Parse(line)
  {
    SkipSpaces(spaces, line);
    forall i | 0 <= i < KindCount
      ensures Rules(spaces + line)(i) == Rules(line)(i)
    {
      RuleSkip(i, spaces + line);
      RuleSkip(i, line);
    }
    FirstMatchSame(Rules(spaces + line), Rules(line), 0, KindCount);
  }

  // ----- keywords ---------------------------------------------------------

  /**
   * `arm` followed by anything is Arm: the common fields are read from what
   * follows, and whatever is left after them is ignored.
   */
  lemma ParseArm(t: seq<char>)
    ensures Parse("arm" + t) == Success(Arm(RCommon(t).0))
  {
    LitFront("arm", t);
    ParseFirstMatch("arm" + t, 0);
  }

  lemma ParseDisarm(t: seq<char>)
    ensures Parse("disarm" + t) == Success(Disarm(RCommon(t).0))
  {
    var line := "disarm" + t;
    LitFront("disarm", t);
    LitMismatch("arm", line);
    ParseFirstMatch(line, 1);
  }

  lemma ParseLand(t: seq<char>)
    ensures Parse("land" + t) == Success(Land(RCommon(t).0))
  {
    var line := "land" + t;
    LitFront("land", t);
    LitMismatch("arm", line);
    LitMismatch("disarm", line);
    LitMismatch("take_off", line);
    ParseFirstMatch(line, 3);
  }

  lemma ParseGetImage(t: seq<char>)
    ensures Parse("get_image" + t) == Success(GetImage(RCommon(t).0))
  {
    var line := "get_image" + t;
    LitFront("get_image", t);
    LitMismatch("arm", line);
    LitMismatch("disarm", line);
    LitMismatch("take_off", line);
    LitMismatch("land", line);
    LitMismatch("position_setpoint", line);
    LitMismatch("velocity_setpoint", line);
    LitMismatch("attitude_setpoint", line);
    ParseFirstMatch(line, 7);
  }

  /**
   * `take_off` is TakeOff when `altitude:` and a number follow the common
   * fields; without them no alternative matches.
   */
  lemma ParseTakeOff(t: seq<char>)
    ensures var (common, u) := RCommon(t);
            Parse("take_off" + t)
            == match FloatField("altitude:", u)
               case Some((altitude, _)) => Success(TakeOff(common, altitude))
               case None => Failure(InvalidArgument)
  {
    var line := "take_off" + t;
    LitFront("take_off", t);
    LitMismatch("arm", line);
    LitMismatch("disarm", line);
    if RTakeOff(line).Some? {
      ParseFirstMatch(line, 2);
    } else {
      LitMismatch("land", line);
      LitMismatch("position_setpoint", line);
      LitMismatch("velocity_setpoint", line);
      LitMismatch("attitude_setpoint", line);
      LitMismatch("get_image", line);
      ParseFails(line);
    }
  }

  /** No alternative before the position setpoint takes a line that starts with its keyword. */
  lemma PositionFirst(t: seq<char>)
    ensures forall j :: 0 <= j < 4 ==> Rule(j, "position_setpoint" + t).None?
  {
    var line := "position_setpoint" + t;
    LitMismatch("arm", line);
    LitMismatch("disarm", line);
    LitMismatch("take_off", line);
    LitMismatch("land", line);
  }

  /** No alternative before the velocity setpoint takes a line that starts with its keyword. */
  lemma VelocityFirst(t: seq<char>)
    ensures forall j :: 0 <= j < 5 ==> Rule(j, "velocity_setpoint" + t).None?
  {
    var line := "velocity_setpoint" + t;
    LitMismatch("arm", line);
    LitMismatch("disarm", line);
    LitMismatch("take_off", line);
    LitMismatch("land", line);
    LitMismatch("position_setpoint", line);
  }

  /**
   * No alternative before the attitude setpoint takes a line that starts
   * with its keyword; `arm` shares its first letter and fails on the second.
   */
  lemma AttitudeFirst(t: seq<char>)
    ensures forall j :: 0 <= j < 6 ==> Rule(j, "attitude_setpoint" + t).None?
  {
    var line := "attitude_setpoint" + t;
    assert Lit("arm", line).None? by {
      SkipNone(line);
      assert line[1] != "arm"[1];
    }
    LitMismatch("disarm", line);
    LitMismatch("take_off", line);
    LitMismatch("land", line);
    LitMismatch("position_setpoint", line);
    LitMismatch("velocity_setpoint", line);
  }

  /**
   * `position_setpoint` is PositionSetpoint when `position:` and a whole
   * vector follow the common fields, with the options read after it;
   * without them no alternative matches.
   */
  lemma ParsePositionSetpoint(t: seq<char>)
    ensures var (common, u) := RCommon(t);
            Parse("position_setpoint" + t)
            == match Lit("position:", u)
               case None => Failure(InvalidArgument)
               case Some(v) =>
                 match RVector3(v)
                 case None => Failure(InvalidArgument)
                 case Some((position, w)) =>
                   var (yaw, relative, bodyFrame, _) := SetpointOptions("yaw:", w);
                   Success(PositionSetpoint(common, position, yaw, relative, bodyFrame))
  {
    var line := "position_setpoint" + t;
    LitFront("position_setpoint", t);
    PositionFirst(t);
    if RPositionSetpoint(line).Some? {
      ParseFirstMatch(line, 4);
    } else {
      LitMismatch("velocity_setpoint", line);
      LitMismatch("attitude_setpoint", line);
      LitMismatch("get_image", line);
      ParseFails(line);
    }
  }

  /**
   * `velocity_setpoint` is VelocitySetpoint when `velocity:` and a whole
   * vector follow the common fields, with the options read after it;
   * without them no alternative matches.
   */
  lemma ParseVelocitySetpoint(t: seq<char>)
    ensures var (common, u) := RCommon(t);
            Parse("velocity_setpoint" + t)
            == match Lit("velocity:", u)
               case None => Failure(InvalidArgument)
               case Some(v) =>
                 match RVector3(v)
                 case None => Failure(InvalidArgument)
                 case Some((velocity, w)) =>
                   var (yawRate, relative, bodyFrame, _) := SetpointOptions("yaw_rate:", w);
                   Success(VelocitySetpoint(common, velocity, yawRate, relative, bodyFrame))
  {
    var line := "velocity_setpoint" + t;
    LitFront("velocity_setpoint", t);
    VelocityFirst(t);
    if RVelocitySetpoint(line).Some? {
      ParseFirstMatch(line, 5);
    } else {
      LitMismatch("attitude_setpoint", line);
      LitMismatch("get_image", line);
      ParseFails(line);
    }
  }

  /**
   * `attitude_setpoint` is AttitudeSetpoint when both `rpy:` with a whole
   * vector and `thrust:` with a number follow the common fields; without
   * either no alternative matches.
   */
  lemma ParseAttitudeSetpoint(t: seq<char>)
    ensures var (common, u) := RCommon(t);
            Parse("attitude_setpoint" + t)
            == match Lit("rpy:", u)
               case None => Failure(InvalidArgument)
               case Some(v) =>
                 match RVector3(v)
                 case None => Failure(InvalidArgument)
                 case Some((rpy, w)) =>
                   match FloatField("thrust:", w)
                   case None => Failure(InvalidArgument)
                   case Some((thrust, _)) => Success(AttitudeSetpoint(common, rpy, thrust))
  {
    var line := "attitude_setpoint" + t;
    LitFront("attitude_setpoint", t);
    AttitudeFirst(t);
    if RAttitudeSetpoint(line).Some? {
      ParseFirstMatch(line, 6);
    } else {
      LitMismatch("get_image", line);
      ParseFails(line);
    }
  }

  // ----- examples ---------------------------------------------------------

  /** Trailing input is not rejected: `arm xyz` is Arm, without `async`. */
  lemma ArmIgnoresTrailing()
    ensures Parse("arm xyz") == Success(Arm(Common(None)))
  {
    ParseArm(" xyz");
    assert "arm" + " xyz" == "arm xyz";
    SkipNone("xyz");
    assert Lit("async:", " xyz").None?;
  }

  /**
   * The optional fields only appear in their order: once `body_frame:` is
   * read, a `relative:` after it is left unread.
   */
  lemma BodyFrameBeforeRelative(angle: seq<char>, b: bool, t: seq<char>)
    requires |angle| > 0 && angle[0] != 'b'
    ensures SetpointOptions(angle, "body_frame:" + (BoolText(b) + t)) == (None, None, Some(b), t)
  {
    var s := "body_frame:" + (BoolText(b) + t);
    LitMismatch(angle, s);
    LitMismatch("relative:", s);
    LitFront("body_frame:", BoolText(b) + t);
    BoolRoundTrip(b, t);
  }
}
