/**
 * The server's parsed request: one record per command kind, joined in a
 * variant whose alternative order the session's dispatch relies on.
 */
module ServerCommands {
  import opened Wrappers
  import opened DecimalLiteral

  datatype Vector3 = Vector3(x: Number, y: Number, z: Number)

  /** The fields every command kind carries: only the optional `async` flag. */
  datatype Common = Common(async: Option<bool>)

  /**
   * The eight alternatives, in the variant's order. An optional field that
   * was not written is `None`, distinct from any value it could carry.
   */
  datatype Command =
    | Arm(common: Common)
    | Disarm(common: Common)
    | TakeOff(common: Common, altitude: Number)
    | Land(common: Common)
    | PositionSetpoint(common: Common, position: Vector3, yaw: Option<Number>,
                       relative: Option<bool>, bodyFrame: Option<bool>)
    | VelocitySetpoint(common: Common, velocity: Vector3, yawRate: Option<Number>,
                       relative: Option<bool>, bodyFrame: Option<bool>)
    | AttitudeSetpoint(common: Common, rpy: Vector3, thrust: Number)
    | GetImage(common: Common)

  /** The number of alternatives. */
  const KindCount: nat := 8

  /** `variant::which()`: the index of the alternative, in declaration order. */
  function Which(c: Command): (i: nat)
    ensures i < KindCount
    ensures i == 0 <==> c.Arm?
    ensures i == 1 <==> c.Disarm?
    ensures i == 2 <==> c.TakeOff?
    ensures i == 3 <==> c.Land?
    ensures i == 4 <==> c.PositionSetpoint?
    ensures i == 5 <==> c.VelocitySetpoint?
    ensures i == 6 <==> c.AttitudeSetpoint?
    ensures i == 7 <==> c.GetImage?
  {
    match c
    case Arm(_) => 0
    case Disarm(_) => 1
    case TakeOff(_, _) => 2
    case Land(_) => 3
    case PositionSetpoint(_, _, _, _, _) => 4
    case VelocitySetpoint(_, _, _, _, _) => 5
    case AttitudeSetpoint(_, _, _) => 6
    case GetImage(_) => 7
  }
}
