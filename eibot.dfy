/**
 * The motor driver (`class motor`): EiBotBoard commands for two stepper
 * axes and the laser, with the enable latch, per-axis position clamps and
 * ramped moves.
 *
 * The whole observable state of a motor is the value `MState`; every
 * operation has a specification function on `MState`, and the class
 * `Motor` implements each one imperatively, field for field.  Once the
 * link is no longer `Running` (a read blocked for ever or an exception is
 * unwinding) the source code after that call never runs, so every
 * operation stops there.
 */
module EiBot {
  import opened Common
  import opened DeviceLink
  import Ramp

  /** Microsteps per revolution: 16 microsteps, 2x gearing, 521 steps. */
  const Spr: int := 16 * 2 * 521

  datatype Params = Params(
    m1Min: int, m2Min: int, m1Max: int, m2Max: int,
    m1Mode: int, m2Mode: int, m1Backlash: int, m2Backlash: int,
    stepsPerSec: int, acceleration: int, accelDeltat: int)

  const DefaultParams := Params(-(Spr / 2), -(Spr / 2), Spr / 2, Spr / 2, 1, 1, 0, 0, 800, 2800, 20)

  /** The keys of the `params` dictionary. */
  datatype Field =
    | M1MinPos | M2MinPos | M1MaxPos | M2MaxPos | M1Mode | M2Mode
    | M1Backlash | M2Backlash | StepsPerSec | Acceleration | AccelDeltat

  function WithParam(p: Params, f: Field, v: int): Params
  {
    match f
    case M1MinPos => p.(m1Min := v)
    case M2MinPos => p.(m2Min := v)
    case M1MaxPos => p.(m1Max := v)
    case M2MaxPos => p.(m2Max := v)
    case M1Mode => p.(m1Mode := v)
    case M2Mode => p.(m2Mode := v)
    case M1Backlash => p.(m1Backlash := v)
    case M2Backlash => p.(m2Backlash := v)
    case StepsPerSec => p.(stepsPerSec := v)
    case Acceleration => p.(acceleration := v)
    case AccelDeltat => p.(accelDeltat := v)
  }

  function GetParam(p: Params, f: Field): int
  {
    match f
    case M1MinPos => p.m1Min
    case M2MinPos => p.m2Min
    case M1MaxPos => p.m1Max
    case M2MaxPos => p.m2Max
    case M1Mode => p.m1Mode
    case M2Mode => p.m2Mode
    case M1Backlash => p.m1Backlash
    case M2Backlash => p.m2Backlash
    case StepsPerSec => p.stepsPerSec
    case Acceleration => p.acceleration
    case AccelDeltat => p.accelDeltat
  }

  /** Storing a parameter changes that key and no other. */
  lemma WithParamGet(p: Params, f: Field, v: int, g: Field)
    ensures GetParam(WithParam(p, f, v), g) == if g == f then v else GetParam(p, g)
  {
  }

  datatype MState = MState(
    m1Pos: int, m2Pos: int, emSent: bool, laserOn: bool, params: Params, link: Link)

  predicate Live(s: MState)
  {
    s.link.status == Running
  }

  // ---------------------------------------------------------------------
  // Pure helpers of the driver.

  /** `format_sm_cmd`: a single-axis move puts 0 on the other axis. */
  function FormatSmCmd(ms: int, mx: int, steps: int): Cmd
  {
    if mx == 1 then SM(ms, steps, 0) else SM(ms, 0, steps)
  }

  /**
   * Every move that leaves the axis other than `mx` still is the
   * `format_sm_cmd` of its own duration and of its steps on axis `mx`.
   */
  lemma FormatSmCmdOf(c: Cmd, mx: int)
    requires c.SM? && (mx == 1 ==> c.s2 == 0) && (mx != 1 ==> c.s1 == 0)
    ensures c == FormatSmCmd(c.ms, mx, if mx == 1 then c.s1 else c.s2)
  {
  }

  /**
   * `steps_to_ms`: int(|steps|*1000/sps + 0.5), that is (2000*|steps| + sps)
   * / (2*sps) truncated toward zero; None for the division by zero a zero
   * `steps_per_sec` raises.
   */
  function StepsToMs(steps: int, sps: int): Option<int>
  {
    var n := 2000 * Abs(steps) + sps;
    if sps == 0 then None
    else if sps > 0 then Some(n / (2 * sps))
    else if n < 0 then Some(0)
    else Some(-(n / (-2 * sps)))
  }

  /**
   * StepsToMs fails exactly for a zero rate; for a positive rate it is the
   * duration rounded to the nearest millisecond, halves up; for a negative
   * rate it is the (negative) quotient truncated toward zero.
   */
  lemma StepsToMsNearest(steps: int, sps: int)
    ensures StepsToMs(steps, sps).None? <==> sps == 0
    ensures sps > 0 ==> var ms := StepsToMs(steps, sps).value;
      ms >= 0 && 2 * ms * sps <= 2000 * Abs(steps) + sps < 2 * ms * sps + 2 * sps
    ensures sps < 0 ==> var ms, n := StepsToMs(steps, sps).value, 2000 * Abs(steps) + sps;
      && ms <= 0
      && (n >= 0 ==> 2 * ms * sps <= n < 2 * ms * sps - 2 * sps)
      && (n < 0 ==> ms == 0)
  {
    var n := 2000 * Abs(steps) + sps;
    if sps > 0 {
      Quotient(n, sps);
    } else if sps < 0 && n >= 0 {
      Quotient(n, -sps);
    }
  }

  /** The quotient of n by 2*c, bracketed. */
  lemma Quotient(n: int, c: int)
    requires c > 0
    ensures var q := n / (2 * c); 2 * q * c <= n < 2 * q * c + 2 * c
    ensures n >= 0 ==> n / (2 * c) >= 0
  {
    var d := 2 * c;
    var q := n / d;
    assert n == q * d + n % d && 0 <= n % d < d;
    assert 2 * q * c == q * d;
    if n >= 0 {
      assert (q + 1) * d == q * d + d;
      PositiveFactor(q + 1, d);
    }
  }

  lemma PositiveFactor(a: int, d: int)
    requires d > 0 && a * d > 0
    ensures a > 0
  {
  }

  /** `get_backlash`: no backlash when moving out, the axis' setting otherwise. */
  function GetBacklash(p: Params, mx: int, steps: int): int
  {
    if steps > 0 then 0 else if mx == 1 then p.m1Backlash else p.m2Backlash
  }

  /** The enable command as the driver formats it: the axis-1 mode in both fields. */
  function EnableCmd(p: Params): Cmd
  {
    EM(p.m1Mode, p.m1Mode)
  }

  function RampParamsOf(p: Params): Ramp.RampParams
  {
    Ramp.RampParams(p.acceleration, p.accelDeltat, p.stepsPerSec)
  }

  /** make_ramp(steps) returns under the parameters p. */
  predicate RampHalts(p: Params, steps: int)
  {
    Ramp.Halts(RampParamsOf(p), Abs(steps))
  }

  function RampFor(p: Params, steps: int): seq<int>
    requires RampHalts(p, steps)
  {
    Ramp.RampOf(steps, RampParamsOf(p))
  }

  // ---------------------------------------------------------------------
  // Specification functions of the operations.

  function SendOkS(s: MState, c: Cmd): MState
    requires Live(s)
  {
    s.(link := SendOkFrom(s.link, c, 0))
  }

  function EnsureEnabled(s: MState): MState
    requires Live(s)
  {
    if s.emSent then s
    else
      var s1 := SendOkS(s, EnableCmd(s.params));
      if Live(s1) then s1.(emSent := true) else s1
  }

  function SmCmdS(s: MState, ms: int, mx: int, steps: int): MState
    requires Live(s)
  {
    if steps == 0 then s
    else
      var s1 := EnsureEnabled(s);
      if Live(s1) then SendOkS(s1, FormatSmCmd(ms, mx, steps)) else s1
  }

  function Sm2CmdS(s: MState, ms: int, m1: int, m2: int): MState
    requires Live(s)
  {
    if m1 == 0 && m2 == 0 then s
    else
      var s1 := EnsureEnabled(s);
      if Live(s1) then SendOkS(s1, SM(ms, m1, m2)) else s1
  }

  function MotorsOffS(s: MState): MState
    requires Live(s)
  {
    var s1 := SendOkS(s, EM(0, 0));
    if Live(s1) then s1.(emSent := false) else s1
  }

  /** The pen-servo command that switches the laser: inverted, "SP,0" is on. */
  function LaserCmd(value: bool): Cmd
  {
    SP(if value then 0 else 1)
  }

  function SetLaserS(s: MState, value: bool): MState
    requires Live(s)
  {
    var s1 := SendOkS(s, LaserCmd(value));
    if Live(s1) then s1.(laserOn := value) else s1
  }

  function ToggleLaserS(s: MState): MState
    requires Live(s)
  {
    if s.laserOn then
      var s1 := SendOkS(s, SP(1));
      if Live(s1) then s1.(laserOn := false) else s1
    else
      var s1 := SendOkS(s, SP(0));
      if Live(s1) then s1.(laserOn := true) else s1
  }

  function SetParamS(s: MState, f: Field, v: int): MState
  {
    s.(params := WithParam(s.params, f, v), emSent := false)
  }

  /** One `sm_cmd` per ramp entry, stopping if the link dies. */
  function SmAll(s: MState, ms: int, mx: int, r: seq<int>): MState
    requires Live(s)
    decreases |r|
  {
    if r == [] then s
    else
      var s1 := SmCmdS(s, ms, mx, r[0]);
      if Live(s1) then SmAll(s1, ms, mx, r[1..]) else s1
  }

  function Ramp1S(s: MState, mx: int, steps: int): MState
    requires Live(s) && RampHalts(s.params, steps)
  {
    SmAll(s, s.params.accelDeltat, mx, RampFor(s.params, steps))
  }

  /** `a` followed by zeros up to length n. */
  function Pad(a: seq<int>, n: nat): (r: seq<int>)
    ensures |r| == if |a| < n then n else |a|
  {
    if |a| < n then a + seq(n - |a|, _ => 0) else a
  }

  /** One `sm2_cmd` per index of two equally long ramps. */
  function Sm2All(s: MState, ms: int, a: seq<int>, b: seq<int>): MState
    requires Live(s) && |a| == |b|
    decreases |a|
  {
    if a == [] then s
    else
      var s1 := Sm2CmdS(s, ms, a[0], b[0]);
      if Live(s1) then Sm2All(s1, ms, a[1..], b[1..]) else s1
  }

  function Ramp2S(s: MState, ms: int, m1: int, m2: int): MState
    requires Live(s) && (ms > 0 || (RampHalts(s.params, m1) && RampHalts(s.params, m2)))
  {
    if ms > 0 then Sm2CmdS(s, ms, m1, m2)
    else
      var r1 := RampFor(s.params, m1);
      var r2 := RampFor(s.params, m2);
      var n := Max(|r1|, |r2|);
      Sm2All(s, s.params.accelDeltat, Pad(r1, n), Pad(r2, n))
  }

  function Pos(s: MState, mx: int): int
  {
    if mx == 1 then s.m1Pos else s.m2Pos
  }

  function MinPos(p: Params, mx: int): int
  {
    if mx == 1 then p.m1Min else p.m2Min
  }

  function MaxPos(p: Params, mx: int): int
  {
    if mx == 1 then p.m1Max else p.m2Max
  }

  function WithPos(s: MState, mx: int, v: int): MState
  {
    if mx == 1 then s.(m1Pos := v) else s.(m2Pos := v)
  }

  /** A ramp of `delta` steps on axis mx followed, if the link survived, by recording `pos`. */
  function MovedTo(s: MState, mx: int, delta: int, pos: int): MState
    requires Live(s) && RampHalts(s.params, delta)
  {
    var s1 := Ramp1S(s, mx, delta);
    if Live(s1) then WithPos(s1, mx, pos) else s1
  }

  /** The signed ramp `m1_move_in` / `m2_move_in` asks for. */
  function InDelta(s: MState, mx: int, steps: int): int
  {
    var pos := Pos(s, mx);
    -(if pos - steps < MinPos(s.params, mx) then pos - MinPos(s.params, mx) else steps)
  }

  /** `m1_move_in` / `m2_move_in`. */
  function MoveInS(s: MState, mx: int, steps: int): MState
    requires Live(s) && RampHalts(s.params, InDelta(s, mx, steps))
  {
    var d := InDelta(s, mx, steps);
    MovedTo(s, mx, d, Pos(s, mx) + d)
  }

  /** The signed ramp `m1_move_out` / `m2_move_out` asks for, with their `cur_pos - steps > max` test. */
  function OutDelta(s: MState, mx: int, steps: int): int
  {
    var pos := Pos(s, mx);
    if pos - steps > MaxPos(s.params, mx) then MaxPos(s.params, mx) - pos else steps
  }

  /** `m1_move_out` / `m2_move_out`. */
  function MoveOutS(s: MState, mx: int, steps: int): MState
    requires Live(s) && RampHalts(s.params, OutDelta(s, mx, steps))
  {
    var d := OutDelta(s, mx, steps);
    MovedTo(s, mx, d, Pos(s, mx) + d)
  }

  function Clamp(v: int, lo: int, hi: int): int
  {
    var v1 := if v > hi then hi else v;
    if v1 < lo then lo else v1
  }

  /** The signed ramp `m1_move_abs` / `m2_move_abs` asks for. */
  function AbsDelta(s: MState, mx: int, val: int): int
  {
    Clamp(val, MinPos(s.params, mx), MaxPos(s.params, mx)) - Pos(s, mx)
  }

  /** `m1_move_abs` / `m2_move_abs`. */
  function MoveAbsS(s: MState, mx: int, val: int): MState
    requires Live(s) && RampHalts(s.params, AbsDelta(s, mx, val))
  {
    var v := Clamp(val, MinPos(s.params, mx), MaxPos(s.params, mx));
    MovedTo(s, mx, v - Pos(s, mx), v)
  }

  function Chk(l: Link, s: string): Link
  {
    if l.status != Running then l else CheckReply(l, s).0
  }

  function Get(l: Link, n: nat): (Link, string)
  {
    if l.status != Running then (l, "")
    else
      var (v, rest, st) := ReadChars(l.rx, n);
      (l.(rx := rest, status := st), v)
  }

  /** One "<tag>xxxx" field of the analog reply: check the tag, take four characters. */
  function Field4(l: Link, tag: string): (Link, string)
  {
    Get(Chk(l, tag), 4)
  }

  /** The reply reading of `get_analog` after "A,\r" has been sent. */
  function AnalogReply(l0: Link): (Link, string, string, string)
  {
    var (l1, _) := Field4(l0, "A,00:");
    var (l2, v1) := Field4(l1, ",01:");
    var (l3, v2) := Field4(l2, ",02:");
    var (l4, v3) := Field4(l3, ",03:");
    var (l5, _) := Get(l4, 8);
    var l6 := Chk(l5, "\r\n");
    if l6.status == Running then (l6, v1, v2, v3) else (l6, "", "", "")
  }

  function GetAnalogS(s: MState): (MState, string, string, string)
    requires Live(s)
  {
    var s1 := SendOkS(s, AC(1));
    if !Live(s1) then (s1, "", "", "") else
    var s2 := SendOkS(s1, AC(2));
    if !Live(s2) then (s2, "", "", "") else
    var s3 := SendOkS(s2, AC(3));
    if !Live(s3) then (s3, "", "", "") else
    var (l, v1, v2, v3) := AnalogReply(s3.link.(tx := s3.link.tx + [AQuery]));
    (s3.(link := l), v1, v2, v3)
  }

  /** Once the link has stopped, reading replies leaves it as it is. */
  lemma ReadingStopped(l: Link, tag: string, n: nat)
    requires l.status != Running
    ensures Chk(l, tag) == l && Get(l, n) == (l, "") && Field4(l, tag) == (l, "")
  {
  }

  // ---------------------------------------------------------------------
  // Properties of the driver.

  /** r comes from s by sending commands: positions, laser and parameters as before, log extended. */
  predicate OnlySends(s: MState, r: MState)
  {
    && r.m1Pos == s.m1Pos && r.m2Pos == s.m2Pos && r.laserOn == s.laserOn && r.params == s.params
    && |s.link.tx| <= |r.link.tx| && r.link.tx[..|s.link.tx|] == s.link.tx
  }

  lemma SendOkOnlySends(s: MState, c: Cmd)
    requires Live(s)
    ensures OnlySends(s, SendOkS(s, c))
    ensures exists k :: 1 <= k <= 3 && SendOkS(s, c).link.tx == s.link.tx + Repeat(c, k)
  {
    SendOkShape(s.link, c, 0);
    var k :| 1 <= k <= 3 && SendOkS(s, c).link.tx == s.link.tx + Repeat(c, k);
    assert SendOkS(s, c).link.tx[..|s.link.tx|] == s.link.tx;
  }

  lemma SmCmdOnlySends(s: MState, ms: int, mx: int, steps: int)
    requires Live(s)
    ensures OnlySends(s, SmCmdS(s, ms, mx, steps))
  {
    if steps != 0 {
      if !s.emSent {
        SendOkOnlySends(s, EnableCmd(s.params));
      }
      var s1 := EnsureEnabled(s);
      if Live(s1) {
        SendOkOnlySends(s1, FormatSmCmd(ms, mx, steps));
        var t0, t1, t2 := s.link.tx, s1.link.tx, SmCmdS(s, ms, mx, steps).link.tx;
        assert t2[..|t0|] == t2[..|t1|][..|t0|];
      }
    }
  }

  /** A ramped single-axis move only sends commands. */
  lemma {:induction false} SmAllOnlySends(s: MState, ms: int, mx: int, r: seq<int>)
    requires Live(s)
    ensures OnlySends(s, SmAll(s, ms, mx, r))
    decreases |r|
  {
    if r != [] {
      var s1 := SmCmdS(s, ms, mx, r[0]);
      SmCmdOnlySends(s, ms, mx, r[0]);
      if Live(s1) {
        SmAllOnlySends(s1, ms, mx, r[1..]);
        var t0, t1, t2 := s.link.tx, s1.link.tx, SmAll(s, ms, mx, r).link.tx;
        assert t2[..|t0|] == t2[..|t1|][..|t0|];
      }
    }
  }

  /**
   * The enable latch: an `sm_cmd` that moves leaves the latch set if it
   * completes; if the latch was clear the first command it writes is the
   * enable command, and if it was set it writes only the move.
   */
  lemma EnableLatch(s: MState, ms: int, mx: int, steps: int)
    requires Live(s) && steps != 0
    ensures var r := SmCmdS(s, ms, mx, steps);
      && (Live(r) ==> r.emSent)
      && |r.link.tx| > |s.link.tx|
      && (!s.emSent ==> r.link.tx[|s.link.tx|] == EnableCmd(s.params))
      && (s.emSent ==> forall k :: |s.link.tx| <= k < |r.link.tx| ==> r.link.tx[k] == FormatSmCmd(ms, mx, steps))
  {
    var r := SmCmdS(s, ms, mx, steps);
    if s.emSent {
      SendOkShape(s.link, FormatSmCmd(ms, mx, steps), 0);
    } else {
      SendOkShape(s.link, EnableCmd(s.params), 0);
      var s1 := EnsureEnabled(s);
      if Live(s1) {
        SendOkOnlySends(s1, FormatSmCmd(ms, mx, steps));
        assert r.link.tx[..|s1.link.tx|] == s1.link.tx;
      }
    }
  }

  /**
   * With the board answering OK: after construction, `motors_off` or
   * `set_param`, the next moving `sm_cmd` writes exactly one enable command
   * and then the move; the following one writes only the move.
   */
  lemma EnableOnceThenMove(s: MState, ms: int, mx: int, a: int, b: int, rest: seq<Rx>)
    requires Live(s) && !s.emSent && a != 0 && b != 0 && s.link.rx == Oks(3) + rest
    ensures var r1 := SmCmdS(s, ms, mx, a);
      && Live(r1) && r1.emSent
      && var r2 := SmCmdS(r1, ms, mx, b);
      && r2.emSent && Live(r2)
      && r2.link.tx == s.link.tx + [EnableCmd(s.params), FormatSmCmd(ms, mx, a), FormatSmCmd(ms, mx, b)]
  {
    SendOkAnswered(s.link, EnableCmd(s.params), 3, rest);
    var s1 := EnsureEnabled(s);
    SendOkAnswered(s1.link, FormatSmCmd(ms, mx, a), 2, rest);
    var r1 := SmCmdS(s, ms, mx, a);
    SendOkAnswered(r1.link, FormatSmCmd(ms, mx, b), 1, rest);
  }

  /** `motors_off` and `set_param` clear the latch, so the next move enables again. */
  lemma LatchCleared(s: MState, f: Field, v: int)
    requires Live(s)
    ensures !SetParamS(s, f, v).emSent
    ensures Live(MotorsOffS(s)) ==> !MotorsOffS(s).emSent
    ensures exists k :: 1 <= k <= 3 && MotorsOffS(s).link.tx == s.link.tx + Repeat(EM(0, 0), k)
  {
    SendOkShape(s.link, EM(0, 0), 0);
  }

  /** The enable command repeats the axis-1 mode; the axis-2 mode is never sent. */
  lemma EnableIgnoresM2Mode(p: Params, m2: int)
    ensures EnableCmd(p.(m2Mode := m2)) == EnableCmd(p) == EM(p.m1Mode, p.m1Mode)
    ensures Render(EnableCmd(DefaultParams.(m2Mode := 2))) == "EM,1,1\r"
  {
    assert Decimal(1) == "1";
  }

  // Laser.

  /** `set_laser(v)` writes "SP,0" for on and "SP,1" for off, and records v. */
  lemma SetLaserSends(s: MState, value: bool)
    requires Live(s)
    ensures var r := SetLaserS(s, value);
      && (Live(r) ==> r.laserOn == value)
      && (!Live(r) ==> r.laserOn == s.laserOn)
      && r.m1Pos == s.m1Pos && r.m2Pos == s.m2Pos && r.emSent == s.emSent && r.params == s.params
      && exists k :: 1 <= k <= 3 && r.link.tx == s.link.tx + Repeat(LaserCmd(value), k)
  {
    SendOkShape(s.link, LaserCmd(value), 0);
  }

  /** `toggle_laser` is `set_laser` of the opposite state. */
  lemma ToggleIsSetOpposite(s: MState)
    requires Live(s)
    ensures ToggleLaserS(s) == SetLaserS(s, !s.laserOn)
  {
  }

  // Position clamps.

  /** The move methods' common tail changes only the moved axis, and only when the link survived. */
  lemma MovedToFacts(s: MState, mx: int, delta: int, pos: int)
    requires Live(s) && RampHalts(s.params, delta) && (mx == 1 || mx == 2)
    ensures var r := MovedTo(s, mx, delta, pos);
      && (Live(r) ==> Pos(r, mx) == pos)
      && (!Live(r) ==> Pos(r, mx) == Pos(s, mx))
      && Pos(r, 3 - mx) == Pos(s, 3 - mx) && r.params == s.params && r.laserOn == s.laserOn
      && r.link == Ramp1S(s, mx, delta).link
  {
    SmAllOnlySends(s, s.params.accelDeltat, mx, RampFor(s.params, delta));
  }

  /** `move_in` never leaves the axis below its minimum, and touches nothing but that axis and the link. */
  lemma MoveInFloor(s: MState, mx: int, steps: int)
    requires Live(s) && RampHalts(s.params, InDelta(s, mx, steps)) && (mx == 1 || mx == 2)
    ensures var r := MoveInS(s, mx, steps);
      && (Live(r) ==> Pos(r, mx) >= MinPos(s.params, mx))
      && (Live(r) ==> Pos(r, mx) == if Pos(s, mx) - steps < MinPos(s.params, mx) then MinPos(s.params, mx) else Pos(s, mx) - steps)
      && Pos(r, 3 - mx) == Pos(s, 3 - mx) && r.params == s.params && r.laserOn == s.laserOn
  {
    var pos, lo := Pos(s, mx), MinPos(s.params, mx);
    var to := if pos - steps < lo then lo else pos - steps;
    assert MoveInS(s, mx, steps) == MovedTo(s, mx, to - pos, to);
    MovedToFacts(s, mx, to - pos, to);
  }

  /**
   * `move_out` tests `cur_pos - steps > max`: any non-negative step count
   * passes, so the position is advanced by the full amount even past the
   * maximum.
   */
  lemma MoveOutUnbounded(s: MState, mx: int, steps: int)
    requires Live(s) && RampHalts(s.params, OutDelta(s, mx, steps)) && (mx == 1 || mx == 2)
    ensures var r := MoveOutS(s, mx, steps);
      && (Live(r) && Pos(s, mx) - steps <= MaxPos(s.params, mx) ==> Pos(r, mx) == Pos(s, mx) + steps)
      && (Live(r) && steps >= 0 && Pos(s, mx) <= MaxPos(s.params, mx) < Pos(s, mx) + steps ==> Pos(r, mx) > MaxPos(s.params, mx))
      && Pos(r, 3 - mx) == Pos(s, 3 - mx) && r.params == s.params && r.laserOn == s.laserOn
  {
    var pos := Pos(s, mx);
    var st := if pos - steps > MaxPos(s.params, mx) then MaxPos(s.params, mx) - pos else steps;
    MovedToFacts(s, mx, st, pos + st);
  }

  /** Clamp lands in [lo, hi] when that range is non-empty, and leaves in-range values alone. */
  lemma ClampRange(v: int, lo: int, hi: int)
    ensures lo <= hi ==> lo <= Clamp(v, lo, hi) <= hi
    ensures lo <= v <= hi ==> Clamp(v, lo, hi) == v
    ensures hi < lo ==> Clamp(v, lo, hi) == lo
  {
  }

  /** `move_abs(v)` sets the position to v clamped and ramps by the difference. */
  lemma MoveAbsClamps(s: MState, mx: int, val: int)
    requires Live(s) && RampHalts(s.params, AbsDelta(s, mx, val)) && (mx == 1 || mx == 2)
    ensures var r := MoveAbsS(s, mx, val);
      var v := Clamp(val, MinPos(s.params, mx), MaxPos(s.params, mx));
      && (Live(r) ==> Pos(r, mx) == v)
      && (Live(r) && MinPos(s.params, mx) <= MaxPos(s.params, mx) ==> MinPos(s.params, mx) <= Pos(r, mx) <= MaxPos(s.params, mx))
      && r.link == Ramp1S(s, mx, v - Pos(s, mx)).link
      && Pos(r, 3 - mx) == Pos(s, 3 - mx) && r.params == s.params
  {
    var v := Clamp(val, MinPos(s.params, mx), MaxPos(s.params, mx));
    MovedToFacts(s, mx, v - Pos(s, mx), v);
    ClampRange(val, MinPos(s.params, mx), MaxPos(s.params, mx));
  }

  // ramp2.

  /** The SM commands a sequence of `sm2_cmd` calls writes: pairs that are both zero are skipped. */
  function Sm2Cmds(ms: int, a: seq<int>, b: seq<int>): (cs: seq<Cmd>)
    requires |a| == |b|
    ensures |cs| <= |a|
  {
    if a == [] then []
    else (if a[0] == 0 && b[0] == 0 then [] else [SM(ms, a[0], b[0])]) + Sm2Cmds(ms, a[1..], b[1..])
  }

  function SumS1(cs: seq<Cmd>): int
  {
    if cs == [] then 0 else (if cs[0].SM? then cs[0].s1 else 0) + SumS1(cs[1..])
  }

  function SumS2(cs: seq<Cmd>): int
  {
    if cs == [] then 0 else (if cs[0].SM? then cs[0].s2 else 0) + SumS2(cs[1..])
  }

  lemma {:induction false} SumS1Append(x: seq<Cmd>, y: seq<Cmd>)
    ensures SumS1(x + y) == SumS1(x) + SumS1(y) && SumS2(x + y) == SumS2(x) + SumS2(y)
  {
    if x == [] {
      assert x + y == y;
    } else {
      assert (x + y)[0] == x[0] && (x + y)[1..] == x[1..] + y;
      SumS1Append(x[1..], y);
    }
  }

  /** The per-axis deltas of the written SM commands add up to the ramps' totals. */
  lemma {:induction false} Sm2CmdsSums(ms: int, a: seq<int>, b: seq<int>)
    requires |a| == |b|
    ensures SumS1(Sm2Cmds(ms, a, b)) == Sum(a) && SumS2(Sm2Cmds(ms, a, b)) == Sum(b)
    ensures |Sm2Cmds(ms, a, b)| <= |a|
    ensures forall k :: 0 <= k < |Sm2Cmds(ms, a, b)| ==>
      var c := Sm2Cmds(ms, a, b)[k]; c.SM? && c.ms == ms && !(c.s1 == 0 && c.s2 == 0)
  {
    if a != [] {
      Sm2CmdsSums(ms, a[1..], b[1..]);
      var head: seq<Cmd> := if a[0] == 0 && b[0] == 0 then [] else [SM(ms, a[0], b[0])];
      SumS1Append(head, Sm2Cmds(ms, a[1..], b[1..]));
    }
  }

  lemma {:induction false} SumZeros(n: nat)
    ensures Sum(seq(n, _ => 0)) == 0
  {
    if n > 0 {
      assert seq(n, _ => 0)[1..] == seq(n - 1, _ => 0);
      SumZeros(n - 1);
    }
  }

  lemma PadSum(a: seq<int>, n: nat)
    ensures Sum(Pad(a, n)) == Sum(a)
  {
    if |a| < n {
      SumAppend(a, seq(n - |a|, _ => 0));
      SumZeros(n - |a|);
    }
  }

  /**
   * The state after writing `cmds` with the latch already set to a board
   * that answered each with "OK\r\n".
   */
  function Answered(s: MState, cmds: seq<Cmd>, n: nat, rest: seq<Rx>): MState
    requires |cmds| <= n
  {
    s.(link := Link(Oks(n - |cmds|) + rest, s.link.tx + cmds, Running))
  }

  /** With the latch set and an OK reply waiting, one sm2_cmd writes its move, if any. */
  lemma Sm2CmdAnswered(s: MState, ms: int, x: int, y: int, n: nat, rest: seq<Rx>)
    requires Live(s) && s.emSent && s.link.rx == Oks(n) + rest && n >= 1
    ensures Sm2CmdS(s, ms, x, y) == Answered(s, Sm2Cmds(ms, [x], [y]), n, rest)
  {
    var cmds := Sm2Cmds(ms, [x], [y]);
    assert cmds == if x == 0 && y == 0 then [] else [SM(ms, x, y)];
    if x == 0 && y == 0 {
      assert Oks(n - 0) + rest == s.link.rx;
    } else {
      SendOkAnswered(s.link, SM(ms, x, y), n, rest);
    }
  }

  lemma AnsweredThen(s: MState, head: seq<Cmd>, tail: seq<Cmd>, n: nat, rest: seq<Rx>)
    requires |head| + |tail| <= n
    ensures Answered(Answered(s, head, n, rest), tail, n - |head|, rest) == Answered(s, head + tail, n, rest)
  {
    assert s.link.tx + head + tail == s.link.tx + (head + tail);
  }

  /** One turn of the sm2_cmd loop with an OK reply waiting. */
  lemma Sm2AllStep(s: MState, ms: int, a: seq<int>, b: seq<int>, n: nat, rest: seq<Rx>)
    requires Live(s) && s.emSent && |a| == |b| && a != [] && s.link.rx == Oks(n) + rest && n >= |a|
    ensures var head := Sm2Cmds(ms, [a[0]], [b[0]]);
      && |head| <= 1
      && Sm2All(s, ms, a, b) == Sm2All(Answered(s, head, n, rest), ms, a[1..], b[1..])
  {
    Sm2CmdAnswered(s, ms, a[0], b[0], n, rest);
  }

  lemma Sm2CmdsCons(ms: int, a: seq<int>, b: seq<int>)
    requires |a| == |b| && a != []
    ensures Sm2Cmds(ms, a, b) == Sm2Cmds(ms, [a[0]], [b[0]]) + Sm2Cmds(ms, a[1..], b[1..])
  {
    assert Sm2Cmds(ms, [a[0]], [b[0]]) == if a[0] == 0 && b[0] == 0 then [] else [SM(ms, a[0], b[0])];
  }

  /** With the latch set and enough OK replies, the sm2_cmd loop writes exactly Sm2Cmds. */
  lemma {:induction false} Sm2AllAnswered(s: MState, ms: int, a: seq<int>, b: seq<int>, n: nat, rest: seq<Rx>)
    requires Live(s) && s.emSent && |a| == |b| && s.link.rx == Oks(n) + rest && n >= |a|
    ensures Sm2All(s, ms, a, b) == Answered(s, Sm2Cmds(ms, a, b), n, rest)
    decreases |a|
  {
    if a == [] {
      assert Oks(n - 0) + rest == s.link.rx;
    } else {
      var head := Sm2Cmds(ms, [a[0]], [b[0]]);
      var tail := Sm2Cmds(ms, a[1..], b[1..]);
      Sm2AllStep(s, ms, a, b, n, rest);
      Sm2CmdsCons(ms, a, b);
      Sm2AllAnswered(Answered(s, head, n, rest), ms, a[1..], b[1..], n - |head|, rest);
      AnsweredThen(s, head, tail, n, rest);
    }
  }

  /**
   * `ramp2` with ms == 0, the motors enabled and the board answering OK: the written moves
   * are the two ramps, zero-padded to equal length, index by index, with
   * pairs of zeros skipped; their per-axis totals are m1 and m2.
   */
  lemma Ramp2Delivers(s: MState, m1: int, m2: int, n: nat, rest: seq<Rx>)
    requires Live(s) && s.emSent && RampHalts(s.params, m1) && RampHalts(s.params, m2) && s.link.rx == Oks(n) + rest
    requires n >= |RampFor(s.params, m1)| + |RampFor(s.params, m2)|
    ensures var r := Ramp2S(s, 0, m1, m2);
      exists cmds: seq<Cmd> ::
      && Live(r)
      && r.link.tx == s.link.tx + cmds
      && SumS1(cmds) == m1 && SumS2(cmds) == m2
      && |cmds| <= Max(|RampFor(s.params, m1)|, |RampFor(s.params, m2)|)
      && forall k :: 0 <= k < |cmds| ==>
           cmds[k].SM? && cmds[k].ms == s.params.accelDeltat && !(cmds[k].s1 == 0 && cmds[k].s2 == 0)
  {
    var r1 := RampFor(s.params, m1);
    var r2 := RampFor(s.params, m2);
    var len := Max(|r1|, |r2|);
    var a, b := Pad(r1, len), Pad(r2, len);
    Sm2AllAnswered(s, s.params.accelDeltat, a, b, n, rest);
    Sm2CmdsSums(s.params.accelDeltat, a, b);
    PadSum(r1, len);
    PadSum(r2, len);
    Ramp.RampTotal(m1, RampParamsOf(s.params));
    Ramp.RampTotal(m2, RampParamsOf(s.params));
    var cmds := Sm2Cmds(s.params.accelDeltat, a, b);
    assert Live(Ramp2S(s, 0, m1, m2));
  }

  /** A single-axis `sm_cmd` is the `sm2_cmd` with 0 on the other axis. */
  lemma {:induction false} SmAllAsSm2All(s: MState, ms: int, mx: int, r: seq<int>)
    requires Live(s)
    ensures SmAll(s, ms, mx, r) ==
      if mx == 1 then Sm2All(s, ms, r, seq(|r|, _ => 0)) else Sm2All(s, ms, seq(|r|, _ => 0), r)
    decreases |r|
  {
    if r != [] {
      var z := seq(|r|, _ => 0);
      assert z[0] == 0 && z[1..] == seq(|r| - 1, _ => 0);
      var s1 := SmCmdS(s, ms, mx, r[0]);
      assert s1 == if mx == 1 then Sm2CmdS(s, ms, r[0], 0) else Sm2CmdS(s, ms, 0, r[0]);
      if Live(s1) {
        SmAllAsSm2All(s1, ms, mx, r[1..]);
      }
    }
  }

  /** Moves written from a ramp of zeros on one axis leave that axis at 0. */
  lemma {:induction false} Sm2CmdsOneAxis(ms: int, a: seq<int>, b: seq<int>)
    requires |a| == |b|
    ensures (forall i :: 0 <= i < |b| ==> b[i] == 0) ==>
      forall k :: 0 <= k < |Sm2Cmds(ms, a, b)| ==> Sm2Cmds(ms, a, b)[k].SM? && Sm2Cmds(ms, a, b)[k].s2 == 0
    ensures (forall i :: 0 <= i < |a| ==> a[i] == 0) ==>
      forall k :: 0 <= k < |Sm2Cmds(ms, a, b)| ==> Sm2Cmds(ms, a, b)[k].SM? && Sm2Cmds(ms, a, b)[k].s1 == 0
  {
    if a != [] {
      Sm2CmdsOneAxis(ms, a[1..], b[1..]);
      Sm2CmdsCons(ms, a, b);
      var head := Sm2Cmds(ms, [a[0]], [b[0]]);
      var tail := Sm2Cmds(ms, a[1..], b[1..]);
      assert head == if a[0] == 0 && b[0] == 0 then [] else [SM(ms, a[0], b[0])];
      forall k | |head| <= k < |head| + |tail|
        ensures Sm2Cmds(ms, a, b)[k] == tail[k - |head|]
      {
      }
    }
  }

  /**
   * `r` is `s` after writing the moves `cmds` and nothing else: each a
   * `format_sm_cmd` command of the interval `s.params.accelDeltat`, moving
   * axis mx by a nonzero amount and the other axis by 0, at most one per
   * ramp interval, and together moving axis mx by `steps`.
   */
  ghost predicate Delivers(s: MState, r: MState, mx: int, steps: int, cmds: seq<Cmd>)
  {
    && RampHalts(s.params, steps) && Live(r)
    && r.link.tx == s.link.tx + cmds
    && SumS1(cmds) == (if mx == 1 then steps else 0) && SumS2(cmds) == (if mx == 1 then 0 else steps)
    && |cmds| <= |RampFor(s.params, steps)|
    && forall k :: 0 <= k < |cmds| ==>
         && cmds[k].SM? && cmds[k].ms == s.params.accelDeltat
         && (mx == 1 ==> cmds[k] == FormatSmCmd(s.params.accelDeltat, 1, cmds[k].s1) && cmds[k].s1 != 0)
         && (mx != 1 ==> cmds[k] == FormatSmCmd(s.params.accelDeltat, mx, cmds[k].s2) && cmds[k].s2 != 0)
  }

  /**
   * `ramp1` with the motors enabled and the board answering OK: the written
   * moves are `format_sm_cmd` commands of the ramp's interval, each moving
   * axis mx by a nonzero amount and the other axis by 0, and the moves on
   * axis mx add up to the requested step count.
   */
  lemma Ramp1Delivers(s: MState, mx: int, steps: int, n: nat, rest: seq<Rx>)
    requires Live(s) && s.emSent && RampHalts(s.params, steps) && s.link.rx == Oks(n) + rest
    requires n >= |RampFor(s.params, steps)|
    ensures exists cmds: seq<Cmd> :: Delivers(s, Ramp1S(s, mx, steps), mx, steps, cmds)
  {
    var ms := s.params.accelDeltat;
    var r := RampFor(s.params, steps);
    var z := seq(|r|, _ => 0);
    SmAllAsSm2All(s, ms, mx, r);
    SumZeros(|r|);
    Ramp.RampTotal(steps, RampParamsOf(s.params));
    var cmds;
    if mx == 1 {
      Sm2AllAnswered(s, ms, r, z, n, rest);
      Sm2CmdsSums(ms, r, z);
      Sm2CmdsOneAxis(ms, r, z);
      cmds := Sm2Cmds(ms, r, z);
    } else {
      Sm2AllAnswered(s, ms, z, r, n, rest);
      Sm2CmdsSums(ms, z, r);
      Sm2CmdsOneAxis(ms, z, r);
      cmds := Sm2Cmds(ms, z, r);
    }
    forall k | 0 <= k < |cmds| {
      FormatSmCmdOf(cmds[k], mx);
    }
    assert Delivers(s, Ramp1S(s, mx, steps), mx, steps, cmds);
  }

  /**
   * What get_backlash reads after a set_param: no backlash for a positive
   * move; for any other move the value just stored under that axis' key,
   * and whatever was there before when another key was set.
   */
  lemma BacklashFollowsSetParam(s: MState, f: Field, v: int, mx: int, steps: int)
    ensures var bl := GetBacklash(SetParamS(s, f, v).params, mx, steps);
      && (steps > 0 ==> bl == 0)
      && (steps <= 0 && f == (if mx == 1 then M1Backlash else M2Backlash) ==> bl == v)
      && (f != M1Backlash && f != M2Backlash ==> bl == GetBacklash(s.params, mx, steps))
  {
  }

  /** `ramp2` with ms > 0 is a single `sm2_cmd`: one SM with the given duration, none for 0,0. */
  lemma Ramp2Direct(s: MState, ms: int, m1: int, m2: int)
    requires Live(s) && ms > 0
    ensures m1 == 0 && m2 == 0 ==> Ramp2S(s, ms, m1, m2) == s
    ensures !(m1 == 0 && m2 == 0) && s.emSent ==>
      exists k :: 1 <= k <= 3 && Ramp2S(s, ms, m1, m2).link.tx == s.link.tx + Repeat(SM(ms, m1, m2), k)
  {
    if !(m1 == 0 && m2 == 0) && s.emSent {
      SendOkShape(s.link, SM(ms, m1, m2), 0);
    }
  }

  // get_analog.

  /** A junk line: one character that starts no tag, then a newline. */
  function Junk(x: char): seq<Rx>
  {
    [Byte(x), Byte('\n')]
  }

  /** A field whose tag is wrong still yields the four characters after the resync. */
  lemma FieldAfterJunk(tx: seq<Cmd>, tag: string, x: char, v: string, rest: seq<Rx>)
    requires tag != [] && x != tag[0] && x != '\n' && |v| == 4
    ensures Field4(Link(Junk(x) + AsBytes(v) + rest, tx, Running), tag) == (Link(rest, tx, Running), v)
  {
    var rx := Junk(x) + AsBytes(v) + rest;
    assert rx[0] == Byte(x) && rx[1..][0] == Byte('\n');
    assert rx[1..][1..] == AsBytes(v) + rest;
    assert Discard(rx[1..][1..], '\n') == Reply(false, AsBytes(v) + rest, Running);
    assert Discard(rx[1..], x) == Discard(rx[1..][1..], '\n');
    assert Check(rx, tag) == Reply(false, AsBytes(v) + rest, Running);
    assert (AsBytes(v) + rest)[..|v|] == AsBytes(v);
    ReadCharsTakes(AsBytes(v) + rest, v);
    assert (AsBytes(v) + rest)[|v|..] == rest;
  }

  /**
   * `get_analog` ignores what chk_reply says: a reply whose every tag is
   * replaced by a junk line still yields the three readings and leaves
   * the link running.
   */
  lemma AnalogIgnoresTags(tx: seq<Cmd>, x: char, v0: string, v1: string, v2: string, v3: string, v4: string, rest: seq<Rx>)
    requires x !in "A,\r\n"
    requires |v0| == |v1| == |v2| == |v3| == 4 && |v4| == 8
    ensures var rx := Junk(x) + AsBytes(v0) + (Junk(x) + AsBytes(v1) + (Junk(x) + AsBytes(v2)
                    + (Junk(x) + AsBytes(v3) + (AsBytes(v4) + (Junk(x) + rest)))));
      AnalogReply(Link(rx, tx, Running)) == (Link(rest, tx, Running), v1, v2, v3)
  {
    var r5 := AsBytes(v4) + (Junk(x) + rest);
    var r4 := Junk(x) + AsBytes(v3) + r5;
    var r3 := Junk(x) + AsBytes(v2) + r4;
    var r2 := Junk(x) + AsBytes(v1) + r3;
    FieldAfterJunk(tx, "A,00:", x, v0, r2);
    FieldAfterJunk(tx, ",01:", x, v1, r3);
    FieldAfterJunk(tx, ",02:", x, v2, r4);
    FieldAfterJunk(tx, ",03:", x, v3, r5);
    LastFields(tx, x, v4, rest);
  }

  /** The tail of the analog reply: eight characters read blind, then the final check. */
  lemma LastFields(tx: seq<Cmd>, x: char, v4: string, rest: seq<Rx>)
    requires x != '\r' && x != '\n' && |v4| == 8
    ensures var (l, _) := Get(Link(AsBytes(v4) + (Junk(x) + rest), tx, Running), 8);
      Chk(l, "\r\n") == Link(rest, tx, Running)
  {
    var r5 := AsBytes(v4) + (Junk(x) + rest);
    assert r5[..|v4|] == AsBytes(v4);
    ReadCharsTakes(r5, v4);
    assert r5[|v4|..] == Junk(x) + rest;
    var rx := Junk(x) + rest;
    assert rx[0] == Byte(x) && rx[1..] == [Byte('\n')] + rest;
    assert rx[1..][1..] == rest;
    assert Discard(rx[1..], x) == Discard(rest, '\n');
  }

  // ---------------------------------------------------------------------
  // The driver object.

  class Motor {
    var m1Pos: int
    var m2Pos: int
    var emSent: bool
    var laserOn: bool
    var params: Params
    var link: Link

    function State(): MState
      reads this
    {
      MState(m1Pos, m2Pos, emSent, laserOn, params, link)
    }

    /** A freshly constructed driver; `rx` is everything the board will send. */
    constructor (rx: seq<Rx>)
      ensures State() == MState(0, 0, false, false, DefaultParams, Link(rx, [], Running))
    {
      m1Pos, m2Pos := 0, 0;
      emSent, laserOn := false, false;
      params := DefaultParams;
      link := Link(rx, [], Running);
    }

    method Send(c: Cmd)
      modifies this
      ensures State() == old(State()).(link := old(link).(tx := old(link.tx) + [c]))
    {
      link := link.(tx := link.tx + [c]);
    }

    method ChkReply(s: string) returns (ok: bool)
      requires Live(State())
      modifies this
      ensures (link, ok) == CheckReply(old(link), s)
      ensures State() == old(State()).(link := link)
    {
      var i := 0;
      while i < |s|
        invariant 0 <= i <= |s|
        invariant link.status == Running && link.tx == old(link.tx)
        invariant Check(link.rx, s[i..]) == Check(old(link.rx), s)
        invariant State() == old(State()).(link := link)
      {
        assert s[i..][0] == s[i] && s[i..][1..] == s[i + 1..];
        if link.rx == [] {
          link := link.(status := Hung);
          return false;
        }
        var ch := link.rx[0];
        link := link.(rx := link.rx[1..]);
        if ch.Fault? {
          link := link.(status := Raised);
          return false;
        }
        if ch.c != s[i] {
          var c := ch.c;
          while c != '\n' && |link.rx| > 0
            invariant link.status == Running && link.tx == old(link.tx)
            invariant Discard(link.rx, c) == Check(old(link.rx), s)
            invariant State() == old(State()).(link := link)
            decreases |link.rx|
          {
            var next := link.rx[0];
            link := link.(rx := link.rx[1..]);
            if next.Fault? {
              link := link.(status := Raised);
              return false;
            }
            c := next.c;
          }
          return false;
        }
        i := i + 1;
      }
      return true;
    }

    method GetChars(n: nat) returns (v: string)
      requires Live(State())
      modifies this
      ensures (link, v) == Get(old(link), n)
      ensures State() == old(State()).(link := link)
    {
      v := "";
      var i := 0;
      assert v + ReadChars(link.rx, n).0 == ReadChars(link.rx, n).0;
      while i < n
        invariant 0 <= i <= n && link.status == Running && link.tx == old(link.tx)
        invariant var r := ReadChars(link.rx, n - i); ReadChars(old(link.rx), n) == (v + r.0, r.1, r.2)
        invariant State() == old(State()).(link := link)
      {
        assert v + "" == v;
        if link.rx == [] {
          link := link.(status := Hung);
          return;
        }
        var ch := link.rx[0];
        link := link.(rx := link.rx[1..]);
        if ch.Fault? {
          link := link.(status := Raised);
          return;
        }
        ghost var r := ReadChars(link.rx, n - i - 1);
        assert v + ([ch.c] + r.0) == (v + [ch.c]) + r.0;
        v := v + [ch.c];
        i := i + 1;
      }
    }

    method SendOk(c: Cmd)
      requires Live(State())
      modifies this
      ensures State() == SendOkS(old(State()), c)
    {
      var retry := 0;
      while retry < 3
        invariant 0 <= retry <= 3 && link.status == Running
        invariant SendOkFrom(link, c, retry) == SendOkFrom(old(link), c, 0)
        invariant State() == old(State()).(link := link)
        decreases 3 - retry
      {
        Send(c);
        var ok := ChkReply(OkReply);
        if ok || link.status != Running {
          return;
        }
        retry := retry + 1;
      }
    }

    method EnableIfNeeded()
      requires Live(State())
      modifies this
      ensures State() == EnsureEnabled(old(State()))
    {
      if !emSent {
        SendOk(EnableCmd(params));
        if link.status != Running {
          return;
        }
        emSent := true;
      }
    }

    method SmCmd(ms: int, mx: int, steps: int)
      requires Live(State())
      modifies this
      ensures State() == SmCmdS(old(State()), ms, mx, steps)
    {
      if steps == 0 {
        return;
      }
      EnableIfNeeded();
      if link.status != Running {
        return;
      }
      SendOk(FormatSmCmd(ms, mx, steps));
    }

    method Sm2Cmd(ms: int, m1: int, m2: int)
      requires Live(State())
      modifies this
      ensures State() == Sm2CmdS(old(State()), ms, m1, m2)
    {
      if m1 == 0 && m2 == 0 {
        return;
      }
      EnableIfNeeded();
      if link.status != Running {
        return;
      }
      SendOk(SM(ms, m1, m2));
    }

    method MotorsOff()
      requires Live(State())
      modifies this
      ensures State() == MotorsOffS(old(State()))
    {
      SendOk(EM(0, 0));
      if link.status != Running {
        return;
      }
      emSent := false;
    }

    method ReadField(tag: string) returns (v: string)
      requires Live(State())
      modifies this
      ensures (link, v) == Field4(old(link), tag)
      ensures State() == old(State()).(link := link)
    {
      var _ := ChkReply(tag);
      if link.status != Running {
        return "";
      }
      v := GetChars(4);
    }

    method GetAnalog() returns (v1: string, v2: string, v3: string)
      requires Live(State())
      modifies this
      ensures (State(), v1, v2, v3) == GetAnalogS(old(State()))
    {
      v1, v2, v3 := "", "", "";
      SendOk(AC(1));
      if link.status != Running {
        return;
      }
      SendOk(AC(2));
      if link.status != Running {
        return;
      }
      SendOk(AC(3));
      if link.status != Running {
        return;
      }
      Send(AQuery);
      ghost var l0 := link;
      ghost var s0 := State();
      var _ := ReadField("A,00:");
      if link.status == Running {
        v1 := ReadField(",01:");
      }
      if link.status == Running {
        v2 := ReadField(",02:");
      }
      if link.status == Running {
        v3 := ReadField(",03:");
      }
      if link.status == Running {
        var _ := GetChars(8);
      }
      if link.status == Running {
        var _ := ChkReply("\r\n");
      }
      if link.status != Running {
        v1, v2, v3 := "", "", "";
      }
      assert (link, v1, v2, v3) == AnalogReply(l0);
    }

    method ResetCounts()
      modifies this
      ensures State() == old(State()).(m1Pos := 0, m2Pos := 0)
    {
      m1Pos, m2Pos := 0, 0;
    }

    method Ramp1(mx: int, steps: int)
      requires Live(State()) && RampHalts(params, steps)
      modifies this
      ensures State() == Ramp1S(old(State()), mx, steps)
    {
      var msdt := params.accelDeltat;
      var ramp := Ramp.MakeRamp(steps, RampParamsOf(params));
      var i := 0;
      while i < |ramp|
        invariant 0 <= i <= |ramp|
        invariant Live(State())
        invariant SmAll(State(), msdt, mx, ramp[i..]) == Ramp1S(old(State()), mx, steps)
      {
        assert ramp[i..][0] == ramp[i] && ramp[i..][1..] == ramp[i + 1..];
        SmCmd(msdt, mx, ramp[i]);
        if link.status != Running {
          return;
        }
        i := i + 1;
      }
    }

    method Ramp2(ms: int, m1: int, m2: int)
      requires Live(State()) && (ms > 0 || (RampHalts(params, m1) && RampHalts(params, m2)))
      modifies this
      ensures State() == Ramp2S(old(State()), ms, m1, m2)
    {
      if ms > 0 {
        Sm2Cmd(ms, m1, m2);
        return;
      }
      var msdt := params.accelDeltat;
      var r1 := Ramp.MakeRamp(m1, RampParamsOf(params));
      var r2 := Ramp.MakeRamp(m2, RampParamsOf(params));
      var l1, l2 := |r1|, |r2|;
      ghost var n := Max(l1, l2);
      ghost var a, b := Pad(r1, n), Pad(r2, n);
      if l1 > l2 {
        r2 := r2 + seq(l1 - l2, _ => 0);
      } else if l2 > l1 {
        r1 := r1 + seq(l2 - l1, _ => 0);
      }
      assert r1 == a && r2 == b;
      Sm2Each(msdt, r1, r2);
    }

    /** The `for` loop of ramp2: one sm2_cmd per index. */
    method Sm2Each(ms: int, r1: seq<int>, r2: seq<int>)
      requires Live(State()) && |r1| == |r2|
      modifies this
      ensures State() == Sm2All(old(State()), ms, r1, r2)
    {
      var i := 0;
      while i < |r1|
        invariant 0 <= i <= |r1|
        invariant Live(State())
        invariant Sm2All(State(), ms, r1[i..], r2[i..]) == Sm2All(old(State()), ms, r1, r2)
      {
        assert r1[i..][0] == r1[i] && r1[i..][1..] == r1[i + 1..];
        assert r2[i..][0] == r2[i] && r2[i..][1..] == r2[i + 1..];
        Sm2Cmd(ms, r1[i], r2[i]);
        if link.status != Running {
          return;
        }
        i := i + 1;
      }
    }

    /** The common tail of the move methods: ramp by `delta`, then record the new position. */
    method RampTo(mx: int, delta: int, pos: int)
      requires Live(State()) && RampHalts(params, delta)
      modifies this
      ensures State() == MovedTo(old(State()), mx, delta, pos)
    {
      Ramp1(mx, delta);
      if link.status != Running {
        return;
      }
      if mx == 1 {
        m1Pos := pos;
      } else {
        m2Pos := pos;
      }
    }

    method MoveIn(mx: int, steps: int)
      requires Live(State()) && RampHalts(params, InDelta(State(), mx, steps))
      modifies this
      ensures State() == MoveInS(old(State()), mx, steps)
    {
      var st := steps;
      var pos := if mx == 1 then m1Pos else m2Pos;
      var lo := if mx == 1 then params.m1Min else params.m2Min;
      if pos - st < lo {
        st := pos - lo;
      }
      RampTo(mx, -st, pos - st);
    }

    method MoveOut(mx: int, steps: int)
      requires Live(State()) && RampHalts(params, OutDelta(State(), mx, steps))
      modifies this
      ensures State() == MoveOutS(old(State()), mx, steps)
    {
      var st := steps;
      var pos := if mx == 1 then m1Pos else m2Pos;
      var hi := if mx == 1 then params.m1Max else params.m2Max;
      if pos - st > hi {
        st := hi - pos;
      }
      RampTo(mx, st, pos + st);
    }

    method MoveAbs(mx: int, val: int)
      requires Live(State()) && RampHalts(params, AbsDelta(State(), mx, val))
      modifies this
      ensures State() == MoveAbsS(old(State()), mx, val)
    {
      var v := val;
      var hi := if mx == 1 then params.m1Max else params.m2Max;
      var lo := if mx == 1 then params.m1Min else params.m2Min;
      if v > hi {
        v := hi;
      }
      if v < lo {
        v := lo;
      }
      ghost var s0 := State();
      assert v == Clamp(val, MinPos(s0.params, mx), MaxPos(s0.params, mx));
      RampTo(mx, v - (if mx == 1 then m1Pos else m2Pos), v);
    }

    method ToggleLaser()
      requires Live(State())
      modifies this
      ensures State() == ToggleLaserS(old(State()))
    {
      if laserOn {
        SendOk(SP(1));
        if link.status != Running {
          return;
        }
        laserOn := false;
      } else {
        SendOk(SP(0));
        if link.status != Running {
          return;
        }
        laserOn := true;
      }
    }

    method SetLaser(value: bool)
      requires Live(State())
      modifies this
      ensures State() == SetLaserS(old(State()), value)
    {
      if value {
        SendOk(SP(0));
        if link.status != Running {
          return;
        }
        laserOn := true;
      } else {
        SendOk(SP(1));
        if link.status != Running {
          return;
        }
        laserOn := false;
      }
    }

    method SetParam(f: Field, v: int)
      modifies this
      ensures State() == SetParamS(old(State()), f, v)
    {
      params := WithParam(params, f, v);
      emSent := false;
    }
  }
}
