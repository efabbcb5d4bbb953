/**
 * The mailbox consumer: reads the 14-byte command record the vision
 * process leaves in shared memory, drives the motor board, and polls the
 * two jog switches and the power button.
 *
 * The shared memory is an array of bytes.  The motor is abstract: every
 * call made on it is appended, in order, to the log `log`; the analog
 * readings it would return are the inputs of an iteration.
 */
module Clicker {
  import opened Common

  /** The value the producer writes into the first four bytes. */
  const Magic: int := 0x1234_4321

  /** Offset of the ok byte, the only byte of the `ok` field the consumer reads or writes. */
  const OkByte: int := 12

  /** Size in bytes of the shared record. */
  const RecordSize: int := 14

  // ---------------------------------------------------------------------
  // Little-endian fields.

  function Pow256(k: nat): nat
  {
    if k == 0 then 1 else 256 * Pow256(k - 1)
  }

  /** The unsigned value of bytes stored least significant first. */
  function LittleEndian(bs: seq<byte>): nat
  {
    if bs == [] then 0 else bs[0] + 256 * LittleEndian(bs[1..])
  }

  lemma {:induction false} LittleEndianBound(bs: seq<byte>)
    ensures LittleEndian(bs) < Pow256(|bs|)
  {
    if bs != [] {
      LittleEndianBound(bs[1..]);
    }
  }

  /** Appending a byte adds it at the next place value. */
  lemma {:induction false} LittleEndianSnoc(bs: seq<byte>, b: byte)
    ensures LittleEndian(bs + [b]) == LittleEndian(bs) + b * Pow256(|bs|)
  {
    if bs == [] {
      assert LittleEndian([b]) == b + 256 * LittleEndian([]);
    } else {
      assert (bs + [b])[1..] == bs[1..] + [b];
      LittleEndianSnoc(bs[1..], b);
      var x, p := LittleEndian(bs[1..]), Pow256(|bs| - 1);
      assert 256 * (x + b * p) == 256 * x + b * (256 * p);
    }
  }

  /** The decoded record, with the steps' signs recovered from the flags. */
  datatype Coms = Coms(magic: int, ms: int, m1Steps: int, m2Steps: int, flags: int, ok: int)

  const M1Neg: nat := 0x08
  const M2Neg: nat := 0x10

  /** What unpack_coms returns for the current bytes. */
  function DecodeComs(bs: seq<byte>): Coms
    requires |bs| >= RecordSize
  {
    var flags := LittleEndian(bs[10..12]);
    var m1: int := LittleEndian(bs[6..8]);
    var m2: int := LittleEndian(bs[8..10]);
    Coms(LittleEndian(bs[0..4]), LittleEndian(bs[4..6]),
         if HasFlag(flags, M1Neg) then -m1 else m1,
         if HasFlag(flags, M2Neg) then -m2 else m2,
         flags, LittleEndian(bs[12..14]))
  }

  /**
   * The record layout: four bytes of magic, then five two-byte fields; the
   * step counts are magnitudes negated by their flag bits.
   */
  lemma DecodeComsFields(bs: seq<byte>)
    requires |bs| >= RecordSize
    ensures var c := DecodeComs(bs);
      && 0 <= c.magic < 0x1_0000_0000 && 0 <= c.ms < 0x1_0000 && 0 <= c.flags < 0x1_0000 && 0 <= c.ok < 0x1_0000
      && c.m1Steps == (if HasFlag(c.flags, M1Neg) then -1 else 1) * (bs[6] as int + 256 * bs[7] as int)
      && c.m2Steps == (if HasFlag(c.flags, M2Neg) then -1 else 1) * (bs[8] as int + 256 * bs[9] as int)
      && c.flags == bs[10] as int + 256 * bs[11] as int
      && c.ok == bs[12] as int + 256 * bs[13] as int
  {
    LittleEndianBound(bs[0..4]);
    LittleEndianBound(bs[4..6]);
    LittleEndianBound(bs[10..12]);
    LittleEndianBound(bs[12..14]);
    LittleEndianPair(bs[6..8]);
    LittleEndianPair(bs[8..10]);
    LittleEndianPair(bs[10..12]);
    LittleEndianPair(bs[12..14]);
  }

  lemma LittleEndianPair(x: seq<byte>)
    requires |x| == 2
    ensures LittleEndian(x) == x[0] as int + 256 * x[1] as int
  {
    assert LittleEndian(x) == x[0] as int + 256 * LittleEndian(x[1..]);
    assert LittleEndian(x[1..]) == x[1] as int + 256 * LittleEndian(x[1..][1..]);
    assert x[1..][1..] == [];
  }

  // ---------------------------------------------------------------------
  // Switch and button classification of a 10-bit analog reading.

  /** Python 2 integer division: a third of the 10-bit range. */
  const Threshold: int := 1024 / 3

  predicate SwitchUp(sw: int)
  {
    sw < Threshold
  }

  predicate SwitchDown(sw: int)
  {
    if sw > Threshold * 2 then false
    else sw > Threshold
  }

  /** The button is read exactly like a switch pulled to ground. */
  predicate ButtonPressed(sw: int)
  {
    sw < Threshold
  }

  /**
   * The three bands of a switch reading: up below 341, down in 342..682,
   * neither at exactly 341 or above 682; up and down never both hold.
   */
  lemma SwitchBands(sw: int)
    ensures SwitchUp(sw) <==> sw < 341
    ensures SwitchDown(sw) <==> 341 < sw <= 682
    ensures !(SwitchUp(sw) && SwitchDown(sw))
    ensures !SwitchUp(sw) && !SwitchDown(sw) <==> sw == 341 || sw > 682
    ensures ButtonPressed(sw) == SwitchUp(sw)
  {
  }

  // ---------------------------------------------------------------------
  // The abstract motor.

  /** A call the consumer makes on the motor object, or on the system. */
  datatype Act =
    | SetLaser(on: bool)
    | MotorsOff
    | Ramp2(ms: int, m1: int, m2: int)
    | MoveOut(axis: int, steps: int)
    | MoveIn(axis: int, steps: int)
    | GetAnalog
    | Sleep(millis: nat)
    | System(command: string)

  const SwitchSleep: nat := 75
  const ButtonSleep: nat := 3000
  const ShutdownCommand: string := "/sbin/shutdown -h now"
  const RestartCommand: string := "/etc/init.d/ants restart"

  /** Everything one iteration can observe or change. */
  datatype CState = CState(bytes: seq<byte>, laserOn: bool, log: seq<Act>)

  /** The LASER_ON bit: switch on only if not already on; switch off unconditionally. */
  function LaserActs(c: Coms, laserOn: bool): (seq<Act>, bool)
  {
    if HasFlag(c.flags, 0x01) then (if !laserOn then ([SetLaser(true)], true) else ([], laserOn))
    else ([SetLaser(false)], false)
  }

  /** The MOTORS_ON bit, then the SHUTDOWN bit (laser and motors off, leave the loop), then the move. */
  function RestActs(c: Coms): seq<Act>
  {
    (if !HasFlag(c.flags, 0x02) then [MotorsOff] else [])
    + (if HasFlag(c.flags, 0x04) then [SetLaser(false), MotorsOff] else [])
    + (if c.m1Steps != 0 || c.m2Steps != 0 then [Ramp2(c.ms, c.m1Steps, c.m2Steps)] else [])
  }

  /** The calls made for one command record, the new laser latch and whether to keep running. */
  function CommandActs(c: Coms, laserOn: bool): (seq<Act>, bool, bool)
  {
    var (a1, on1) := LaserActs(c, laserOn);
    (a1 + RestActs(c), if HasFlag(c.flags, 0x04) then false else on1, !HasFlag(c.flags, 0x04))
  }

  /** The shared-memory half of an iteration: act on a record only when the ok byte is 1. */
  function CommandS(s: CState): (CState, bool)
    requires |s.bytes| >= RecordSize
  {
    if s.bytes[OkByte] != 1 then (s, true)
    else
      var (acts, on, running) := CommandActs(DecodeComs(s.bytes), s.laserOn);
      (CState(s.bytes[OkByte := 0], on, s.log + acts), running)
  }

  function SwitchActs(axis: int, sw: int): seq<Act>
  {
    if SwitchUp(sw) then [MoveOut(axis, 1), Sleep(SwitchSleep)]
    else if SwitchDown(sw) then [MoveIn(axis, 1), Sleep(SwitchSleep)]
    else []
  }

  /** The button handling: a hold is two consecutive pressed iterations. */
  function ButtonActs(state: int, button: int): (seq<Act>, int)
  {
    if ButtonPressed(button) then
      if state == 0 then ([SetLaser(false), MotorsOff, Sleep(ButtonSleep)], 1)
      else if state == 1 then ([SetLaser(false), MotorsOff, System(ShutdownCommand)], 0)
      else ([SetLaser(false), MotorsOff], state)
    else if state == 1 then ([System(RestartCommand)], 0)
    else ([], state)
  }

  /** One iteration of run's loop: new state, whether it keeps running, new button state. */
  function StepS(s: CState, state: int, sw1: int, sw2: int, button: int): (CState, bool, int)
    requires |s.bytes| >= RecordSize
  {
    var (s1, running) := CommandS(s);
    var (bacts, state') := ButtonActs(state, button);
    (s1.(log := s1.log + [GetAnalog] + SwitchActs(1, sw1) + SwitchActs(2, sw2) + bacts), running, state')
  }

  // ---------------------------------------------------------------------
  // Properties of one iteration.

  /** A record is consumed only when the ok byte is 1; consuming it clears that byte and no other. */
  lemma CommandConsumes(s: CState)
    requires |s.bytes| >= RecordSize
    ensures var (s1, running) := CommandS(s);
      && |s1.bytes| == |s.bytes|
      && (s.bytes[OkByte] != 1 ==> s1 == s && running)
      && (s.bytes[OkByte] == 1 ==> s1.bytes[OkByte] == 0)
      && (forall k :: 0 <= k < |s.bytes| && k != OkByte ==> s1.bytes[k] == s.bytes[k])
      && |s.log| <= |s1.log| && s1.log[..|s.log|] == s.log
  {
  }

  /**
   * The laser bit: set with the laser off gives exactly one SetLaser(true);
   * set with it on gives no laser call from that bit; clear gives SetLaser(false) first.
   */
  lemma LaserBit(c: Coms, laserOn: bool)
    ensures var (acts, on, _) := CommandActs(c, laserOn);
      && (HasFlag(c.flags, 0x01) && !laserOn ==> acts[0] == SetLaser(true))
      && (HasFlag(c.flags, 0x01) ==> SetLaser(false) !in acts || HasFlag(c.flags, 0x04))
      && (HasFlag(c.flags, 0x01) && laserOn ==> SetLaser(true) !in acts)
      && (!HasFlag(c.flags, 0x01) ==> acts[0] == SetLaser(false) && SetLaser(true) !in acts)
      && (on <==> HasFlag(c.flags, 0x01) && !HasFlag(c.flags, 0x04))
  {
  }

  /** Exactly one SetLaser(true) when the bit is set over a dark laser and no shutdown is asked. */
  lemma LaserOnce(c: Coms)
    requires HasFlag(c.flags, 0x01) && !HasFlag(c.flags, 0x04)
    ensures var (acts, on, running) := CommandActs(c, false);
      && acts[0] == SetLaser(true) && SetLaser(true) !in acts[1..] && SetLaser(false) !in acts
      && on && running
  {
    var (acts, _, _) := CommandActs(c, false);
    assert acts[1..] == (if !HasFlag(c.flags, 0x02) then [MotorsOff] else [])
      + (if c.m1Steps != 0 || c.m2Steps != 0 then [Ramp2(c.ms, c.m1Steps, c.m2Steps)] else []);
  }

  /**
   * A missing MOTORS_ON bit turns the motors off; the SHUTDOWN bit turns
   * laser and motors off and ends the loop, yet the ramp is still issued.
   */
  lemma ShutdownBit(c: Coms, laserOn: bool)
    ensures var (acts, on, running) := CommandActs(c, laserOn);
      && (!HasFlag(c.flags, 0x02) ==> MotorsOff in acts)
      && (running <==> !HasFlag(c.flags, 0x04))
      && (HasFlag(c.flags, 0x04) ==> !on && SetLaser(false) in acts && MotorsOff in acts)
      && (Ramp2(c.ms, c.m1Steps, c.m2Steps) in acts <==> c.m1Steps != 0 || c.m2Steps != 0)
      && (c.m1Steps != 0 || c.m2Steps != 0 ==> acts[|acts| - 1] == Ramp2(c.ms, c.m1Steps, c.m2Steps))
  {
  }

  /**
   * The button: every pressed iteration turns laser and motors off; a
   * first press sleeps and arms, a second shuts the system down, a release
   * after one press restarts the service, a release when unarmed does nothing.
   */
  lemma ButtonMachine(state: int, button: int)
    requires state == 0 || state == 1
    ensures var (acts, state') := ButtonActs(state, button);
      && (ButtonPressed(button) ==> |acts| >= 2 && acts[..2] == [SetLaser(false), MotorsOff])
      && (ButtonPressed(button) && state == 0 ==> acts[2..] == [Sleep(3000)] && state' == 1)
      && (ButtonPressed(button) && state == 1 ==> acts[2..] == [System("/sbin/shutdown -h now")] && state' == 0)
      && (!ButtonPressed(button) && state == 1 ==> acts == [System("/etc/init.d/ants restart")] && state' == 0)
      && (!ButtonPressed(button) && state == 0 ==> acts == [] && state' == 0)
      && (state' == 0 || state' == 1)
  {
  }

  /** The analog poll and both switches are handled in every iteration, whatever the record said. */
  lemma StepPolls(s: CState, state: int, sw1: int, sw2: int, button: int)
    requires |s.bytes| >= RecordSize
    ensures var (s2, _, _) := StepS(s, state, sw1, sw2, button);
      var (s1, _) := CommandS(s);
      var tail := [GetAnalog] + SwitchActs(1, sw1) + SwitchActs(2, sw2) + ButtonActs(state, button).0;
      && |s1.log| + |tail| == |s2.log|
      && s2.log[|s1.log|..] == tail
      && s2.bytes == s1.bytes && s2.laserOn == s1.laserOn
  {
    var (s2, _, _) := StepS(s, state, sw1, sw2, button);
    var (s1, _) := CommandS(s);
    assert s2.log == s1.log + ([GetAnalog] + SwitchActs(1, sw1) + SwitchActs(2, sw2) + ButtonActs(state, button).0);
  }

  /** The whole of run over a finite series of analog readings; stops when the loop would. */
  function RunFrom(s: CState, state: int, readings: seq<(int, int, int)>): (CState, bool)
    requires |s.bytes| >= RecordSize
    decreases |readings|
  {
    if readings == [] then (s, true)
    else
      var (s1, running, state1) := StepS(s, state, readings[0].0, readings[0].1, readings[0].2);
      if running then RunFrom(s1, state1, readings[1..]) else (s1, false)
  }

  // ---------------------------------------------------------------------
  // The consumer object.

  class Consumer {
    const coms: array<byte>
    var laserOn: bool
    var log: seq<Act>

    function State(): CState
      reads this, coms
    {
      CState(coms[..], laserOn, log)
    }

    constructor(coms: array<byte>)
      requires coms.Length >= RecordSize
      ensures this.coms == coms && !laserOn && log == []
    {
      this.coms := coms;
      laserOn := false;
      log := [];
    }

    /** Reads n bytes at offset s, least significant first; returns the value and the next offset. */
    method Unpack(s: nat, n: nat) returns (v: nat, next: nat)
      requires s + n <= coms.Length
      ensures v == LittleEndian(coms[s..s + n]) && next == s + n
      ensures v < Pow256(n)
    {
      v := 0;
      var place: nat := 1;
      var i := s;
      while i < s + n
        invariant s <= i <= s + n
        invariant place == Pow256(i - s)
        invariant v == LittleEndian(coms[s..i])
      {
        assert coms[s..i + 1] == coms[s..i] + [coms[i]];
        LittleEndianSnoc(coms[s..i], coms[i]);
        v := v + coms[i] * place;
        place := place * 256;
        i := i + 1;
      }
      next := s + n;
      LittleEndianBound(coms[s..s + n]);
    }

    method UnpackComs() returns (c: Coms)
      requires coms.Length >= RecordSize
      ensures c == DecodeComs(coms[..])
    {
      var magic, p := Unpack(0, 4);
      var ms, m1Steps, m2Steps, flags, ok;
      ms, p := Unpack(p, 2);
      m1Steps, p := Unpack(p, 2);
      m2Steps, p := Unpack(p, 2);
      flags, p := Unpack(p, 2);
      ok, p := Unpack(p, 2);
      var m1: int, m2: int := m1Steps, m2Steps;
      if HasFlag(flags, M1Neg) {
        m1 := -m1;
      }
      if HasFlag(flags, M2Neg) {
        m2 := -m2;
      }
      c := Coms(magic, ms, m1, m2, flags, ok);
      assert coms[..][0..4] == coms[0..4] && coms[..][4..6] == coms[4..6] && coms[..][6..8] == coms[6..8];
      assert coms[..][8..10] == coms[8..10] && coms[..][10..12] == coms[10..12] && coms[..][12..14] == coms[12..14];
    }

    method ClearOk()
      requires coms.Length >= RecordSize
      modifies coms
      ensures coms[..] == old(coms[..])[OkByte := 0]
    {
      coms[OkByte] := 0;
    }

    /** The shared-memory half of one iteration. */
    method Command() returns (running: bool)
      requires coms.Length >= RecordSize
      modifies this, coms
      ensures (State(), running) == CommandS(old(State()))
    {
      running := true;
      if coms[OkByte] != 1 {
        return;
      }
      var c := UnpackComs();
      running := Apply(c);
      ClearOk();
    }

    /** The calls made for a decoded record. */
    method Apply(c: Coms) returns (running: bool)
      modifies this
      ensures log == old(log) + CommandActs(c, old(laserOn)).0
      ensures laserOn == CommandActs(c, old(laserOn)).1 && running == CommandActs(c, old(laserOn)).2
    {
      ApplyLaser(c);
      running := ApplyRest(c);
    }

    method ApplyLaser(c: Coms)
      modifies this
      ensures log == old(log) + LaserActs(c, old(laserOn)).0 && laserOn == LaserActs(c, old(laserOn)).1
    {
      if HasFlag(c.flags, 0x01) {
        if !laserOn {
          log := log + [SetLaser(true)];
          laserOn := true;
        }
      } else {
        log := log + [SetLaser(false)];
        laserOn := false;
      }
    }

    method ApplyRest(c: Coms) returns (running: bool)
      modifies this
      ensures log == old(log) + RestActs(c)
      ensures running == !HasFlag(c.flags, 0x04)
      ensures laserOn == if running then old(laserOn) else false
    {
      ghost var log0 := log;
      ghost var a2: seq<Act> := if !HasFlag(c.flags, 0x02) then [MotorsOff] else [];
      ghost var a3: seq<Act> := if HasFlag(c.flags, 0x04) then [SetLaser(false), MotorsOff] else [];
      if !HasFlag(c.flags, 0x02) {
        log := log + [MotorsOff];
      }
      assert log == log0 + a2;
      running := true;
      if HasFlag(c.flags, 0x04) {
        log := log + [SetLaser(false)];
        laserOn := false;
        log := log + [MotorsOff];
        running := false;
      }
      assert log == log0 + a2 + a3;
      if c.m1Steps != 0 || c.m2Steps != 0 {
        log := log + [Ramp2(c.ms, c.m1Steps, c.m2Steps)];
      }
    }

    method Switch(axis: int, sw: int)
      modifies this
      ensures log == old(log) + SwitchActs(axis, sw) && laserOn == old(laserOn)
    {
      if SwitchUp(sw) {
        log := log + [MoveOut(axis, 1), Sleep(SwitchSleep)];
      } else if SwitchDown(sw) {
        log := log + [MoveIn(axis, 1), Sleep(SwitchSleep)];
      }
    }

    method Button(state: int, button: int) returns (state': int)
      modifies this
      ensures log == old(log) + ButtonActs(state, button).0 && state' == ButtonActs(state, button).1
      ensures laserOn == old(laserOn)
    {
      state' := state;
      if ButtonPressed(button) {
        log := log + [SetLaser(false), MotorsOff];
        if state == 0 {
          log := log + [Sleep(ButtonSleep)];
          state' := 1;
        } else if state == 1 {
          log := log + [System(ShutdownCommand)];
          state' := 0;
        }
      } else {
        if state == 1 {
          log := log + [System(RestartCommand)];
          state' := 0;
        }
      }
    }

    /** One iteration of run's loop, with the analog readings it gets back. */
    method Step(state: int, sw1: int, sw2: int, button: int) returns (running: bool, state': int)
      requires coms.Length >= RecordSize
      modifies this, coms
      ensures (State(), running, state') == StepS(old(State()), state, sw1, sw2, button)
    {
      running := Command();
      log := log + [GetAnalog];
      Switch(1, sw1);
      Switch(2, sw2);
      state' := Button(state, button);
    }

    /**
     * run: refuse to start unless the magic is there, then iterate until
     * the shutdown bit stops the loop or the readings run out.
     */
    method Run(readings: seq<(int, int, int)>) returns (started: bool, running: bool)
      requires coms.Length >= RecordSize
      modifies this, coms
      ensures started <==> DecodeComs(old(coms[..])).magic == Magic
      ensures !started ==> State() == old(State())
      ensures started ==> (State(), running) == RunFrom(old(State()), 0, readings)
    {
      var c := UnpackComs();
      if c.magic != Magic {
        return false, false;
      }
      started := true;
      running := true;
      var state := 0;
      var i := 0;
      while running && i < |readings|
        invariant 0 <= i <= |readings|
        invariant coms.Length >= RecordSize
        invariant running ==> RunFrom(State(), state, readings[i..]) == RunFrom(old(State()), 0, readings)
        invariant !running ==> (State(), running) == RunFrom(old(State()), 0, readings)
        decreases |readings| - i
      {
        assert readings[i..][0] == readings[i] && readings[i..][1..] == readings[i + 1..];
        running, state := Step(state, readings[i].0, readings[i].1, readings[i].2);
        i := i + 1;
      }
    }
  }
}
