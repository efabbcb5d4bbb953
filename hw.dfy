/**
 * The producer side of the mailbox and the step bookkeeping of the vision
 * process: the `hw` object writes move, laser and shutdown commands into
 * the shared `coms` record that the consumer decodes, keeps the mirrors'
 * accumulated step counts inside a fixed window, and tests pixels against
 * the camera frame.
 *
 * The record is a field holding a value; the consumer's view of it is the
 * 14 bytes `Encode` lays out.  The floating-point step counts handed to
 * `start_move` are reals.
 */
module Hw {
  import opened Common
  import Clicker

  const XPix: int := 1280
  const YPix: int := 960

  // Flag bits of the record.
  const LaserOn: nat := 0x01
  const MotorsOn: nat := 0x02
  const ShutdownFlag: nat := 0x04
  const M1Neg: nat := 0x08
  const M2Neg: nat := 0x10

  // Accumulated step window, offsets from the home position.
  const M1Max: int := 345
  const M1Min: int := -380
  const M2Max: int := 980
  const M2Min: int := -860

  /** The shared command record: uint32 magic, uint16 ms, int16 steps, uint16 flags and ok. */
  datatype Record = Record(magic: int, ms: int, m1Steps: int, m2Steps: int, flags: Flags, ok: int)

  /** n bytes of v, least significant first (two's complement for negative v). */
  function Bytes(v: int, n: nat): (r: seq<byte>)
    ensures |r| == n
    decreases n
  {
    if n == 0 then [] else [v % 256] + Bytes(v / 256, n - 1)
  }

  /** The record as it lies in memory on the little-endian host, without padding. */
  function Encode(r: Record): (bs: seq<byte>)
    ensures |bs| == Clicker.RecordSize
  {
    Bytes(r.magic, 4) + Bytes(r.ms, 2) + Bytes(r.m1Steps, 2) + Bytes(r.m2Steps, 2) + Bytes(Word(r.flags), 2) + Bytes(r.ok, 2)
  }

  /** Reading back the bytes of a value that fits gives the value. */
  lemma {:induction false} BytesRoundTrip(v: int, n: nat)
    requires 0 <= v < Clicker.Pow256(n)
    ensures Clicker.LittleEndian(Bytes(v, n)) == v
  {
    if n > 0 {
      BytesRoundTrip(v / 256, n - 1);
      assert Bytes(v, n)[1..] == Bytes(v / 256, n - 1);
    }
  }

  // ---------------------------------------------------------------------
  // The flag word.

  /**
   * The uint16 flag word, bit by bit: the five defined bits and the eleven
   * bits above them.  `|= M` and `&= ~M` set and clear one field.
   */
  datatype Flags = Flags(laserOn: bool, motorsOn: bool, shutdown: bool, m1Neg: bool, m2Neg: bool, upper: nat)

  const NoFlags := Flags(false, false, false, false, false, 0)

  function Bit(b: bool): int { if b then 1 else 0 }

  /** The numeric value of the flag word. */
  function Word(f: Flags): int
  {
    Bit(f.laserOn) + 2 * Bit(f.motorsOn) + 4 * Bit(f.shutdown) + 8 * Bit(f.m1Neg) + 16 * Bit(f.m2Neg) + 32 * f.upper
  }

  lemma DivExact(a: int, d: int, q: int, r: int)
    requires d > 0 && a == d * q + r && 0 <= r < d
    ensures a / d == q && a % d == r
  {
    var q0, r0 := a / d, a % d;
    assert d * (q - q0) == r0 - r;
    if q > q0 {
      MulAtLeast(d, q - q0);
    } else if q < q0 {
      MulAtLeast(d, q0 - q);
    }
  }

  lemma MulAtLeast(d: int, k: int)
    requires d > 0 && k >= 1
    ensures d * k >= d
  {
  }

  /** The consumer's bit tests on the word see exactly the fields. */
  lemma WordBits(f: Flags)
    requires f.upper < 2048
    ensures 0 <= Word(f) < 0x1_0000
    ensures HasFlag(Word(f), LaserOn) == f.laserOn && HasFlag(Word(f), MotorsOn) == f.motorsOn
    ensures HasFlag(Word(f), ShutdownFlag) == f.shutdown
    ensures HasFlag(Word(f), M1Neg) == f.m1Neg && HasFlag(Word(f), M2Neg) == f.m2Neg
    ensures Word(f) / 32 == f.upper
  {
    var b0, b1, b2, b3, b4 := Bit(f.laserOn), Bit(f.motorsOn), Bit(f.shutdown), Bit(f.m1Neg), Bit(f.m2Neg);
    var w := Word(f);
    var q1 := b1 + 2 * b2 + 4 * b3 + 8 * b4 + 16 * f.upper;
    var q2 := b2 + 2 * b3 + 4 * b4 + 8 * f.upper;
    var q3 := b3 + 2 * b4 + 4 * f.upper;
    var q4 := b4 + 2 * f.upper;
    DivExact(w, 1, w, 0);
    DivExact(w, 2, q1, b0);
    DivExact(w, 4, q2, b0 + 2 * b1);
    DivExact(w, 8, q3, b0 + 2 * b1 + 4 * b2);
    DivExact(w, 16, q4, b0 + 2 * b1 + 4 * b2 + 8 * b3);
    DivExact(w, 32, f.upper, b0 + 2 * b1 + 4 * b2 + 8 * b3 + 16 * b4);
    DivExact(w, 2, q1, b0);
    DivExact(q1, 2, q2, b1);
    DivExact(q2, 2, q3, b2);
    DivExact(q3, 2, q4, b3);
    DivExact(q4, 2, f.upper, b4);
  }

  // ---------------------------------------------------------------------
  // C's round() and the int conversion.

  /** round(): to the nearest integer, halves away from zero. */
  function Round(x: real): int
  {
    if x >= 0.0 then (x + 0.5).Floor else -((-x + 0.5).Floor)
  }

  lemma RoundNearest(x: real)
    ensures x - 0.5 <= Round(x) as real <= x + 0.5
    ensures x >= 0.0 ==> Round(x) >= 0 && Round(x) as real > x - 0.5
    ensures x <= 0.0 ==> Round(x) <= 0 && Round(x) as real < x + 0.5
  {
  }

  lemma RoundOfInteger(n: int)
    ensures Round(n as real) == n
  {
  }

  // ---------------------------------------------------------------------
  // The hw object.

  datatype HwState = HwState(m1Limit: int, m2Limit: int, lastM1: int, lastM2: int, pc: Record)

  predicate InWindow(m1Limit: int, m2Limit: int)
  {
    M1Min <= m1Limit <= M1Max && M2Min <= m2Limit <= M2Max
  }

  /** The record a move posts: ms 0, step magnitudes, sign and laser bits, ok raised. */
  function PostMove(pc: Record, m1: int, m2: int, m2Negative: bool, laser: bool): Record
  {
    pc.(ms := 0,
        m1Steps := if m1 < 0 then -m1 else m1,
        m2Steps := if m2Negative then -m2 else m2,
        flags := pc.flags.(m1Neg := m1 < 0, m2Neg := m2Negative, laserOn := laser),
        ok := 1)
  }

  /** start_move, returning the new state and its result. */
  function StartMoveS(h: HwState, fake: bool, m1Steps: real, m2Steps: real, laser: bool): (HwState, bool)
  {
    if fake then (h, true)
    else
      var m1 := Round(m1Steps);
      var m2 := Round(m2Steps);
      if !InWindow(h.m1Limit + m1, h.m2Limit + m2) then (h, false)
      else
        var h1 := h.(m1Limit := h.m1Limit + m1, m2Limit := h.m2Limit + m2);
        if h.pc.ok != 0 then (h1, false)
        else
          (h1.(lastM1 := if m1 != 0 then m1 else h.lastM1,
               lastM2 := if m2 != 0 then m2 else h.lastM2,
               pc := PostMove(h.pc, m1, m2, m2Steps < 0.0, laser)), true)
  }

  function SwitchLaserS(h: HwState, fake: bool, laser: bool): HwState
  {
    if fake || h.pc.ok != 0 then h
    else
      var f := h.pc.flags.(m1Neg := false, m2Neg := false, laserOn := laser);
      h.(pc := h.pc.(m1Steps := 0, m2Steps := 0, flags := f, ok := 1))
  }

  function ShutdownS(h: HwState, fake: bool): HwState
  {
    h.(pc := h.pc.(m1Steps := 0, m2Steps := 0, flags := NoFlags.(shutdown := true), ok := if fake then h.pc.ok else 1))
  }

  /** keepout: whether a pixel, scaled to full resolution, lies outside the camera frame. */
  predicate Keepout(px: int, py: int, scale: int)
  {
    var (x, y) :=
      if scale == 2 then (px + px, py + py)
      else if scale != 1 then (px * scale, py * scale)
      else (px, py);
    if y < 0 || y > 959 then true
    else if x < 0 || x > 1279 then true
    else false
  }

  /** keepout is exactly "outside the frame" for the scaled point, whatever the scale. */
  lemma KeepoutIsOutsideFrame(px: int, py: int, scale: int)
    ensures Keepout(px, py, scale) <==> !(0 <= px * scale < XPix && 0 <= py * scale < YPix)
    ensures Keepout(px, py, 1) <==> !(0 <= px < XPix && 0 <= py < YPix)
  {
    if scale == 2 {
      assert px * scale == px + px && py * scale == py + py;
    }
  }

  // ---------------------------------------------------------------------
  // Properties of the producer operations.

  /** A move outside the window is refused and changes nothing; the window always holds afterwards. */
  lemma StartMoveWindow(h: HwState, fake: bool, m1Steps: real, m2Steps: real, laser: bool)
    requires InWindow(h.m1Limit, h.m2Limit)
    ensures var (h', ok) := StartMoveS(h, fake, m1Steps, m2Steps, laser);
      && InWindow(h'.m1Limit, h'.m2Limit)
      && (!fake && !InWindow(h.m1Limit + Round(m1Steps), h.m2Limit + Round(m2Steps)) ==> h' == h && !ok)
      && (fake ==> h' == h && ok)
  {
  }

  /**
   * With the window respected, the limits advance even when the mailbox is
   * busy; the move is then reported as failed and the record is untouched.
   */
  lemma StartMoveBusy(h: HwState, m1Steps: real, m2Steps: real, laser: bool)
    requires InWindow(h.m1Limit + Round(m1Steps), h.m2Limit + Round(m2Steps)) && h.pc.ok != 0
    ensures var (h', ok) := StartMoveS(h, false, m1Steps, m2Steps, laser);
      && !ok && h'.pc == h.pc
      && h'.m1Limit == h.m1Limit + Round(m1Steps) && h'.m2Limit == h.m2Limit + Round(m2Steps)
  {
  }

  /**
   * A posted move: ms 0, step magnitudes that fit the int16 fields, M1_NEG
   * iff the rounded m1 is negative, M2_NEG iff the unrounded m2 is negative,
   * LASER_ON as asked, ok raised, the other flag bits kept.
   */
  lemma StartMovePosts(h: HwState, m1Steps: real, m2Steps: real, laser: bool)
    requires InWindow(h.m1Limit, h.m2Limit)
    requires InWindow(h.m1Limit + Round(m1Steps), h.m2Limit + Round(m2Steps)) && h.pc.ok == 0
    ensures var (h', ok) := StartMoveS(h, false, m1Steps, m2Steps, laser);
      var m1, m2 := Round(m1Steps), Round(m2Steps);
      && ok && h'.pc.ok == 1 && h'.pc.ms == 0 && h'.pc.magic == h.pc.magic
      && h'.pc.m1Steps == Abs(m1) && 0 <= h'.pc.m1Steps <= M1Max - M1Min
      && h'.pc.m2Steps == Abs(m2) && 0 <= h'.pc.m2Steps <= M2Max - M2Min
      && (h'.pc.flags.m1Neg <==> m1 < 0)
      && (h'.pc.flags.m2Neg <==> m2Steps < 0.0)
      && (h'.pc.flags.laserOn <==> laser)
      && h'.pc.flags.motorsOn == h.pc.flags.motorsOn && h'.pc.flags.shutdown == h.pc.flags.shutdown
      && h'.pc.flags.upper == h.pc.flags.upper
      && (m1 != 0 ==> h'.lastM1 == m1) && (m1 == 0 ==> h'.lastM1 == h.lastM1)
  {
    RoundNearest(m2Steps);
  }

  /**
   * The round trip between the two processes: the consumer's decoding of
   * the record a successful start_move posts gives back the rounded signed
   * step counts, a zero duration and the laser bit, and the ok byte is 1.
   */
  lemma StartMoveDecodes(h: HwState, m1Steps: real, m2Steps: real, laser: bool)
    requires InWindow(h.m1Limit, h.m2Limit) && h.pc.flags.upper < 2048
    requires 0 <= h.pc.magic < 0x1_0000_0000
    requires InWindow(h.m1Limit + Round(m1Steps), h.m2Limit + Round(m2Steps)) && h.pc.ok == 0
    ensures var pc := StartMoveS(h, false, m1Steps, m2Steps, laser).0.pc;
      var c := Clicker.DecodeComs(Encode(pc));
      && c.magic == h.pc.magic && c.ms == 0
      && c.m1Steps == Round(m1Steps) && c.m2Steps == Round(m2Steps)
      && HasFlag(c.flags, LaserOn) == laser
      && HasFlag(c.flags, MotorsOn) == h.pc.flags.motorsOn
      && Encode(pc)[Clicker.OkByte] == 1
  {
    StartMovePosts(h, m1Steps, m2Steps, laser);
    RoundNearest(m2Steps);
    var pc := StartMoveS(h, false, m1Steps, m2Steps, laser).0.pc;
    DecodesAs(pc);
  }

  /** Decoding the encoding of a record whose fields fit gives the fields back, signs applied. */
  lemma DecodesAs(pc: Record)
    requires 0 <= pc.magic < 0x1_0000_0000 && 0 <= pc.ms < 0x1_0000
    requires 0 <= pc.m1Steps < 0x1_0000 && 0 <= pc.m2Steps < 0x1_0000
    requires pc.flags.upper < 2048 && 0 <= pc.ok < 0x1_0000
    ensures var c := Clicker.DecodeComs(Encode(pc));
      && c.magic == pc.magic && c.ms == pc.ms && c.flags == Word(pc.flags) && c.ok == pc.ok
      && c.m1Steps == (if pc.flags.m1Neg then -pc.m1Steps else pc.m1Steps)
      && c.m2Steps == (if pc.flags.m2Neg then -pc.m2Steps else pc.m2Steps)
      && HasFlag(c.flags, LaserOn) == pc.flags.laserOn && HasFlag(c.flags, MotorsOn) == pc.flags.motorsOn
      && HasFlag(c.flags, ShutdownFlag) == pc.flags.shutdown
      && Encode(pc)[Clicker.OkByte] == pc.ok % 256
  {
    var bs := Encode(pc);
    WordBits(pc.flags);
    assert Clicker.Pow256(2) == 0x1_0000 && Clicker.Pow256(4) == 0x1_0000_0000;
    assert bs[0..4] == Bytes(pc.magic, 4);
    assert bs[4..6] == Bytes(pc.ms, 2);
    assert bs[6..8] == Bytes(pc.m1Steps, 2);
    assert bs[8..10] == Bytes(pc.m2Steps, 2);
    assert bs[10..12] == Bytes(Word(pc.flags), 2);
    assert bs[12..14] == Bytes(pc.ok, 2);
    BytesRoundTrip(pc.magic, 4);
    BytesRoundTrip(pc.ms, 2);
    BytesRoundTrip(pc.m1Steps, 2);
    BytesRoundTrip(pc.m2Steps, 2);
    BytesRoundTrip(Word(pc.flags), 2);
    BytesRoundTrip(pc.ok, 2);
  }

  /**
   * switch_laser on an idle mailbox: no steps, no sign bits, the laser bit
   * as asked, ok raised; the consumer then issues no move.  A busy mailbox
   * is left alone.
   */
  lemma SwitchLaserPosts(h: HwState, laser: bool)
    requires h.pc.flags.upper < 2048 && 0 <= h.pc.magic < 0x1_0000_0000 && 0 <= h.pc.ms < 0x1_0000
    ensures var h' := SwitchLaserS(h, false, laser);
      && (h.pc.ok != 0 ==> h' == h)
      && (h.pc.ok == 0 ==>
            var c := Clicker.DecodeComs(Encode(h'.pc));
            && c.m1Steps == 0 && c.m2Steps == 0 && Encode(h'.pc)[Clicker.OkByte] == 1
            && HasFlag(c.flags, LaserOn) == laser
            && HasFlag(c.flags, MotorsOn) == h.pc.flags.motorsOn
            && h'.m1Limit == h.m1Limit && h'.m2Limit == h.m2Limit)
  {
    if h.pc.ok == 0 {
      DecodesAs(SwitchLaserS(h, false, laser).pc);
    }
  }

  /** shutdown leaves no steps and exactly the SHUTDOWN bit, which the consumer reads as "stop". */
  lemma ShutdownPosts(h: HwState, fake: bool)
    requires 0 <= h.pc.magic < 0x1_0000_0000 && 0 <= h.pc.ms < 0x1_0000
    ensures var pc := ShutdownS(h, fake).pc;
      && pc.m1Steps == 0 && pc.m2Steps == 0 && Word(pc.flags) == 4
      && (!fake ==> pc.ok == 1)
      && (!fake ==> var c := Clicker.DecodeComs(Encode(pc));
            && Encode(pc)[Clicker.OkByte] == 1
            && !Clicker.CommandActs(c, false).2
            && !Clicker.CommandActs(c, true).1
            && Clicker.MotorsOff in Clicker.CommandActs(c, true).0)
  {
    var pc := ShutdownS(h, fake).pc;
    if !fake {
      DecodesAs(pc);
    }
  }

  /**
   * The consumer's side of hw_idle: clearing the ok byte of a posted record
   * leaves exactly the bytes of the same record with ok 0, every other
   * byte as it was, so hw_idle then reports true.
   */
  lemma ClearOkMakesIdle(pc: Record, laserOn: bool, log: seq<Clicker.Act>)
    requires pc.ok == 1
    ensures Encode(pc)[Clicker.OkByte := 0] == Encode(pc.(ok := 0))
    ensures forall k :: 0 <= k < Clicker.RecordSize && k != Clicker.OkByte ==> Encode(pc.(ok := 0))[k] == Encode(pc)[k]
    // the consumer's step on the posted record leaves the record with ok 0, so hw_idle holds
    ensures Clicker.CommandS(Clicker.CState(Encode(pc), laserOn, log)).0.bytes == Encode(pc.(ok := 0))
  {
    assert Bytes(1, 2) == [1, 0];
    assert Bytes(0, 2) == [0, 0];
    var head := Bytes(pc.magic, 4) + Bytes(pc.ms, 2) + Bytes(pc.m1Steps, 2) + Bytes(pc.m2Steps, 2) + Bytes(Word(pc.flags), 2);
    assert Encode(pc) == head + [1, 0];
    assert Encode(pc.(ok := 0)) == head + [0, 0];
  }

  class HwUnit {
    var m1Limit: int
    var m2Limit: int
    var lastM1: int
    var lastM2: int
    var pc: Record
    const fakeLaser: bool

    function State(): HwState
      reads this
    {
      HwState(m1Limit, m2Limit, lastM1, lastM2, pc)
    }

    ghost predicate Valid()
      reads this
    {
      InWindow(m1Limit, m2Limit)
    }

    /**
     * Sets up the record (magic, motors-on bit) and raises ok unless the
     * laser is faked.  `lastM1`/`lastM2` are not set by the C constructor.
     */
    constructor(fakeLaser: bool, lastM1: int, lastM2: int)
      ensures Valid() && this.fakeLaser == fakeLaser
      ensures m1Limit == 0 && m2Limit == 0 && this.lastM1 == lastM1 && this.lastM2 == lastM2
      ensures pc == Record(Clicker.Magic, 0, 0, 0, NoFlags.(motorsOn := true), if fakeLaser then 0 else 1)
    {
      this.fakeLaser := fakeLaser;
      m1Limit, m2Limit := 0, 0;
      this.lastM1, this.lastM2 := lastM1, lastM2;
      var icoms := Record(Clicker.Magic, 0, 0, 0, NoFlags, 0);
      icoms := icoms.(flags := icoms.flags.(motorsOn := true));
      if !fakeLaser {
        icoms := icoms.(ok := 1);
      }
      pc := icoms;
    }

    method SetHome()
      requires Valid()
      modifies this
      ensures Valid() && State() == old(State()).(m1Limit := 0, m2Limit := 0)
    {
      m1Limit := 0;
      m2Limit := 0;
    }

    method StartMove(m1Steps: real, m2Steps: real, laser: bool) returns (ok: bool)
      requires Valid()
      modifies this
      ensures Valid()
      ensures (State(), ok) == StartMoveS(old(State()), fakeLaser, m1Steps, m2Steps, laser)
    {
      StartMoveWindow(State(), fakeLaser, m1Steps, m2Steps, laser);
      if fakeLaser {
        return true;
      }
      var m1 := Round(m1Steps);
      var m2 := Round(m2Steps);
      if m1Limit + m1 < M1Min || m1Limit + m1 > M1Max || m2Limit + m2 < M2Min || m2Limit + m2 > M2Max {
        return false;
      }
      m1Limit := m1Limit + m1;
      m2Limit := m2Limit + m2;
      if pc.ok == 0 {
        Post(m1, m2, m2Steps < 0.0, laser);
      } else {
        return false;
      }
      return true;
    }

    /** The body of start_move once the window and the mailbox allow the move. */
    method Post(m1: int, m2: int, m2Negative: bool, laser: bool)
      modifies this
      ensures pc == PostMove(old(pc), m1, m2, m2Negative, laser)
      ensures lastM1 == (if m1 != 0 then m1 else old(lastM1)) && lastM2 == (if m2 != 0 then m2 else old(lastM2))
      ensures m1Limit == old(m1Limit) && m2Limit == old(m2Limit)
    {
      if m1 != 0 {
        lastM1 := m1;
      }
      if m2 != 0 {
        lastM2 := m2;
      }
      var flags := pc.flags;
      var s1, s2;
      if m1 < 0 {
        s1, flags := -m1, flags.(m1Neg := true);
      } else {
        s1, flags := m1, flags.(m1Neg := false);
      }
      if m2Negative {
        s2, flags := -m2, flags.(m2Neg := true);
      } else {
        s2, flags := m2, flags.(m2Neg := false);
      }
      if laser {
        flags := flags.(laserOn := true);
      } else {
        flags := flags.(laserOn := false);
      }
      pc := pc.(ms := 0, m1Steps := s1, m2Steps := s2, flags := flags, ok := 1);
    }

    method SwitchLaser(laser: bool)
      requires Valid()
      modifies this
      ensures Valid() && State() == SwitchLaserS(old(State()), fakeLaser, laser)
    {
      if fakeLaser {
        return;
      }
      if pc.ok == 0 {
        pc := pc.(m1Steps := 0, m2Steps := 0);
        pc := pc.(flags := pc.flags.(m1Neg := false));
        pc := pc.(flags := pc.flags.(m2Neg := false));
        if laser {
          pc := pc.(flags := pc.flags.(laserOn := true));
        } else {
          pc := pc.(flags := pc.flags.(laserOn := false));
        }
        pc := pc.(ok := 1);
      }
    }

    /** shutdown, entered once the consumer has lowered ok (its busy wait). */
    method Shutdown()
      requires Valid() && pc.ok == 0
      modifies this
      ensures Valid() && State() == ShutdownS(old(State()), fakeLaser)
    {
      pc := pc.(m1Steps := 0, m2Steps := 0);
      pc := pc.(flags := NoFlags.(shutdown := true));
      if !fakeLaser {
        pc := pc.(ok := 1);
      }
    }

    /** hw_idle: the consumer has taken the last command. */
    method Idle() returns (idle: bool)
      ensures idle <==> pc.ok == 0
    {
      idle := pc.ok == 0;
    }
  }
}
