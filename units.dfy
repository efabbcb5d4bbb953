/**
 * The frame loop of units/units.cpp: a six-state machine that aims the
 * laser at the best ant, turns it on, waits for the camera to see it,
 * corrects the aim and turns it off again, plus the random-move test
 * mode and the ways the loop ends.
 *
 * Everything the loop learns from the camera, the hardware, the mouse
 * and the keyboard in one frame is an input (`Frame`); everything it does
 * to the outside world is appended to an event log.
 */
module Units {
  import opened Common

  datatype State = IdleLaserOff | Idle1 | Idle2 | Delay1 | Delay2 | WaitLaser

  /**
   * One frame's observations:
   *   click      the mouse callback set `mouse_click`
   *   laserVis   `find_laser` saw the laser spot
   *   hwIdle     `hw_idle()` (the mailbox is free)
   *   corrected  what `correct()` returns when it is called
   *   antFound   what `ant_looker(true)` returns when it is called
   *   lagRound   `round(laser_frame_lag.average())`
   *   delaySlot  the indeterminate value `laser_frame_delay` holds on entry,
   *              since it is declared, uninitialised, inside the loop body
   *   rx, ry     the rounded normal samples `move_randomly` draws
   *   key        the value of `waitKey(1)`
   */
  datatype Frame = Frame(click: bool, laserVis: bool, hwIdle: bool, corrected: bool,
                         antFound: bool, lagRound: int, delaySlot: int,
                         rx: int, ry: int, key: int)

  /** What the loop does to the world. */
  datatype Event =
    | LaserOn
    | LaserOff
    | LookForAnt(doMove: bool)       // ant_looker(do_move)
    | Correct                        // correct(frame, lcenter, lbox)
    | RandomMove(px: int, py: int)   // do_move(..., "random move")
    | Home                           // do_move(xpix/2, ypix/2, ..., "Home")
    | LagSample(frames: int)         // laser_frame_lag.add_item(...)

  /** The variables the loop carries from one frame to the next. */
  datatype Loop = Loop(cur: State, laserOnFrame: int, frameIndex: int, frameCount: int,
                       done: bool, count: int, laserIsOn: bool, events: seq<Event>)

  const RandomMoves: int := 400
  const EscKey: int := 27

  /** `(key & 0xff) == 27` on a two's-complement int. */
  function IsEsc(key: int): bool
  {
    key % 0x100 == EscKey
  }

  /** Clamp to `[lo, hi]` in the order the source writes it: lower bound first. */
  function Clamp(v: int, lo: int, hi: int): int
  {
    var w := if v > lo then v else lo;
    if w < hi then w else hi
  }

  lemma ClampBounds(v: int, lo: int, hi: int)
    requires lo <= hi
    ensures lo <= Clamp(v, lo, hi) <= hi
    ensures lo <= v <= hi ==> Clamp(v, lo, hi) == v
    ensures v < lo ==> Clamp(v, lo, hi) == lo
    ensures hi < v ==> Clamp(v, lo, hi) == hi
  {
  }

  /** move_randomly's effect: the new counter, whether it sets `done`, and the move it makes. */
  datatype RandomOut = RandomOut(count: int, setsDone: bool, events: seq<Event>)

  function MoveRandomlyS(count: int, rx: int, ry: int): RandomOut
  {
    if count == 0 then RandomOut(-1, false, [Home])
    else if count == -1 then RandomOut(count, true, [])
    else RandomOut(count - 1, false, [RandomMove(Clamp(rx, 100, 1180), Clamp(ry, 100, 860))])
  }

  /** Every random move stays inside the clamping box and never sets `done`. */
  lemma RandomMoveInBox(count: int, rx: int, ry: int)
    requires count != 0 && count != -1
    ensures var o := MoveRandomlyS(count, rx, ry);
      && !o.setsDone && o.count == count - 1 && |o.events| == 1
      && o.events[0].RandomMove?
      && 100 <= o.events[0].px <= 1180 && 100 <= o.events[0].py <= 860
      && (100 <= rx <= 1180 ==> o.events[0].px == rx)
      && (100 <= ry <= 860 ==> o.events[0].py == ry)
  {
    ClampBounds(rx, 100, 1180);
    ClampBounds(ry, 100, 860);
  }

  /** `n` successive calls of move_randomly, starting from counter `count`. */
  function Tour(count: int, rs: seq<(int, int)>): RandomOut
    decreases |rs|
  {
    if rs == [] then RandomOut(count, false, [])
    else
      var o := MoveRandomlyS(count, rs[0].0, rs[0].1);
      var t := Tour(o.count, rs[1..]);
      RandomOut(t.count, o.setsDone || t.setsDone, o.events + t.events)
  }

  /**
   * From a counter `c` in [1, 400], `c` calls make `c` random moves and
   * leave the counter at 0 without setting `done`.
   */
  lemma {:induction false} TourMoves(c: int, rs: seq<(int, int)>)
    requires 0 <= c && |rs| == c
    ensures var t := Tour(c, rs);
      && t.count == 0 && !t.setsDone && |t.events| == c
      && forall i :: 0 <= i < c ==> t.events[i].RandomMove?
  {
    if c > 0 {
      var o := MoveRandomlyS(c, rs[0].0, rs[0].1);
      TourMoves(c - 1, rs[1..]);
    }
  }

  /**
   * From the initial counter of 400: the first 400 calls move randomly,
   * call 401 homes the head, and call 402 sets `done`.
   */
  lemma RandomTour(rs: seq<(int, int)>)
    requires |rs| == RandomMoves + 2
    ensures var t := Tour(RandomMoves, rs);
      && t.setsDone && |t.events| == RandomMoves + 1
      && (forall i :: 0 <= i < RandomMoves ==> t.events[i].RandomMove?)
      && t.events[RandomMoves] == Home
    ensures !Tour(RandomMoves, rs[..RandomMoves + 1]).setsDone
  {
    TourSplit(RandomMoves, rs[..RandomMoves], rs[RandomMoves..]);
    assert rs[..RandomMoves] + rs[RandomMoves..] == rs;
    TourMoves(RandomMoves, rs[..RandomMoves]);
    var tail := rs[RandomMoves..];
    assert Tour(-1, tail[2..]) == RandomOut(-1, false, []);
    assert tail[1..][1..] == tail[2..];
    TourSplit(RandomMoves, rs[..RandomMoves], rs[RandomMoves..RandomMoves + 1]);
    assert rs[..RandomMoves] + rs[RandomMoves..RandomMoves + 1] == rs[..RandomMoves + 1];
  }

  lemma {:induction false} TourSplit(c: int, a: seq<(int, int)>, b: seq<(int, int)>)
    ensures var ta := Tour(c, a);
      var tb := Tour(ta.count, b);
      Tour(c, a + b) == RandomOut(tb.count, ta.setsDone || tb.setsDone, ta.events + tb.events)
    decreases |a|
  {
    if a == [] {
      assert a + b == b;
    } else {
      assert (a + b)[1..] == a[1..] + b;
      var o := MoveRandomlyS(c, a[0].0, a[0].1);
      TourSplit(o.count, a[1..], b);
    }
  }

  /** What the `switch` produces from the state it starts in. */
  datatype Outcome = Outcome(next: State, laserOnFrame: int, count: int, laserIsOn: bool,
                             setsDone: bool, events: seq<Event>)

  /**
   * The `switch (cur_state)` body for one frame. `fi` is the already
   * incremented frame index and `lof` the `laser_on_frame` left by the
   * lag bookkeeping that runs before the switch.
   */
  function SwitchS(cur: State, f: Frame, accurate: bool, randomMoves: bool,
                  fi: int, lof: int, count: int, on: bool): Outcome
  {
    match cur
    case IdleLaserOff =>
      if randomMoves then
        var o := MoveRandomlyS(count, f.rx, f.ry);
        Outcome(Idle1, lof, o.count, on, o.setsDone, o.events)
      else if !f.laserVis then
        Outcome(if f.antFound then Idle1 else IdleLaserOff, lof, count, on, false, [LookForAnt(true)])
      else Outcome(IdleLaserOff, lof, count, on, false, [])
    case Idle1 =>
      if f.hwIdle then Outcome(Delay1, fi, count, true, false, [LaserOn])
      else if !f.laserVis then Outcome(Idle1, lof, count, on, false, [LookForAnt(false)])
      else Outcome(Idle1, lof, count, on, false, [])
    case Delay1 =>
      if f.hwIdle then
        if f.laserVis then
          Outcome(if f.corrected then Idle2 else Delay2, lof, count, false, false, [LaserOff, Correct])
        else Outcome(WaitLaser, lof, count, false, false, [LaserOff, LookForAnt(false)])
      else Outcome(Delay1, lof, count, on, false, [LookForAnt(false)])
    case WaitLaser =>
      if f.laserVis then
        Outcome(if f.corrected then Idle2 else Delay2, lof, count, on, false, [Correct])
      else
        Outcome(if f.delaySlot - 1 == 0 then Delay2 else WaitLaser, lof, count, on, false, [LookForAnt(false)])
    case Delay2 =>
      if !f.laserVis then Outcome(IdleLaserOff, lof, count, on, false, [LookForAnt(false)])
      else Outcome(Delay2, lof, count, on, false, [])
    case Idle2 =>
      if f.hwIdle then
        if accurate then Outcome(Delay1, lof, count, true, false, [LaserOn])
        else Outcome(Delay2, lof, count, on, false, [])
      else if !f.laserVis then Outcome(Idle2, lof, count, on, false, [LookForAnt(false)])
      else Outcome(Idle2, lof, count, on, false, [])
  }

  /** One pass of `while (!done)` in `main`. */
  /**
   * The part of the loop body before the `switch`: the frame counters, the
   * `frame_count` test, the mouse-click override and the lag measurement.
   */
  function PreSwitch(s: Loop, f: Frame): Loop
  {
    var fi := s.frameIndex + 1;
    var fc := Wrap32(s.frameCount - 1);
    var sample := f.laserVis && s.laserOnFrame != 0;
    s.(frameIndex := fi, frameCount := fc, done := s.done || fc == 0,
       cur := if f.click then Idle1 else s.cur,
       laserOnFrame := if sample then 0 else s.laserOnFrame,
       events := if sample then s.events + [LagSample(fi - s.laserOnFrame)] else s.events)
  }

  /** The loop variables after the `switch` has produced `o`. */
  function Apply(p: Loop, o: Outcome): Loop
  {
    p.(cur := o.next, laserOnFrame := o.laserOnFrame, count := o.count, laserIsOn := o.laserIsOn,
       done := p.done || o.setsDone, events := p.events + o.events)
  }

  function SwitchOf(p: Loop, f: Frame, accurate: bool, randomMoves: bool): Outcome
  {
    SwitchS(p.cur, f, accurate, randomMoves, p.frameIndex, p.laserOnFrame, p.count, p.laserIsOn)
  }

  /** One pass of `while (!done)` in `main`; ESC is read after the switch. */
  function StepS(s: Loop, f: Frame, accurate: bool, randomMoves: bool): Loop
  {
    var p := PreSwitch(s, f);
    var t := Apply(p, SwitchOf(p, f, accurate, randomMoves));
    t.(done := t.done || IsEsc(f.key))
  }

  /** The loop over a feed of frames, stopping once `done` is set. */
  function RunS(s: Loop, fs: seq<Frame>, accurate: bool, randomMoves: bool): Loop
    decreases |fs|
  {
    if s.done || fs == [] then s
    else RunS(StepS(s, fs[0], accurate, randomMoves), fs[1..], accurate, randomMoves)
  }

  /** The loop's variables just before `while (!done)` is first tested. */
  function Initial(frameCount: int): Loop
  {
    Loop(Idle1, 0, 0, frameCount, false, RandomMoves, false, [])
  }

  // ---------------------------------------------------------------------
  // Transition properties

  /** A click is the same as arriving in `idle_1`: the stored state is overridden. */
  lemma ClickForcesIdle1(s: Loop, f: Frame, accurate: bool, randomMoves: bool)
    requires f.click
    ensures StepS(s, f, accurate, randomMoves) == StepS(s.(cur := Idle1), f, accurate, randomMoves)
    ensures StepS(s, f, accurate, randomMoves).cur in {Idle1, Delay1}
  {
  }

  /** `idle_1`: with the hardware idle the laser goes on, and the frame is stamped. */
  lemma Idle1Arms(s: Loop, f: Frame, accurate: bool, randomMoves: bool)
    requires s.cur == Idle1 || f.click
    ensures var t := StepS(s, f, accurate, randomMoves);
      && (f.hwIdle ==> t.cur == Delay1 && t.laserIsOn && t.laserOnFrame == s.frameIndex + 1
                       && t.events[|t.events| - 1] == LaserOn)
      && (!f.hwIdle ==> t.cur == Idle1 && t.laserIsOn == s.laserIsOn)
  {
  }

  /** `delay_1` with the hardware idle: laser off, then correct or wait. */
  lemma Delay1Outcomes(s: Loop, f: Frame, accurate: bool, randomMoves: bool)
    requires s.cur == Delay1 && !f.click && f.hwIdle
    ensures var t := StepS(s, f, accurate, randomMoves);
      && !t.laserIsOn
      && LaserOff in t.events[|s.events|..]
      && (f.laserVis ==> (t.cur == Idle2 <==> f.corrected) && (t.cur == Delay2 <==> !f.corrected))
      && (!f.laserVis ==> t.cur == WaitLaser)
  {
    var t := StepS(s, f, accurate, randomMoves);
    if f.laserVis && s.laserOnFrame != 0 {
      assert t.events[|s.events|..] == [LagSample(s.frameIndex + 1 - s.laserOnFrame), LaserOff, Correct];
    } else if f.laserVis {
      assert t.events[|s.events|..] == [LaserOff, Correct];
    } else {
      assert t.events[|s.events|..] == [LaserOff, LookForAnt(false)];
    }
  }

  /** `delay_1` while the hardware is busy keeps waiting with the laser as it was. */
  lemma Delay1Busy(s: Loop, f: Frame, accurate: bool, randomMoves: bool)
    requires s.cur == Delay1 && !f.click && !f.hwIdle
    ensures var t := StepS(s, f, accurate, randomMoves);
      t.cur == Delay1 && t.laserIsOn == s.laserIsOn
  {
  }

  /**
   * `wait_laser`: a visible laser is handled as in `delay_1`; an invisible
   * one gives up exactly when the decremented `laser_frame_delay` is 0.
   * The value it decrements is the one the variable holds on entry to this
   * frame, not the one `delay_1` computed from the lag average.
   */
  lemma WaitLaserOutcomes(s: Loop, f: Frame, accurate: bool, randomMoves: bool)
    requires s.cur == WaitLaser && !f.click
    ensures var t := StepS(s, f, accurate, randomMoves);
      && (f.laserVis ==> (t.cur == Idle2 <==> f.corrected) && (t.cur == Delay2 <==> !f.corrected))
      && (!f.laserVis ==> (t.cur == Delay2 <==> f.delaySlot == 1) && (t.cur == WaitLaser <==> f.delaySlot != 1))
      && forall lag :: StepS(s, f.(lagRound := lag), accurate, randomMoves) == t
  {
  }

  /** `delay_2` leaves for `idle_laser_off` exactly when the laser is no longer seen. */
  lemma Delay2Outcomes(s: Loop, f: Frame, accurate: bool, randomMoves: bool)
    requires s.cur == Delay2 && !f.click
    ensures var t := StepS(s, f, accurate, randomMoves);
      (t.cur == IdleLaserOff <==> !f.laserVis) && (t.cur == Delay2 <==> f.laserVis)
  {
  }

  /** `idle_2` with the hardware idle: another pass if `accurate`, else give up. */
  lemma Idle2Outcomes(s: Loop, f: Frame, accurate: bool, randomMoves: bool)
    requires s.cur == Idle2 && !f.click
    ensures var t := StepS(s, f, accurate, randomMoves);
      && (f.hwIdle && accurate ==> t.cur == Delay1 && t.laserIsOn && t.events[|t.events| - 1] == LaserOn)
      && (f.hwIdle && !accurate ==> t.cur == Delay2)
      && (!f.hwIdle ==> t.cur == Idle2)
  {
  }

  /** `idle_laser_off`: random mode always moves on; otherwise a found ant does. */
  lemma IdleLaserOffOutcomes(s: Loop, f: Frame, accurate: bool, randomMoves: bool)
    requires s.cur == IdleLaserOff && !f.click
    ensures var t := StepS(s, f, accurate, randomMoves);
      && (randomMoves ==> t.cur == Idle1)
      && (!randomMoves ==> (t.cur == Idle1 <==> !f.laserVis && f.antFound))
      && (!randomMoves ==> t.count == s.count)
  {
  }

  /** A visible laser closes an open lag measurement: one sample, and the stamp is cleared. */
  lemma LagMeasured(s: Loop, f: Frame, accurate: bool, randomMoves: bool)
    requires f.laserVis && s.laserOnFrame != 0
    ensures var t := StepS(s, f, accurate, randomMoves);
      && t.events[|s.events|] == LagSample(s.frameIndex + 1 - s.laserOnFrame)
      && (t.laserOnFrame != 0 ==> t.laserOnFrame == s.frameIndex + 1 && t.cur == Delay1)
  {
  }

  /**
   * The laser is on only while the machine is in `delay_1`, or in
   * `idle_1` after a click interrupted `delay_1`; and `delay_1` always has
   * it on.
   */
  predicate LaserConsistent(s: Loop)
  {
    (s.cur == Delay1 ==> s.laserIsOn) && (s.laserIsOn ==> s.cur == Delay1 || s.cur == Idle1)
  }

  lemma LaserConsistentInitial(frameCount: int)
    ensures LaserConsistent(Initial(frameCount))
    ensures Initial(frameCount).cur == Idle1 && !Initial(frameCount).laserIsOn
  {
  }

  lemma LaserConsistentStep(s: Loop, f: Frame, accurate: bool, randomMoves: bool)
    requires LaserConsistent(s)
    ensures LaserConsistent(StepS(s, f, accurate, randomMoves))
  {
  }

  lemma {:induction false} LaserConsistentRun(s: Loop, fs: seq<Frame>, accurate: bool, randomMoves: bool)
    requires LaserConsistent(s)
    ensures LaserConsistent(RunS(s, fs, accurate, randomMoves))
    decreases |fs|
  {
    if !s.done && fs != [] {
      LaserConsistentStep(s, fs[0], accurate, randomMoves);
      LaserConsistentRun(StepS(s, fs[0], accurate, randomMoves), fs[1..], accurate, randomMoves);
    }
  }

  // ---------------------------------------------------------------------
  // Termination

  /** ESC, or `frame_count` reaching 0, ends the loop after the current frame. */
  lemma StepEnds(s: Loop, f: Frame, accurate: bool, randomMoves: bool)
    ensures var t := StepS(s, f, accurate, randomMoves);
      && (IsEsc(f.key) ==> t.done)
      && (s.frameCount == 1 ==> t.done)
      && (0 <= s.frameCount < U32 ==> t.frameCount == if s.frameCount == 0 then U32 - 1 else s.frameCount - 1)
  {
  }

  /**
   * With `frame_count` in [1, 2^32), the loop runs at most `frame_count`
   * frames: with that many frames available it is done.
   */
  lemma {:induction false} RunBoundedByFrameCount(s: Loop, fs: seq<Frame>, accurate: bool, randomMoves: bool)
    requires 1 <= s.frameCount < U32 && |fs| >= s.frameCount
    ensures var t := RunS(s, fs, accurate, randomMoves);
      t.done && s.frameIndex <= t.frameIndex <= s.frameIndex + s.frameCount
    decreases |fs|
  {
    if !s.done {
      var t := StepS(s, fs[0], accurate, randomMoves);
      if s.frameCount == 1 {
        assert t.done;
      } else {
        RunBoundedByFrameCount(t, fs[1..], accurate, randomMoves);
      }
    }
  }

  // ---------------------------------------------------------------------
  // The loop as the source runs it

  class Controller {
    var cur: State
    var laserOnFrame: int
    var frameIndex: int
    var frameCount: int
    var done: bool
    var count: int        // move_randomly's static counter
    var laserIsOn: bool   // plas->is_on
    var events: seq<Event>
    const accurate: bool
    const randomMoves: bool

    function State(): Loop
      reads this
    {
      Loop(cur, laserOnFrame, frameIndex, frameCount, done, count, laserIsOn, events)
    }

    constructor (frameCount: int, accurate: bool, randomMoves: bool)
      ensures State() == Initial(frameCount)
      ensures this.accurate == accurate && this.randomMoves == randomMoves
    {
      cur := Idle1;
      laserOnFrame := 0;
      frameIndex := 0;
      this.frameCount := frameCount;
      done := false;
      count := RandomMoves;
      laserIsOn := false;
      events := [];
      this.accurate := accurate;
      this.randomMoves := randomMoves;
    }

    method MoveRandomly(rx: int, ry: int)
      modifies this
      ensures var o := MoveRandomlyS(old(count), rx, ry);
        && count == o.count && done == (old(done) || o.setsDone) && events == old(events) + o.events
      ensures cur == old(cur) && laserOnFrame == old(laserOnFrame) && frameIndex == old(frameIndex)
      ensures frameCount == old(frameCount) && laserIsOn == old(laserIsOn)
    {
      if count == 0 {
        count := -1;
        events := events + [Home];
        return;
      } else if count == -1 {
        done := true;
        return;
      }
      count := count - 1;
      var px := Clamp(rx, 100, 1180);
      var py := Clamp(ry, 100, 860);
      events := events + [RandomMove(px, py)];
    }

    method AntLooker(doMove: bool)
      modifies this
      ensures events == old(events) + [LookForAnt(doMove)]
      ensures cur == old(cur) && laserOnFrame == old(laserOnFrame) && frameIndex == old(frameIndex)
      ensures frameCount == old(frameCount) && done == old(done) && count == old(count)
      ensures laserIsOn == old(laserIsOn)
    {
      events := events + [LookForAnt(doMove)];
    }

    method IdleLaserOffCase(f: Frame)
      requires cur == IdleLaserOff
      modifies this
      ensures State() == Apply(old(State()), SwitchOf(old(State()), f, accurate, randomMoves))
    {
      if randomMoves {
        MoveRandomly(f.rx, f.ry);
        cur := Idle1;
      } else if !f.laserVis {
        AntLooker(true);
        if f.antFound {
          cur := Idle1;
        }
      }
    }

    method Idle1Case(f: Frame)
      requires cur == Idle1
      modifies this
      ensures State() == Apply(old(State()), SwitchOf(old(State()), f, accurate, randomMoves))
    {
      if f.hwIdle {
        laserIsOn := true;
        events := events + [LaserOn];
        cur := Delay1;
        laserOnFrame := frameIndex;
      } else if !f.laserVis {
        AntLooker(false);
      }
    }

    /** `laser_frame_delay` is assigned here but never read again in this frame. */
    method Delay1Case(f: Frame)
      requires cur == Delay1
      modifies this
      ensures State() == Apply(old(State()), SwitchOf(old(State()), f, accurate, randomMoves))
    {
      var laserFrameDelay := f.delaySlot;
      if f.hwIdle {
        laserIsOn := false;
        events := events + [LaserOff];
        laserFrameDelay := f.lagRound + 1;
        if f.laserVis {
          events := events + [Correct];
          cur := if f.corrected then Idle2 else Delay2;
        } else {
          AntLooker(false);
          cur := WaitLaser;
        }
      } else {
        AntLooker(false);
      }
    }

    /** The decremented `laser_frame_delay` starts from whatever the variable holds on entry. */
    method WaitLaserCase(f: Frame)
      requires cur == WaitLaser
      modifies this
      ensures State() == Apply(old(State()), SwitchOf(old(State()), f, accurate, randomMoves))
    {
      var laserFrameDelay := f.delaySlot;
      if f.laserVis {
        events := events + [Correct];
        cur := if f.corrected then Idle2 else Delay2;
      } else {
        AntLooker(false);
        laserFrameDelay := laserFrameDelay - 1;
        if laserFrameDelay == 0 {
          cur := Delay2;
        }
      }
    }

    method Delay2Case(f: Frame)
      requires cur == Delay2
      modifies this
      ensures State() == Apply(old(State()), SwitchOf(old(State()), f, accurate, randomMoves))
    {
      if !f.laserVis {
        cur := IdleLaserOff;
        AntLooker(false);
      }
    }

    method Idle2Case(f: Frame)
      requires cur == Idle2
      modifies this
      ensures State() == Apply(old(State()), SwitchOf(old(State()), f, accurate, randomMoves))
    {
      if f.hwIdle {
        if accurate {
          laserIsOn := true;
          events := events + [LaserOn];
          cur := Delay1;
        } else {
          cur := Delay2;
        }
      } else if !f.laserVis {
        AntLooker(false);
      }
    }

    /** The loop body up to the `switch`. */
    method BeforeSwitch(f: Frame)
      modifies this
      ensures State() == PreSwitch(old(State()), f)
    {
      frameIndex := frameIndex + 1;
      frameCount := Wrap32(frameCount - 1);
      if frameCount == 0 {
        done := true;
      }
      if f.click {
        cur := Idle1;
      }
      if f.laserVis {
        if laserOnFrame != 0 {
          events := events + [LagSample(frameIndex - laserOnFrame)];
          laserOnFrame := 0;
        }
      }
    }

    /** `switch (cur_state)`, followed by `cur_state = next_state`. */
    method Switch(f: Frame)
      modifies this
      ensures State() == Apply(old(State()), SwitchOf(old(State()), f, accurate, randomMoves))
    {
      match cur {
        case IdleLaserOff => IdleLaserOffCase(f);
        case Idle1 => Idle1Case(f);
        case Delay1 => Delay1Case(f);
        case WaitLaser => WaitLaserCase(f);
        case Delay2 => Delay2Case(f);
        case Idle2 => Idle2Case(f);
      }
    }

    /** One pass of the loop body. */
    method Step(f: Frame)
      modifies this
      ensures State() == StepS(old(State()), f, accurate, randomMoves)
    {
      BeforeSwitch(f);
      Switch(f);
      if IsEsc(f.key) {
        done := true;
      }
    }

    /** `while (!done)` over the frames the camera delivers. */
    method Run(fs: seq<Frame>)
      modifies this
      ensures State() == RunS(old(State()), fs, accurate, randomMoves)
    {
      var i := 0;
      while i < |fs| && !done
        invariant 0 <= i <= |fs|
        invariant RunS(old(State()), fs, accurate, randomMoves) == RunS(State(), fs[i..], accurate, randomMoves)
      {
        assert fs[i..][1..] == fs[i + 1..];
        Step(fs[i]);
        i := i + 1;
      }
    }
  }
}
