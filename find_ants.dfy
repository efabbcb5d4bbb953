/**
 * Frame navigation of the ant-clicking movie viewer (movies/find_ants.cpp
 * process_keys): keys step the frame index forwards or backwards by a
 * typed-in count, clamped to the movie, and a right click moves on by one.
 *
 * `waitKey(1)` and the mouse callback are inputs: each turn of the loop
 * reads one `Poll`.
 */
module FindAnts {
  import opened Common

  const RightArrow: int := 0xff53
  const LeftArrow: int := 0xff51
  const Escape: int := 27

  /** The click the mouse callback recorded since the last turn, if any. */
  datatype Click = NoClick | LeftDown | RightDown

  /** One turn of the loop: what `waitKey(1)` returned and the click seen. */
  datatype Poll = Poll(key: int, click: Click)

  /** The loop's variables: the typed-in count, the frame index and `done`. */
  datatype Keys = Keys(count: int, frameIndex: int, done: bool)

  predicate IsForward(c: int)
  {
    c == RightArrow || c == 'n' as int || c == ' ' as int
  }

  predicate IsBack(c: int)
  {
    c == LeftArrow || c == 'p' as int
  }

  predicate IsDigit(c: int)
  {
    '0' as int <= c <= '9' as int
  }

  predicate IsQuit(c: int)
  {
    c == Escape || c == 'q' as int
  }

  /** The step a move key takes: the count, or 1 when none was typed. */
  function StepOf(count: int): int
  {
    if count == 0 then 1 else count
  }

  /** The `switch (key & 0xffff)` for a key `waitKey` returned. */
  function OnKey(s: Keys, key: int, nframes: int): Keys
  {
    if key <= 0 then s
    else
      var c := key % 0x1_0000;
      if IsForward(c) then
        var step := StepOf(s.count);
        Keys(step, if step + s.frameIndex < nframes then s.frameIndex + step else Wrap32(nframes - 1), s.done)
      else if IsBack(c) then
        var step := StepOf(s.count);
        Keys(step, if s.frameIndex - step > 0 then s.frameIndex - step else 0, s.done)
      else if IsDigit(c) then
        s.(count := s.count * 10 + c - '0' as int)
      else if IsQuit(c) then
        s.(done := true)
      else
        s
  }

  /** One turn of the loop: the key, then the click (a right click is `frame_index++`). */
  function Step(s: Keys, p: Poll, nframes: int): Keys
  {
    var t := OnKey(s, p.key, nframes);
    if p.click == RightDown then t.(frameIndex := Wrap32(t.frameIndex + 1)) else t
  }

  /**
   * The turns process_keys takes over `polls` while the frame index is still
   * `cur` and `done` is unset: the state it returns in and the number of
   * polls used. Running out of polls stands for waiting on.
   */
  function Loop(polls: seq<Poll>, s: Keys, cur: int, nframes: int): (r: (Keys, nat))
    ensures r.1 <= |polls|
  {
    if s.frameIndex != cur || s.done || polls == [] then (s, 0)
    else
      var next := Loop(polls[1..], Step(s, polls[0], nframes), cur, nframes);
      (next.0, next.1 + 1)
  }

  /**
   * process_keys: poll until the frame index changes or `done` is set.
   * `used` is the number of polls consumed; it is all of them only when the
   * loop is still waiting.
   */
  method ProcessKeys(polls: seq<Poll>, done: bool, frameIndex: int, nframes: int)
    returns (done': bool, frameIndex': int, used: nat)
    ensures var r := Loop(polls, Keys(0, frameIndex, done), frameIndex, nframes);
      done' == r.0.done && frameIndex' == r.0.frameIndex && used == r.1
    ensures used < |polls| ==> frameIndex' != frameIndex || done'
  {
    var count := 0;
    done', frameIndex' := done, frameIndex;
    used := 0;
    while frameIndex' == frameIndex && !done' && used < |polls|
      invariant used <= |polls|
      invariant Loop(polls[used..], Keys(count, frameIndex', done'), frameIndex, nframes)
                == (Loop(polls, Keys(0, frameIndex, done), frameIndex, nframes).0,
                    Loop(polls, Keys(0, frameIndex, done), frameIndex, nframes).1 - used)
      decreases |polls| - used
    {
      assert polls[used..][1..] == polls[used + 1..];
      count, frameIndex', done' := Turn(count, frameIndex', done', polls[used], nframes);
      used := used + 1;
    }
  }

  /** The body of the loop: handle the key, if any, then the click. */
  method Turn(count: int, frameIndex: int, done: bool, p: Poll, nframes: int)
    returns (count': int, frameIndex': int, done': bool)
    ensures Keys(count', frameIndex', done') == Step(Keys(count, frameIndex, done), p, nframes)
  {
    count', frameIndex', done' := count, frameIndex, done;
    var key := p.key;
    if key > 0 {
      key := key % 0x1_0000;
      if IsForward(key) {
        if count' == 0 {
          count' := 1;
        }
        if count' + frameIndex' < nframes {
          frameIndex' := frameIndex' + count';
        } else {
          frameIndex' := Wrap32(nframes - 1);
        }
      } else if IsBack(key) {
        if count' == 0 {
          count' := 1;
        }
        if frameIndex' - count' > 0 {
          frameIndex' := frameIndex' - count';
        } else {
          frameIndex' := 0;
        }
      } else if IsDigit(key) {
        count' := count' * 10 + key - '0' as int;
      } else if IsQuit(key) {
        done' := true;
      }
    }
    if p.click == RightDown {
      frameIndex' := Wrap32(frameIndex' + 1);
    }
  }

  /** A forward key moves to `frame_index + step`, clamped to the last frame. */
  lemma ForwardClamps(s: Keys, key: int, nframes: int)
    requires key > 0 && IsForward(key % 0x1_0000)
    requires 0 <= s.frameIndex < nframes < U32
    ensures var t := OnKey(s, key, nframes);
      && t.frameIndex == Min(s.frameIndex + StepOf(s.count), nframes - 1)
      && t.count == StepOf(s.count) && t.done == s.done
  {
  }

  /** A back key moves to `frame_index - step`, clamped to the first frame. */
  lemma BackClamps(s: Keys, key: int, nframes: int)
    requires key > 0 && IsBack(key % 0x1_0000)
    ensures var t := OnKey(s, key, nframes);
      && t.frameIndex == Max(s.frameIndex - StepOf(s.count), 0)
      && t.count == StepOf(s.count) && t.done == s.done
  {
  }

  /** ESC or 'q' (under the 0xffff mask) sets `done` and changes nothing else. */
  lemma QuitStops(s: Keys, key: int, nframes: int)
    requires key > 0 && IsQuit(key % 0x1_0000)
    ensures OnKey(s, key, nframes) == s.(done := true)
  {
  }

  /** A run of polls with no right click keeps a frame index of a non-empty movie in range. */
  lemma {:induction false} KeysStayInRange(polls: seq<Poll>, s: Keys, cur: int, nframes: int)
    requires 0 <= s.frameIndex < nframes < U32 && s.count >= 0
    requires forall i :: 0 <= i < |polls| ==> polls[i].click != RightDown
    ensures var r := Loop(polls, s, cur, nframes).0;
      0 <= r.frameIndex < nframes && r.count >= 0
  {
    if !(s.frameIndex != cur || s.done || polls == []) {
      var t := Step(s, polls[0], nframes);
      assert 0 <= t.frameIndex < nframes && t.count >= 0;
      KeysStayInRange(polls[1..], t, cur, nframes);
    }
  }

  /** A right click on the last frame moves past the end of the movie. */
  lemma RightClickPassesEnd()
    ensures Step(Keys(0, 4, false), Poll(0, RightDown), 5).frameIndex == 5
  {
  }

  /** A forward key in an empty movie wraps `nframes - 1` to the largest uint32. */
  lemma EmptyMovieWraps()
    ensures OnKey(Keys(0, 0, false), 'n' as int, 0).frameIndex == 0xffff_ffff
  {
  }

  /** The digits `ds` read as a decimal number, most significant first. */
  function Decimal(ds: seq<int>): int
  {
    if ds == [] then 0 else ds[0] * Pow10(|ds| - 1) + Decimal(ds[1..])
  }

  function Pow10(n: nat): (p: nat)
    ensures p >= 1
  {
    if n == 0 then 1 else 10 * Pow10(n - 1)
  }

  /** The polls typing the digits `ds`, one key each, with no click. */
  function Typed(ds: seq<int>): (ps: seq<Poll>)
    ensures |ps| == |ds|
    ensures forall i :: 0 <= i < |ds| ==> ps[i] == Poll('0' as int + ds[i], NoClick)
  {
    if ds == [] then [] else [Poll('0' as int + ds[0], NoClick)] + Typed(ds[1..])
  }

  /**
   * Typing digits appends them to the count in decimal: from count `c`,
   * the digits `ds` leave `c * 10^|ds| + Decimal(ds)`, and the frame index
   * and `done` are untouched, so the loop keeps polling.
   */
  lemma {:induction false} DigitsAccumulate(ds: seq<int>, s: Keys, nframes: int)
    requires forall i :: 0 <= i < |ds| ==> 0 <= ds[i] <= 9
    requires !s.done
    ensures Loop(Typed(ds), s, s.frameIndex, nframes)
         == (s.(count := s.count * Pow10(|ds|) + Decimal(ds)), |ds|)
  {
    if ds != [] {
      var ps := Typed(ds);
      var t := s.(count := s.count * 10 + ds[0]);
      assert Step(s, ps[0], nframes) == t;
      assert ps[1..] == Typed(ds[1..]);
      DigitsAccumulate(ds[1..], t, nframes);
      var n := Pow10(|ds| - 1);
      assert Pow10(|ds|) == 10 * n;
      Regroup(s.count, ds[0], n, Decimal(ds[1..]));
    }
  }

  lemma Regroup(c: int, d: int, n: int, e: int)
    ensures (c * 10 + d) * n + e == c * (10 * n) + (d * n + e)
  {
  }
}
