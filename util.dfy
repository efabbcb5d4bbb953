/**
 * The helpers of units/util.cpp: ring-buffer running averages over the
 * last `nitems` values (scalars, and 2-D points for the direction
 * average), and the laser wrapper that remembers whether it switched the
 * laser on.  Doubles are exact reals here.
 */
module Util {
  import Hw

  function SumR(s: seq<real>): real
  {
    if s == [] then 0.0 else SumR(s[..|s| - 1]) + s[|s| - 1]
  }

  lemma {:induction false} SumRFront(s: seq<real>)
    requires s != []
    ensures SumR(s) == s[0] + SumR(s[1..])
  {
    if |s| > 1 {
      SumRFront(s[..|s| - 1]);
      assert s[..|s| - 1][1..] == s[1..][..|s[1..]| - 1];
    }
  }

  /** Dropping the oldest value and adding a new one moves the sum by their difference. */
  lemma SumRSlide(w: seq<real>, d: real)
    requires w != []
    ensures SumR(w[1..] + [d]) == SumR(w) - w[0] + d
  {
    SumRFront(w);
    assert (w[1..] + [d])[..|w[1..] + [d]| - 1] == w[1..];
  }

  /** The last `n` values of a history. */
  function Last<T>(h: seq<T>, n: nat): seq<T>
    requires n <= |h|
  {
    h[|h| - n..]
  }

  /**
   * The values a ring buffer `a` holds, oldest first: while fewer than
   * |a| have been written they sit in order at the front; once full they
   * run from the next slot to write round to the one before it.
   */
  function Ring<T>(a: seq<T>, inPos: int, n: int): seq<T>
    requires 0 <= n <= |a| && 0 <= inPos <= |a|
  {
    if n < |a| then a[..n] else a[inPos..] + a[..inPos]
  }

  /** The slot after `i` in a buffer of `cap` slots. */
  function NextSlot(i: int, cap: int): (r: int)
    requires 0 <= i < cap
    ensures 0 <= r < cap
  {
    if i + 1 == cap then 0 else i + 1
  }

  /** The write position advances modulo the buffer size. */
  lemma NextSlotMod(i: int, cap: int)
    requires 0 <= i < cap
    ensures NextSlot(i, cap) == (i + 1) % cap
  {
  }

  /** Writing the next slot of a full buffer drops the oldest value and adds the new one last. */
  lemma RingPushFull<T>(a: seq<T>, inPos: int, d: T)
    requires 0 <= inPos < |a|
    ensures Ring(a[inPos := d], NextSlot(inPos, |a|), |a|) == Ring(a, inPos, |a|)[1..] + [d]
  {
    var a' := a[inPos := d];
    if inPos + 1 == |a| {
      assert a'[0..] + a'[..0] == a[..inPos] + [d];
    } else {
      assert a'[inPos + 1..] == a[inPos + 1..];
      assert a'[..inPos + 1] == a[..inPos] + [d];
    }
  }

  /** Writing the next slot of a filling buffer adds the new value last. */
  lemma RingPushFilling<T>(a: seq<T>, n: int, d: T)
    requires 0 <= n < |a|
    ensures var n' := if n + 1 < |a| then n + 1 else |a|;
      Ring(a[n := d], NextSlot(n, |a|), n') == Ring(a, n, n) + [d]
  {
    var a' := a[n := d];
    if n + 1 < |a| {
      assert a'[..n + 1] == a[..n] + [d];
    } else {
      assert a'[0..] + a'[..0] == a[..n] + [d];
    }
  }

  lemma LastPush<T>(h: seq<T>, n: nat, cap: nat, d: T)
    requires n <= |h| && n <= cap && 0 < cap && (n < cap ==> n == |h|)
    ensures var n' := if n + 1 < cap then n + 1 else cap;
      n' <= |h + [d]| &&
      Last(h + [d], n') == if n == cap then Last(h, n)[1..] + [d] else Last(h, n) + [d]
  {
  }

  lemma SumRSnoc(w: seq<real>, d: real)
    ensures SumR(w + [d]) == SumR(w) + d
  {
    assert (w + [d])[..|w|] == w;
  }

  /**
   * The ring buffer `a` with `n` values and write position `inPos` holds
   * the last `n` values of `history`.
   */
  ghost predicate Slots<T>(a: seq<T>, n: int, inPos: int, history: seq<T>)
  {
    && 0 <= n <= |a| && n <= |history| && 0 <= inPos && (inPos < |a| || inPos == 0)
    && (n < |a| ==> inPos == n && n == |history|)
    && Ring(a, inPos, n) == Last(history, n)
  }

  /**
   * add_item's write: the buffer, with the value written at the write
   * position, then holds the last min(n+1, |a|) values of the longer history.
   */
  lemma SlotsPush<T>(a: seq<T>, n: int, inPos: int, history: seq<T>, d: T, a': seq<T>, n': int, inPos': int)
    requires Slots(a, n, inPos, history) && |a| > 0
    requires a' == a[inPos := d] && n' == (if n == |a| then n else n + 1) && inPos' == NextSlot(inPos, |a|)
    ensures Slots(a', n', inPos', history + [d])
  {
    LastPush(history, n, |a|, d);
    if n == |a| {
      RingPushFull(a, inPos, d);
    } else {
      RingPushFilling(a, n, d);
    }
  }

  /** add_item's total: less the overwritten value when full, plus the new one. */
  lemma TotalPush(a: seq<real>, n: int, inPos: int, history: seq<real>, d: real, t: real, t': real)
    requires Slots(a, n, inPos, history) && |a| > 0 && t == SumR(Last(history, n))
    requires t' == (if n == |a| then t - a[inPos] else t) + d
    ensures t' == SumR(Last(history + [d], if n == |a| then n else n + 1))
  {
    LastPush(history, n, |a|, d);
    if n == |a| {
      TotalSlide(a, inPos, history, d, t, t');
    } else {
      var w := Last(history, n);
      assert Last(history + [d], n + 1) == w + [d];
      SumRSnoc(w, d);
    }
  }

  /** A full buffer drops its oldest value, the one at `inPos`, from the total. */
  lemma TotalSlide(a: seq<real>, inPos: int, history: seq<real>, d: real, t: real, t': real)
    requires Slots(a, |a|, inPos, history) && |a| > 0 && t == SumR(Last(history, |a|))
    requires t' == t - a[inPos] + d
    ensures t' == SumR(Last(history, |a|)[1..] + [d])
  {
    var w := Last(history, |a|);
    assert w[0] == a[inPos] by {
      assert w == Ring(a, inPos, |a|);
    }
    SumRSlide(w, d);
  }

  /** The same for a total of points. */
  lemma PointTotalPush(a: seq<Point>, n: int, inPos: int, history: seq<Point>, p: Point, t: Point, t': Point)
    requires Slots(a, n, inPos, history) && |a| > 0 && t == SumP(Last(history, n))
    requires t' == Plus(if n == |a| then Minus(t, a[inPos]) else t, p)
    ensures t' == SumP(Last(history + [p], if n == |a| then n else n + 1))
  {
    LastPush(history, n, |a|, p);
    if n == |a| {
      assert Ring(a, inPos, |a|)[0] == a[inPos];
      SumPSlide(Last(history, n), p);
    } else {
      SumPSnoc(Last(history, n), p);
    }
  }


  /**
   * A running average: `items` is a ring buffer of the last `n` values
   * (at most `nitems`), `inPos` (the source's `in`) the next slot to
   * write and `total` their sum.  `items` is null for a
   * default-constructed object.
   */
  class RunningAverage {
    var items: array?<real>
    const nitems: int
    var n: int
    var inPos: int
    var total: real
    ghost var history: seq<real>

    ghost predicate Valid()
      reads this, items
    {
      && 0 <= nitems
      && (items == null ==> history == [] && n == 0 && inPos == 0)
      && (items != null ==> items.Length == nitems && Slots(items[..], n, inPos, history))
      && total == SumR(Last(history, n))
    }

    /** The default constructor: no buffer. */
    constructor Empty()
      ensures Valid() && items == null && nitems == 0 && history == []
    {
      assert Last<real>([], 0) == [];
      nitems := 0;
      items := null;
      total := 0.0;
      n, inPos := 0, 0;
      history := [];
    }

    constructor (nitems: nat)
      ensures Valid() && items != null && fresh(items) && this.nitems == nitems && history == []
    {
      this.nitems := nitems;
      items := new real[nitems];
      total := 0.0;
      n, inPos := 0, 0;
      history := [];
    }

    /**
     * Records `d`.  The buffer must exist; with `nitems == 0` the source
     * would read `items[0]` of an empty buffer.
     */
    method AddItem(d: real)
      requires Valid() && items != null && nitems > 0
      modifies this, items
      ensures Valid() && items == old(items) && history == old(history) + [d]
      ensures n == (if old(n) + 1 < nitems then old(n) + 1 else nitems)
      ensures inPos == NextSlot(old(inPos), nitems)
      ensures total == SumR(Last(history, n))
    {
      ghost var a, n0, i, h, t := items[..], n, inPos, history, total;
      if n == nitems {
        total := total - items[inPos];
      } else {
        n := n + 1;
      }
      total := total + d;
      items[inPos] := d;
      inPos := inPos + 1;
      if inPos == nitems {
        inPos := 0;
      }
      history := history + [d];
      SlotsPush(a, n0, i, h, d, items[..], n, inPos);
      TotalPush(a, n0, i, h, d, t, total);
    }

    /** The mean of the values held, 0 before the first. */
    method Average() returns (r: real)
      requires Valid()
      ensures n == 0 ==> r == 0.0
      ensures n > 0 ==> r == SumR(Last(history, n)) / n as real
    {
      if n == 0 {
        return 0.0;
      }
      r := total / n as real;
    }
  }

  /** A cv::Point2d. */
  datatype Point = Point(x: real, y: real)

  /** Point2d's `+` and `-`. */
  function Plus(a: Point, b: Point): Point
  {
    Point(a.x + b.x, a.y + b.y)
  }

  function Minus(a: Point, b: Point): Point
  {
    Point(a.x - b.x, a.y - b.y)
  }

  function SumP(s: seq<Point>): Point
  {
    if s == [] then Point(0.0, 0.0)
    else Plus(SumP(s[..|s| - 1]), s[|s| - 1])
  }

  lemma {:induction false} SumPFront(s: seq<Point>)
    requires s != []
    ensures SumP(s) == Plus(s[0], SumP(s[1..]))
  {
    if |s| > 1 {
      SumPFront(s[..|s| - 1]);
      assert s[..|s| - 1][1..] == s[1..][..|s[1..]| - 1];
    }
  }

  lemma SumPSlide(w: seq<Point>, p: Point)
    requires w != []
    ensures SumP(w[1..] + [p]) == Plus(Minus(SumP(w), w[0]), p)
  {
    SumPFront(w);
    assert (w[1..] + [p])[..|w[1..] + [p]| - 1] == w[1..];
  }

  lemma SumPSnoc(w: seq<Point>, p: Point)
    ensures SumP(w + [p]) == Plus(SumP(w), p)
  {
    assert (w + [p])[..|w|] == w;
  }


  /** The same ring-buffer bookkeeping as RunningAverage, over points. */
  class DirectionAverage {
    var items: array?<Point>
    const nitems: int
    var n: int
    var inPos: int
    var total: Point
    ghost var history: seq<Point>

    ghost predicate Valid()
      reads this, items
    {
      && 0 <= nitems
      && (items == null ==> history == [] && n == 0 && inPos == 0)
      && (items != null ==> items.Length == nitems && Slots(items[..], n, inPos, history))
      && total == SumP(Last(history, n))
    }

    constructor Empty()
      ensures Valid() && items == null && nitems == 0 && history == []
    {
      assert Last<Point>([], 0) == [];
      nitems := 0;
      items := null;
      total := Point(0.0, 0.0);
      n, inPos := 0, 0;
      history := [];
    }

    constructor (nitems: nat)
      ensures Valid() && items != null && fresh(items) && this.nitems == nitems && history == []
    {
      this.nitems := nitems;
      items := new Point[nitems](_ => Point(0.0, 0.0));
      total := Point(0.0, 0.0);
      n, inPos := 0, 0;
      history := [];
    }

    method AddItem(p: Point)
      requires Valid() && items != null && nitems > 0
      modifies this, items
      ensures Valid() && items == old(items) && history == old(history) + [p]
      ensures n == (if old(n) + 1 < nitems then old(n) + 1 else nitems)
      ensures inPos == NextSlot(old(inPos), nitems)
      ensures total == SumP(Last(history, n))
    {
      ghost var a, n0, i, h, t := items[..], n, inPos, history, total;
      if n == nitems {
        total := Minus(total, items[inPos]);
      } else {
        n := n + 1;
      }
      total := Plus(total, p);
      items[inPos] := p;
      inPos := inPos + 1;
      if inPos == nitems {
        inPos := 0;
      }
      history := history + [p];
      SlotsPush(a, n0, i, h, p, items[..], n, inPos);
      PointTotalPush(a, n0, i, h, p, t, total);
    }
  }

  /** The laser wrapper: remembers the state it last asked the hardware for. */
  class Laser {
    var isOn: bool
    const hw: Hw.HwUnit

    constructor (hw: Hw.HwUnit, start: bool)
      ensures isOn == start && this.hw == hw
    {
      isOn := start;
      this.hw := hw;
    }

    method LaserOn()
      requires hw.Valid()
      modifies this, hw
      ensures isOn && hw.Valid()
      ensures hw.State() == Hw.SwitchLaserS(old(hw.State()), hw.fakeLaser, true)
    {
      isOn := true;
      hw.SwitchLaser(true);
    }

    method LaserOff()
      requires hw.Valid()
      modifies this, hw
      ensures !isOn && hw.Valid()
      ensures hw.State() == Hw.SwitchLaserS(old(hw.State()), hw.fakeLaser, false)
    {
      isOn := false;
      hw.SwitchLaser(false);
    }
  }
}
