/**
 * The trapezoidal step planner of the motor driver (`motor.make_ramp`).
 *
 * The planner splits a signed step count into per-interval step counts, one
 * per `accel_deltat` milliseconds: an acceleration prefix, a middle made of
 * the last interval's step count repeated plus a remainder, and the prefix
 * mirrored as the deceleration tail.  The Python code computes the step count
 * of interval i as int(i*dt*accel*dt + 0.5) with dt = accel_deltat/1000 in
 * floating point; here that is the exact integer
 * (2*i*accel*msdt*msdt + 10^6) / (2*10^6), and the cruise count
 * int(steps_per_sec*dt + 0.5) is (2*steps_per_sec*msdt + 1000) / 2000.
 */
module Ramp {
  import opened Common

  /** The three motion parameters the planner reads. */
  datatype RampParams = RampParams(accel: int, msdt: int, maxSps: int)

  const Defaults := RampParams(2800, 20, 800)

  /** i-fold sum of g, that is i * g (see TimesIsProduct). */
  function Times(i: nat, g: int): int
  {
    if i == 0 then 0 else Times(i - 1, g) + g
  }

  /** accel * dt * dt, scaled by 10^6 (dt in milliseconds). */
  function Gain(p: RampParams): int
  {
    p.accel * p.msdt * p.msdt
  }

  /** Step count of acceleration interval i (1-based). */
  function CurSteps(p: RampParams, i: nat): int
  {
    (2 * Times(i, Gain(p)) + 1_000_000) / 2_000_000
  }

  /** Step count of one interval at the cruise rate `steps_per_sec`. */
  function CruiseSteps(p: RampParams): int
  {
    (2 * p.maxSps * p.msdt + 1000) / 2000
  }

  /** After interval i the commanded rate i*dt*accel has reached `steps_per_sec`. */
  predicate AtCruise(p: RampParams, i: nat)
  {
    Times(i, p.msdt * p.accel) >= 1000 * p.maxSps
  }

  /** What the source needs for both loops of make_ramp to stop. */
  predicate Terminates(p: RampParams)
  {
    p.accel > 0 && p.msdt > 0 && CruiseSteps(p) >= 1
  }

  /**
   * make_ramp(target) returns: either the parameters let both loops stop
   * for every move, or the move is empty and the first interval's step
   * count is not negative, so the first loop stops at once.
   */
  predicate Halts(p: RampParams, target: nat)
  {
    Terminates(p) || (target == 0 && Gain(p) >= 0)
  }

  /** The state in which the acceleration loop stops. */
  datatype Plan = Plan(prefix: seq<int>, cur: int, extra: int)

  /**
   * The acceleration loop: `i` intervals have been appended to `prefix`,
   * which accounts for `total` steps (each counted twice, for the mirrored
   * tail).
   */
  function Accel(p: RampParams, target: nat, i: nat, prefix: seq<int>, total: int): (r: Plan)
    requires Terminates(p) || (target == 0 && total >= 0 && Gain(p) >= 0)
    requires i == 0 || !AtCruise(p, i)
    ensures r.cur >= 1 || r.extra <= 0
    decreases 1000 * p.maxSps - Times(i, p.msdt * p.accel)
  {
    var cur := CurSteps(p, i + 1);
    if cur * 2 + total >= target then Plan(prefix, cur, target - total)
    else if AtCruise(p, i + 1) then Plan(prefix, CruiseSteps(p), target - total)
    else
      // an empty move stops above, as cur is not negative
      CurStepsNonNeg(p, i + 1);
      Accel(p, target, i + 1, prefix + [cur], total + cur * 2)
  }

  /** The remainder loop: whole `cur` chunks, then whatever is left. */
  function Middle(cur: int, extra: int): seq<int>
    requires cur >= 1 || extra <= 0
    decreases extra
  {
    if extra <= 0 then []
    else if cur <= extra then [cur] + Middle(cur, extra - cur)
    else [extra]
  }

  function Reverse(s: seq<int>): seq<int>
  {
    if s == [] then [] else Reverse(s[1..]) + [s[0]]
  }

  function Negated(s: seq<int>): seq<int>
  {
    seq(|s|, k requires 0 <= k < |s| => -s[k])
  }

  function SumAbs(s: seq<int>): int
  {
    if s == [] then 0 else Abs(s[0]) + SumAbs(s[1..])
  }

  predicate NonDecreasing(s: seq<int>)
  {
    forall j, k :: 0 <= j < k < |s| ==> s[j] <= s[k]
  }

  /** The acceleration prefix and stopping state for a magnitude `target`. */
  function PlanFor(target: nat, p: RampParams): Plan
    requires Halts(p, target)
  {
    Accel(p, target, 0, [], 0)
  }

  /** What make_ramp(steps) returns. */
  function RampOf(steps: int, p: RampParams): seq<int>
    requires Halts(p, Abs(steps))
  {
    var plan := PlanFor(Abs(steps), p);
    var move := plan.prefix + Middle(plan.cur, plan.extra) + Reverse(plan.prefix);
    if steps < 0 then Negated(move) else move
  }

  /** One turn of the acceleration loop that neither stops nor reaches cruise. */
  lemma AccelTurn(p: RampParams, target: nat, i: nat, prefix: seq<int>, total: int)
    requires Halts(p, target) && (Terminates(p) || total == 0)
    requires i == 0 || !AtCruise(p, i)
    requires CurSteps(p, i + 1) * 2 + total < target && !AtCruise(p, i + 1)
    ensures Terminates(p)
    ensures Times(i, p.msdt * p.accel) < Times(i + 1, p.msdt * p.accel)
    ensures Accel(p, target, i, prefix, total)
      == Accel(p, target, i + 1, prefix + [CurSteps(p, i + 1)], total + CurSteps(p, i + 1) * 2)
  {
    CurStepsNonNeg(p, i + 1);
    assert p.msdt * p.accel > 0;
  }

  // ---------------------------------------------------------------------
  // The planner as the source writes it: two while loops, a reversal and
  // an in-place negation.

  /** The first loop of make_ramp: accelerate until half the distance or the cruise rate. */
  method Accelerate(target: nat, p: RampParams) returns (ramp: seq<int>, curSteps: int, extraSteps: int)
    requires Halts(p, target)
    ensures Plan(ramp, curSteps, extraSteps) == PlanFor(target, p)
  {
    ramp := [];
    var interval: nat := 0;
    var totalSteps := 0;
    var done := false;
    curSteps, extraSteps := 0, 0;
    while !done
      invariant interval == 0 || !AtCruise(p, interval)
      invariant Terminates(p) || totalSteps == 0
      invariant !done ==> Accel(p, target, interval, ramp, totalSteps) == PlanFor(target, p)
      invariant done ==> Plan(ramp, curSteps, extraSteps) == PlanFor(target, p)
      decreases !done, 1000 * p.maxSps - Times(interval, p.msdt * p.accel)
    {
      var next := interval + 1;
      CurStepsNonNeg(p, next);
      curSteps := CurSteps(p, next);
      if curSteps * 2 + totalSteps >= target {
        extraSteps := target - totalSteps;
        done := true;
      } else if AtCruise(p, next) {
        curSteps := CruiseSteps(p);
        extraSteps := target - totalSteps;
        done := true;
      } else {
        AccelTurn(p, target, interval, ramp, totalSteps);
        ramp := ramp + [curSteps];
        totalSteps := totalSteps + curSteps * 2;
        interval := next;
      }
    }
  }

  /** make_ramp: acceleration, the remainder loop, the mirrored tail, the sign. */
  method MakeRamp(steps: int, p: RampParams) returns (move: seq<int>)
    requires Halts(p, Abs(steps))
    ensures move == RampOf(steps, p)
    ensures SumAbs(move) == Abs(steps)
    ensures steps == 0 ==> move == []
  {
    var target: nat := Abs(steps);
    var ramp, curSteps, extraSteps := Accelerate(target, p);
    ghost var plan := PlanFor(target, p);
    move := ramp;
    while extraSteps > 0
      invariant curSteps >= 1 || extraSteps <= 0
      invariant move + Middle(curSteps, extraSteps) == plan.prefix + Middle(plan.cur, plan.extra)
      decreases extraSteps
    {
      ghost var prev, rest := move, Middle(curSteps, extraSteps);
      if curSteps <= extraSteps {
        assert rest == [curSteps] + Middle(curSteps, extraSteps - curSteps);
        move := move + [curSteps];
        extraSteps := extraSteps - curSteps;
      } else {
        assert rest == [extraSteps];
        move := move + [extraSteps];
        extraSteps := 0;
      }
      assert move + Middle(curSteps, extraSteps) == prev + rest;
    }
    move := move + Reverse(ramp);
    assert move == plan.prefix + Middle(plan.cur, plan.extra) + Reverse(plan.prefix);
    if steps < 0 {
      var i := 0;
      ghost var unsigned := move;
      while i < |move|
        invariant 0 <= i <= |move| == |unsigned|
        invariant forall k :: 0 <= k < i ==> move[k] == -unsigned[k]
        invariant forall k :: i <= k < |move| ==> move[k] == unsigned[k]
      {
        move := move[i := -move[i]];
        i := i + 1;
      }
      assert move == Negated(unsigned);
    }
    RampSum(steps, p);
    if steps == 0 {
      RampZero(p);
    }
  }

  // ---------------------------------------------------------------------
  // Facts about the acceleration loop.

  /** Invariant of Accel's arguments, needed to describe its result. */
  ghost predicate AccelInv(p: RampParams, target: nat, i: nat, prefix: seq<int>, total: int)
  {
    && |prefix| == i
    && (forall k :: 0 <= k < i ==> prefix[k] == CurSteps(p, k + 1))
    && (forall k :: 1 <= k <= i ==> !AtCruise(p, k))
    && total == 2 * Sum(prefix)
    && 0 <= total <= target
  }

  /** What the result of the acceleration loop satisfies. */
  ghost predicate PlanOk(p: RampParams, target: nat, r: Plan)
  {
    && (forall k :: 0 <= k < |r.prefix| ==> r.prefix[k] == CurSteps(p, k + 1))
    && (forall k :: 1 <= k <= |r.prefix| ==> !AtCruise(p, k))
    && 0 <= r.extra <= target
    && 2 * Sum(r.prefix) + r.extra == target
    && (r.cur == CruiseSteps(p) || (r.cur == CurSteps(p, |r.prefix| + 1) && r.extra <= 2 * r.cur))
    && (r.cur >= 1 || r.extra <= 0)
    && r.cur >= 0
  }

  lemma {:induction false} AccelOk(p: RampParams, target: nat, i: nat, prefix: seq<int>, total: int)
    requires Terminates(p)
    requires i == 0 || !AtCruise(p, i)
    requires AccelInv(p, target, i, prefix, total)
    ensures PlanOk(p, target, Accel(p, target, i, prefix, total))
    decreases 1000 * p.maxSps - Times(i, p.msdt * p.accel)
  {
    var cur := CurSteps(p, i + 1);
    if cur * 2 + total >= target || AtCruise(p, i + 1) {
      AccelStops(p, target, i, prefix, total);
    } else {
      AccelTurn(p, target, i, prefix, total);
      AccelInvStep(p, target, i, prefix, total);
      AccelOk(p, target, i + 1, prefix + [cur], total + cur * 2);
    }
  }

  /** The acceleration loop only appends: the plan's prefix extends the prefix built so far. */
  lemma {:induction false} AccelKeeps(p: RampParams, target: nat, i: nat, prefix: seq<int>, total: int)
    requires Halts(p, target) && (Terminates(p) || total == 0)
    requires i == 0 || !AtCruise(p, i)
    ensures |prefix| <= |Accel(p, target, i, prefix, total).prefix|
    ensures Accel(p, target, i, prefix, total).prefix[..|prefix|] == prefix
    decreases 1000 * p.maxSps - Times(i, p.msdt * p.accel)
  {
    var cur := CurSteps(p, i + 1);
    if cur * 2 + total < target && !AtCruise(p, i + 1) {
      var prefix' := prefix + [cur];
      AccelTurn(p, target, i, prefix, total);
      AccelKeeps(p, target, i + 1, prefix', total + cur * 2);
      var r := Accel(p, target, i + 1, prefix', total + cur * 2).prefix;
      assert r[..|prefix|] == r[..|prefix'|][..|prefix|];
    }
  }

  /** When the acceleration loop stops, its prefix is the one built so far and PlanOk holds. */
  lemma AccelStops(p: RampParams, target: nat, i: nat, prefix: seq<int>, total: int)
    requires Terminates(p)
    requires i == 0 || !AtCruise(p, i)
    requires AccelInv(p, target, i, prefix, total)
    requires CurSteps(p, i + 1) * 2 + total >= target || AtCruise(p, i + 1)
    ensures PlanOk(p, target, Accel(p, target, i, prefix, total))
    ensures Accel(p, target, i, prefix, total).prefix == prefix
  {
    CurStepsNonNeg(p, i + 1);
  }

  /** One more interval below half the distance and below the cruise rate keeps AccelInv. */
  lemma AccelInvStep(p: RampParams, target: nat, i: nat, prefix: seq<int>, total: int)
    requires Terminates(p)
    requires AccelInv(p, target, i, prefix, total)
    requires CurSteps(p, i + 1) * 2 + total < target && !AtCruise(p, i + 1)
    ensures AccelInv(p, target, i + 1, prefix + [CurSteps(p, i + 1)], total + CurSteps(p, i + 1) * 2)
  {
    var cur := CurSteps(p, i + 1);
    CurStepsNonNeg(p, i + 1);
    SumAppend(prefix, [cur]);
    assert Sum([cur]) == cur;
  }

  lemma {:induction false} TimesIsProduct(i: nat, g: int)
    ensures Times(i, g) == i * g
  {
    if i > 0 {
      TimesIsProduct(i - 1, g);
    }
  }

  lemma {:induction false} TimesMono(i: nat, j: nat, g: int)
    requires i <= j && g >= 0
    ensures 0 <= Times(i, g) <= Times(j, g)
    decreases j
  {
    if i < j {
      TimesMono(i, j - 1, g);
    } else if i > 0 {
      TimesMono(i - 1, i - 1, g);
    }
  }

  lemma GainPos(p: RampParams)
    requires Terminates(p)
    ensures Gain(p) > 0
  {
    MulPos(p.msdt, p.msdt);
    MulPos(p.accel, p.msdt * p.msdt);
    assert Gain(p) == p.accel * (p.msdt * p.msdt);
  }

  lemma CurStepsNonNeg(p: RampParams, i: nat)
    requires Terminates(p) || Gain(p) >= 0
    ensures CurSteps(p, i) >= 0
  {
    if Terminates(p) {
      GainPos(p);
    }
    TimesMono(0, i, Gain(p));
  }

  lemma MulPos(a: int, b: int)
    requires a > 0 && b > 0
    ensures a * b > 0
  {
  }

  /** The facts RampOf and MakeRamp need, for the initial call. */
  lemma PlanFacts(target: nat, p: RampParams)
    requires Terminates(p)
    ensures PlanOk(p, target, PlanFor(target, p))
  {
    AccelOk(p, target, 0, [], 0);
  }

  /** Interval step counts never decrease as the interval index grows. */
  lemma CurStepsMono(p: RampParams, i: nat, j: nat)
    requires Terminates(p) && i <= j
    ensures CurSteps(p, i) <= CurSteps(p, j)
  {
    GainPos(p);
    TimesMono(i, j, Gain(p));
  }

  /** Before the cruise rate is reached an interval moves at most the cruise count. */
  lemma BelowCruise(p: RampParams, i: nat)
    requires Terminates(p) && !AtCruise(p, i)
    ensures CurSteps(p, i) <= CruiseSteps(p)
  {
    var m, a, s := p.msdt, p.accel, p.maxSps;
    TimesIsProduct(i, m * a);
    TimesIsProduct(i, Gain(p));
    assert i * (m * a) < 1000 * s;
    assert 2 * (i * Gain(p)) == 2 * m * (i * (m * a));
    MulStrict(2 * m, i * (m * a), 1000 * s);
    assert 2 * (i * Gain(p)) + 1_000_000 <= 1000 * (2 * s * m + 1000);
    ScaledDiv(2 * s * m + 1000, 2000);
  }

  lemma MulStrict(c: int, x: int, y: int)
    requires c > 0 && x < y
    ensures c * x < c * y
  {
  }

  /** Dividing by 2*10^6 a number at most 1000*n gives at most n/2000. */
  lemma ScaledDiv(n: int, d: int)
    requires d == 2000
    ensures forall x :: x <= 1000 * n ==> x / (1000 * d) <= n / d
  {
    forall x | x <= 1000 * n
      ensures x / (1000 * d) <= n / d
    {
      var q := x / (1000 * d);
      assert q * (1000 * d) <= x;
      assert q * 2000 * 1000 <= 1000 * n;
      assert q * 2000 <= n;
    }
  }

  // ---------------------------------------------------------------------
  // Properties of the planned ramp.

  lemma {:induction false} SumAbsAppend(a: seq<int>, b: seq<int>)
    ensures SumAbs(a + b) == SumAbs(a) + SumAbs(b)
  {
    if a == [] {
      assert a + b == b;
    } else {
      assert (a + b)[1..] == a[1..] + b;
      SumAbsAppend(a[1..], b);
    }
  }

  lemma {:induction false} SumAbsReverse(s: seq<int>)
    ensures SumAbs(Reverse(s)) == SumAbs(s)
  {
    if s != [] {
      SumAbsReverse(s[1..]);
      SumAbsAppend(Reverse(s[1..]), [s[0]]);
    }
  }

  lemma {:induction false} SumAbsNegated(s: seq<int>)
    ensures SumAbs(Negated(s)) == SumAbs(s)
  {
    if s != [] {
      assert Negated(s)[1..] == Negated(s[1..]);
      SumAbsNegated(s[1..]);
    }
  }

  lemma {:induction false} SumAbsOfNonNeg(s: seq<int>)
    requires forall k :: 0 <= k < |s| ==> s[k] >= 0
    ensures SumAbs(s) == Sum(s)
  {
    if s != [] {
      SumAbsOfNonNeg(s[1..]);
    }
  }

  /** The remainder chunks: all equal to `cur` except a last one in (0, cur]; they sum to `extra`. */
  lemma {:induction false} MiddleShape(cur: int, extra: int)
    requires cur >= 1 && extra >= 0
    ensures Sum(Middle(cur, extra)) == extra
    ensures var m := Middle(cur, extra);
      && (extra == 0 <==> m == [])
      && (forall k :: 0 <= k < |m| - 1 ==> m[k] == cur)
      && (m != [] ==> 0 < m[|m| - 1] <= cur)
    decreases extra
  {
    if extra > 0 && cur <= extra {
      MiddleShape(cur, extra - cur);
    }
  }

  lemma {:induction false} ReverseIndex(s: seq<int>, k: int)
    requires 0 <= k < |s|
    ensures |Reverse(s)| == |s| && Reverse(s)[k] == s[|s| - 1 - k]
  {
    if |s| > 1 {
      ReverseIndex(s[1..], if k < |s| - 1 then k else 0);
    }
    ReverseLength(s);
  }

  lemma {:induction false} ReverseLength(s: seq<int>)
    ensures |Reverse(s)| == |s|
  {
    if s != [] { ReverseLength(s[1..]); }
  }

  /** make_ramp moves exactly |steps| steps in total. */
  lemma RampSum(steps: int, p: RampParams)
    requires Halts(p, Abs(steps))
    ensures SumAbs(RampOf(steps, p)) == Abs(steps)
  {
    if !Terminates(p) {
      RampZero(p);
      return;
    }
    var target := Abs(steps);
    var plan := PlanFor(target, p);
    PlanFacts(target, p);
    var mid := Middle(plan.cur, plan.extra);
    var move := plan.prefix + mid + Reverse(plan.prefix);
    if plan.cur >= 1 {
      MiddleShape(plan.cur, plan.extra);
    }
    assert forall k :: 0 <= k < |mid| ==> mid[k] >= 0 by {
      if plan.cur >= 1 { MiddleShape(plan.cur, plan.extra); }
    }
    assert forall k :: 0 <= k < |plan.prefix| ==> plan.prefix[k] >= 0 by {
      forall k | 0 <= k < |plan.prefix| ensures plan.prefix[k] >= 0 {
        CurStepsNonNeg(p, k + 1);
      }
    }
    SumAbsAppend(plan.prefix + mid, Reverse(plan.prefix));
    SumAbsAppend(plan.prefix, mid);
    SumAbsReverse(plan.prefix);
    SumAbsOfNonNeg(plan.prefix);
    SumAbsOfNonNeg(mid);
    assert Sum(mid) == plan.extra by {
      if plan.cur >= 1 { MiddleShape(plan.cur, plan.extra); }
    }
    if steps < 0 {
      SumAbsNegated(move);
    }
  }

  /** make_ramp(0) is the empty list. */
  lemma RampZero(p: RampParams)
    requires Halts(p, 0)
    ensures RampOf(0, p) == []
  {
    CurStepsNonNeg(p, 1);
    assert PlanFor(0, p) == Plan([], CurSteps(p, 1), 0);
  }

  /** Every nonzero interval has the sign of the requested step count. */
  lemma RampSigns(steps: int, p: RampParams)
    requires Halts(p, Abs(steps))
    ensures forall k :: 0 <= k < |RampOf(steps, p)| ==>
              (steps > 0 ==> RampOf(steps, p)[k] >= 0) && (steps < 0 ==> RampOf(steps, p)[k] <= 0)
  {
    if !Terminates(p) {
      RampZero(p);
      return;
    }
    var target := Abs(steps);
    var plan := PlanFor(target, p);
    PlanFacts(target, p);
    var mid := Middle(plan.cur, plan.extra);
    var move := plan.prefix + mid + Reverse(plan.prefix);
    ReverseLength(plan.prefix);
    forall k | 0 <= k < |move| ensures move[k] >= 0 {
      if k < |plan.prefix| {
        CurStepsNonNeg(p, k + 1);
      } else if k < |plan.prefix| + |mid| {
        MiddleShape(plan.cur, plan.extra);
      } else {
        var j := k - |plan.prefix| - |mid|;
        ReverseIndex(plan.prefix, j);
        CurStepsNonNeg(p, |plan.prefix| - j);
      }
    }
  }

  /**
   * The shape of make_ramp's result: prefix ++ middle ++ reverse(prefix),
   * the prefix non-decreasing and bounded by the final `cur_steps`, the
   * middle all `cur_steps` except a last chunk in (0, cur_steps].
   */
  lemma RampShape(steps: int, p: RampParams)
    requires Halts(p, Abs(steps))
    ensures var plan := PlanFor(Abs(steps), p);
      && NonDecreasing(plan.prefix)
      && (forall k :: 0 <= k < |plan.prefix| ==> 0 <= plan.prefix[k] <= plan.cur)
      && (forall k :: 0 <= k < |plan.prefix| ==> plan.prefix[k] <= CruiseSteps(p))
      && var mid := Middle(plan.cur, plan.extra);
      && (forall k :: 0 <= k < |mid| - 1 ==> mid[k] == plan.cur)
      && (mid != [] ==> 0 < mid[|mid| - 1] <= plan.cur)
      && var unsigned := plan.prefix + mid + Reverse(plan.prefix);
      && RampOf(steps, p) == (if steps < 0 then Negated(unsigned) else unsigned)
  {
    var target := Abs(steps);
    var plan := PlanFor(target, p);
    if !Terminates(p) {
      CurStepsNonNeg(p, 1);
      assert plan == Plan([], CurSteps(p, 1), 0);
      return;
    }
    PlanFacts(target, p);
    forall j, k | 0 <= j < k < |plan.prefix| ensures plan.prefix[j] <= plan.prefix[k] {
      CurStepsMono(p, j + 1, k + 1);
    }
    forall k | 0 <= k < |plan.prefix|
      ensures 0 <= plan.prefix[k] <= plan.cur && plan.prefix[k] <= CruiseSteps(p)
    {
      CurStepsNonNeg(p, k + 1);
      assert !AtCruise(p, k + 1);
      BelowCruise(p, k + 1);
      if plan.cur != CruiseSteps(p) {
        CurStepsMono(p, k + 1, |plan.prefix| + 1);
      }
    }
    if plan.cur >= 1 {
      MiddleShape(plan.cur, plan.extra);
    }
  }

  /**
   * The ramp is not unimodal: with the default parameters a 10-step move is
   * planned as 1,2,3 then a remainder 1 then the mirrored 2,1.
   */
  lemma RampNotUnimodal()
    ensures RampOf(10, Defaults) == [1, 2, 3, 1, 2, 1]
  {
    assert CurSteps(Defaults, 1) == 1;
    assert CurSteps(Defaults, 2) == 2;
    assert CurSteps(Defaults, 3) == 3;
    assert PlanFor(10, Defaults) == Plan([1, 2], 3, 4);
    assert Middle(3, 4) == [3, 1];
    assert Reverse([1, 2]) == [2, 1];
  }

  lemma {:induction false} SumOfOneSign(s: seq<int>, positive: bool)
    requires forall k :: 0 <= k < |s| ==> if positive then s[k] >= 0 else s[k] <= 0
    ensures Sum(s) == if positive then SumAbs(s) else -SumAbs(s)
  {
    if s != [] {
      SumOfOneSign(s[1..], positive);
    }
  }

  /** The signed entries of make_ramp(s) add up to s. */
  lemma RampTotal(steps: int, p: RampParams)
    requires Halts(p, Abs(steps))
    ensures Sum(RampOf(steps, p)) == steps
  {
    RampSigns(steps, p);
    RampSum(steps, p);
    if steps == 0 {
      RampZero(p);
    }
    SumOfOneSign(RampOf(steps, p), steps >= 0);
  }

  // ---------------------------------------------------------------------
  // Parameters under which make_ramp does not return.

  /**
   * With zero acceleration and a positive cruise rate every interval moves
   * 0 steps and the cruise rate is never reached: for a nonzero move the
   * acceleration loop appends 0 with its total still 0, for ever.
   */
  lemma NoAccelStalls(p: RampParams, target: nat, i: nat)
    requires p.accel == 0 && p.maxSps > 0 && target > 0
    ensures CurSteps(p, i) * 2 + 0 < target && !AtCruise(p, i)
  {
    TimesIsProduct(i, Gain(p));
    TimesIsProduct(i, p.msdt * p.accel);
  }

  /**
   * With a cruise count of 0 the acceleration loop can stop at the cruise
   * rate with steps still to go: a 10-step move at `steps_per_sec` 1 stops
   * after the first interval with cur 0 and 10 steps left, and the
   * remainder loop then appends 0 without reducing them.
   */
  lemma ZeroCruiseStalls()
    ensures var p := Defaults.(maxSps := 1);
      && CruiseSteps(p) == 0
      && CurSteps(p, 1) * 2 < 10 && AtCruise(p, 1)
      && var cur, extra := CruiseSteps(p), 10 - 0;
      && cur <= extra && extra - cur == extra
  {
  }
}
