/**
 * The backlash recorder of units/hw.cpp: a singly linked list of the step
 * commands issued for one move (the move itself, then any corrections,
 * then a zero-step stop), with a head pointer `pls` and a tail pointer
 * `ple`.  Freeing memory and the SQL dump are not part of the model.
 *
 * The ghost sequence `chain` lists the nodes reachable from the tail's
 * chain start: from `pls` when the list hangs off the head, otherwise the
 * nodes that `stop`/`add_corr` linked behind `ple` after a `cleanup`
 * (the source keeps no head for them).
 */
module Backlash {
  import opened Common
  import Hw

  /** The parts of a `struct loc` the recorder reads. */
  datatype Loc = Loc(px: int, py: int, m1Steps: real, m2Steps: real)

  /** The value of one node: where the laser was and the steps commanded. */
  datatype Step = Step(loc: Option<Loc>, lastM1: int, lastM2: int, m1s: real, m2s: real)

  class StepNode {
    const loc: Option<Loc>
    const lastM1: int
    const lastM2: int
    const m1s: real
    const m2s: real
    var next: StepNode?

    constructor (loc: Option<Loc>, lastM1: int, lastM2: int, m1s: real, m2s: real)
      ensures Value() == Step(loc, lastM1, lastM2, m1s, m2s) && next == null
    {
      this.loc, this.lastM1, this.lastM2 := loc, lastM1, lastM2;
      this.m1s, this.m2s := m1s, m2s;
      next := null;
    }

    function Value(): Step
    {
      Step(loc, lastM1, lastM2, m1s, m2s)
    }
  }

  function Values(ns: seq<StepNode>): (r: seq<Step>)
    ensures |r| == |ns| && forall i :: 0 <= i < |ns| ==> r[i] == ns[i].Value()
  {
    seq(|ns|, i requires 0 <= i < |ns| => ns[i].Value())
  }

  /** The recorder's state as a value; `listed` says whether the steps hang off `pls`. */
  datatype Recorder = Recorder(
    lastM1: int, lastM2: int, start: Option<Loc>, target: Option<Loc>,
    listed: bool, steps: seq<Step>, mvidx: int)

  // ---------------------------------------------------------------------
  // The operations as functions of the recorder's state.

  function CleanupS(b: Recorder): Recorder
  {
    b.(lastM1 := 0, lastM2 := 0, start := None, target := None, listed := false, steps := [])
  }

  /**
   * A new move: the list is replaced by one node with no location (the
   * node's own last_m1/last_m2 are left unset by the source and read as 0
   * here) and the move index advances.
   */
  function StartS(b: Recorder, hwLastM1: int, hwLastM2: int, cur: Loc, target: Loc, m1s: real, m2s: real): Recorder
  {
    Recorder(hwLastM1, hwLastM2, Some(cur), Some(target), true, [Step(None, 0, 0, m1s, m2s)], b.mvidx + 1)
  }

  function AddCorrS(b: Recorder, sqlBacklash: bool, hwLastM1: int, hwLastM2: int, cur: Loc, m1s: real, m2s: real): Recorder
  {
    if sqlBacklash then b.(steps := b.steps + [Step(Some(cur), hwLastM1, hwLastM2, m1s, m2s)]) else b
  }

  function StopS(b: Recorder, hwLastM1: int, hwLastM2: int, cur: Loc): Recorder
  {
    b.(steps := b.steps + [Step(Some(cur), hwLastM1, hwLastM2, 0.0, 0.0)])
  }

  /** Rounded step totals of a run of nodes, axis 1 and axis 2. */
  function SumRound1(s: seq<Step>): int
  {
    if s == [] then 0 else SumRound1(s[..|s| - 1]) + Hw.Round(s[|s| - 1].m1s)
  }

  function SumRound2(s: seq<Step>): int
  {
    if s == [] then 0 else SumRound2(s[..|s| - 1]) + Hw.Round(s[|s| - 1].m2s)
  }

  /**
   * What one consecutive pair of nodes adds to the dead zone: when both
   * have a location, an unchanged px charges the earlier node's axis-2
   * steps and an unchanged py its axis-1 steps.
   */
  function DzPair1(a: Step, b: Step): int
  {
    if a.loc.Some? && b.loc.Some? && a.loc.value.py == b.loc.value.py then Hw.Round(a.m1s) else 0
  }

  function DzPair2(a: Step, b: Step): int
  {
    if a.loc.Some? && b.loc.Some? && a.loc.value.px == b.loc.value.px then Hw.Round(a.m2s) else 0
  }

  function DeadZone1(s: seq<Step>): int
  {
    if |s| < 2 then 0 else DeadZone1(s[..|s| - 1]) + DzPair1(s[|s| - 2], s[|s| - 1])
  }

  function DeadZone2(s: seq<Step>): int
  {
    if |s| < 2 then 0 else DeadZone2(s[..|s| - 1]) + DzPair2(s[|s| - 2], s[|s| - 1])
  }

  // ---------------------------------------------------------------------
  // Properties.

  /** A stop node commands nothing, so it leaves every actuals total unchanged. */
  lemma StopKeepsActuals(b: Recorder, hwLastM1: int, hwLastM2: int, cur: Loc, k: nat)
    requires k <= |b.steps|
    ensures var s := StopS(b, hwLastM1, hwLastM2, cur).steps;
      SumRound1(s[k..]) == SumRound1(b.steps[k..]) && SumRound2(s[k..]) == SumRound2(b.steps[k..])
  {
    var s := StopS(b, hwLastM1, hwLastM2, cur).steps;
    assert s[k..][..|s[k..]| - 1] == b.steps[k..];
    Hw.RoundOfInteger(0);
  }

  /** Right after start and stop the actuals are the move's own rounded steps. */
  lemma StartStopActuals(b: Recorder, l1: int, l2: int, cur: Loc, target: Loc, m1s: real, m2s: real, s1: int, s2: int, here: Loc)
    ensures var s := StopS(StartS(b, l1, l2, cur, target, m1s, m2s), s1, s2, here).steps;
      |s| == 2 && s[0].loc == None && s[1] == Step(Some(here), s1, s2, 0.0, 0.0)
      && SumRound1(s) == Hw.Round(m1s) && SumRound2(s) == Hw.Round(m2s)
  {
    var b1 := StartS(b, l1, l2, cur, target, m1s, m2s);
    StopKeepsActuals(b1, s1, s2, here, 0);
    assert SumRound1(b1.steps) == Hw.Round(m1s) by {
      assert b1.steps[..0] == [];
    }
    assert SumRound2(b1.steps) == Hw.Round(m2s) by {
      assert b1.steps[..0] == [];
    }
  }

  /** The move node at the head has no location, so it never counts towards the dead zone. */
  lemma {:induction false} DeadZoneSkipsMove(s: seq<Step>)
    requires |s| >= 1 && s[0].loc == None
    ensures DeadZone1(s) == DeadZone1(s[1..]) && DeadZone2(s) == DeadZone2(s[1..])
    decreases |s|
  {
    if |s| == 2 {
      assert s[1..][..0] == [];
    } else if |s| > 2 {
      DeadZoneSkipsMove(s[..|s| - 1]);
      assert s[..|s| - 1][1..] == s[1..][..|s[1..]| - 1];
    }
  }

  /** Nodes that all moved the laser off both the previous row and column give no dead zone. */
  lemma {:induction false} DeadZoneZero(s: seq<Step>)
    requires forall i :: 0 < i < |s| ==> DzPair1(s[i - 1], s[i]) == 0 && DzPair2(s[i - 1], s[i]) == 0
    ensures DeadZone1(s) == 0 && DeadZone2(s) == 0
    decreases |s|
  {
    if |s| >= 2 {
      DeadZoneZero(s[..|s| - 1]);
    }
  }

  // ---------------------------------------------------------------------
  // The recorder object.

  class Backlash {
    var lastM1: int
    var lastM2: int
    var start: Option<Loc>
    var target: Option<Loc>
    var pls: StepNode?
    var ple: StepNode?
    var mvidx: int
    const sqlBacklash: bool
    ghost var chain: seq<StepNode>

    /**
     * `chain` is linked through `next` and ends in null, its nodes are
     * distinct, `pls` (when set) is its first node and `ple` its last.
     */
    ghost predicate Valid()
      reads this, chain
    {
      && (forall i :: 0 <= i < |chain| - 1 ==> chain[i].next == chain[i + 1])
      && (chain != [] ==> chain[|chain| - 1].next == null)
      && (forall i, j :: 0 <= i < j < |chain| ==> chain[i] != chain[j])
      && (pls != null ==> chain != [] && pls == chain[0])
      && (ple == null <==> chain == [])
      && (chain != [] ==> ple == chain[|chain| - 1])
    }

    ghost function State(): Recorder
      reads this
    {
      Recorder(lastM1, lastM2, start, target, pls != null, Values(chain), mvidx)
    }

    constructor (sqlBacklash: bool)
      ensures Valid() && State() == Recorder(0, 0, None, None, false, [], 0)
      ensures this.sqlBacklash == sqlBacklash
    {
      lastM1, lastM2 := 0, 0;
      start, target := None, None;
      pls, ple := null, null;
      mvidx := 0;
      this.sqlBacklash := sqlBacklash;
      chain := [];
    }

    /** Walks the list from the head to its end and forgets it. */
    method Cleanup()
      requires Valid()
      modifies this
      ensures Valid() && State() == CleanupS(old(State()))
    {
      ghost var i := if pls == null then |chain| else 0;
      while pls != null
        invariant chain == old(chain) && mvidx == old(mvidx)
        invariant forall j :: 0 <= j < |chain| - 1 ==> chain[j].next == chain[j + 1]
        invariant chain != [] ==> chain[|chain| - 1].next == null
        invariant i <= |chain|
        invariant pls == null <==> i == |chain|
        invariant i < |chain| ==> pls == chain[i]
        decreases |chain| - i
      {
        assert i + 1 < |chain| ==> chain[i].next == chain[i + 1];
        pls := pls.next;
        i := i + 1;
      }
      lastM1, lastM2 := 0, 0;
      start, target := None, None;
      ple := null;
      chain := [];
    }

    method Start(hwLastM1: int, hwLastM2: int, cur: Loc, target: Loc, m1s: real, m2s: real)
      requires Valid()
      modifies this
      ensures Valid() && State() == StartS(old(State()), hwLastM1, hwLastM2, cur, target, m1s, m2s)
    {
      Cleanup();
      lastM1, lastM2 := hwLastM1, hwLastM2;
      start, this.target := Some(cur), Some(target);
      var n := new StepNode(None, 0, 0, m1s, m2s);
      pls, ple := n, n;
      chain := [n];
      mvidx := mvidx + 1;
    }

    /** Links a new node behind `ple`, which then points at it. */
    method Append(loc: Option<Loc>, hwLastM1: int, hwLastM2: int, m1s: real, m2s: real)
      requires Valid()
      modifies this, chain
      ensures Valid() && fresh(ple)
      ensures State() == old(State()).(steps := old(State()).steps + [Step(loc, hwLastM1, hwLastM2, m1s, m2s)])
    {
      var n := new StepNode(loc, hwLastM1, hwLastM2, m1s, m2s);
      if ple != null {
        ple.next := n;
      }
      ple := n;
      chain := chain + [n];
    }

    method AddCorr(hwLastM1: int, hwLastM2: int, cur: Loc, m1s: real, m2s: real)
      requires Valid()
      modifies this, chain
      ensures Valid() && State() == AddCorrS(old(State()), sqlBacklash, hwLastM1, hwLastM2, cur, m1s, m2s)
    {
      if !sqlBacklash {
        return;
      }
      Append(Some(cur), hwLastM1, hwLastM2, m1s, m2s);
    }

    method Stop(hwLastM1: int, hwLastM2: int, cur: Loc)
      requires Valid()
      modifies this, chain
      ensures Valid() && State() == StopS(old(State()), hwLastM1, hwLastM2, cur)
    {
      Append(Some(cur), hwLastM1, hwLastM2, 0.0, 0.0);
    }

    /** Rounded step totals from node `pn` (the chain's k-th, or null past its end) to the end. */
    method Actuals(pn: StepNode?, ghost k: nat) returns (m1: int, m2: int)
      requires Valid() && k <= |chain| && pn == (if k < |chain| then chain[k] else null)
      ensures m1 == SumRound1(Values(chain)[k..]) && m2 == SumRound2(Values(chain)[k..])
    {
      ghost var vs := Values(chain);
      m1, m2 := 0, 0;
      var p := pn;
      ghost var i := k;
      while p != null
        invariant k <= i <= |chain| && p == (if i < |chain| then chain[i] else null)
        invariant m1 == SumRound1(vs[k..i]) && m2 == SumRound2(vs[k..i])
        decreases |chain| - i
      {
        assert vs[k..i + 1][..i - k] == vs[k..i];
        m1 := m1 + Hw.Round(p.m1s);
        m2 := m2 + Hw.Round(p.m2s);
        p := p.next;
        i := i + 1;
      }
      assert vs[k..i] == vs[k..];
    }

    /** Dead-zone totals over consecutive located node pairs from `pn` to the end. */
    method DeadZone(pn: StepNode?, ghost k: nat) returns (m1dz: int, m2dz: int)
      requires Valid() && k <= |chain| && pn == (if k < |chain| then chain[k] else null)
      ensures m1dz == DeadZone1(Values(chain)[k..]) && m2dz == DeadZone2(Values(chain)[k..])
    {
      ghost var vs := Values(chain);
      m1dz, m2dz := 0, 0;
      var plast: StepNode? := null;
      var p := pn;
      ghost var i := k;
      while p != null
        invariant k <= i <= |chain| && p == (if i < |chain| then chain[i] else null)
        invariant plast == (if i > k then chain[i - 1] else null)
        invariant m1dz == DeadZone1(vs[k..i]) && m2dz == DeadZone2(vs[k..i])
        decreases |chain| - i
      {
        ghost var w := vs[k..i + 1];
        assert w[..|w| - 1] == vs[k..i];
        if p.loc.Some? && plast != null && plast.loc.Some? {
          if plast.loc.value.px == p.loc.value.px {
            m2dz := m2dz + Hw.Round(plast.m2s);
          }
          if plast.loc.value.py == p.loc.value.py {
            m1dz := m1dz + Hw.Round(plast.m1s);
          }
        }
        plast := p;
        p := p.next;
        i := i + 1;
      }
      assert vs[k..i] == vs[k..];
    }
  }
}
