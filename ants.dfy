/**
 * The ant tracker of units/ants.cpp: a list of tracked ants, matched each
 * frame against the scored blobs, reinforced or created, decayed, and the
 * best one picked as the laser's target.
 *
 * The list is a sequence (head first); an ant pointer is the ant's id,
 * which the tracker keeps unique.  Euclidean distances appear only in
 * comparisons, so each is held as its square (the C code compares the
 * square roots).
 */
module Ants {
  import opened Common
  import opened BlobsUnits

  const CloseBlob: int := 40
  const MaxScore: int := 50
  /** The score an ant must exceed to be targeted. */
  const TargetScore: int := 25
  /** The most frames since an ant was last seen for it to be targeted. */
  const MaxFrameGap: int := 3
  /** Sizes of the heading (`uv`) and speed (`avg_speed`) running averages. */
  const HeadingWindow: nat := 5
  const SpeedWindow: nat := 10

  datatype Pt = Pt(x: int, y: int)

  /**
   * One `ant_list` entry.  `lastFrame` is the uint32 frame index it was
   * last seen at; `laserDist` the squared distance from the laser then.
   * `headings` and `speeds` count the samples held by the `uv` and
   * `avg_speed` running averages; `lastTicks` is `last_frame_ticks`.
   */
  datatype Ant = Ant(
    id: int, score: int, last: Pt, pred: Pt, lastFrame: int, laserDist: int,
    headings: nat, speeds: nat, lastTicks: int)

  function Sq(v: int): nat
  {
    if v < 0 then (-v) * (-v) else v * v
  }

  function Dist2(a: Pt, b: Pt): nat
  {
    Sq(a.x - b.x) + Sq(a.y - b.y)
  }

  // ---------------------------------------------------------------------
  // pick_best_ant

  /** `frame_index - last_frame` is computed in uint32, so it wraps. */
  predicate Eligible(a: Ant, frameIndex: int)
  {
    a.score > TargetScore && Wrap32(frameIndex - a.lastFrame) <= MaxFrameGap
  }

  /** The index of the best ant, choosing between the head and the best of the rest. */
  function PickBest(ants: seq<Ant>, frameIndex: int): (r: Option<nat>)
    ensures r.Some? ==> r.value < |ants| && Eligible(ants[r.value], frameIndex)
  {
    if ants == [] then None
    else
      var rest := PickBest(ants[1..], frameIndex);
      var best := if rest.Some? then Some(rest.value + 1) else None;
      if ants[0].score <= TargetScore then best
      else if Wrap32(frameIndex - ants[0].lastFrame) > MaxFrameGap then best
      else if best.None? || ants[0].laserDist < ants[best.value].laserDist then Some(0)
      else best
  }

  /**
   * pick_best_ant finds an eligible ant whenever there is one, nearest the
   * laser, and of equally near ones the last in the list.
   */
  lemma {:induction false} PickBestSpec(ants: seq<Ant>, frameIndex: int)
    ensures PickBest(ants, frameIndex).None? <==> forall k :: 0 <= k < |ants| ==> !Eligible(ants[k], frameIndex)
    ensures var r := PickBest(ants, frameIndex);
      r.Some? ==> forall k :: 0 <= k < |ants| && Eligible(ants[k], frameIndex) ==> ants[r.value].laserDist <= ants[k].laserDist
    ensures var r := PickBest(ants, frameIndex);
      r.Some? ==> forall k :: r.value < k < |ants| && Eligible(ants[k], frameIndex) ==> ants[r.value].laserDist < ants[k].laserDist
  {
    if ants != [] {
      PickBestSpec(ants[1..], frameIndex);
      forall k | 1 <= k < |ants|
        ensures ants[k] == ants[1..][k - 1]
      {
      }
    }
  }

  /** Two equally near eligible ants: the later one is picked. */
  lemma PickBestTie(frameIndex: int)
    ensures var a := Ant(1, 30, Pt(0, 0), Pt(0, 0), 7, 100, 0, 0, 0);
      var b := Ant(2, 40, Pt(5, 5), Pt(0, 0), 8, 100, 0, 0, 0);
      PickBest([a, b], 9) == Some(1)
  {
    var a := Ant(1, 30, Pt(0, 0), Pt(0, 0), 7, 100, 0, 0, 0);
    var b := Ant(2, 40, Pt(5, 5), Pt(0, 0), 8, 100, 0, 0, 0);
    assert [a, b][1..] == [b];
  }

  // ---------------------------------------------------------------------
  // delete_dead_ants

  /** Every ant loses a point; those left with none are dropped. */
  function DeleteDead(ants: seq<Ant>): seq<Ant>
  {
    if ants == [] then []
    else
      var a := ants[0].(score := ants[0].score - 1);
      if a.score <= 0 then DeleteDead(ants[1..]) else [a] + DeleteDead(ants[1..])
  }

  /** Survivors keep their order: deleting from a concatenation deletes from each part. */
  lemma {:induction false} DeleteDeadAppend(s: seq<Ant>, t: seq<Ant>)
    ensures DeleteDead(s + t) == DeleteDead(s) + DeleteDead(t)
  {
    if s == [] {
      assert s + t == t;
    } else {
      assert (s + t)[1..] == s[1..] + t;
      DeleteDeadAppend(s[1..], t);
    }
  }

  /** An ant survives, one point down, exactly when it had more than one point. */
  lemma {:induction false} DeleteDeadMembers(s: seq<Ant>)
    ensures forall a :: a in DeleteDead(s) <==>
      exists k :: 0 <= k < |s| && s[k].score > 1 && a == s[k].(score := s[k].score - 1)
  {
    if s != [] {
      DeleteDeadMembers(s[1..]);
      forall a | a in DeleteDead(s)
        ensures exists k :: 0 <= k < |s| && s[k].score > 1 && a == s[k].(score := s[k].score - 1)
      {
        if a !in DeleteDead(s[1..]) {
          assert s[0].score > 1 && a == s[0].(score := s[0].score - 1);
        } else {
          var k :| 0 <= k < |s[1..]| && s[1..][k].score > 1 && a == s[1..][k].(score := s[1..][k].score - 1);
          assert s[k + 1] == s[1..][k];
        }
      }
      forall a, k | 0 <= k < |s| && s[k].score > 1 && a == s[k].(score := s[k].score - 1)
        ensures a in DeleteDead(s)
      {
        if k > 0 {
          assert s[1..][k - 1] == s[k];
        }
      }
    }
  }

  // ---------------------------------------------------------------------
  // Ant ids.

  predicate IdsBelow(ants: seq<Ant>, nextId: int)
  {
    forall k :: 0 <= k < |ants| ==> ants[k].id < nextId
  }

  predicate IdsDistinct(ants: seq<Ant>)
  {
    forall i, j :: 0 <= i < j < |ants| ==> ants[i].id != ants[j].id
  }

  lemma {:induction false} DeleteDeadKeepsIds(s: seq<Ant>, nextId: int)
    requires IdsBelow(s, nextId) && IdsDistinct(s)
    ensures IdsBelow(DeleteDead(s), nextId) && IdsDistinct(DeleteDead(s))
  {
    if s != [] {
      assert IdsDistinct(s[1..]) by {
        forall i, j | 0 <= i < j < |s[1..]|
          ensures s[1..][i].id != s[1..][j].id
        {
          assert s[1..][i] == s[i + 1] && s[1..][j] == s[j + 1];
        }
      }
      DeleteDeadKeepsIds(s[1..], nextId);
      DeleteDeadMembers(s[1..]);
      var d := DeleteDead(s[1..]);
      forall j | 0 <= j < |d|
        ensures d[j].id != s[0].id
      {
        assert d[j] in d;
        var k :| 0 <= k < |s[1..]| && s[1..][k].score > 1 && d[j] == s[1..][k].(score := s[1..][k].score - 1);
        assert s[1..][k] == s[k + 1];
      }
    }
  }

  // ---------------------------------------------------------------------
  // process_ant and add_ant

  /** One more sample in a running average of `window` items: the count stops at the window. */
  function Sampled(n: nat, window: nat): nat
  {
    if n == window then n else n + 1
  }

  /**
   * The claimed ant takes the blob's score (capped), its centre, the
   * frame index and its squared distance from the laser at `cur`; its
   * speed average gains a sample, its heading average one when the blob
   * is away from where the ant was, and `lastTicks` becomes `frameTicks`.
   */
  function Reinforce(a: Ant, r: Rec, frameIndex: int, frameTicks: int, cur: Pt): Ant
  {
    var s := a.score + r.score;
    a.(score := if s > MaxScore then MaxScore else s,
       headings := if Pt(r.xc, r.yc) != a.last then Sampled(a.headings, HeadingWindow) else a.headings,
       speeds := Sampled(a.speeds, SpeedWindow),
       lastTicks := frameTicks,
       last := Pt(r.xc, r.yc),
       laserDist := Dist2(Pt(r.xc, r.yc), cur),
       lastFrame := Wrap32(frameIndex))
  }

  function ProcessAntS(ants: seq<Ant>, r: Rec, frameIndex: int, frameTicks: int, cur: Pt): (res: seq<Ant>)
    requires r.claimed.Some?
    ensures |res| == |ants|
    ensures forall k :: 0 <= k < |ants| ==>
      res[k] == if ants[k].id == r.claimed.value then Reinforce(ants[k], r, frameIndex, frameTicks, cur) else ants[k]
  {
    seq(|ants|, k requires 0 <= k < |ants| =>
      if ants[k].id == r.claimed.value then Reinforce(ants[k], r, frameIndex, frameTicks, cur) else ants[k])
  }

  /** A reinforced ant never holds more than the maximum score, and gains exactly the blob's score below it. */
  lemma ReinforceCaps(a: Ant, r: Rec, frameIndex: int, frameTicks: int, cur: Pt)
    ensures Reinforce(a, r, frameIndex, frameTicks, cur).score <= MaxScore
    ensures a.score + r.score <= MaxScore ==> Reinforce(a, r, frameIndex, frameTicks, cur).score == a.score + r.score
    ensures Reinforce(a, r, frameIndex, frameTicks, cur).id == a.id
    ensures Eligible(Reinforce(a, r, frameIndex, frameTicks, cur), frameIndex) <==> a.score + r.score > TargetScore
  {
  }

  /**
   * The next prediction of an ant: `last` plus the averaged heading times
   * the averaged speed times the frames since it was seen times the frame
   * time.  With no heading or no speed sample an average is 0 and the
   * prediction is `last` exactly; otherwise the floating-point product,
   * truncated to a pixel, is the input `predict`.
   */
  function Aim(a: Ant, predict: Ant -> Pt): Pt
  {
    if a.headings == 0 || a.speeds == 0 then a.last else predict(a)
  }

  /**
   * A reinforced ant has a speed sample; it has a heading sample once it
   * has been seen somewhere else than where it was first seen, and from
   * then on its prediction is `predict`'s.  Neither average outgrows its
   * window.
   */
  lemma ReinforceSamples(a: Ant, r: Rec, frameIndex: int, frameTicks: int, cur: Pt, predict: Ant -> Pt)
    requires a.headings <= HeadingWindow && a.speeds <= SpeedWindow
    ensures var b := Reinforce(a, r, frameIndex, frameTicks, cur);
      && 1 <= b.speeds <= SpeedWindow && b.headings <= HeadingWindow
      && (b.headings > 0 <==> a.headings > 0 || Pt(r.xc, r.yc) != a.last)
      && b.lastTicks == frameTicks
      && Aim(b, predict) == (if a.headings > 0 || Pt(r.xc, r.yc) != a.last then predict(b) else Pt(r.xc, r.yc))
  {
  }

  /** The new ant: the blob's score and centre, no prediction, empty averages, seen this frame. */
  function NewAnt(id: int, r: Rec, frameIndex: int, frameTicks: int, unsetDist: int): Ant
  {
    Ant(id, r.score, Pt(r.xc, r.yc), Pt(0, 0), Wrap32(frameIndex), unsetDist, 0, 0, frameTicks)
  }

  /** add_ant prepends a new ant whose id is above every earlier one. */
  lemma AddAntIds(ants: seq<Ant>, nextId: int, r: Rec, frameIndex: int, frameTicks: int, unsetDist: int)
    requires IdsBelow(ants, nextId) && IdsDistinct(ants)
    ensures var ants' := [NewAnt(nextId, r, frameIndex, frameTicks, unsetDist)] + ants;
      IdsBelow(ants', nextId + 1) && IdsDistinct(ants')
      && forall k :: 0 <= k < |ants| ==> ants[k].id < ants'[0].id
  {
    var ants' := [NewAnt(nextId, r, frameIndex, frameTicks, unsetDist)] + ants;
    forall i, j | 0 <= i < j < |ants'|
      ensures ants'[i].id != ants'[j].id
    {
      assert ants'[j] == ants[j - 1];
      if i > 0 {
        assert ants'[i] == ants[i - 1];
      }
    }
  }

  lemma ProcessAntIds(ants: seq<Ant>, nextId: int, r: Rec, frameIndex: int, frameTicks: int, cur: Pt)
    requires r.claimed.Some? && IdsBelow(ants, nextId) && IdsDistinct(ants)
    ensures var res := ProcessAntS(ants, r, frameIndex, frameTicks, cur);
      IdsBelow(res, nextId) && IdsDistinct(res)
  {
    var res := ProcessAntS(ants, r, frameIndex, frameTicks, cur);
    forall k | 0 <= k < |ants|
      ensures res[k].id == ants[k].id
    {
    }
  }

  // ---------------------------------------------------------------------
  // match_blobs_to_ant

  /** A blob an ant predicted at `pred` may claim: scored, and within CloseBlob. */
  predicate Candidate(r: Rec, pred: Pt)
  {
    r.score != 0 && Dist2(Pt(r.xc, r.yc), pred) <= CloseBlob * CloseBlob
  }

  /** The nearest candidate among the first blobs, as the matching loop keeps it. */
  function Nearest(recs: seq<Rec>, pred: Pt): (r: Option<nat>)
    ensures r.Some? ==> r.value < |recs|
  {
    if recs == [] then None
    else
      var best := Nearest(recs[..|recs| - 1], pred);
      var r := recs[|recs| - 1];
      if Candidate(r, pred)
        && (best.None? || Dist2(Pt(r.xc, r.yc), pred) < Dist2(Pt(recs[best.value].xc, recs[best.value].yc), pred))
      then Some(|recs| - 1)
      else best
  }

  function D(r: Rec, pred: Pt): nat
  {
    Dist2(Pt(r.xc, r.yc), pred)
  }

  /**
   * The blob an ant claims is a candidate nearest its prediction, the
   * first of equally near ones; there is none only when no blob is a
   * candidate.
   */
  lemma {:induction false} NearestSpec(recs: seq<Rec>, pred: Pt)
    ensures Nearest(recs, pred).None? <==> forall k :: 0 <= k < |recs| ==> !Candidate(recs[k], pred)
    ensures var r := Nearest(recs, pred);
      r.Some? ==>
        && Candidate(recs[r.value], pred)
        && (forall k :: 0 <= k < |recs| && Candidate(recs[k], pred) ==> D(recs[r.value], pred) <= D(recs[k], pred))
        && (forall k :: 0 <= k < r.value && Candidate(recs[k], pred) ==> D(recs[r.value], pred) < D(recs[k], pred))
  {
    if recs != [] {
      var init := recs[..|recs| - 1];
      NearestSpec(init, pred);
      forall k | 0 <= k < |init|
        ensures init[k] == recs[k]
      {
      }
    }
  }

  /** Blob lists that differ at most in their claims. */
  predicate SameBlobs(a: seq<Rec>, b: seq<Rec>)
  {
    |a| == |b| && forall k :: 0 <= k < |a| ==> a[k] == b[k].(claimed := a[k].claimed)
  }

  /** The nearest candidate does not depend on the claims. */
  lemma {:induction false} NearestIgnoresClaims(a: seq<Rec>, b: seq<Rec>, pred: Pt)
    requires SameBlobs(a, b)
    ensures Nearest(a, pred) == Nearest(b, pred)
  {
    if a != [] {
      var n := |a| - 1;
      assert SameBlobs(a[..n], b[..n]) by {
        forall k | 0 <= k < n
          ensures a[..n][k] == b[..n][k].(claimed := a[..n][k].claimed)
        {
          assert a[..n][k] == a[k] && b[..n][k] == b[k];
        }
      }
      NearestIgnoresClaims(a[..n], b[..n], pred);
      var best := Nearest(b[..n], pred);
      if best.Some? {
        assert a[best.value] == b[best.value].(claimed := a[best.value].claimed);
      }
      assert a[n] == b[n].(claimed := a[n].claimed);
    }
  }

  /**
   * match_blobs_to_ants: every ant in turn aims at its prediction and
   * claims the nearest candidate, overriding an earlier ant's claim; an
   * ant with no candidate has its prediction reset to (0, 0).
   */
  function MatchAll(recs: seq<Rec>, ants: seq<Ant>, predict: Ant -> Pt): (res: (seq<Rec>, seq<Ant>))
    ensures SameBlobs(res.0, recs) && |res.1| == |ants|
  {
    if ants == [] then (recs, ants)
    else
      var (recs1, rest1) := MatchAll(recs, ants[..|ants| - 1], predict);
      var a := ants[|ants| - 1].(pred := Aim(ants[|ants| - 1], predict));
      match Nearest(recs1, a.pred)
      case Some(k) => (recs1[k := recs1[k].(claimed := Some(a.id))], rest1 + [a])
      case None => (recs1, rest1 + [a.(pred := Pt(0, 0))])
  }

  /** The last ant, in list order, whose nearest candidate is blob k. */
  function Claimer(recs: seq<Rec>, ants: seq<Ant>, predict: Ant -> Pt, k: nat): (r: Option<nat>)
    ensures r.None? <==> forall j :: 0 <= j < |ants| ==> Nearest(recs, Aim(ants[j], predict)) != Some(k)
    ensures r.Some? ==>
      && r.value < |ants| && Nearest(recs, Aim(ants[r.value], predict)) == Some(k)
      && forall j :: r.value < j < |ants| ==> Nearest(recs, Aim(ants[j], predict)) != Some(k)
  {
    if ants == [] then None
    else if Nearest(recs, Aim(ants[|ants| - 1], predict)) == Some(k) then Some(|ants| - 1)
    else
      assert forall j :: 0 <= j < |ants| - 1 ==> ants[..|ants| - 1][j] == ants[j];
      Claimer(recs, ants[..|ants| - 1], predict, k)
  }

  /** Blob k after matching: claimed by its last claimer, if any. */
  function ClaimedBlob(recs: seq<Rec>, ants: seq<Ant>, predict: Ant -> Pt, k: nat): Rec
    requires k < |recs|
  {
    match Claimer(recs, ants, predict, k)
    case Some(j) => recs[k].(claimed := Some(ants[j].id))
    case None => recs[k]
  }

  /** Ant j after matching: its aim if it found a candidate there, (0, 0) if not. */
  function AimedAnt(recs: seq<Rec>, a: Ant, predict: Ant -> Pt): Ant
  {
    a.(pred := if Nearest(recs, Aim(a, predict)).Some? then Aim(a, predict) else Pt(0, 0))
  }

  /**
   * What match_blobs_to_ants leaves: each blob claimed by the last ant
   * whose prediction has it as nearest candidate (its claim unchanged when
   * there is none); each ant's prediction its aim when it had a candidate,
   * (0, 0) otherwise; nothing else changed.
   */
  lemma MatchAllSpec(recs: seq<Rec>, ants: seq<Ant>, predict: Ant -> Pt)
    ensures var (recs', ants') := MatchAll(recs, ants, predict);
      && (forall k :: 0 <= k < |recs| ==> recs'[k] == ClaimedBlob(recs, ants, predict, k))
      && (forall j :: 0 <= j < |ants| ==> ants'[j] == AimedAnt(recs, ants[j], predict))
  {
    MatchAllClaims(recs, ants, predict);
    MatchAllAims(recs, ants, predict);
  }

  /** The blobs half of MatchAllSpec. */
  lemma {:induction false} MatchAllClaims(recs: seq<Rec>, ants: seq<Ant>, predict: Ant -> Pt)
    ensures forall k :: 0 <= k < |recs| ==> MatchAll(recs, ants, predict).0[k] == ClaimedBlob(recs, ants, predict, k)
  {
    if ants != [] {
      var n := |ants| - 1;
      var init := ants[..n];
      MatchAllClaims(recs, init, predict);
      var recs1 := MatchAll(recs, init, predict).0;
      var a := ants[n].(pred := Aim(ants[n], predict));
      NearestIgnoresClaims(recs1, recs, a.pred);
      var recs' := MatchAll(recs, ants, predict).0;
      forall k | 0 <= k < |recs|
        ensures recs'[k] == ClaimedBlob(recs, ants, predict, k)
      {
        if Nearest(recs, a.pred) == Some(k) {
          assert Claimer(recs, ants, predict, k) == Some(n);
          assert recs'[k] == recs1[k].(claimed := Some(a.id));
        } else {
          assert Claimer(recs, ants, predict, k) == Claimer(recs, init, predict, k);
          assert recs'[k] == recs1[k];
        }
      }
    }
  }

  /** The ants half of MatchAllSpec. */
  lemma {:induction false} MatchAllAims(recs: seq<Rec>, ants: seq<Ant>, predict: Ant -> Pt)
    ensures forall j :: 0 <= j < |ants| ==> MatchAll(recs, ants, predict).1[j] == AimedAnt(recs, ants[j], predict)
  {
    if ants != [] {
      var n := |ants| - 1;
      var init := ants[..n];
      MatchAllClaims(recs, init, predict);
      MatchAllAims(recs, init, predict);
      var (recs1, rest1) := MatchAll(recs, init, predict);
      var a := ants[n].(pred := Aim(ants[n], predict));
      NearestIgnoresClaims(recs1, recs, a.pred);
      var ants' := MatchAll(recs, ants, predict).1;
      forall j | 0 <= j < |ants|
        ensures ants'[j] == AimedAnt(recs, ants[j], predict)
      {
        if j < n {
          assert init[j] == ants[j];
          assert ants'[j] == rest1[j];
        }
      }
    }
  }

  /**
   * An ant without both a heading and a speed sample (a new one, say) aims
   * at where it was last seen: it keeps that prediction exactly when a
   * scored blob lies within 40 of it, and a blob it is the last to claim is
   * a nearest such blob.
   */
  lemma FreshAntClaims(recs: seq<Rec>, ants: seq<Ant>, predict: Ant -> Pt, j: nat, k: nat)
    requires j < |ants| && k < |recs| && (ants[j].headings == 0 || ants[j].speeds == 0)
    ensures var (recs', ants') := MatchAll(recs, ants, predict);
      var last := ants[j].last;
      && (ants'[j].pred == last <==> (exists b :: 0 <= b < |recs| && Candidate(recs[b], last)) || last == Pt(0, 0))
      && (Claimer(recs, ants, predict, k) == Some(j) ==>
            && recs'[k].claimed == Some(ants[j].id)
            && Candidate(recs[k], last)
            && forall b :: 0 <= b < |recs| && Candidate(recs[b], last) ==> D(recs[k], last) <= D(recs[b], last))
  {
    MatchAllSpec(recs, ants, predict);
    NearestSpec(recs, ants[j].last);
  }

  /** Matching changes only claims and predictions, and a changed claim names one of the ants. */
  lemma MatchAllKeeps(recs: seq<Rec>, ants: seq<Ant>, predict: Ant -> Pt)
    ensures var (recs', ants') := MatchAll(recs, ants, predict);
      && (forall k :: 0 <= k < |ants| ==> ants'[k] == ants[k].(pred := ants'[k].pred))
      && (forall k :: 0 <= k < |recs| ==> recs'[k] == recs[k].(claimed := recs'[k].claimed))
      && (forall k :: 0 <= k < |recs| && recs'[k].claimed != recs[k].claimed ==>
            exists j :: 0 <= j < |ants| && recs'[k].claimed == Some(ants[j].id))
  {
    MatchAllSpec(recs, ants, predict);
    var recs' := MatchAll(recs, ants, predict).0;
    forall k | 0 <= k < |recs| && recs'[k].claimed != recs[k].claimed
      ensures exists j :: 0 <= j < |ants| && recs'[k].claimed == Some(ants[j].id)
    {
      var j := Claimer(recs, ants, predict, k).value;
      assert recs'[k].claimed == Some(ants[j].id);
    }
  }

  // ---------------------------------------------------------------------
  // select_ant

  /**
   * score_ants: scores the head blob, then the rest of the list; every
   * blob, in place, gets the score ant_score gives it and keeps the rest.
   */
  function ScoreAnts(recs: seq<Rec>, antScore: Rec -> int): (res: seq<Rec>)
    ensures |res| == |recs|
    ensures forall k :: 0 <= k < |recs| ==> res[k].score == antScore(recs[k])
    ensures forall k :: 0 <= k < |recs| ==> res[k].(score := recs[k].score) == recs[k]
  {
    if recs == [] then []
    else [recs[0].(score := antScore(recs[0]))] + ScoreAnts(recs[1..], antScore)
  }

  /** The tracker's list and the next id add_ant will hand out. */
  datatype Roster = Roster(ants: seq<Ant>, nextId: int)

  /** The frame's inputs select_ant's loop passes on to process_ant and add_ant. */
  datatype FrameInfo = FrameInfo(frameIndex: int, frameTicks: int, cur: Pt, unsetDist: int)

  /** One pass of select_ant's loop: scored blobs reinforce their ant or become one. */
  function TakeRec(st: Roster, r: Rec, f: FrameInfo): Roster
  {
    if r.score <= 0 then st
    else if r.claimed.Some? then st.(ants := ProcessAntS(st.ants, r, f.frameIndex, f.frameTicks, f.cur))
    else Roster([NewAnt(st.nextId, r, f.frameIndex, f.frameTicks, f.unsetDist)] + st.ants, st.nextId + 1)
  }

  function TakeRecs(st: Roster, recs: seq<Rec>, f: FrameInfo): Roster
  {
    if recs == [] then st
    else TakeRec(TakeRecs(st, recs[..|recs| - 1], f), recs[|recs| - 1], f)
  }

  lemma {:induction false} TakeRecsIds(st: Roster, recs: seq<Rec>, f: FrameInfo)
    requires IdsBelow(st.ants, st.nextId) && IdsDistinct(st.ants)
    ensures var st' := TakeRecs(st, recs, f);
      IdsBelow(st'.ants, st'.nextId) && IdsDistinct(st'.ants) && st'.nextId >= st.nextId
  {
    if recs != [] {
      var mid := TakeRecs(st, recs[..|recs| - 1], f);
      TakeRecsIds(st, recs[..|recs| - 1], f);
      var r := recs[|recs| - 1];
      if r.score > 0 {
        if r.claimed.Some? {
          ProcessAntIds(mid.ants, mid.nextId, r, f.frameIndex, f.frameTicks, f.cur);
        } else {
          AddAntIds(mid.ants, mid.nextId, r, f.frameIndex, f.frameTicks, f.unsetDist);
        }
      }
    }
  }

  /** The best ant of a list, returned only when its score is above the target score. */
  function Best(ants: seq<Ant>, frameIndex: int): Option<Ant>
  {
    match PickBest(ants, frameIndex)
    case Some(k) => if ants[k].score > TargetScore then Some(ants[k]) else None
    case None => None
  }

  /** select_ant's final test never rejects what pick_best_ant found. */
  lemma BestIsPicked(ants: seq<Ant>, frameIndex: int)
    ensures Best(ants, frameIndex).Some? <==> PickBest(ants, frameIndex).Some?
    ensures Best(ants, frameIndex).Some? ==> Best(ants, frameIndex).value == ants[PickBest(ants, frameIndex).value]
    ensures Best(ants, frameIndex).Some? ==> Eligible(Best(ants, frameIndex).value, frameIndex)
  {
  }

  /** The ant tracker (the `ants` class): its ant list and add_ant's id counter. */
  class Tracker {
    var pants: seq<Ant>
    var nextId: int

    ghost predicate Valid()
      reads this
    {
      IdsBelow(pants, nextId) && IdsDistinct(pants)
    }

    constructor ()
      ensures Valid() && pants == [] && nextId == 1
    {
      pants := [];
      nextId := 1;
    }

    method ProcessAnt(r: Rec, frameIndex: int, frameTicks: int, cur: Pt)
      requires Valid() && r.claimed.Some?
      modifies this
      ensures Valid() && pants == ProcessAntS(old(pants), r, frameIndex, frameTicks, cur) && nextId == old(nextId)
    {
      ProcessAntIds(pants, nextId, r, frameIndex, frameTicks, cur);
      pants := ProcessAntS(pants, r, frameIndex, frameTicks, cur);
    }

    method AddAnt(r: Rec, frameIndex: int, frameTicks: int, unsetDist: int)
      requires Valid()
      modifies this
      ensures Valid() && pants == [NewAnt(old(nextId), r, frameIndex, frameTicks, unsetDist)] + old(pants)
      ensures nextId == old(nextId) + 1
    {
      AddAntIds(pants, nextId, r, frameIndex, frameTicks, unsetDist);
      var a := NewAnt(nextId, r, frameIndex, frameTicks, unsetDist);
      nextId := nextId + 1;
      pants := [a] + pants;
    }

    /** select_ant's loop over the matched blobs, in list order. */
    method TakeAll(precs: seq<Rec>, f: FrameInfo)
      requires Valid()
      modifies this
      ensures Valid() && Roster(pants, nextId) == TakeRecs(old(Roster(pants, nextId)), precs, f)
    {
      var i := 0;
      while i < |precs|
        invariant 0 <= i <= |precs| && Valid()
        invariant Roster(pants, nextId) == TakeRecs(old(Roster(pants, nextId)), precs[..i], f)
      {
        assert precs[..i + 1][..i] == precs[..i];
        var pn := precs[i];
        if pn.score > 0 {
          if pn.claimed.Some? {
            ProcessAnt(pn, f.frameIndex, f.frameTicks, f.cur);
          } else {
            AddAnt(pn, f.frameIndex, f.frameTicks, f.unsetDist);
          }
        }
        i := i + 1;
      }
      assert precs[..i] == precs;
    }

    /**
     * One frame: score the blobs, match them to the ants, reinforce or
     * create ants, decay, and return the best ant if it is good enough.
     * `antScore` stands for ant_score and `predict` for the prediction's
     * floating-point arithmetic; `f` holds the frame index, the frame's
     * tick count and the laser's location.
     */
    method SelectAnt(blobs: seq<Rec>, antScore: Rec -> int, predict: Ant -> Pt, f: FrameInfo)
      returns (best: Option<Ant>)
      requires Valid()
      modifies this
      ensures Valid()
      ensures var (recs, matched) := MatchAll(ScoreAnts(blobs, antScore), old(pants), predict);
        var st := TakeRecs(Roster(matched, old(nextId)), recs, f);
        pants == DeleteDead(st.ants) && nextId == st.nextId
      ensures best == Best(pants, f.frameIndex)
    {
      var scored := ScoreAnts(blobs, antScore);
      var (precs, matched) := MatchAll(scored, pants, predict);
      MatchAllKeeps(ScoreAnts(blobs, antScore), pants, predict);
      pants := matched;
      assert Valid() by {
        forall k | 0 <= k < |pants|
          ensures pants[k].id == old(pants)[k].id
        {
        }
      }
      TakeAll(precs, f);
      DeleteDeadKeepsIds(pants, nextId);
      pants := DeleteDead(pants);
      var k := PickBest(pants, f.frameIndex);
      if k.Some? && pants[k.value].score > TargetScore {
        return Some(pants[k.value]);
      }
      return None;
    }
  }
}
