/**
 * Blob finding of units/blobs.cpp: a stack-driven 4-connected flood fill
 * over the foreground image that marks the pixels it takes by lowering
 * them to the threshold, and the scan that seeds it.
 *
 * The image is an `array2<byte>` indexed `[row, column]`, as `Mat::at(y, x)`.
 */
module BlobsUnits {
  import opened Common
  import Hw

  /** A cv::Rect. */
  datatype Rect = Rect(x: int, y: int, width: int, height: int)

  /**
   * One `rec_list` entry: the blob's bounding box and centre in full-image
   * pixels, its pixel count, the score the ant tracker gives it and the id
   * of the ant that claimed it.
   */
  datatype Rec = Rec(rect: Rect, npix: int, xc: int, yc: int, score: int, claimed: Option<int>)

  datatype Pixel = Pixel(x: int, y: int)

  const MaxBlobPixels: int := 2000
  const MinBlobPixels: int := 3
  const MaxCandidates: int := 1000

  predicate InGrid(g: array2<byte>, p: Pixel)
  {
    0 <= p.y < g.Length0 && 0 <= p.x < g.Length1
  }

  predicate Adjacent(p: Pixel, q: Pixel)
  {
    (p.x == q.x && (p.y - q.y == 1 || q.y - p.y == 1)) || (p.y == q.y && (p.x - q.x == 1 || q.x - p.x == 1))
  }

  /** The running bounding box: left, top, right, bottom. */
  datatype Bounds = Bounds(left: int, top: int, right: int, bottom: int)

  /**
   * The bounding box a fill accumulates over the pixels `s`, in the order
   * taken, starting from `init` (add_blob starts from (cols, rows, 0, 0)).
   */
  function Box(s: seq<Pixel>, init: Bounds): Bounds
  {
    if s == [] then init
    else
      var b := Box(s[..|s| - 1], init);
      var p := s[|s| - 1];
      Bounds(Min(p.x, b.left), Min(p.y, b.top), Max(p.x, b.right), Max(p.y, b.bottom))
  }

  function SumX(s: seq<Pixel>): int
  {
    if s == [] then 0 else SumX(s[..|s| - 1]) + s[|s| - 1].x
  }

  function SumY(s: seq<Pixel>): int
  {
    if s == [] then 0 else SumY(s[..|s| - 1]) + s[|s| - 1].y
  }

  /** The record add_blob prepends for the pixels `s`, scaled to the full image. */
  function RecOf(s: seq<Pixel>, scale: nat, cols: int, rows: int): Rec
    requires s != []
  {
    var b := Box(s, Bounds(cols, rows, 0, 0));
    var n := |s|;
    Rec(Rect(b.left * scale, b.top * scale, (b.right - b.left + 1) * scale, (b.bottom - b.top + 1) * scale),
        n, SumX(s) * scale / n, SumY(s) * scale / n, 0, None)
  }

  /** On pixels inside the image, the accumulated box is the tight bounding box. */
  lemma {:induction false} BoxIsTight(s: seq<Pixel>, init: Bounds)
    requires s != []
    requires forall i :: 0 <= i < |s| ==> init.right <= s[i].x < init.left && init.bottom <= s[i].y < init.top
    ensures var b := Box(s, init);
      && (forall i :: 0 <= i < |s| ==> b.left <= s[i].x <= b.right && b.top <= s[i].y <= b.bottom)
      && (exists i :: 0 <= i < |s| && s[i].x == b.left)
      && (exists i :: 0 <= i < |s| && s[i].x == b.right)
      && (exists i :: 0 <= i < |s| && s[i].y == b.top)
      && (exists i :: 0 <= i < |s| && s[i].y == b.bottom)
  {
    var b := Box(s, init);
    var n := |s| - 1;
    var p := s[n];
    if n == 0 {
      assert s[..0] == [];
      assert Box(s[..0], init) == init;
      assert init.right <= p.x < init.left && init.bottom <= p.y < init.top;
      assert b == Bounds(p.x, p.y, p.x, p.y);
    } else {
      var w := s[..n];
      BoxIsTight(w, init);
      var c := Box(w, init);
      assert forall i :: 0 <= i < n ==> s[i] == w[i];
      if p.x < c.left { assert s[n].x == b.left; } else {
        var i :| 0 <= i < n && w[i].x == c.left; assert s[i].x == b.left; }
      if p.x > c.right { assert s[n].x == b.right; } else {
        var i :| 0 <= i < n && w[i].x == c.right; assert s[i].x == b.right; }
      if p.y < c.top { assert s[n].y == b.top; } else {
        var i :| 0 <= i < n && w[i].y == c.top; assert s[i].y == b.top; }
      if p.y > c.bottom { assert s[n].y == b.bottom; } else {
        var i :| 0 <= i < n && w[i].y == c.bottom; assert s[i].y == b.bottom; }
    }
  }

  lemma {:induction false} SumXBounds(s: seq<Pixel>, lo: int, hi: int)
    requires forall i :: 0 <= i < |s| ==> lo <= s[i].x <= hi
    ensures |s| * lo <= SumX(s) <= |s| * hi
  {
    if s != [] {
      var n := |s| - 1;
      SumXBounds(s[..n], lo, hi);
      assert |s| * lo == n * lo + lo && |s| * hi == n * hi + hi;
    }
  }

  lemma {:induction false} SumYBounds(s: seq<Pixel>, lo: int, hi: int)
    requires forall i :: 0 <= i < |s| ==> lo <= s[i].y <= hi
    ensures |s| * lo <= SumY(s) <= |s| * hi
  {
    if s != [] {
      var n := |s| - 1;
      SumYBounds(s[..n], lo, hi);
      assert |s| * lo == n * lo + lo && |s| * hi == n * hi + hi;
    }
  }

  /** Multiplying by a natural number keeps the order. */
  lemma MulMono(n: nat, a: int, b: int)
    ensures a <= b ==> n * a <= n * b
  {
  }

  lemma MulAssoc(a: int, b: int, c: int)
    ensures a * (b * c) == (a * b) * c
  {
  }

  /** Floored division by a positive `n` keeps `n * l <= a <= n * h` as `l <= a / n <= h`. */
  lemma FloorDivBetween(a: int, n: int, l: int, h: int)
    requires n > 0 && n * l <= a <= n * h
    ensures l <= a / n <= h
  {
    var q := a / n;
    assert n * q <= a < n * (q + 1);
    MulMono(n, q + 1, l);
    MulMono(n, h + 1, q);
  }

  /** A mean of `n` values in [lo, hi], scaled and floored, stays in the scaled range. */
  lemma MeanBetween(sum: int, n: int, lo: int, hi: int, scale: nat)
    requires n > 0 && n * lo <= sum <= n * hi
    ensures lo * scale <= sum * scale / n <= hi * scale
  {
    MulMono(scale, n * lo, sum);
    MulMono(scale, sum, n * hi);
    MulAssoc(n, lo, scale);
    MulAssoc(n, hi, scale);
    FloorDivBetween(sum * scale, n, lo * scale, hi * scale);
  }

  /** The bounding box of the record, scaled, spans its pixels. */
  lemma ScaledSpan(left: int, right: int, scale: nat)
    requires left <= right
    ensures left * scale + (right - left + 1) * scale - scale == right * scale
    ensures (right - left + 1) * scale >= scale
  {
    MulMono(scale, 1, right - left + 1);
  }

  /**
   * The record's centre lies in its (scaled) bounding box, and the box
   * is at least one scaled pixel wide and high.
   */
  lemma CentreInBox(s: seq<Pixel>, scale: nat, cols: int, rows: int)
    requires s != []
    requires forall i :: 0 <= i < |s| ==> 0 <= s[i].x < cols && 0 <= s[i].y < rows
    ensures var r := RecOf(s, scale, cols, rows);
      && r.rect.x <= r.xc <= r.rect.x + r.rect.width - scale
      && r.rect.y <= r.yc <= r.rect.y + r.rect.height - scale
      && r.rect.width >= scale && r.rect.height >= scale
      && r.npix == |s|
  {
    var b := Box(s, Bounds(cols, rows, 0, 0));
    BoxIsTight(s, Bounds(cols, rows, 0, 0));
    SumXBounds(s, b.left, b.right);
    SumYBounds(s, b.top, b.bottom);
    MeanBetween(SumX(s), |s|, b.left, b.right, scale);
    MeanBetween(SumY(s), |s|, b.top, b.bottom, scale);
    ScaledSpan(b.left, b.right, scale);
    ScaledSpan(b.top, b.bottom, scale);
  }

  /**
   * `[q]` when add_blob would push `q`: inside the image, above the
   * threshold and not in keepout; else nothing. For a neighbour of a pixel
   * in the image, "inside" is the source's one-sided bound test.
   */
  function Try(g: array2<byte>, q: Pixel, thresh: int, scale: int): (r: seq<Pixel>)
    reads g
    ensures r == [] || (r == [q] && InGrid(g, q) && g[q.y, q.x] > thresh && !Hw.Keepout(q.x, q.y, scale))
  {
    if InGrid(g, q) && g[q.y, q.x] > thresh && !Hw.Keepout(q.x, q.y, scale) then [q] else []
  }

  /**
   * The neighbours of `p` that add_blob pushes, in stack order (the last
   * pushed first): up, left, down and right are tried in that order.
   */
  function Pushed(g: array2<byte>, p: Pixel, thresh: int, scale: int): (r: seq<Pixel>)
    reads g
    ensures forall k :: 0 <= k < |r| ==> InGrid(g, r[k]) && g[r[k].y, r[k].x] > thresh
    ensures forall k :: 0 <= k < |r| ==> !Hw.Keepout(r[k].x, r[k].y, scale) && Adjacent(p, r[k])
    // and every such neighbour is pushed
    ensures forall q :: Adjacent(p, q) && InGrid(g, q) && g[q.y, q.x] > thresh && !Hw.Keepout(q.x, q.y, scale) ==> q in r
  {
    var right := Try(g, Pixel(p.x + 1, p.y), thresh, scale);
    var down := Try(g, Pixel(p.x, p.y + 1), thresh, scale);
    var left := Try(g, Pixel(p.x - 1, p.y), thresh, scale);
    var up := Try(g, Pixel(p.x, p.y - 1), thresh, scale);
    right + down + left + up
  }

  /** The image as rows of bytes. */
  function Rows(g: array2<byte>): (r: seq<seq<byte>>)
    reads g
    ensures |r| == g.Length0
    ensures forall i :: 0 <= i < g.Length0 ==> |r[i]| == g.Length1
    ensures forall i, j :: 0 <= i < g.Length0 && 0 <= j < g.Length1 ==> r[i][j] == g[i, j]
  {
    seq(g.Length0, i reads g requires 0 <= i < g.Length0 => seq(g.Length1, j reads g requires 0 <= j < g.Length1 => g[i, j]))
  }

  /**
   * The facts about the fill's bookkeeping that do not mention the image's
   * contents: `stack` holds in-image, non-keepout pixels, each adjacent to
   * the taken pixel `via` names; `taken` starts at the seed, is free of
   * duplicates, and every later pixel is a non-keepout 4-neighbour of the
   * earlier pixel `parent` names.
   */
  ghost predicate Trail(g: array2<byte>, scale: int, seed: Pixel, taken: seq<Pixel>, parent: seq<nat>,
                        stack: seq<Pixel>, via: seq<nat>)
  {
    && |via| == |stack| && |parent| == |taken|
    && (forall k :: 0 <= k < |stack| ==> InGrid(g, stack[k]) && !Hw.Keepout(stack[k].x, stack[k].y, scale))
    && (forall k :: 0 <= k < |stack| ==> via[k] < |taken| && Adjacent(taken[via[k]], stack[k]))
    && (forall k :: 0 <= k < |taken| ==> InGrid(g, taken[k]))
    && (forall k, l :: 0 <= k < l < |taken| ==> taken[k] != taken[l])
    && (taken != [] ==> taken[0] == seed)
    && (forall k :: 1 <= k < |taken| ==> parent[k] < k && Adjacent(taken[parent[k]], taken[k]))
    && (forall k :: 1 <= k < |taken| ==> !Hw.Keepout(taken[k].x, taken[k].y, scale))
  }

  /** The image is the snapshot `g0` with the taken pixels lowered to `thresh`. */
  ghost predicate Painted(src: array2<byte>, g0: seq<seq<byte>>, taken: seq<Pixel>, thresh: int)
    reads src
  {
    && |g0| == src.Length0
    && (forall i :: 0 <= i < |g0| ==> |g0[i]| == src.Length1)
    && (forall i, j :: 0 <= i < src.Length0 && 0 <= j < src.Length1 ==>
          src[i, j] == if Pixel(j, i) in Marked(taken) then thresh else g0[i][j])
  }

  /** The taken pixels as a set. */
  ghost function Marked(taken: seq<Pixel>): set<Pixel>
  {
    if taken == [] then {} else Marked(taken[..|taken| - 1]) + {taken[|taken| - 1]}
  }

  lemma {:induction false} MarkedMembers(taken: seq<Pixel>)
    ensures forall q :: q in Marked(taken) <==> q in taken
  {
    if taken != [] {
      var w := taken[..|taken| - 1];
      MarkedMembers(w);
      assert taken == w + [taken[|taken| - 1]];
    }
  }

  /**
   * The image is `before` with exactly the pixels of `taken` changed: each
   * lies in the image, was above `thresh` and is now `thresh`.
   */
  ghost predicate Filled(src: array2<byte>, before: seq<seq<byte>>, taken: seq<Pixel>, thresh: int)
    reads src
  {
    && |before| == src.Length0
    && (forall i :: 0 <= i < |before| ==> |before[i]| == src.Length1)
    && (forall k :: 0 <= k < |taken| ==> InGrid(src, taken[k]))
    && (forall k :: 0 <= k < |taken| ==>
          before[taken[k].y][taken[k].x] > thresh && src[taken[k].y, taken[k].x] == thresh)
    && (forall i, j :: 0 <= i < src.Length0 && 0 <= j < src.Length1 && Pixel(j, i) !in taken ==>
          src[i, j] == before[i][j])
  }

  /** Painted and WasAbove, restated over the list `taken`. */
  lemma PaintedFilled(src: array2<byte>, g0: seq<seq<byte>>, taken: seq<Pixel>, thresh: int)
    requires Painted(src, g0, taken, thresh) && WasAbove(g0, taken, thresh)
    requires forall k :: 0 <= k < |taken| ==> InGrid(src, taken[k])
    ensures Filled(src, g0, taken, thresh)
  {
    MarkedMembers(taken);
    forall k | 0 <= k < |taken|
      ensures src[taken[k].y, taken[k].x] == thresh
    {
      assert Pixel(taken[k].x, taken[k].y) == taken[k];
    }
  }

  /** `src.at(y, x) = thresh` for a pixel not yet taken. */
  method Lower(src: array2<byte>, ghost g0: seq<seq<byte>>, ghost taken: seq<Pixel>, p: Pixel, thresh: byte)
    requires Painted(src, g0, taken, thresh) && InGrid(src, p)
    modifies src
    ensures Painted(src, g0, taken + [p], thresh)
  {
    src[p.y, p.x] := thresh;
    assert Marked(taken + [p]) == Marked(taken) + {p} by {
      assert (taken + [p])[..|taken|] == taken;
    }
  }

  /** Every taken pixel was above the threshold in the snapshot. */
  ghost predicate WasAbove(g0: seq<seq<byte>>, taken: seq<Pixel>, thresh: int)
  {
    forall k :: 0 <= k < |taken| ==>
      0 <= taken[k].y < |g0| && 0 <= taken[k].x < |g0[taken[k].y]| && g0[taken[k].y][taken[k].x] > thresh
  }

  /** `q` is inside `g0`, above the threshold there, and outside keepout. */
  ghost predicate Seedable(g0: seq<seq<byte>>, thresh: int, scale: nat, q: Pixel)
  {
    0 <= q.y < |g0| && 0 <= q.x < |g0[q.y]| && g0[q.y][q.x] > thresh && !Hw.Keepout(q.x, q.y, scale)
  }

  /**
   * Every open 4-neighbour (in the snapshot `g0`) of a taken pixel is
   * taken or still waiting in `pending` (the pixel in hand, then the stack).
   */
  ghost predicate Frontier(g0: seq<seq<byte>>, thresh: int, scale: nat, taken: seq<Pixel>, pending: seq<Pixel>)
  {
    forall k, q :: 0 <= k < |taken| && Adjacent(taken[k], q) && Seedable(g0, thresh, scale, q) ==>
      q in taken || q in pending
  }

  /** The fill is closed: no open 4-neighbour of a taken pixel was left out. */
  ghost predicate Closed(g0: seq<seq<byte>>, thresh: int, scale: nat, taken: seq<Pixel>)
  {
    Frontier(g0, thresh, scale, taken, [])
  }

  /** The `k`th pixel of `s` is a 4-neighbour of an earlier one. */
  ghost predicate Linked(s: seq<Pixel>, k: int)
    requires 0 <= k < |s|
  {
    exists j :: 0 <= j < k && Adjacent(s[j], s[k])
  }

  /** Each pixel of `s` after the first is linked to an earlier one, so `s` is 4-connected. */
  ghost predicate Connected(s: seq<Pixel>)
  {
    forall k :: 1 <= k < |s| ==> Linked(s, k)
  }

  /** A fill's pixels, each pushed from the earlier pixel `parent` names, are 4-connected. */
  lemma ParentConnected(s: seq<Pixel>, parent: seq<nat>)
    requires |parent| == |s|
    requires forall k :: 1 <= k < |s| ==> parent[k] < k && Adjacent(s[parent[k]], s[k])
    ensures Connected(s)
  {
    forall k | 1 <= k < |s|
      ensures Linked(s, k)
    {
      var j := parent[k];
      assert 0 <= j < k && Adjacent(s[j], s[k]);
    }
  }

  /**
   * The pixels lowered so far, read in `cur`, are closed in `g0`: a pixel
   * open in `g0` next to one that has been lowered has been lowered too.
   */
  ghost predicate Settled(cur: seq<seq<byte>>, g0: seq<seq<byte>>, thresh: int, scale: nat)
  {
    && |cur| == |g0| && (forall i :: 0 <= i < |g0| ==> |cur[i]| == |g0[i]|)
    && (forall p, q {:trigger Adjacent(p, q)} :: Adjacent(p, q) && Seedable(g0, thresh, scale, p) && Seedable(g0, thresh, scale, q) ==>
          (cur[p.y][p.x] <= thresh ==> cur[q.y][q.x] <= thresh))
  }

  /** A fill from `mid` that did not overflow keeps the lowered pixels closed in `g0`. */
  lemma SettledFill(fg: array2<byte>, g0: seq<seq<byte>>, mid: seq<seq<byte>>, taken: seq<Pixel>,
                    thresh: int, scale: nat)
    requires Filled(fg, mid, taken, thresh) && Settled(mid, g0, thresh, scale)
    requires Closed(mid, thresh, scale, taken)
    ensures Settled(Rows(fg), g0, thresh, scale)
  {
    var cur := Rows(fg);
    forall p, q | Adjacent(p, q) && Seedable(g0, thresh, scale, p) && Seedable(g0, thresh, scale, q)
      ensures cur[p.y][p.x] <= thresh ==> cur[q.y][q.x] <= thresh
    {
      SettledStep(fg, g0, mid, taken, thresh, scale, p, q);
    }
  }

  /** The step of SettledFill for one pair of neighbours `p`, `q`. */
  lemma SettledStep(fg: array2<byte>, g0: seq<seq<byte>>, mid: seq<seq<byte>>, taken: seq<Pixel>,
                    thresh: int, scale: nat, p: Pixel, q: Pixel)
    requires Filled(fg, mid, taken, thresh) && Settled(mid, g0, thresh, scale)
    requires Closed(mid, thresh, scale, taken)
    requires Adjacent(p, q) && Seedable(g0, thresh, scale, p) && Seedable(g0, thresh, scale, q)
    ensures fg[p.y, p.x] <= thresh ==> fg[q.y, q.x] <= thresh
  {
    assert q == Pixel(q.x, q.y) && p == Pixel(p.x, p.y);
    if q in taken {
      var j :| 0 <= j < |taken| && taken[j] == q;
    } else if p in taken {
      var k :| 0 <= k < |taken| && taken[k] == p;
      assert Adjacent(taken[k], q);
      assert fg[q.y, q.x] == mid[q.y][q.x];
    } else {
      assert fg[p.y, p.x] == mid[p.y][p.x];
    }
  }

  /** What a fill from `mid` took, closed in `mid`, is closed in `g0`: a whole region. */
  lemma ClosedInOrigin(fg: array2<byte>, g0: seq<seq<byte>>, mid: seq<seq<byte>>, taken: seq<Pixel>,
                       thresh: int, scale: nat)
    requires Filled(fg, mid, taken, thresh) && Settled(mid, g0, thresh, scale)
    requires forall i, j :: 0 <= i < |mid| && 0 <= j < |mid[i]| ==>
               mid[i][j] == g0[i][j] || (g0[i][j] > thresh && mid[i][j] == thresh)
    requires Closed(mid, thresh, scale, taken)
    requires forall k :: 0 <= k < |taken| ==> !Hw.Keepout(taken[k].x, taken[k].y, scale)
    ensures Closed(g0, thresh, scale, taken)
  {
    forall k, q | 0 <= k < |taken| && Adjacent(taken[k], q) && Seedable(g0, thresh, scale, q)
      ensures q in taken
    {
      var p := taken[k];
      assert Seedable(g0, thresh, scale, p);
      assert Adjacent(q, p);
    }
  }

  /**
   * A fill from `seed` that overflowed: 2001 distinct pixels, 4-connected
   * from the seed, each open in `g0`.
   */
  ghost predicate Spill(g0: seq<seq<byte>>, thresh: int, scale: nat, seed: Pixel, s: seq<Pixel>)
  {
    && |s| == MaxBlobPixels + 1 && s[0] == seed && Connected(s)
    && (forall i, j :: 0 <= i < j < |s| ==> s[i] != s[j])
    && (forall i :: 0 <= i < |s| ==> Seedable(g0, thresh, scale, s[i]))
  }

  /** What the fill still has to look at: the popped pixel `p` when `ok`, then the stack. */
  function Pending(ok: bool, p: Pixel, stack: seq<Pixel>): seq<Pixel>
  {
    if ok then [p] + stack else stack
  }

  /** Popping the top of the stack, or finding it empty, leaves the pending pixels as they are. */
  lemma FrontierPop(g0: seq<seq<byte>>, thresh: int, scale: nat, taken: seq<Pixel>, s: seq<Pixel>,
                    ok: bool, p: Pixel, rest: seq<Pixel>)
    requires Frontier(g0, thresh, scale, taken, s)
    requires if ok then s != [] && p == s[0] && rest == s[1..] else s == [] && rest == []
    ensures Frontier(g0, thresh, scale, taken, Pending(ok, p, rest))
  {
    if ok {
      assert Pending(ok, p, rest) == s;
    }
  }

  /** Taking `p` and pushing its open neighbours keeps the frontier. */
  lemma FrontierTake(src: array2<byte>, g0: seq<seq<byte>>, thresh: byte, scale: nat, taken: seq<Pixel>,
                     p: Pixel, stack: seq<Pixel>, nb: seq<Pixel>)
    requires Frontier(g0, thresh, scale, taken, [p] + stack)
    requires Painted(src, g0, taken + [p], thresh)
    requires nb == Pushed(src, p, thresh, scale)
    ensures Frontier(g0, thresh, scale, taken + [p], nb + stack)
  {
    var t := taken + [p];
    MarkedMembers(t);
    forall k, q | 0 <= k < |t| && Adjacent(t[k], q) && Seedable(g0, thresh, scale, q)
      ensures q in t || q in nb + stack
    {
      if k < |taken| {
        assert t[k] == taken[k];
        assert q in taken || q in [p] + stack;
      } else if q !in t {
        assert src[q.y, q.x] == g0[q.y][q.x];
      }
    }
  }

  /** Skipping a popped `p` that is no longer above the threshold keeps the frontier. */
  lemma FrontierSkip(src: array2<byte>, g0: seq<seq<byte>>, thresh: byte, scale: nat, taken: seq<Pixel>,
                     p: Pixel, stack: seq<Pixel>)
    requires Frontier(g0, thresh, scale, taken, [p] + stack)
    requires Painted(src, g0, taken, thresh)
    requires InGrid(src, p) && src[p.y, p.x] <= thresh
    ensures Frontier(g0, thresh, scale, taken, stack)
  {
    MarkedMembers(taken);
    forall k, q | 0 <= k < |taken| && Adjacent(taken[k], q) && Seedable(g0, thresh, scale, q)
      ensures q in taken || q in stack
    {
      assert q in taken || q in [p] + stack;
    }
  }

  /** Appending one taken pixel to the accumulated sums, box, set and snapshot facts. */
  lemma TakeAccumulates(g0: seq<seq<byte>>, taken: seq<Pixel>, p: Pixel, thresh: int, cols: int, rows: int)
    requires WasAbove(g0, taken, thresh)
    requires 0 <= p.y < |g0| && 0 <= p.x < |g0[p.y]| && g0[p.y][p.x] > thresh
    ensures WasAbove(g0, taken + [p], thresh)
    ensures SumX(taken + [p]) == SumX(taken) + p.x && SumY(taken + [p]) == SumY(taken) + p.y
    ensures var b := Box(taken, Bounds(cols, rows, 0, 0));
      Box(taken + [p], Bounds(cols, rows, 0, 0)) == Bounds(Min(p.x, b.left), Min(p.y, b.top), Max(p.x, b.right), Max(p.y, b.bottom))
    ensures Marked(taken + [p]) == Marked(taken) + {p}
  {
    assert (taken + [p])[..|taken|] == taken;
  }

  /** Taking pixel `p`, pushed from `taken[from]`, and pushing its neighbours `nb`. */
  lemma TrailTake(g: array2<byte>, scale: int, seed: Pixel, taken: seq<Pixel>, parent: seq<nat>,
                  stack: seq<Pixel>, via: seq<nat>, p: Pixel, from: nat, nb: seq<Pixel>)
    requires Trail(g, scale, seed, taken, parent, stack, via)
    requires InGrid(g, p) && p !in taken
    requires taken == [] ==> p == seed
    requires taken != [] ==> from < |taken| && Adjacent(taken[from], p) && !Hw.Keepout(p.x, p.y, scale)
    requires forall k :: 0 <= k < |nb| ==> InGrid(g, nb[k]) && !Hw.Keepout(nb[k].x, nb[k].y, scale) && Adjacent(p, nb[k])
    ensures Trail(g, scale, seed, taken + [p], parent + [from], nb + stack, Repeat(|nb|, |taken|) + via)
  {
    var t := taken + [p];
    var v := Repeat(|nb|, |taken|) + via;
    var st := nb + stack;
    forall k | 0 <= k < |st|
      ensures v[k] < |t| && Adjacent(t[v[k]], st[k])
    {
      if k < |nb| {
        assert v[k] == |taken| && st[k] == nb[k];
      } else {
        assert v[k] == via[k - |nb|] && st[k] == stack[k - |nb|];
      }
    }
  }

  /** Popping the stack's top. */
  lemma TrailPop(g: array2<byte>, scale: int, seed: Pixel, taken: seq<Pixel>, parent: seq<nat>,
                 stack: seq<Pixel>, via: seq<nat>)
    requires Trail(g, scale, seed, taken, parent, stack, via) && stack != []
    ensures Trail(g, scale, seed, taken, parent, stack[1..], via[1..])
    ensures InGrid(g, stack[0]) && !Hw.Keepout(stack[0].x, stack[0].y, scale)
    ensures via[0] < |taken| && Adjacent(taken[via[0]], stack[0])
  {
    assert forall k :: 0 <= k < |stack| - 1 ==> stack[1..][k] == stack[k + 1] && via[1..][k] == via[k + 1];
  }

  /**
   * add_blob: flood-fill from (x0, y0). `taken` lists the pixels counted,
   * in order; `parent[k]` is the earlier pixel `taken[k]` was pushed from.
   */
  method AddBlob(src: array2<byte>, x0: int, y0: int, precs: seq<Rec>, errorIn: bool, thresh: byte, scale: nat)
    returns (res: seq<Rec>, error: bool, ghost taken: seq<Pixel>, ghost parent: seq<nat>)
    requires 0 <= y0 < src.Length0 && 0 <= x0 < src.Length1
    modifies src
    // a seed at or below the threshold changes nothing
    ensures old(src[y0, x0]) <= thresh ==> res == precs && error == errorIn && taken == [] && unchanged(src)
    // exactly the counted pixels changed: each was above the threshold and is now the threshold
    ensures Filled(src, old(Rows(src)), taken, thresh)
    ensures forall k, l :: 0 <= k < l < |taken| ==> taken[k] != taken[l]
    // the fill starts at the seed and spreads by 4-neighbours outside keepout
    ensures taken != [] ==> taken[0] == Pixel(x0, y0)
    ensures old(src[y0, x0]) > thresh ==> taken != []
    // without overflow, every open 4-neighbour of a counted pixel was counted too
    ensures !error ==> Closed(old(Rows(src)), thresh, scale, taken)
    ensures |parent| == |taken|
    ensures forall k :: 1 <= k < |taken| ==> parent[k] < k && Adjacent(taken[parent[k]], taken[k])
    ensures forall k :: 1 <= k < |taken| ==> !Hw.Keepout(taken[k].x, taken[k].y, scale)
    // overflow, too small, or a new record
    ensures old(src[y0, x0]) > thresh ==> (error <==> |taken| > MaxBlobPixels)
    ensures error && old(src[y0, x0]) > thresh ==> |taken| == MaxBlobPixels + 1 && res == precs
    ensures !error ==> |taken| <= MaxBlobPixels
    ensures !error && |taken| < MinBlobPixels ==> res == precs
    ensures !error && |taken| >= MinBlobPixels ==> res == [RecOf(taken, scale, src.Length1, src.Length0)] + precs
  {
    ghost var g0 := Rows(src);
    if src[y0, x0] <= thresh {
      return precs, errorIn, [], [];
    }
    var overflow, acc;
    overflow, acc, taken, parent := Fill(src, g0, Pixel(x0, y0), thresh, scale);
    var b, npix := acc.box, acc.npix;
    if overflow {
      return precs, true, taken, parent;
    }
    if npix < MinBlobPixels {
      return precs, false, taken, parent;
    }
    var pnr := Rec(Rect(b.left * scale, b.top * scale, (b.right - b.left + 1) * scale, (b.bottom - b.top + 1) * scale),
                   npix, acc.xtot * scale / npix, acc.ytot * scale / npix, 0, None);
    res := [pnr] + precs;
    error := false;
  }

  /** The loop's accumulators: bounding box, coordinate sums and pixel count. */
  datatype Acc = Acc(box: Bounds, xtot: int, ytot: int, npix: int)

  function AccOf(taken: seq<Pixel>, cols: int, rows: int): Acc
  {
    Acc(Box(taken, Bounds(cols, rows, 0, 0)), SumX(taken), SumY(taken), |taken|)
  }

  /**
   * The body of `if (src.at(y, x) > thresh)`: lower the pixel and fold it
   * into the accumulators.
   */
  method TakeStep(src: array2<byte>, ghost g0: seq<seq<byte>>, ghost taken: seq<Pixel>, thresh: byte, p: Pixel, acc: Acc)
    returns (acc': Acc)
    requires InGrid(src, p) && src[p.y, p.x] > thresh
    requires Painted(src, g0, taken, thresh) && WasAbove(g0, taken, thresh)
    requires acc == AccOf(taken, src.Length1, src.Length0)
    modifies src
    ensures p !in taken
    ensures Painted(src, g0, taken + [p], thresh) && WasAbove(g0, taken + [p], thresh)
    ensures acc' == AccOf(taken + [p], src.Length1, src.Length0)
  {
    MarkedMembers(taken);
    TakeAccumulates(g0, taken, p, thresh, src.Length1, src.Length0);
    Lower(src, g0, taken, p, thresh);
    var b := acc.box;
    acc' := Acc(Bounds(Min(p.x, b.left), Min(p.y, b.top), Max(p.x, b.right), Max(p.y, b.bottom)),
                acc.xtot + p.x, acc.ytot + p.y, acc.npix + 1);
  }

  function Repeat(n: nat, v: nat): (r: seq<nat>)
    ensures |r| == n && forall k :: 0 <= k < n ==> r[k] == v
  {
    if n == 0 then [] else Repeat(n - 1, v) + [v]
  }

  /**
   * One taken pixel: lower it, fold it into the accumulators and find the
   * neighbours to push (`nb`, in stack order).
   */
  method Visit(src: array2<byte>, ghost g0: seq<seq<byte>>, thresh: byte, scale: nat, ghost seed: Pixel,
               p: Pixel, ghost from: nat, acc: Acc, ghost taken: seq<Pixel>, ghost parent: seq<nat>,
               ghost stack: seq<Pixel>, ghost via: seq<nat>)
    returns (acc': Acc, nb: seq<Pixel>)
    requires Trail(src, scale, seed, taken, parent, stack, via)
    requires Painted(src, g0, taken, thresh) && WasAbove(g0, taken, thresh)
    requires acc == AccOf(taken, src.Length1, src.Length0)
    requires InGrid(src, p) && src[p.y, p.x] > thresh
    requires taken == [] ==> p == seed
    requires taken != [] ==> from < |taken| && Adjacent(taken[from], p) && !Hw.Keepout(p.x, p.y, scale)
    modifies src
    ensures Trail(src, scale, seed, taken + [p], parent + [from], nb + stack, Repeat(|nb|, |taken|) + via)
    ensures Painted(src, g0, taken + [p], thresh) && WasAbove(g0, taken + [p], thresh)
    ensures acc' == AccOf(taken + [p], src.Length1, src.Length0)
    ensures nb == Pushed(src, p, thresh, scale)
  {
    acc' := TakeStep(src, g0, taken, thresh, p, acc);
    nb := Pushed(src, p, thresh, scale);
    TrailTake(src, scale, seed, taken, parent, stack, via, p, from, nb);
  }

  /**
   * The `while (pop_pt(&x, &y))` loop of add_blob, from a seed above the
   * threshold in an image equal to `g0`. `overflow` is the early return
   * after more than 2000 pixels; `acc` holds the accumulated bounding box,
   * coordinate sums and pixel count.
   */
  method Fill(src: array2<byte>, ghost g0: seq<seq<byte>>, seed: Pixel, thresh: byte, scale: nat)
    returns (overflow: bool, acc: Acc, ghost taken: seq<Pixel>, ghost parent: seq<nat>)
    requires InGrid(src, seed) && Painted(src, g0, [], thresh)
    requires g0[seed.y][seed.x] > thresh
    modifies src
    ensures Filled(src, g0, taken, thresh)
    ensures forall k, l :: 0 <= k < l < |taken| ==> taken[k] != taken[l]
    ensures taken != [] && taken[0] == seed
    ensures |parent| == |taken|
    ensures forall k :: 1 <= k < |taken| ==> parent[k] < k && Adjacent(taken[parent[k]], taken[k])
    ensures forall k :: 1 <= k < |taken| ==> !Hw.Keepout(taken[k].x, taken[k].y, scale)
    ensures acc == AccOf(taken, src.Length1, src.Length0)
    ensures overflow <==> acc.npix > MaxBlobPixels
    ensures acc.npix <= MaxBlobPixels + 1
    // without overflow the fill took the seed's whole 4-connected open region
    ensures !overflow ==> Closed(g0, thresh, scale, taken)
  {
    acc := Acc(Bounds(src.Length1, src.Length0, 0, 0), 0, 0, 0);
    taken, parent := [], [];
    // push_pt(x0, y0), then the first pop_pt
    var stack: seq<Pixel> := [];
    ghost var via: seq<nat> := [];
    var ok, p := true, seed;
    ghost var from: nat := 0;
    overflow := false;
    while ok && !overflow
      invariant Walk(src, g0, thresh, scale, seed, ok, p, from, acc, taken, parent, stack, via)
      invariant overflow <==> acc.npix > MaxBlobPixels
      invariant acc.npix <= MaxBlobPixels + 1
      invariant overflow ==> !ok
      invariant !overflow ==> Frontier(g0, thresh, scale, taken, Pending(ok, p, stack))
      decreases MaxBlobPixels + 1 - acc.npix, |stack| + (if ok then 1 else 0)
    {
      overflow, ok, p, from, acc, stack, taken, parent, via :=
        Advance(src, g0, thresh, scale, seed, p, from, acc, taken, parent, stack, via);
    }
    PaintedFilled(src, g0, taken, thresh);
  }

  /** The loop invariant of add_blob's fill. */
  ghost predicate Walk(src: array2<byte>, g0: seq<seq<byte>>, thresh: byte, scale: nat, seed: Pixel,
                       ok: bool, p: Pixel, from: nat, acc: Acc, taken: seq<Pixel>, parent: seq<nat>,
                       stack: seq<Pixel>, via: seq<nat>)
    reads src
  {
    && Trail(src, scale, seed, taken, parent, stack, via)
    && Painted(src, g0, taken, thresh) && WasAbove(g0, taken, thresh)
    && (ok ==> InGrid(src, p))
    && (ok && taken != [] ==> from < |taken| && Adjacent(taken[from], p) && !Hw.Keepout(p.x, p.y, scale))
    && (!ok ==> stack == [] && taken != [])
    && (taken == [] ==> ok && p == seed && src[p.y, p.x] > thresh)
    && acc == AccOf(taken, src.Length1, src.Length0)
  }

  /**
   * One turn of the fill loop: take `p` if it is still above the threshold
   * (returning early once more than 2000 pixels are counted), then pop.
   */
  method Advance(src: array2<byte>, ghost g0: seq<seq<byte>>, thresh: byte, scale: nat, ghost seed: Pixel,
                 p: Pixel, ghost from: nat, acc: Acc, ghost taken: seq<Pixel>, ghost parent: seq<nat>,
                 stack: seq<Pixel>, ghost via: seq<nat>)
    returns (overflow: bool, ok': bool, p': Pixel, ghost from': nat, acc': Acc, stack': seq<Pixel>,
             ghost taken': seq<Pixel>, ghost parent': seq<nat>, ghost via': seq<nat>)
    requires Walk(src, g0, thresh, scale, seed, true, p, from, acc, taken, parent, stack, via)
    requires acc.npix <= MaxBlobPixels
    modifies src
    ensures Walk(src, g0, thresh, scale, seed, ok', p', from', acc', taken', parent', stack', via')
    ensures overflow <==> acc'.npix > MaxBlobPixels
    ensures overflow ==> !ok' && acc'.npix == MaxBlobPixels + 1
    ensures acc'.npix == acc.npix || acc'.npix == acc.npix + 1
    ensures acc'.npix == acc.npix ==> |stack'| + (if ok' then 1 else 0) < |stack| + 1
    requires Frontier(g0, thresh, scale, taken, [p] + stack)
    ensures !overflow ==> Frontier(g0, thresh, scale, taken', Pending(ok', p', stack'))
  {
    overflow, acc', stack', taken', parent', via' := false, acc, stack, taken, parent, via;
    if src[p.y, p.x] > thresh {
      var nb;
      acc', nb := Visit(src, g0, thresh, scale, seed, p, from, acc, taken, parent, stack, via);
      parent', taken' := parent + [from], taken + [p];
      if acc'.npix > MaxBlobPixels {
        // drain the stack
        return true, false, p, from, acc', [], taken', parent', [];
      }
      FrontierTake(src, g0, thresh, scale, taken, p, stack, nb);
      stack' := nb + stack;
      via' := Repeat(|nb|, |taken|) + via;
    } else {
      FrontierSkip(src, g0, thresh, scale, taken, p, stack);
    }
    // pop_pt
    if stack' == [] {
      ok', p', from' := false, p, from;
      FrontierPop(g0, thresh, scale, taken', stack', ok', p', stack');
    } else {
      TrailPop(src, scale, seed, taken', parent', stack', via');
      ok', p', from' := true, stack'[0], via'[0];
      FrontierPop(g0, thresh, scale, taken', stack', ok', p', stack'[1..]);
      stack', via' := stack'[1..], via'[1..];
    }
  }

  /**
   * Each pixel of the image either still holds its value in `before`, or was
   * above the threshold there and has been lowered to the threshold.
   */
  ghost predicate Lowered(src: array2<byte>, before: seq<seq<byte>>, thresh: int)
    reads src
  {
    && |before| == src.Length0
    && (forall i :: 0 <= i < |before| ==> |before[i]| == src.Length1)
    && (forall i, j :: 0 <= i < src.Length0 && 0 <= j < src.Length1 ==>
          src[i, j] == before[i][j] || (before[i][j] > thresh && src[i, j] == thresh))
  }

  lemma FilledLowered(src: array2<byte>, before: seq<seq<byte>>, taken: seq<Pixel>, thresh: int)
    requires Filled(src, before, taken, thresh)
    ensures Lowered(src, before, thresh)
  {
    forall i, j | 0 <= i < src.Length0 && 0 <= j < src.Length1 && Pixel(j, i) in taken
      ensures before[i][j] > thresh && src[i, j] == thresh
    {
      var k :| 0 <= k < |taken| && taken[k] == Pixel(j, i);
    }
  }

  /** Lowering twice is lowering once. */
  lemma LoweredTrans(src: array2<byte>, mid: seq<seq<byte>>, g0: seq<seq<byte>>, thresh: int)
    requires Lowered(src, mid, thresh)
    requires |g0| == |mid| && forall i :: 0 <= i < |g0| ==> |g0[i]| == |mid[i]|
    requires forall i, j :: 0 <= i < |mid| && 0 <= j < |mid[i]| ==>
               mid[i][j] == g0[i][j] || (g0[i][j] > thresh && mid[i][j] == thresh)
    ensures Lowered(src, g0, thresh)
  {
  }

  /**
   * What find_bbb has built so far: the image is the snapshot `g0` lowered;
   * `precs` holds one record per blob of `blobs`, newest first; each blob
   * has between 3 and 2000 distinct pixels, each of which was above the
   * threshold in `g0`, lies outside keepout and is now at the threshold;
   * no pixel belongs to two blobs; and each blob is a whole 4-connected
   * region of the pixels open in `g0`.
   */
  ghost predicate Found(fg: array2<byte>, g0: seq<seq<byte>>, thresh: int, scale: nat,
                        precs: seq<Rec>, blobs: seq<seq<Pixel>>)
    reads fg
  {
    && Lowered(fg, g0, thresh)
    && RecordsOf(precs, blobs, scale, fg.Length1, fg.Length0)
    && BlobPixels(g0, thresh, scale, blobs)
    && Disjoint(blobs)
    && AtThresh(fg, blobs, thresh)
    && Whole(g0, thresh, scale, blobs)
  }

  /** Every blob is closed in `g0` and 4-connected. */
  ghost predicate Whole(g0: seq<seq<byte>>, thresh: int, scale: nat, blobs: seq<seq<Pixel>>)
  {
    forall k :: 0 <= k < |blobs| ==> Closed(g0, thresh, scale, blobs[k]) && Connected(blobs[k])
  }

  lemma WholeGrow(g0: seq<seq<byte>>, thresh: int, scale: nat, blobs: seq<seq<Pixel>>, taken: seq<Pixel>)
    requires Whole(g0, thresh, scale, blobs)
    requires Closed(g0, thresh, scale, taken) && Connected(taken)
    ensures Whole(g0, thresh, scale, [taken] + blobs)
  {
    var bs := [taken] + blobs;
    forall k | 0 <= k < |bs|
      ensures Closed(g0, thresh, scale, bs[k]) && Connected(bs[k])
    {
      if k > 0 {
        assert bs[k] == blobs[k - 1];
      }
    }
  }

  /** `precs[k]` is the record of `blobs[k]`, whose size add_blob accepted. */
  ghost predicate RecordsOf(precs: seq<Rec>, blobs: seq<seq<Pixel>>, scale: nat, cols: int, rows: int)
  {
    && |blobs| == |precs|
    && (forall k :: 0 <= k < |blobs| ==>
          MinBlobPixels <= |blobs[k]| <= MaxBlobPixels && precs[k] == RecOf(blobs[k], scale, cols, rows))
  }

  /** Every blob pixel was above the threshold in `g0` and lies outside keepout. */
  ghost predicate BlobPixels(g0: seq<seq<byte>>, thresh: int, scale: nat, blobs: seq<seq<Pixel>>)
  {
    forall k, i :: 0 <= k < |blobs| && 0 <= i < |blobs[k]| ==> Seedable(g0, thresh, scale, blobs[k][i])
  }

  /** No pixel is listed twice, within a blob or across two blobs. */
  ghost predicate Disjoint(blobs: seq<seq<Pixel>>)
  {
    && (forall k, i, j :: 0 <= k < |blobs| && 0 <= i < j < |blobs[k]| ==> blobs[k][i] != blobs[k][j])
    && (forall k, l, i, j :: 0 <= k < l < |blobs| && 0 <= i < |blobs[k]| && 0 <= j < |blobs[l]| ==>
          blobs[k][i] != blobs[l][j])
  }

  /** Every pixel of a recorded blob is in the image and at the threshold. */
  ghost predicate AtThresh(fg: array2<byte>, blobs: seq<seq<Pixel>>, thresh: int)
    reads fg
  {
    forall k, i :: 0 <= k < |blobs| && 0 <= i < |blobs[k]| ==>
      InGrid(fg, blobs[k][i]) && fg[blobs[k][i].y, blobs[k][i].x] == thresh
  }

  /** The pixels of `s`, each inside `mid` and above the threshold there. */
  ghost predicate AboveIn(mid: seq<seq<byte>>, s: seq<Pixel>, thresh: int)
  {
    forall i :: 0 <= i < |s| ==> 0 <= s[i].y < |mid| && 0 <= s[i].x < |mid[s[i].y]| && mid[s[i].y][s[i].x] > thresh
  }

  /** Prepending a blob whose pixels were above the threshold in `mid` to blobs at it there. */
  lemma DisjointGrow(mid: seq<seq<byte>>, thresh: int, blobs: seq<seq<Pixel>>, taken: seq<Pixel>)
    requires Disjoint(blobs)
    requires forall k, i :: 0 <= k < |blobs| && 0 <= i < |blobs[k]| ==>
               0 <= blobs[k][i].y < |mid| && 0 <= blobs[k][i].x < |mid[blobs[k][i].y]|
               && mid[blobs[k][i].y][blobs[k][i].x] == thresh
    requires forall i, j :: 0 <= i < j < |taken| ==> taken[i] != taken[j]
    requires AboveIn(mid, taken, thresh)
    ensures Disjoint([taken] + blobs)
  {
    var bs := [taken] + blobs;
    forall k, l, i, j | 0 <= k < l < |bs| && 0 <= i < |bs[k]| && 0 <= j < |bs[l]|
      ensures bs[k][i] != bs[l][j]
    {
      assert bs[l] == blobs[l - 1];
      if k == 0 {
        assert bs[k][i] == taken[i];
      } else {
        assert bs[k] == blobs[k - 1];
      }
    }
  }

  /** The pixels of a new blob were above the threshold in `g0`, as in `mid`. */
  lemma BlobPixelsGrow(g0: seq<seq<byte>>, mid: seq<seq<byte>>, thresh: int, scale: nat,
                       blobs: seq<seq<Pixel>>, taken: seq<Pixel>)
    requires BlobPixels(g0, thresh, scale, blobs)
    requires |g0| == |mid| && forall i :: 0 <= i < |g0| ==> |g0[i]| == |mid[i]|
    requires forall i, j :: 0 <= i < |mid| && 0 <= j < |mid[i]| ==>
               mid[i][j] == g0[i][j] || (g0[i][j] > thresh && mid[i][j] == thresh)
    requires AboveIn(mid, taken, thresh)
    requires forall i :: 0 <= i < |taken| ==> !Hw.Keepout(taken[i].x, taken[i].y, scale)
    ensures BlobPixels(g0, thresh, scale, [taken] + blobs)
  {
    var bs := [taken] + blobs;
    forall k: int, i: int | 0 <= k < |bs| && 0 <= i < |bs[k]|
      ensures Seedable(g0, thresh, scale, bs[k][i])
    {
      if k == 0 {
        assert bs[k][i] == taken[i];
      } else {
        assert bs[k] == blobs[k - 1];
      }
    }
  }

  /**
   * One blob candidate of find_bbb: add_blob seeded at (x1, y). `taken` is
   * what the fill took: a new blob when it has 3 to 2000 pixels, a drop
   * when it has fewer, and the spill when it overflowed.
   */
  method Candidate(fg: array2<byte>, ghost g0: seq<seq<byte>>, x1: int, y: int, precs: seq<Rec>,
                   ghost blobs: seq<seq<Pixel>>, thresh: byte, scale: nat)
    returns (precs': seq<Rec>, error: bool, ghost blobs': seq<seq<Pixel>>, ghost taken: seq<Pixel>)
    requires 0 <= y < fg.Length0 && 0 <= x1 < fg.Length1
    requires !Hw.Keepout(x1, y, scale) && fg[y, x1] > thresh
    requires Found(fg, g0, thresh, scale, precs, blobs) && Settled(Rows(fg), g0, thresh, scale)
    modifies fg
    // exactly the pixels the fill took changed, each lowered to the threshold
    ensures Filled(fg, old(Rows(fg)), taken, thresh)
    ensures taken != [] && taken[0] == Pixel(x1, y)
    ensures error <==> |taken| > MaxBlobPixels
    ensures error ==> Lowered(fg, g0, thresh) && Spill(g0, thresh, scale, Pixel(x1, y), taken)
    // a fill of at least 3 pixels is recorded and kept, a smaller one is dropped
    ensures !error ==> blobs' == Grown(blobs, taken)
    ensures !error ==>
              precs' == if |taken| >= MinBlobPixels then [RecOf(taken, scale, fg.Length1, fg.Length0)] + precs else precs
    // either way the fill is a whole 4-connected region of pixels open in `g0`
    ensures !error ==> Closed(g0, thresh, scale, taken) && Connected(taken)
    ensures forall i :: 0 <= i < |taken| ==> Seedable(g0, thresh, scale, taken[i])
    ensures !error ==> Found(fg, g0, thresh, scale, precs', blobs') && Settled(Rows(fg), g0, thresh, scale)
  {
    ghost var mid := Rows(fg);
    ghost var parent;
    precs', error, taken, parent := AddBlob(fg, x1, y, precs, false, thresh, scale);
    FilledLowered(fg, mid, taken, thresh);
    FilledAbove(fg, mid, taken, thresh);
    assert taken[0] == Pixel(x1, y);
    assert forall k :: 0 <= k < |taken| ==> !Hw.Keepout(taken[k].x, taken[k].y, scale);
    LoweredTrans(fg, mid, g0, thresh);
    ParentConnected(taken, parent);
    blobs' := Grown(blobs, taken);
    if !error {
      SettledFill(fg, g0, mid, taken, thresh, scale);
      ClosedInOrigin(fg, g0, mid, taken, thresh, scale);
      FoundGrow(fg, g0, mid, thresh, scale, precs, blobs, taken);
    }
  }

  /** The blobs after a fill that took `taken`: a new blob unless it is too small. */
  function Grown(blobs: seq<seq<Pixel>>, taken: seq<Pixel>): (r: seq<seq<Pixel>>)
    ensures |r| <= |blobs| + 1
  {
    if |taken| >= MinBlobPixels then [taken] + blobs else blobs
  }

  /** Found is kept by a fill from `mid` that did not overflow. */
  lemma FoundGrow(fg: array2<byte>, g0: seq<seq<byte>>, mid: seq<seq<byte>>, thresh: int, scale: nat,
                  precs: seq<Rec>, blobs: seq<seq<Pixel>>, taken: seq<Pixel>)
    requires Lowered(fg, g0, thresh) && Filled(fg, mid, taken, thresh)
    requires |g0| == |mid| && forall i :: 0 <= i < |g0| ==> |g0[i]| == |mid[i]|
    requires forall i, j :: 0 <= i < |mid| && 0 <= j < |mid[i]| ==>
               mid[i][j] == g0[i][j] || (g0[i][j] > thresh && mid[i][j] == thresh)
    requires forall k, i :: 0 <= k < |blobs| && 0 <= i < |blobs[k]| ==>
               0 <= blobs[k][i].y < |mid| && 0 <= blobs[k][i].x < |mid[blobs[k][i].y]|
               && mid[blobs[k][i].y][blobs[k][i].x] == thresh
    requires RecordsOf(precs, blobs, scale, fg.Length1, fg.Length0)
    requires BlobPixels(g0, thresh, scale, blobs) && Disjoint(blobs)
    requires |taken| <= MaxBlobPixels
    requires forall i, j :: 0 <= i < j < |taken| ==> taken[i] != taken[j]
    requires forall i :: 0 <= i < |taken| ==> !Hw.Keepout(taken[i].x, taken[i].y, scale)
    requires Whole(g0, thresh, scale, blobs)
    requires Closed(g0, thresh, scale, taken) && Connected(taken)
    ensures Found(fg, g0, thresh, scale, if |taken| >= MinBlobPixels then [RecOf(taken, scale, fg.Length1, fg.Length0)] + precs else precs,
                  Grown(blobs, taken))
  {
    AtThreshKept(fg, mid, taken, thresh, blobs);
    if |taken| >= MinBlobPixels {
      FilledAbove(fg, mid, taken, thresh);
      BlobPixelsGrow(g0, mid, thresh, scale, blobs, taken);
      DisjointGrow(mid, thresh, blobs, taken);
      AtThreshGrow(fg, blobs, taken, thresh);
      RecordsGrow(precs, blobs, taken, scale, fg.Length1, fg.Length0);
      WholeGrow(g0, thresh, scale, blobs, taken);
    }
  }

  lemma RecordsGrow(precs: seq<Rec>, blobs: seq<seq<Pixel>>, taken: seq<Pixel>, scale: nat, cols: int, rows: int)
    requires RecordsOf(precs, blobs, scale, cols, rows)
    requires MinBlobPixels <= |taken| <= MaxBlobPixels
    ensures RecordsOf([RecOf(taken, scale, cols, rows)] + precs, [taken] + blobs, scale, cols, rows)
  {
    var ps, bs := [RecOf(taken, scale, cols, rows)] + precs, [taken] + blobs;
    forall k | 0 <= k < |bs|
      ensures MinBlobPixels <= |bs[k]| <= MaxBlobPixels && ps[k] == RecOf(bs[k], scale, cols, rows)
    {
      if k > 0 {
        assert bs[k] == blobs[k - 1] && ps[k] == precs[k - 1];
      }
    }
  }

  /** The pixels a fill took were above the threshold before it. */
  lemma FilledAbove(fg: array2<byte>, mid: seq<seq<byte>>, taken: seq<Pixel>, thresh: int)
    requires Filled(fg, mid, taken, thresh)
    ensures AboveIn(mid, taken, thresh)
    ensures forall i :: 0 <= i < |taken| ==> InGrid(fg, taken[i]) && fg[taken[i].y, taken[i].x] == thresh
  {
  }

  lemma AtThreshGrow(fg: array2<byte>, blobs: seq<seq<Pixel>>, taken: seq<Pixel>, thresh: int)
    requires AtThresh(fg, blobs, thresh)
    requires forall i :: 0 <= i < |taken| ==> InGrid(fg, taken[i]) && fg[taken[i].y, taken[i].x] == thresh
    ensures AtThresh(fg, [taken] + blobs, thresh)
  {
    var bs := [taken] + blobs;
    forall k, i | 0 <= k < |bs| && 0 <= i < |bs[k]|
      ensures InGrid(fg, bs[k][i]) && fg[bs[k][i].y, bs[k][i].x] == thresh
    {
      if k > 0 {
        assert bs[k] == blobs[k - 1];
      }
    }
  }

  /** A fill from `mid` leaves blobs that were at the threshold in `mid` at it. */
  lemma AtThreshKept(fg: array2<byte>, mid: seq<seq<byte>>, taken: seq<Pixel>, thresh: int, blobs: seq<seq<Pixel>>)
    requires Filled(fg, mid, taken, thresh)
    requires forall k, i :: 0 <= k < |blobs| && 0 <= i < |blobs[k]| ==>
               0 <= blobs[k][i].y < |mid| && 0 <= blobs[k][i].x < |mid[blobs[k][i].y]|
               && mid[blobs[k][i].y][blobs[k][i].x] == thresh
    ensures AtThresh(fg, blobs, thresh)
    ensures forall k, i :: 0 <= k < |blobs| && 0 <= i < |blobs[k]| ==> blobs[k][i] !in taken
  {
  }

  /** How find_bbb's scan ended: the whole region, the candidate limit, or a blob overflow. */
  datatype ScanEnd = Finished | Bailed | Overflowed

  /** The pixel `p` of `fg` is still above the threshold: not yet lowered by a fill. */
  predicate Above(fg: array2<byte>, p: Pixel, thresh: int)
    reads fg
  {
    InGrid(fg, p) && fg[p.y, p.x] > thresh
  }

  /**
   * How a scan that stopped early left things: a bail comes at the 1002nd
   * candidate, which is left unfilled; an overflow frees every record and
   * its fill spilled from the last candidate.
   */
  ghost predicate Ended(fg: array2<byte>, g0: seq<seq<byte>>, thresh: int, scale: nat, outcome: ScanEnd,
                        precs: seq<Rec>, blobs: seq<seq<Pixel>>, seeds: seq<Pixel>, spill: seq<Pixel>)
    reads fg
  {
    && (outcome == Bailed <==> |seeds| == MaxCandidates + 2)
    && (outcome == Bailed ==> Above(fg, seeds[|seeds| - 1], thresh))
    && (outcome == Overflowed ==>
          precs == [] && blobs == [] && seeds != [] && Spill(g0, thresh, scale, seeds[|seeds| - 1], spill))
  }

  /**
   * In the image `g`, every pixel of rows `ylo` to `yhi` and columns `xl` to
   * `xr` is in keepout or at or below the threshold.
   */
  ghost predicate SweptRegion(g: seq<seq<byte>>, scale: nat, thresh: int, ylo: int, yhi: int, xl: int, xr: int)
  {
    forall y, x :: ylo <= y < yhi && xl <= x < xr && 0 <= y < |g| && 0 <= x < |g[y]| ==>
      Hw.Keepout(x, y, scale) || g[y][x] <= thresh
  }


  /** `p` comes before `q` in find_bbb's scan: an earlier row, or further left in the same row. */
  predicate Before(p: Pixel, q: Pixel)
  {
    p.y < q.y || (p.y == q.y && p.x < q.x)
  }

  /** The pixels of `s` in scan order, so none twice. */
  predicate InScanOrder(s: seq<Pixel>)
  {
    forall i, j :: 0 <= i < j < |s| ==> Before(s[i], s[j])
  }

  /** In a scan-ordered sequence, a pixel before another sits at a smaller index. */
  lemma ScanOrderIndex(s: seq<Pixel>, i: int, k: int)
    requires InScanOrder(s) && 0 <= i < |s| && 0 <= k < |s| && Before(s[k], s[i])
    ensures k < i
  {
  }

  /** Appending a pixel that comes after all of `s` keeps the scan order. */
  lemma ScanOrderSnoc(s: seq<Pixel>, p: Pixel)
    requires InScanOrder(s) && forall i :: 0 <= i < |s| ==> Before(s[i], p)
    ensures InScanOrder(s + [p])
  {
    var t := s + [p];
    forall i, j | 0 <= i < j < |t|
      ensures Before(t[i], t[j])
    {
      assert t[i] == s[i];
    }
  }

  /** The blobs a run of fills leaves, newest first: the fills of at least 3 pixels. */
  function Kept(fills: seq<seq<Pixel>>): (r: seq<seq<Pixel>>)
    ensures |r| <= |fills|
  {
    if fills == [] then [] else Grown(Kept(fills[..|fills| - 1]), fills[|fills| - 1])
  }

  /** The kept blobs are exactly the fills of at least 3 pixels. */
  lemma {:induction false} KeptMembers(fills: seq<seq<Pixel>>)
    ensures forall t :: t in Kept(fills) <==> t in fills && |t| >= MinBlobPixels
  {
    if fills != [] {
      var init := fills[..|fills| - 1];
      KeptMembers(init);
      assert fills == init + [fills[|fills| - 1]];
    }
  }

  /** One more fill adds its blob to the front of the kept ones, unless it is too small. */
  lemma KeptSnoc(fills: seq<seq<Pixel>>, t: seq<Pixel>)
    ensures Kept(fills + [t]) == Grown(Kept(fills), t)
  {
    assert (fills + [t])[..|fills|] == fills;
  }

  /**
   * The fills find_bbb has made, read against the image `cur`: the blobs are
   * the fills large enough to keep, every fill pixel is at the threshold,
   * and every pixel that differs from `g0` lies in some fill.
   */
  ghost predicate Traced(cur: seq<seq<byte>>, g0: seq<seq<byte>>, thresh: int, blobs: seq<seq<Pixel>>,
                         fills: seq<seq<Pixel>>)
  {
    && blobs == Kept(fills)
    && (forall k, i :: 0 <= k < |fills| && 0 <= i < |fills[k]| ==>
          0 <= fills[k][i].y < |cur| && 0 <= fills[k][i].x < |cur[fills[k][i].y]|
          && cur[fills[k][i].y][fills[k][i].x] == thresh)
    && (forall p {:trigger Moved(cur, g0, p)} :: Moved(cur, g0, p) ==> exists k :: 0 <= k < |fills| && p in fills[k])
  }

  /** The pixel `p` of `cur` differs from the snapshot `g0`. */
  ghost predicate Moved(cur: seq<seq<byte>>, g0: seq<seq<byte>>, p: Pixel)
  {
    0 <= p.y < |cur| && 0 <= p.x < |cur[p.y]| && p.y < |g0| && p.x < |g0[p.y]| && cur[p.y][p.x] != g0[p.y][p.x]
  }

  /** `t` is a whole 4-connected region of pixels open in `g0`. */
  ghost predicate Region(g0: seq<seq<byte>>, thresh: int, scale: nat, t: seq<Pixel>)
  {
    && Closed(g0, thresh, scale, t) && Connected(t)
    && forall i :: 0 <= i < |t| ==> Seedable(g0, thresh, scale, t[i])
  }

  /**
   * `fills[k]` is the fill grown from the candidate `seeds[k]`: it starts
   * there and is a whole 4-connected region of pixels open in `g0`; no later
   * candidate lies in it.
   */
  ghost predicate Fills(g0: seq<seq<byte>>, thresh: int, scale: nat, fills: seq<seq<Pixel>>, seeds: seq<Pixel>)
  {
    && |fills| <= |seeds|
    && (forall k :: 0 <= k < |fills| ==> fills[k] != [] && fills[k][0] == seeds[k])
    && (forall k {:trigger Region(g0, thresh, scale, fills[k])} :: 0 <= k < |fills| ==> Region(g0, thresh, scale, fills[k]))
    && (forall k, i :: 0 <= k < |fills| && k < i < |seeds| ==> seeds[i] !in fills[k])
  }

  /** A pixel above the threshold in `cur` lies in no fill. */
  lemma NotInFills(cur: seq<seq<byte>>, g0: seq<seq<byte>>, thresh: int, blobs: seq<seq<Pixel>>,
                   fills: seq<seq<Pixel>>, p: Pixel)
    requires Traced(cur, g0, thresh, blobs, fills)
    requires 0 <= p.y < |cur| && 0 <= p.x < |cur[p.y]| && cur[p.y][p.x] > thresh
    ensures forall k :: 0 <= k < |fills| ==> p !in fills[k]
  {
    forall k | 0 <= k < |fills|
      ensures p !in fills[k]
    {
    }
  }

  /** A fill from `mid` is traced as the next fill. */
  lemma TracedGrow(fg: array2<byte>, g0: seq<seq<byte>>, mid: seq<seq<byte>>, thresh: int,
                   blobs: seq<seq<Pixel>>, fills: seq<seq<Pixel>>, taken: seq<Pixel>)
    requires Traced(mid, g0, thresh, blobs, fills) && Filled(fg, mid, taken, thresh)
    ensures Traced(Rows(fg), g0, thresh, Grown(blobs, taken), fills + [taken])
  {
    var cur: seq<seq<byte>>, fs: seq<seq<Pixel>> := Rows(fg), fills + [taken];
    KeptSnoc(fills, taken);
    forall k, i | 0 <= k < |fs| && 0 <= i < |fs[k]|
      ensures 0 <= fs[k][i].y < |cur| && 0 <= fs[k][i].x < |cur[fs[k][i].y]| && cur[fs[k][i].y][fs[k][i].x] == thresh
    {
      if k < |fills| {
        var q := fills[k][i];
        assert fs[k] == fills[k];
        if q !in taken {
          assert Pixel(q.x, q.y) == q;
        }
      }
    }
    forall p | Moved(cur, g0, p)
      ensures exists k :: 0 <= k < |fs| && p in fs[k]
    {
      if p in taken {
        assert fs[|fills|] == taken;
      } else {
        assert Pixel(p.x, p.y) == p && Moved(mid, g0, p);
        var k :| 0 <= k < |fills| && p in fills[k];
        assert fs[k] == fills[k];
      }
    }
  }

  /** A new candidate that lies in no fill keeps the fills as they were. */
  lemma FillsAdd(g0: seq<seq<byte>>, thresh: int, scale: nat, fills: seq<seq<Pixel>>, seeds: seq<Pixel>, p: Pixel)
    requires Fills(g0, thresh, scale, fills, seeds)
    requires forall k :: 0 <= k < |fills| ==> p !in fills[k]
    ensures Fills(g0, thresh, scale, fills, seeds + [p])
  {
    var ss := seeds + [p];
    forall k | 0 <= k < |fills|
      ensures fills[k] != [] && fills[k][0] == ss[k]
    {
      assert ss[k] == seeds[k];
    }
    forall k, i | 0 <= k < |fills| && k < i < |ss|
      ensures ss[i] !in fills[k]
    {
      if i < |seeds| {
        assert ss[i] == seeds[i];
      }
    }
  }

  /** The fill of the newest candidate, a whole region starting at it, joins the fills. */
  lemma FillsGrow(g0: seq<seq<byte>>, thresh: int, scale: nat, fills: seq<seq<Pixel>>, seeds: seq<Pixel>,
                  taken: seq<Pixel>)
    requires Fills(g0, thresh, scale, fills, seeds) && |seeds| == |fills| + 1
    requires taken != [] && taken[0] == seeds[|fills|]
    requires Closed(g0, thresh, scale, taken) && Connected(taken)
    requires forall i :: 0 <= i < |taken| ==> Seedable(g0, thresh, scale, taken[i])
    ensures Fills(g0, thresh, scale, fills + [taken], seeds)
  {
    var fs := fills + [taken];
    forall k | 0 <= k < |fs|
      ensures fs[k] != [] && fs[k][0] == seeds[k] && Region(g0, thresh, scale, fs[k])
    {
      if k < |fills| {
        assert fs[k] == fills[k];
      }
    }
    forall k, i | 0 <= k < |fs| && k < i < |seeds|
      ensures seeds[i] !in fs[k]
    {
      assert fs[k] == fills[k];
    }
  }

  /**
   * Where the scan of each row of `r` stops: the column after the last of
   * the eight-column chunks that start inside the region.
   */
  function ChunkEnd(r: Rect): (xe: int)
    ensures r.width <= 0 ==> xe == r.x
    ensures r.width > 0 ==> r.x + r.width <= xe < r.x + r.width + 8
  {
    if r.width <= 0 then r.x else r.x + 8 * ((r.width + 7) / 8)
  }

  /** The chunk after `n` full chunks, each starting inside the region, still ends by ChunkEnd. */
  lemma ChunkInside(r: Rect, n: int)
    requires 0 <= n && 8 * n < r.width
    ensures r.x + 8 * (n + 1) <= ChunkEnd(r)
  {
    var c := (r.width + 7) / 8;
    assert 8 * c + (r.width + 7) % 8 == r.width + 7;
  }

  /** After `n` chunks, the first starting past the region's right edge is ChunkEnd. */
  lemma ChunkLast(r: Rect, n: int)
    requires 0 <= n && r.width <= 8 * n && (n == 0 || 8 * (n - 1) < r.width)
    ensures r.x + 8 * n == ChunkEnd(r)
  {
    if n > 0 {
      var c := (r.width + 7) / 8;
      assert 8 * c + (r.width + 7) % 8 == r.width + 7;
    }
  }

  /**
   * The scan of the region `r` has passed `q` on its way to `pos`: `q` lies
   * in the rows from the region's top, in the columns its chunks cover, and
   * comes before `pos`.
   */
  predicate Passed(r: Rect, pos: Pixel, q: Pixel)
  {
    r.y <= q.y && r.x <= q.x < ChunkEnd(r) && Before(q, pos)
  }

  /** The candidates met on the way to `pos`: open pixels of `g0` the scan passed, in scan order. */
  ghost predicate Seeds(g0: seq<seq<byte>>, thresh: int, scale: nat, r: Rect, pos: Pixel, seeds: seq<Pixel>)
  {
    && InScanOrder(seeds)
    && forall q :: q in seeds ==> Passed(r, pos, q) && Seedable(g0, thresh, scale, q)
  }

  /**
   * Every pixel open in `g0` that the scan passed on its way to `pos` lies
   * in the fill of a candidate at or before it.
   */
  ghost predicate Met(g0: seq<seq<byte>>, thresh: int, scale: nat, r: Rect, pos: Pixel,
                      fills: seq<seq<Pixel>>, seeds: seq<Pixel>)
  {
    forall q {:trigger Passed(r, pos, q)} :: Passed(r, pos, q) && Seedable(g0, thresh, scale, q) ==>
      exists k :: 0 <= k < |fills| && k < |seeds| && q in fills[k] && !Before(q, seeds[k])
  }

  /**
   * The state of find_bbb's scan of the region `r` on reaching `pos`: the
   * found-blobs invariant, the lowered pixels closed in `g0`, the candidate
   * count, one fill per candidate with every changed pixel in a fill, the
   * candidates met so far, and every open pixel passed taken by a fill.
   */
  ghost predicate Scan(fg: array2<byte>, g0: seq<seq<byte>>, thresh: int, scale: nat, r: Rect, pos: Pixel,
                       precs: seq<Rec>, blobs: seq<seq<Pixel>>, fills: seq<seq<Pixel>>, seeds: seq<Pixel>,
                       numBlob: int)
    reads fg
  {
    && Found(fg, g0, thresh, scale, precs, blobs) && Settled(Rows(fg), g0, thresh, scale)
    && |precs| <= numBlob <= MaxCandidates + 1 && numBlob == |seeds| == |fills|
    && Traced(Rows(fg), g0, thresh, blobs, fills) && Fills(g0, thresh, scale, fills, seeds)
    && Seeds(g0, thresh, scale, r, pos, seeds) && Met(g0, thresh, scale, r, pos, fills, seeds)
  }

  /**
   * How a scan that stopped early at its last candidate left things: the
   * fills of the candidates before it, every open pixel passed before it
   * taken by one of them, and a bail or an overflow as Ended says.
   */
  ghost predicate Stopped(fg: array2<byte>, g0: seq<seq<byte>>, thresh: int, scale: nat, r: Rect, outcome: ScanEnd,
                          precs: seq<Rec>, blobs: seq<seq<Pixel>>, fills: seq<seq<Pixel>>, seeds: seq<Pixel>,
                          spill: seq<Pixel>)
    reads fg
  {
    && seeds != [] && |fills| + 1 == |seeds| && |precs| <= MaxCandidates + 1
    && Found(fg, g0, thresh, scale, precs, blobs) && Fills(g0, thresh, scale, fills, seeds)
    && Seeds(g0, thresh, scale, r, Pixel(seeds[|seeds| - 1].x + 1, seeds[|seeds| - 1].y), seeds)
    && Met(g0, thresh, scale, r, seeds[|seeds| - 1], fills, seeds)
    && (outcome == Bailed ==> Settled(Rows(fg), g0, thresh, scale) && Traced(Rows(fg), g0, thresh, blobs, fills))
    && Ended(fg, g0, thresh, scale, outcome, precs, blobs, seeds, spill)
  }

  /** More fills and candidates keep every open pixel passed taken. */
  lemma MetMono(g0: seq<seq<byte>>, thresh: int, scale: nat, r: Rect, pos: Pixel,
                fills: seq<seq<Pixel>>, seeds: seq<Pixel>, fills': seq<seq<Pixel>>, seeds': seq<Pixel>)
    requires Met(g0, thresh, scale, r, pos, fills, seeds)
    requires fills <= fills' && seeds <= seeds'
    ensures Met(g0, thresh, scale, r, pos, fills', seeds')
  {
    forall q | Passed(r, pos, q) && Seedable(g0, thresh, scale, q)
      ensures exists k :: 0 <= k < |fills'| && k < |seeds'| && q in fills'[k] && !Before(q, seeds'[k])
    {
      var k :| 0 <= k < |fills| && k < |seeds| && q in fills[k] && !Before(q, seeds[k]);
      assert fills'[k] == fills[k] && seeds'[k] == seeds[k];
    }
  }

  /** The candidates met before `pos` were met before any later position. */
  lemma SeedsOn(g0: seq<seq<byte>>, thresh: int, scale: nat, r: Rect, pos: Pixel, pos': Pixel, seeds: seq<Pixel>)
    requires Seeds(g0, thresh, scale, r, pos, seeds) && (pos == pos' || Before(pos, pos'))
    ensures Seeds(g0, thresh, scale, r, pos', seeds)
  {
  }

  /** Seeding at the scan position `p`, an open pixel of the region's columns. */
  lemma SeedsAdd(g0: seq<seq<byte>>, thresh: int, scale: nat, r: Rect, p: Pixel, seeds: seq<Pixel>)
    requires Seeds(g0, thresh, scale, r, p, seeds)
    requires r.y <= p.y && r.x <= p.x < ChunkEnd(r) && Seedable(g0, thresh, scale, p)
    ensures Seeds(g0, thresh, scale, r, Pixel(p.x + 1, p.y), seeds + [p])
  {
    forall i | 0 <= i < |seeds|
      ensures Before(seeds[i], p)
    {
      assert Passed(r, p, seeds[i]);
    }
    ScanOrderSnoc(seeds, p);
  }

  /** The candidate at `p` and its fill cover every open pixel up to and including `p`. */
  lemma MetGrow(g0: seq<seq<byte>>, thresh: int, scale: nat, r: Rect, p: Pixel,
                fills: seq<seq<Pixel>>, seeds: seq<Pixel>, taken: seq<Pixel>)
    requires Met(g0, thresh, scale, r, p, fills, seeds) && |fills| == |seeds|
    requires taken != [] && taken[0] == p
    ensures Met(g0, thresh, scale, r, Pixel(p.x + 1, p.y), fills + [taken], seeds + [p])
  {
    var fs, ss := fills + [taken], seeds + [p];
    MetMono(g0, thresh, scale, r, p, fills, seeds, fs, ss);
    forall q | Passed(r, Pixel(p.x + 1, p.y), q) && Seedable(g0, thresh, scale, q)
      ensures exists k :: 0 <= k < |fs| && k < |ss| && q in fs[k] && !Before(q, ss[k])
    {
      if q == p {
        assert fs[|fills|] == taken && ss[|fills|] == p;
      } else {
        assert Passed(r, p, q);
      }
    }
  }

  /**
   * A pixel the scan does not seed at, being in keepout or not above the
   * threshold, was open in `g0` only if a fill had already taken it.
   */
  lemma SkipPixel(fg: array2<byte>, g0: seq<seq<byte>>, thresh: int, scale: nat, r: Rect, x1: int, y: int,
                  precs: seq<Rec>, blobs: seq<seq<Pixel>>, fills: seq<seq<Pixel>>, seeds: seq<Pixel>, numBlob: int)
    requires Scan(fg, g0, thresh, scale, r, Pixel(x1, y), precs, blobs, fills, seeds, numBlob)
    requires 0 <= y < fg.Length0 && 0 <= x1 < fg.Length1
    requires Hw.Keepout(x1, y, scale) || fg[y, x1] <= thresh
    ensures Scan(fg, g0, thresh, scale, r, Pixel(x1 + 1, y), precs, blobs, fills, seeds, numBlob)
  {
    var p, p' := Pixel(x1, y), Pixel(x1 + 1, y);
    SeedsOn(g0, thresh, scale, r, p, p', seeds);
    forall q | Passed(r, p', q) && Seedable(g0, thresh, scale, q)
      ensures exists k :: 0 <= k < |fills| && k < |seeds| && q in fills[k] && !Before(q, seeds[k])
    {
      if q == p {
        assert Moved(Rows(fg), g0, p);
        var k :| 0 <= k < |fills| && p in fills[k];
        assert Passed(r, p, seeds[k]);
      } else {
        assert Passed(r, p, q);
      }
    }
  }

  /** Columns from `x1` to `xe` hold nothing to meet when `x1` is past the image's right edge. */
  lemma ScanEdge(fg: array2<byte>, g0: seq<seq<byte>>, thresh: int, scale: nat, r: Rect, x1: int, xe: int, y: int,
                 precs: seq<Rec>, blobs: seq<seq<Pixel>>, fills: seq<seq<Pixel>>, seeds: seq<Pixel>, numBlob: int)
    requires Scan(fg, g0, thresh, scale, r, Pixel(x1, y), precs, blobs, fills, seeds, numBlob)
    requires 0 <= y < fg.Length0 && x1 <= xe && (x1 == xe || fg.Length1 <= x1)
    ensures Scan(fg, g0, thresh, scale, r, Pixel(xe, y), precs, blobs, fills, seeds, numBlob)
  {
    SeedsOn(g0, thresh, scale, r, Pixel(x1, y), Pixel(xe, y), seeds);
    forall q | Passed(r, Pixel(xe, y), q) && Seedable(g0, thresh, scale, q)
      ensures exists k :: 0 <= k < |fills| && k < |seeds| && q in fills[k] && !Before(q, seeds[k])
    {
      assert Passed(r, Pixel(x1, y), q);
    }
  }

  /** The end of a row's chunks is the start of the next row. */
  lemma RowDone(fg: array2<byte>, g0: seq<seq<byte>>, thresh: int, scale: nat, r: Rect, y: int,
                precs: seq<Rec>, blobs: seq<seq<Pixel>>, fills: seq<seq<Pixel>>, seeds: seq<Pixel>, numBlob: int)
    requires Scan(fg, g0, thresh, scale, r, Pixel(ChunkEnd(r), y), precs, blobs, fills, seeds, numBlob)
    ensures Scan(fg, g0, thresh, scale, r, Pixel(r.x, y + 1), precs, blobs, fills, seeds, numBlob)
  {
    SeedsOn(g0, thresh, scale, r, Pixel(ChunkEnd(r), y), Pixel(r.x, y + 1), seeds);
    forall q | Passed(r, Pixel(r.x, y + 1), q) && Seedable(g0, thresh, scale, q)
      ensures exists k :: 0 <= k < |fills| && k < |seeds| && q in fills[k] && !Before(q, seeds[k])
    {
      assert Passed(r, Pixel(ChunkEnd(r), y), q);
    }
  }

  /** Before the first candidate nothing is found, lowered, filled or passed. */
  lemma ScanStart(fg: array2<byte>, g0: seq<seq<byte>>, thresh: int, scale: nat, r: Rect)
    requires g0 == Rows(fg)
    ensures Scan(fg, g0, thresh, scale, r, Pixel(r.x, r.y), [], [], [], [], 0)
  {
  }

  /** A region of negative height is passed as soon as the scan starts. */
  lemma ScanNone(fg: array2<byte>, g0: seq<seq<byte>>, thresh: int, scale: nat, r: Rect,
                 precs: seq<Rec>, blobs: seq<seq<Pixel>>)
    requires Scan(fg, g0, thresh, scale, r, Pixel(r.x, r.y), precs, blobs, [], [], 0) && r.height < 0
    ensures Scan(fg, g0, thresh, scale, r, Pixel(r.x, r.y + r.height), precs, blobs, [], [], 0)
  {
  }

  /**
   * The candidates are exactly the open pixels passed on the way to `pos`
   * that no earlier candidate's fill took.
   */
  lemma SeedsExact(g0: seq<seq<byte>>, thresh: int, scale: nat, r: Rect, pos: Pixel,
                   fills: seq<seq<Pixel>>, seeds: seq<Pixel>, q: Pixel)
    requires Fills(g0, thresh, scale, fills, seeds) && |fills| == |seeds|
    requires Seeds(g0, thresh, scale, r, pos, seeds) && Met(g0, thresh, scale, r, pos, fills, seeds)
    ensures q in seeds <==>
              && Passed(r, pos, q) && Seedable(g0, thresh, scale, q)
              && forall k :: 0 <= k < |seeds| && Before(seeds[k], q) ==> q !in fills[k]
  {
    if q in seeds {
      SeedOpen(g0, thresh, scale, r, pos, fills, seeds, q);
    } else if Passed(r, pos, q) && Seedable(g0, thresh, scale, q) {
      PassedCovered(g0, thresh, scale, r, pos, fills, seeds, q);
    }
  }

  /** A candidate was passed, is open in `g0`, and no earlier fill took it. */
  lemma SeedOpen(g0: seq<seq<byte>>, thresh: int, scale: nat, r: Rect, pos: Pixel,
                 fills: seq<seq<Pixel>>, seeds: seq<Pixel>, q: Pixel)
    requires Fills(g0, thresh, scale, fills, seeds)
    requires Seeds(g0, thresh, scale, r, pos, seeds) && q in seeds
    ensures Passed(r, pos, q) && Seedable(g0, thresh, scale, q)
    ensures forall k :: 0 <= k < |fills| && Before(seeds[k], q) ==> q !in fills[k]
  {
    var i :| 0 <= i < |seeds| && seeds[i] == q;
    forall k | 0 <= k < |fills| && Before(seeds[k], q)
      ensures q !in fills[k]
    {
      ScanOrderIndex(seeds, i, k);
    }
  }

  /** An open pixel passed that is not a candidate lies in the fill of an earlier one. */
  lemma PassedCovered(g0: seq<seq<byte>>, thresh: int, scale: nat, r: Rect, pos: Pixel,
                      fills: seq<seq<Pixel>>, seeds: seq<Pixel>, q: Pixel)
    requires Fills(g0, thresh, scale, fills, seeds) && Met(g0, thresh, scale, r, pos, fills, seeds)
    requires Passed(r, pos, q) && Seedable(g0, thresh, scale, q) && q !in seeds
    ensures exists k :: 0 <= k < |fills| && Before(seeds[k], q) && q in fills[k]
  {
    var k :| 0 <= k < |fills| && k < |seeds| && q in fills[k] && !Before(q, seeds[k]);
    assert seeds[k] != q;
    assert Before(seeds[k], q);
  }

  /** A full scan leaves no pixel of the region outside keepout above the threshold. */
  lemma MetSwept(fg: array2<byte>, g0: seq<seq<byte>>, thresh: int, scale: nat, r: Rect,
                 blobs: seq<seq<Pixel>>, fills: seq<seq<Pixel>>, seeds: seq<Pixel>)
    requires Lowered(fg, g0, thresh) && Traced(Rows(fg), g0, thresh, blobs, fills)
    requires Met(g0, thresh, scale, r, Pixel(r.x, r.y + r.height), fills, seeds)
    ensures SweptRegion(Rows(fg), scale, thresh, r.y, r.y + r.height, r.x, r.x + r.width)
  {
    var cur := Rows(fg);
    forall y, x | r.y <= y < r.y + r.height && r.x <= x < r.x + r.width && 0 <= y < |cur| && 0 <= x < |cur[y]|
      ensures Hw.Keepout(x, y, scale) || cur[y][x] <= thresh
    {
      var q := Pixel(x, y);
      if Seedable(g0, thresh, scale, q) {
        assert Passed(r, Pixel(r.x, r.y + r.height), q);
        var k :| 0 <= k < |fills| && k < |seeds| && q in fills[k] && !Before(q, seeds[k]);
        var i :| 0 <= i < |fills[k]| && fills[k][i] == q;
      }
    }
  }

  /**
   * What find_bbb does with one candidate at (`x1`, `y`): count it, bail
   * if the count was already past 1000, otherwise grow its blob; an
   * overflowing blob ends the scan with every record freed.
   */
  method Seed(fg: array2<byte>, ghost g0: seq<seq<byte>>, ghost r: Rect, x1: int, y: int, precs: seq<Rec>,
              ghost blobs: seq<seq<Pixel>>, ghost fills: seq<seq<Pixel>>, ghost seeds: seq<Pixel>,
              numBlob: int, thresh: byte, scale: nat)
    returns (precs': seq<Rec>, ghost blobs': seq<seq<Pixel>>, ghost fills': seq<seq<Pixel>>, ghost seeds': seq<Pixel>,
             numBlob': int, outcome: ScanEnd, ghost spill: seq<Pixel>)
    requires 0 <= y < fg.Length0 && 0 <= x1 < fg.Length1
    requires r.y <= y && r.x <= x1 < ChunkEnd(r)
    requires !Hw.Keepout(x1, y, scale) && fg[y, x1] > thresh
    requires Scan(fg, g0, thresh, scale, r, Pixel(x1, y), precs, blobs, fills, seeds, numBlob)
    modifies fg
    // num_blob++ counts the candidate whatever follows
    ensures seeds' == seeds + [Pixel(x1, y)] && numBlob' == numBlob + 1
    // a grown candidate is lowered, its fill joins the others, and the scan goes on past it
    ensures outcome == Finished ==> fg[y, x1] == thresh
    ensures outcome == Finished ==>
              Scan(fg, g0, thresh, scale, r, Pixel(x1 + 1, y), precs', blobs', fills', seeds', numBlob')
    // otherwise a bail or an overflow at this candidate
    ensures outcome != Finished ==>
              fills' == fills && Stopped(fg, g0, thresh, scale, r, outcome, precs', blobs', fills', seeds', spill)
  {
    ghost var p := Pixel(x1, y);
    seeds', numBlob', fills', spill := seeds + [p], numBlob + 1, fills, [];
    if numBlob > MaxCandidates {
      StopBail(fg, g0, thresh, scale, r, p, precs, blobs, fills, seeds, numBlob);
      return precs, blobs, fills', seeds', numBlob', Bailed, spill;
    }
    SeedMet(Rows(fg), g0, thresh, scale, r, p, blobs, fills, seeds);
    ghost var mid := Rows(fg);
    var error;
    ghost var taken;
    precs', error, blobs', taken := Candidate(fg, g0, x1, y, precs, blobs, thresh, scale);
    if error {
      StopOverflow(fg, g0, thresh, scale, r, p, fills, seeds, taken);
      precs', blobs', outcome, spill := [], [], Overflowed, taken;
      return;
    }
    outcome := Finished;
    TracedGrow(fg, g0, mid, thresh, blobs, fills, taken);
    FillsGrow(g0, thresh, scale, fills, seeds', taken);
    MetGrow(g0, thresh, scale, r, p, fills, seeds, taken);
    assert Pixel(x1 + 1, y) == Pixel(p.x + 1, p.y);
    fills' := fills + [taken];
  }

  /** Meeting the open pixel `p`, above the threshold in `cur`, as the next candidate. */
  lemma SeedMet(cur: seq<seq<byte>>, g0: seq<seq<byte>>, thresh: int, scale: nat, r: Rect, p: Pixel,
                blobs: seq<seq<Pixel>>, fills: seq<seq<Pixel>>, seeds: seq<Pixel>)
    requires Traced(cur, g0, thresh, blobs, fills) && Fills(g0, thresh, scale, fills, seeds)
    requires Seeds(g0, thresh, scale, r, p, seeds) && Met(g0, thresh, scale, r, p, fills, seeds)
    requires r.y <= p.y && r.x <= p.x < ChunkEnd(r) && Seedable(g0, thresh, scale, p)
    requires 0 <= p.y < |cur| && 0 <= p.x < |cur[p.y]| && cur[p.y][p.x] > thresh
    ensures Fills(g0, thresh, scale, fills, seeds + [p])
    ensures Seeds(g0, thresh, scale, r, Pixel(p.x + 1, p.y), seeds + [p])
    ensures Met(g0, thresh, scale, r, p, fills, seeds + [p])
  {
    NotInFills(cur, g0, thresh, blobs, fills, p);
    FillsAdd(g0, thresh, scale, fills, seeds, p);
    SeedsAdd(g0, thresh, scale, r, p, seeds);
    MetMono(g0, thresh, scale, r, p, fills, seeds, fills, seeds + [p]);
  }

  /** The 1002nd candidate `p` stops the scan before its fill. */
  lemma StopBail(fg: array2<byte>, g0: seq<seq<byte>>, thresh: int, scale: nat, r: Rect, p: Pixel,
                 precs: seq<Rec>, blobs: seq<seq<Pixel>>, fills: seq<seq<Pixel>>, seeds: seq<Pixel>, numBlob: int)
    requires Scan(fg, g0, thresh, scale, r, p, precs, blobs, fills, seeds, numBlob) && numBlob > MaxCandidates
    requires r.y <= p.y && r.x <= p.x < ChunkEnd(r) && !Hw.Keepout(p.x, p.y, scale) && Above(fg, p, thresh)
    ensures Stopped(fg, g0, thresh, scale, r, Bailed, precs, blobs, fills, seeds + [p], [])
  {
    SeedMet(Rows(fg), g0, thresh, scale, r, p, blobs, fills, seeds);
    assert (seeds + [p])[|seeds|] == p;
  }

  /** A fill from the candidate `p` that overflowed stops the scan with no records. */
  lemma StopOverflow(fg: array2<byte>, g0: seq<seq<byte>>, thresh: int, scale: nat, r: Rect, p: Pixel,
                     fills: seq<seq<Pixel>>, seeds: seq<Pixel>, spill: seq<Pixel>)
    requires Lowered(fg, g0, thresh) && Spill(g0, thresh, scale, p, spill) && |seeds| <= MaxCandidates
    requires Fills(g0, thresh, scale, fills, seeds + [p]) && |fills| == |seeds|
    requires Seeds(g0, thresh, scale, r, Pixel(p.x + 1, p.y), seeds + [p])
    requires Met(g0, thresh, scale, r, p, fills, seeds + [p])
    ensures Stopped(fg, g0, thresh, scale, r, Overflowed, [], [], fills, seeds + [p], spill)
  {
    assert (seeds + [p])[|seeds|] == p;
  }

  /**
   * The innermost loop of find_bbb over the eight columns from `x`
   * (stopping at the image's edge): every non-keepout pixel above the
   * threshold is a candidate for Seed, and every other open pixel of `g0`
   * passed was already taken by a fill.
   */
  method ScanChunk(fg: array2<byte>, ghost g0: seq<seq<byte>>, ghost r: Rect, x: int, y: int, precs: seq<Rec>,
                   ghost blobs: seq<seq<Pixel>>, ghost fills: seq<seq<Pixel>>, ghost seeds: seq<Pixel>,
                   numBlob: int, thresh: byte, scale: nat)
    returns (precs': seq<Rec>, ghost blobs': seq<seq<Pixel>>, ghost fills': seq<seq<Pixel>>, ghost seeds': seq<Pixel>,
             numBlob': int, outcome: ScanEnd, ghost spill: seq<Pixel>)
    requires 0 <= y < fg.Length0 && r.y <= y && 0 <= r.x <= x && x + 8 <= ChunkEnd(r)
    requires Scan(fg, g0, thresh, scale, r, Pixel(x, y), precs, blobs, fills, seeds, numBlob)
    modifies fg
    ensures outcome == Finished ==>
              Scan(fg, g0, thresh, scale, r, Pixel(x + 8, y), precs', blobs', fills', seeds', numBlob')
    // a bail or an overflow at a candidate of this row
    ensures outcome != Finished ==>
              Stopped(fg, g0, thresh, scale, r, outcome, precs', blobs', fills', seeds', spill)
              && seeds'[|seeds'| - 1].y == y
  {
    precs', blobs', fills', seeds', numBlob', outcome, spill := precs, blobs, fills, seeds, numBlob, Finished, [];
    var x1 := x;
    ghost var pos := Pixel(x, y);
    while x1 < x + 8 && x1 < fg.Length1
      invariant x <= x1 <= x + 8 && pos == Pixel(x1, y) && outcome == Finished
      invariant Scan(fg, g0, thresh, scale, r, pos, precs', blobs', fills', seeds', numBlob')
      decreases x + 8 - x1
    {
      if !Hw.Keepout(x1, y, scale) && fg[y, x1] > thresh {
        precs', blobs', fills', seeds', numBlob', outcome, spill :=
          Seed(fg, g0, r, x1, y, precs', blobs', fills', seeds', numBlob', thresh, scale);
        if outcome != Finished {
          return;
        }
      } else {
        SkipPixel(fg, g0, thresh, scale, r, x1, y, precs', blobs', fills', seeds', numBlob');
      }
      x1, pos := x1 + 1, Pixel(x1 + 1, y);
    }
    ScanEdge(fg, g0, thresh, scale, r, x1, x + 8, y, precs', blobs', fills', seeds', numBlob');
  }

  /**
   * The middle loop of find_bbb over row `y` of the region `r`: its columns
   * eight at a time, from the region's left edge to ChunkEnd(r).
   */
  method ScanRow(fg: array2<byte>, ghost g0: seq<seq<byte>>, r: Rect, y: int, precs: seq<Rec>,
                 ghost blobs: seq<seq<Pixel>>, ghost fills: seq<seq<Pixel>>, ghost seeds: seq<Pixel>,
                 numBlob: int, thresh: byte, scale: nat)
    returns (precs': seq<Rec>, ghost blobs': seq<seq<Pixel>>, ghost fills': seq<seq<Pixel>>, ghost seeds': seq<Pixel>,
             numBlob': int, outcome: ScanEnd, ghost spill: seq<Pixel>)
    requires 0 <= r.x && 0 <= r.y <= y < r.y + r.height && y < fg.Length0
    requires Scan(fg, g0, thresh, scale, r, Pixel(r.x, y), precs, blobs, fills, seeds, numBlob)
    modifies fg
    ensures outcome == Finished ==>
              Scan(fg, g0, thresh, scale, r, Pixel(r.x, y + 1), precs', blobs', fills', seeds', numBlob')
    // a bail or an overflow at a candidate of this row
    ensures outcome != Finished ==>
              Stopped(fg, g0, thresh, scale, r, outcome, precs', blobs', fills', seeds', spill)
              && seeds'[|seeds'| - 1].y == y
  {
    precs', blobs', fills', seeds', numBlob', outcome, spill := precs, blobs, fills, seeds, numBlob, Finished, [];
    var x := r.x;
    ghost var n := 0;
    ghost var pos := Pixel(x, y);
    while x < r.x + r.width
      invariant 0 <= n && x == r.x + 8 * n && (n == 0 || 8 * (n - 1) < r.width) && outcome == Finished
      invariant pos == Pixel(x, y)
      invariant Scan(fg, g0, thresh, scale, r, pos, precs', blobs', fills', seeds', numBlob')
      decreases r.x + r.width - x
    {
      ChunkInside(r, n);
      precs', blobs', fills', seeds', numBlob', outcome, spill :=
        ScanChunk(fg, g0, r, x, y, precs', blobs', fills', seeds', numBlob', thresh, scale);
      if outcome != Finished {
        return;
      }
      x, n, pos := x + 8, n + 1, Pixel(x + 8, y);
    }
    ChunkLast(r, n);
    RowDone(fg, g0, thresh, scale, r, y, precs', blobs', fills', seeds', numBlob');
  }

  /**
   * find_bbb: scan the rows of the region `r`, eight columns at a time
   * (the inner scan may run past the region's right edge up to the image's
   * edge), seeding add_blob at every non-keepout pixel above the threshold.
   * More than 1000 candidates stop the scan with the records so far; an
   * overflowing blob discards every record. `seeds` are the candidates met,
   * `fills` what each candidate's fill took, and `spill` what an
   * overflowing fill took.
   */
  method FindBbb(fg: array2<byte>, r: Rect, thresh: byte)
    returns (res: seq<Rec>, outcome: ScanEnd, ghost blobs: seq<seq<Pixel>>, ghost fills: seq<seq<Pixel>>,
             ghost seeds: seq<Pixel>, ghost spill: seq<Pixel>)
    requires fg.Length1 > 0
    requires 0 <= r.x && 0 <= r.y && r.y + r.height <= fg.Length0
    modifies fg
    // one record per whole 4-connected blob of 3 to 2000 pixels of the image as it was
    ensures Found(fg, old(Rows(fg)), thresh, Hw.XPix / fg.Length1, res, blobs)
    ensures |res| <= MaxCandidates + 1
    // each fill starts at its candidate and is a whole 4-connected region of open pixels
    ensures Fills(old(Rows(fg)), thresh, Hw.XPix / fg.Length1, fills, seeds)
    // a full scan: one fill per candidate, the blobs are the fills of at least 3 pixels,
    // every changed pixel lies in a fill, and every open pixel passed lies in a fill
    ensures outcome == Finished ==>
              && |fills| == |seeds| <= MaxCandidates + 1
              && Settled(Rows(fg), old(Rows(fg)), thresh, Hw.XPix / fg.Length1)
              && Traced(Rows(fg), old(Rows(fg)), thresh, blobs, fills)
              && Met(old(Rows(fg)), thresh, Hw.XPix / fg.Length1, r, Pixel(r.x, r.y + r.height), fills, seeds)
              && SweptRegion(Rows(fg), Hw.XPix / fg.Length1, thresh, r.y, r.y + r.height, r.x, r.x + r.width)
    // ... and the candidates are exactly the open pixels passed that no earlier candidate's fill took
    ensures outcome == Finished ==>
              forall q :: q in seeds <==>
                && Passed(r, Pixel(r.x, r.y + r.height), q) && Seedable(old(Rows(fg)), thresh, Hw.XPix / fg.Length1, q)
                && forall k :: 0 <= k < |seeds| && Before(seeds[k], q) ==> q !in fills[k]
    // a bail at the 1002nd candidate, which is left unfilled, or an overflow, which frees every
    // record and spilled from the last candidate; the same holds up to that candidate
    ensures outcome != Finished ==>
              && Stopped(fg, old(Rows(fg)), thresh, Hw.XPix / fg.Length1, r, outcome, res, blobs, fills, seeds, spill)
              && seeds[|seeds| - 1].y < r.y + r.height
    ensures outcome != Finished ==>
              forall q :: q in seeds[..|fills|] <==>
                && Passed(r, seeds[|fills|], q) && Seedable(old(Rows(fg)), thresh, Hw.XPix / fg.Length1, q)
                && forall k :: 0 <= k < |fills| && Before(seeds[k], q) ==> q !in fills[k]
  {
    var scale := Hw.XPix / fg.Length1;
    res, outcome, blobs, fills, seeds, spill := ScanRows(fg, Rows(fg), r, thresh, scale);
    if outcome == Finished {
      ScanDone(fg, old(Rows(fg)), thresh, scale, r, res, blobs, fills, seeds, |seeds|);
    } else {
      StoppedExact(old(Rows(fg)), thresh, scale, r, fills, seeds);
    }
  }

  /** The outer loop of find_bbb, over the rows of the region `r`. */
  method ScanRows(fg: array2<byte>, ghost g0: seq<seq<byte>>, r: Rect, thresh: byte, scale: nat)
    returns (res: seq<Rec>, outcome: ScanEnd, ghost blobs: seq<seq<Pixel>>, ghost fills: seq<seq<Pixel>>,
             ghost seeds: seq<Pixel>, ghost spill: seq<Pixel>)
    requires g0 == Rows(fg)
    requires 0 <= r.x && 0 <= r.y && r.y + r.height <= fg.Length0
    modifies fg
    ensures outcome == Finished ==>
              Scan(fg, g0, thresh, scale, r, Pixel(r.x, r.y + r.height), res, blobs, fills, seeds, |seeds|)
    ensures outcome != Finished ==>
              Stopped(fg, g0, thresh, scale, r, outcome, res, blobs, fills, seeds, spill)
              && seeds[|seeds| - 1].y < r.y + r.height
  {
    res, blobs, fills, seeds, outcome, spill := [], [], [], [], Finished, [];
    var numBlob := 0;
    var y := r.y;
    ghost var pos := Pixel(r.x, y);
    ScanStart(fg, g0, thresh, scale, r);
    while y < r.y + r.height && outcome == Finished
      invariant (y == r.y && res == [] && blobs == [] && fills == [] && seeds == [] && numBlob == 0)
                || r.y < y <= r.y + r.height
      invariant outcome == Finished ==> pos == Pixel(r.x, y)
      invariant outcome == Finished ==> Scan(fg, g0, thresh, scale, r, pos, res, blobs, fills, seeds, numBlob)
      invariant outcome != Finished ==>
                  Stopped(fg, g0, thresh, scale, r, outcome, res, blobs, fills, seeds, spill)
                  && seeds[|seeds| - 1].y < r.y + r.height
    {
      res, blobs, fills, seeds, numBlob, outcome, spill :=
        ScanRow(fg, g0, r, y, res, blobs, fills, seeds, numBlob, thresh, scale);
      y, pos := y + 1, Pixel(r.x, y + 1);
    }
    if outcome == Finished && y != r.y + r.height {
      ScanNone(fg, g0, thresh, scale, r, res, blobs);
    }
  }

  /** What a full scan of the region `r` leaves: no open pixel above the threshold, and the candidates exact. */
  lemma ScanDone(fg: array2<byte>, g0: seq<seq<byte>>, thresh: int, scale: nat, r: Rect, precs: seq<Rec>,
                 blobs: seq<seq<Pixel>>, fills: seq<seq<Pixel>>, seeds: seq<Pixel>, numBlob: int)
    requires Scan(fg, g0, thresh, scale, r, Pixel(r.x, r.y + r.height), precs, blobs, fills, seeds, numBlob)
    ensures SweptRegion(Rows(fg), scale, thresh, r.y, r.y + r.height, r.x, r.x + r.width)
    ensures forall q :: q in seeds <==>
              && Passed(r, Pixel(r.x, r.y + r.height), q) && Seedable(g0, thresh, scale, q)
              && forall k :: 0 <= k < |seeds| && Before(seeds[k], q) ==> q !in fills[k]
  {
    MetSwept(fg, g0, thresh, scale, r, blobs, fills, seeds);
    forall q
      ensures q in seeds <==>
                && Passed(r, Pixel(r.x, r.y + r.height), q) && Seedable(g0, thresh, scale, q)
                && forall k :: 0 <= k < |seeds| && Before(seeds[k], q) ==> q !in fills[k]
    {
      SeedsExact(g0, thresh, scale, r, Pixel(r.x, r.y + r.height), fills, seeds, q);
    }
  }

  /** SeedsExact for the candidates before the one a scan stopped at. */
  lemma StoppedExact(g0: seq<seq<byte>>, thresh: int, scale: nat, r: Rect, fills: seq<seq<Pixel>>, seeds: seq<Pixel>)
    requires seeds != [] && |fills| + 1 == |seeds| && Fills(g0, thresh, scale, fills, seeds)
    requires Seeds(g0, thresh, scale, r, Pixel(seeds[|seeds| - 1].x + 1, seeds[|seeds| - 1].y), seeds)
    requires Met(g0, thresh, scale, r, seeds[|seeds| - 1], fills, seeds)
    ensures forall q :: q in seeds[..|fills|] <==>
              && Passed(r, seeds[|fills|], q) && Seedable(g0, thresh, scale, q)
              && forall k :: 0 <= k < |fills| && Before(seeds[k], q) ==> q !in fills[k]
  {
    var ss, last := seeds[..|fills|], seeds[|fills|];
    assert Fills(g0, thresh, scale, fills, ss) by {
      forall k | 0 <= k < |fills|
        ensures fills[k] != [] && fills[k][0] == ss[k]
      {
        assert ss[k] == seeds[k];
      }
      forall k, i | 0 <= k < |fills| && k < i < |ss|
        ensures ss[i] !in fills[k]
      {
        assert ss[i] == seeds[i];
      }
    }
    assert Seeds(g0, thresh, scale, r, last, ss) by {
      forall i, j | 0 <= i < j < |ss|
        ensures Before(ss[i], ss[j])
      {
        assert ss[i] == seeds[i] && ss[j] == seeds[j];
      }
      forall q | q in ss
        ensures Passed(r, last, q) && Seedable(g0, thresh, scale, q)
      {
        var i :| 0 <= i < |ss| && ss[i] == q;
        assert seeds[i] == q && seeds[i] in seeds;
        assert Before(seeds[i], seeds[|fills|]);
      }
    }
    forall q | Passed(r, last, q) && Seedable(g0, thresh, scale, q)
      ensures exists k :: 0 <= k < |fills| && k < |ss| && q in fills[k] && !Before(q, ss[k])
    {
      var k :| 0 <= k < |fills| && k < |seeds| && q in fills[k] && !Before(q, seeds[k]);
      assert ss[k] == seeds[k];
    }
    forall q
      ensures q in ss <==>
                && Passed(r, last, q) && Seedable(g0, thresh, scale, q)
                && forall k :: 0 <= k < |fills| && Before(seeds[k], q) ==> q !in fills[k]
    {
      SeedsExact(g0, thresh, scale, r, last, fills, ss, q);
    }
  }
}
