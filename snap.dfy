/**
 * The snapshot cutter of movies/snap.cpp: for each recorded ant position it
 * centres a search window on the position, moves to the centre of gravity
 * of the dark pixels inside it (find_cg), and cuts a snapshot around that
 * centre if it fits in the frame.
 *
 * Reading stdin, the video, the image files and the running total image are
 * left out; a frame is an `array2<byte>` of `rows` by `cols` grey values.
 */
module Snap {
  import opened Common
  import BU = BlobsUnits

  const SnapSize: int := 20
  const SearchSize: int := SnapSize + SnapSize / 2
  /** Pixels darker than this count as ant. */
  const AntPixel: int := 100
  const SnapHalf: int := SnapSize / 2
  const SearchHalf: int := SearchSize / 2

  /** The rectangle lies inside the frame. */
  predicate RoiIn(src: array2<byte>, r: BU.Rect)
  {
    && 0 <= r.x && 0 <= r.y && 0 <= r.width && 0 <= r.height
    && r.x + r.width <= src.Length1 && r.y + r.height <= src.Length0
  }

  predicate InRect(p: BU.Pixel, r: BU.Rect)
  {
    r.x <= p.x < r.x + r.width && r.y <= p.y < r.y + r.height
  }

  /** The pixels of row `y` darker than `thresh` among the roi's first `n` columns, left to right. */
  function DarkRow(src: array2<byte>, r: BU.Rect, thresh: int, y: int, n: nat): seq<BU.Pixel>
    requires RoiIn(src, r) && r.y <= y < r.y + r.height && n <= r.width
    reads src
  {
    if n == 0 then []
    else
      DarkRow(src, r, thresh, y, n - 1)
      + (if src[y, r.x + n - 1] < thresh then [BU.Pixel(r.x + n - 1, y)] else [])
  }

  /** The pixels darker than `thresh` in the roi's first `m` rows, in scan order. */
  function Dark(src: array2<byte>, r: BU.Rect, thresh: int, m: nat): seq<BU.Pixel>
    requires RoiIn(src, r) && m <= r.height
    reads src
  {
    if m == 0 then [] else Dark(src, r, thresh, m - 1) + DarkRow(src, r, thresh, r.y + m - 1, r.width)
  }

  /**
   * The point find_cg reports for the dark pixels `dark` of the roi `r`:
   * their mean position, or the roi's centre when there are none.
   */
  function Centre(dark: seq<BU.Pixel>, r: BU.Rect): (int, int)
  {
    if dark == [] then (r.x + r.width / 2, r.y + r.height / 2)
    else (BU.SumX(dark) / |dark|, BU.SumY(dark) / |dark|)
  }

  lemma {:induction false} DarkRowMembers(src: array2<byte>, r: BU.Rect, thresh: int, y: int, n: nat)
    requires RoiIn(src, r) && r.y <= y < r.y + r.height && n <= r.width
    ensures forall p :: p in DarkRow(src, r, thresh, y, n) <==>
              p.y == y && r.x <= p.x < r.x + n && src[p.y, p.x] < thresh
  {
    if n > 0 {
      DarkRowMembers(src, r, thresh, y, n - 1);
    }
  }

  /** The scan collects exactly the roi's pixels darker than `thresh`. */
  lemma {:induction false} DarkMembers(src: array2<byte>, r: BU.Rect, thresh: int, m: nat)
    requires RoiIn(src, r) && m <= r.height
    ensures forall p :: p in Dark(src, r, thresh, m) <==>
              r.x <= p.x < r.x + r.width && r.y <= p.y < r.y + m && src[p.y, p.x] < thresh
  {
    if m > 0 {
      DarkMembers(src, r, thresh, m - 1);
      DarkRowMembers(src, r, thresh, r.y + m - 1, r.width);
    }
  }

  /**
   * find_cg: scan the roi row by row, totalling the coordinates of the
   * pixels darker than `thresh`, and report their mean, or the roi's centre
   * when there are none.
   */
  method FindCg(src: array2<byte>, roi: BU.Rect, thresh: int) returns (xc: int, yc: int)
    requires RoiIn(src, roi)
    ensures (xc, yc) == Centre(Dark(src, roi, thresh, roi.height), roi)
  {
    var xtot, ytot, npix := 0, 0, 0;
    var y := roi.y;
    while y < roi.y + roi.height
      invariant roi.y <= y <= roi.y + roi.height
      invariant var d := Dark(src, roi, thresh, y - roi.y);
        xtot == BU.SumX(d) && ytot == BU.SumY(d) && npix == |d|
    {
      xtot, ytot, npix := ScanRow(src, roi, thresh, y, xtot, ytot, npix);
      y := y + 1;
    }
    if npix > 0 {
      xc := xtot / npix;
      yc := ytot / npix;
    } else {
      xc := roi.x + roi.width / 2;
      yc := roi.y + roi.height / 2;
    }
  }

  /** The inner loop of find_cg over row `y`, adding its dark pixels to the totals. */
  method ScanRow(src: array2<byte>, roi: BU.Rect, thresh: int, y: int, xtot: int, ytot: int, npix: int)
    returns (xtot': int, ytot': int, npix': int)
    requires RoiIn(src, roi) && roi.y <= y < roi.y + roi.height
    requires var d := Dark(src, roi, thresh, y - roi.y);
      xtot == BU.SumX(d) && ytot == BU.SumY(d) && npix == |d|
    ensures var d := Dark(src, roi, thresh, y + 1 - roi.y);
      xtot' == BU.SumX(d) && ytot' == BU.SumY(d) && npix' == |d|
  {
    ghost var d0 := Dark(src, roi, thresh, y - roi.y);
    xtot', ytot', npix' := xtot, ytot, npix;
    var x := roi.x;
    assert d0 + DarkRow(src, roi, thresh, y, 0) == d0;
    while x < roi.x + roi.width
      invariant roi.x <= x <= roi.x + roi.width
      invariant var d := d0 + DarkRow(src, roi, thresh, y, x - roi.x);
        xtot' == BU.SumX(d) && ytot' == BU.SumY(d) && npix' == |d|
    {
      ghost var d := d0 + DarkRow(src, roi, thresh, y, x - roi.x);
      if src[y, x] < thresh {
        assert d0 + DarkRow(src, roi, thresh, y, x + 1 - roi.x) == d + [BU.Pixel(x, y)];
        SumsAppend(d, BU.Pixel(x, y));
        xtot' := xtot' + x;
        ytot' := ytot' + y;
        npix' := npix' + 1;
      } else {
        assert d0 + DarkRow(src, roi, thresh, y, x + 1 - roi.x) == d;
      }
      x := x + 1;
    }
    assert Dark(src, roi, thresh, y + 1 - roi.y) == d0 + DarkRow(src, roi, thresh, y, roi.width);
  }

  lemma SumsAppend(s: seq<BU.Pixel>, p: BU.Pixel)
    ensures BU.SumX(s + [p]) == BU.SumX(s) + p.x && BU.SumY(s + [p]) == BU.SumY(s) + p.y
  {
    assert (s + [p])[..|s|] == s;
  }

  /**
   * The point find_cg reports lies in a non-empty roi: the mean of pixels
   * inside it, or its centre.
   */
  lemma CentreInRoi(src: array2<byte>, r: BU.Rect, thresh: int)
    requires RoiIn(src, r) && r.width > 0 && r.height > 0
    ensures var c := Centre(Dark(src, r, thresh, r.height), r);
      r.x <= c.0 < r.x + r.width && r.y <= c.1 < r.y + r.height
  {
    var d := Dark(src, r, thresh, r.height);
    if d != [] {
      DarkMembers(src, r, thresh, r.height);
      assert forall i :: 0 <= i < |d| ==> d[i] in d;
      BU.SumXBounds(d, r.x, r.x + r.width - 1);
      BU.SumYBounds(d, r.y, r.y + r.height - 1);
      BU.FloorDivBetween(BU.SumX(d), |d|, r.x, r.x + r.width - 1);
      BU.FloorDivBetween(BU.SumY(d), |d|, r.y, r.y + r.height - 1);
    }
  }

  /** The window test of snap's main loop: a square of half-side `half` centred on (x, y) fits the frame. */
  predicate Fits(x: int, y: int, half: int, cols: int, rows: int)
  {
    !(half > x || half > y || x + half > cols || y + half > rows)
  }

  /** The square the window test admits. */
  function Window(x: int, y: int, half: int): BU.Rect
  {
    BU.Rect(x - half, y - half, 2 * half, 2 * half)
  }

  /** The window test passes exactly when the window lies inside the frame. */
  lemma FitsIffInside(src: array2<byte>, x: int, y: int, half: int)
    requires half >= 0
    ensures Fits(x, y, half, src.Length1, src.Length0) <==> RoiIn(src, Window(x, y, half))
  {
  }

  /** The point the snapshot is centred on: the position itself, or the centre of gravity of the search window. */
  ghost function Aim(frame: array2<byte>, px: int, py: int, noAnts: bool): (int, int)
    requires noAnts || RoiIn(frame, Window(px, py, SearchHalf))
    reads frame
  {
    if noAnts then (px, py)
    else Centre(Dark(frame, Window(px, py, SearchHalf), AntPixel, SearchSize), Window(px, py, SearchHalf))
  }

  /**
   * One line of snap's input once the frame is read and (px, py) is known
   * to be in it: the snapshot rectangle, or None when a window test skips
   * the line. With `noAnts` the snapshot is centred on (px, py) itself.
   */
  method Place(frame: array2<byte>, px: int, py: int, noAnts: bool) returns (snap: Option<BU.Rect>)
    requires 0 <= px <= frame.Length1 && 0 <= py <= frame.Length0
    ensures !noAnts && !Fits(px, py, SearchHalf, frame.Length1, frame.Length0) ==> snap == None
    ensures noAnts || Fits(px, py, SearchHalf, frame.Length1, frame.Length0) ==>
      var c := Aim(frame, px, py, noAnts);
      && (snap.Some? <==> Fits(c.0, c.1, SnapHalf, frame.Length1, frame.Length0))
      && (snap.Some? ==> snap.value == Window(c.0, c.1, SnapHalf))
      && (!noAnts ==> InRect(BU.Pixel(c.0, c.1), Window(px, py, SearchHalf)))
    ensures snap.Some? ==> RoiIn(frame, snap.value) && snap.value.width == SnapSize && snap.value.height == SnapSize
  {
    var xc, yc;
    if noAnts {
      xc, yc := px, py;
    } else {
      if SearchHalf > px || SearchHalf > py || px + SearchHalf > frame.Length1 || py + SearchHalf > frame.Length0 {
        return None;
      }
      var searchRoi := Window(px, py, SearchHalf);
      xc, yc := FindCg(frame, searchRoi, AntPixel);
      CentreInRoi(frame, searchRoi, AntPixel);
    }
    if SnapHalf > xc || SnapHalf > yc || xc + SnapHalf > frame.Length1 || yc + SnapHalf > frame.Length0 {
      return None;
    }
    snap := Some(Window(xc, yc, SnapHalf));
  }
}
