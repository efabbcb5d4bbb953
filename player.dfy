/**
 * The replay player of units/player.cpp: it walks a list of recorded ant
 * positions frame by frame and, on the frames between two records, paints
 * a black block of about an ant's size into the frame.
 *
 * The interpolated position and the ideal ant size (`get_ant_size`) are
 * inputs; so are the block sizes the lookup leaves uninitialised.
 */
module Player {
  import opened Common
  import Hw

  /** One line of the replay file: position, pixel count and frame. */
  datatype RPos = RPos(x: int, y: int, npix: int, frame: int)

  /** One `pix_tbl` entry: a pixel count and a block of `len` rows by `width` columns. */
  datatype PixEntry = PixEntry(target: int, len: int, width: int)

  datatype Size = Size(len: int, width: int)

  /** pix_tbl_1, with its zero terminator. */
  const PixTbl1: seq<PixEntry> := [
    PixEntry(1, 1, 1), PixEntry(2, 1, 2), PixEntry(3, 1, 3), PixEntry(4, 2, 2),
    PixEntry(6, 2, 3), PixEntry(8, 2, 4), PixEntry(9, 3, 3), PixEntry(10, 2, 5),
    PixEntry(12, 3, 4), PixEntry(14, 2, 7), PixEntry(15, 3, 5), PixEntry(16, 4, 4),
    PixEntry(18, 3, 6), PixEntry(20, 4, 5), PixEntry(21, 3, 7), PixEntry(24, 4, 6),
    PixEntry(0, 0, 0)]

  /** The table's targets increase, and every block holds exactly its target's pixels. */
  lemma PixTblShape()
    ensures |PixTbl1| == 17 && PixTbl1[16].target == 0
    ensures forall i :: 0 <= i < 16 ==> PixTbl1[i].target > 0
    ensures forall i :: 0 <= i < 16 ==> PixTbl1[i].len >= 1 && PixTbl1[i].width >= 1
    ensures forall i :: 0 <= i < 16 ==> PixTbl1[i].len * PixTbl1[i].width == PixTbl1[i].target
    ensures forall i, j :: 0 <= i < j < 16 ==> PixTbl1[i].target < PixTbl1[j].target
  {
  }

  /**
   * The entry the lookup loop stops at, from entry `i` on: the first whose
   * target is at most `ideal` and whose successor's is above it, as long as
   * that successor is not the terminator.
   */
  function SizeFrom(ideal: int, i: nat): Option<Size>
    requires i <= 15
    decreases 15 - i
  {
    if PixTbl1[i + 1].target <= 0 then None
    else if PixTbl1[i].target <= ideal < PixTbl1[i + 1].target then Some(Size(PixTbl1[i].len, PixTbl1[i].width))
    else SizeFrom(ideal, i + 1)
  }

  /** The block size the lookup finds for `ideal`, if any. */
  function SizeFor(ideal: int): Option<Size>
  {
    SizeFrom(ideal, 0)
  }

  /** The block interp paints: the size found, or the stale values of `len` and `width`. */
  function SizeOr(ideal: int, staleLen: int, staleWidth: int): Size
  {
    match SizeFor(ideal)
    case Some(s) => s
    case None => Size(staleLen, staleWidth)
  }

  lemma {:induction false} SizeFromBrackets(ideal: int, i: nat)
    requires i <= 15
    requires PixTbl1[i].target <= ideal
    ensures SizeFrom(ideal, i).Some? <==> ideal < 24
    ensures SizeFrom(ideal, i).Some? ==> exists k :: i <= k < 15 && PixTbl1[k].target <= ideal < PixTbl1[k + 1].target
                                              && SizeFrom(ideal, i).value == Size(PixTbl1[k].len, PixTbl1[k].width)
    decreases 15 - i
  {
    if PixTbl1[i + 1].target > 0 && !(PixTbl1[i].target <= ideal < PixTbl1[i + 1].target) {
      SizeFromBrackets(ideal, i + 1);
    }
  }

  /**
   * The lookup finds a block exactly when `ideal` is from 1 to 23, and the
   * block it finds holds the largest table pixel count not above `ideal`:
   * the last entry, 24 pixels, is never chosen.
   */
  lemma SizeBrackets(ideal: int)
    ensures SizeFor(ideal).Some? <==> 1 <= ideal < 24
    ensures SizeFor(ideal).Some? ==>
      var s := SizeFor(ideal).value;
      && 1 <= s.len && 1 <= s.width && s.len * s.width <= ideal
      && forall k :: 0 <= k < 16 && PixTbl1[k].target <= ideal ==> PixTbl1[k].target <= s.len * s.width
  {
    if ideal < 1 {
      SizeFromNone(ideal, 0);
    } else {
      SizeFromBrackets(ideal, 0);
      if ideal < 24 {
        var k :| 0 <= k < 15 && PixTbl1[k].target <= ideal < PixTbl1[k + 1].target
                 && SizeFor(ideal).value == Size(PixTbl1[k].len, PixTbl1[k].width);
        PixTblShape();
        Chosen(PixTbl1, k, ideal);
      }
    }
  }

  /**
   * In a table with increasing targets, each the area of its non-empty
   * block, the entry bracketing `ideal` is a non-empty block whose area is the
   * largest target not above `ideal`.
   */
  lemma Chosen(tbl: seq<PixEntry>, k: int, ideal: int)
    requires |tbl| >= 16 && 0 <= k < 15
    requires forall i :: 0 <= i < 16 ==> tbl[i].len >= 1 && tbl[i].width >= 1
    requires forall i :: 0 <= i < 16 ==> tbl[i].len * tbl[i].width == tbl[i].target
    requires forall i, j :: 0 <= i < j < 16 ==> tbl[i].target < tbl[j].target
    requires tbl[k].target <= ideal < tbl[k + 1].target
    ensures 1 <= tbl[k].len && 1 <= tbl[k].width && tbl[k].len * tbl[k].width <= ideal
    ensures forall k' :: 0 <= k' < 16 && tbl[k'].target <= ideal ==> tbl[k'].target <= tbl[k].len * tbl[k].width
  {
    forall k' | 0 <= k' < 16 && tbl[k'].target <= ideal
      ensures tbl[k'].target <= tbl[k].target
    {
      assert k' <= k;
    }
  }

  /** Below the first target no entry brackets `ideal`. */
  lemma {:induction false} SizeFromNone(ideal: int, i: nat)
    requires i <= 15 && ideal < 1
    ensures SizeFrom(ideal, i) == None
    decreases 15 - i
  {
    if PixTbl1[i + 1].target > 0 {
      PixTblShape();
      SizeFromNone(ideal, i + 1);
    }
  }

  /** An ideal size of 24 or more finds nothing, so `len` and `width` stay unset. */
  lemma LargeAntUnsized()
    ensures SizeFor(24) == None && SizeFor(255) == None
  {
    SizeBrackets(24);
    SizeBrackets(255);
  }

  /**
   * The `for (i = 0; pix_tbl[i + 1].target > 0; i++)` lookup; `len` and
   * `width` start as whatever the uninitialised locals held.
   */
  method Lookup(ideal: int, staleLen: int, staleWidth: int) returns (len: int, width: int)
    ensures Size(len, width) == SizeOr(ideal, staleLen, staleWidth)
  {
    len, width := staleLen, staleWidth;
    var i := 0;
    while PixTbl1[i + 1].target > 0
      invariant 0 <= i <= 15
      invariant SizeFrom(ideal, i) == SizeFor(ideal)
      decreases 15 - i
    {
      if ideal >= PixTbl1[i].target && ideal < PixTbl1[i + 1].target {
        len := PixTbl1[i].len;
        width := PixTbl1[i].width;
        break;
      }
      i := i + 1;
    }
  }

  predicate InBlock(i: int, j: int, px: int, py: int, s: Size)
  {
    py <= i < py + s.len && px <= j < px + s.width
  }

  /** The block at (py, px) lies inside the frame. */
  predicate BlockFits(frame: array2<byte>, px: int, py: int, s: Size)
  {
    0 <= px && 0 <= py && py + s.len <= frame.Length0 && px + s.width <= frame.Length1
  }

  /** `frame.at(row, px + j) = 0` for `j` below `width`. */
  method ZeroRow(frame: array2<byte>, row: int, px: int, width: int)
    requires 0 <= row < frame.Length0 && 0 <= px && px + width <= frame.Length1
    modifies frame
    ensures forall i, j :: 0 <= i < frame.Length0 && 0 <= j < frame.Length1 ==>
              frame[i, j] == if i == row && px <= j < px + width then 0 else old(frame[i, j])
  {
    var j := 0;
    while j < width
      invariant j == 0 || 0 < j <= width
      invariant forall i, k :: 0 <= i < frame.Length0 && 0 <= k < frame.Length1 ==>
                  frame[i, k] == if i == row && px <= k < px + j then 0 else old(frame[i, k])
    {
      frame[row, px + j] := 0;
      j := j + 1;
    }
  }

  /**
   * interp, from the interpolated position on: look the ideal size up in
   * pix_tbl_1 and blacken a block of that size at (py, px). Only full-size
   * frames (scale 1) are supported; other scales return at once.
   */
  method Interp(frame: array2<byte>, px: int, py: int, ideal: int, staleLen: int, staleWidth: int)
    requires frame.Length1 > 0
    requires Hw.XPix / frame.Length1 == 1 ==> BlockFits(frame, px, py, SizeOr(ideal, staleLen, staleWidth))
    modifies frame
    ensures Hw.XPix / frame.Length1 != 1 ==> unchanged(frame)
    ensures Hw.XPix / frame.Length1 == 1 ==>
      forall i, j :: 0 <= i < frame.Length0 && 0 <= j < frame.Length1 ==>
        frame[i, j] == if InBlock(i, j, px, py, SizeOr(ideal, staleLen, staleWidth)) then 0 else old(frame[i, j])
  {
    var scale := Hw.XPix / frame.Length1;
    if scale != 1 {
      return;
    }
    var len, width := Lookup(ideal, staleLen, staleWidth);
    var s := Size(len, width);
    var i := 0;
    while i < len
      invariant i == 0 || 0 < i <= len
      invariant forall a, b :: 0 <= a < frame.Length0 && 0 <= b < frame.Length1 ==>
                  frame[a, b] == if py <= a < py + i && px <= b < px + width then 0 else old(frame[a, b])
    {
      ZeroRow(frame, py + i, px, width);
      i := i + 1;
    }
  }

  /** The replay cursor over the recorded positions `pos`. */
  class Player {
    const pos: seq<RPos>
    var cpos: int
    var done: bool

    ghost predicate Valid()
      reads this
    {
      0 <= cpos < |pos| && (!done ==> cpos + 1 < |pos|)
    }

    /** The constructor after the file is read into `pos`. */
    constructor (pos: seq<RPos>)
      requires |pos| >= 2
      ensures Valid() && this.pos == pos && cpos == 0 && !done
    {
      this.pos := pos;
      cpos := 0;
      done := false;
    }

    /** Not done, and not before the first record. */
    ghost predicate Live(frameIndex: int)
      reads this
    {
      Valid() && !done && !(cpos == 0 && frameIndex < pos[0].frame)
    }

    /** add_ant paints on this frame: it lies between the current record and the next. */
    ghost predicate Paints(frameIndex: int)
      reads this
    {
      Live(frameIndex) && pos[cpos].frame <= frameIndex <= pos[cpos + 1].frame
    }

    /**
     * add_ant: paint the ant between records `cpos` and `cpos + 1` and move
     * on to the next pair on the frame of record `cpos + 1`; `done` once the
     * last pair is reached.
     */
    method AddAnt(frame: array2<byte>, frameIndex: int, px: int, py: int, ideal: int, staleLen: int, staleWidth: int)
      requires Valid() && frame.Length1 > 0
      requires Paints(frameIndex) && Hw.XPix / frame.Length1 == 1 ==>
                 BlockFits(frame, px, py, SizeOr(ideal, staleLen, staleWidth))
      modifies this, frame
      ensures Valid()
      ensures !(old(Paints(frameIndex)) && Hw.XPix / frame.Length1 == 1) ==> unchanged(frame)
      ensures old(Paints(frameIndex)) && Hw.XPix / frame.Length1 == 1 ==>
        forall i, j :: 0 <= i < frame.Length0 && 0 <= j < frame.Length1 ==>
          frame[i, j] == if InBlock(i, j, px, py, SizeOr(ideal, staleLen, staleWidth)) then 0 else old(frame[i, j])
      ensures cpos == if old(Live(frameIndex)) && frameIndex == pos[old(cpos) + 1].frame then old(cpos) + 1 else old(cpos)
      ensures done == (old(done) || cpos >= |pos| - 1)
    {
      if done {
        return;
      }
      if cpos == 0 && frameIndex < pos[0].frame {
        return;
      }
      var pc, pn := pos[cpos], pos[cpos + 1];
      if frameIndex >= pc.frame && frameIndex <= pn.frame {
        Interp(frame, px, py, ideal, staleLen, staleWidth);
      }
      if frameIndex == pn.frame {
        cpos := cpos + 1;
        if cpos >= |pos| - 1 {
          done := true;
        }
      }
    }
  }
}
