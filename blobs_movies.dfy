/**
 * Blob finding of movies/blobs.cpp: the same stack-driven 4-connected
 * flood fill as the tracker's, over the pixels below the threshold inside
 * a region of interest, with a bit vector marking the pixels already
 * taken instead of writing to the image.
 */
module BlobsMovies {
  import opened Common
  import BU = BlobsUnits

  /** `1 << a` for a bit position `a` of a byte. */
  function Mask(a: nat): (m: bv8)
    requires a < 8
  {
    if a == 0 then 1 else if a == 1 then 2 else if a == 2 then 4 else if a == 3 then 8
    else if a == 4 then 16 else if a == 5 then 32 else if a == 6 then 64 else 128
  }

  lemma MaskIsShift(a: nat)
    requires a < 8
    ensures Mask(a) == 1 << a
  {
  }

  /** Bit `i` of a byte array, as bit_vec::value reads it: bit i % 8 of byte i / 8. */
  function Bit(bytes: seq<bv8>, i: nat): bool
    requires i / 8 < |bytes|
  {
    Has(bytes[i / 8], i % 8)
  }

  /** Bit `c` of the byte `x`. */
  function Has(x: bv8, c: nat): bool
    requires c < 8
  {
    x & Mask(c) != 0
  }

  /** All the bits of a byte array, bit `i` at index `i`. */
  function BitsOf(bytes: seq<bv8>): (r: seq<bool>)
    ensures |r| == 8 * |bytes|
    ensures forall i :: 0 <= i < |r| ==> r[i] == Bit(bytes, i)
  {
    seq(8 * |bytes|, i requires 0 <= i < 8 * |bytes| => Bit(bytes, i))
  }

  /** Or-ing in bit `a` sets bit `a` and no other. */
  lemma OrMask(b: bv8, a: nat, c: nat)
    requires a < 8 && c < 8
    ensures Has(b | Mask(a), c) <==> a == c || Has(b, c)
  {
  }

  /** And-ing with the complement of bit `a` clears bit `a` and no other. */
  lemma AndNotMask(b: bv8, a: nat, c: nat)
    requires a < 8 && c < 8
    ensures Has(b & !Mask(a), c) <==> a != c && Has(b, c)
  {
  }

  /** Setting bit `i` of the bytes `b`, seen from a bit `j` of the same byte. */
  lemma SetBitAt(b: seq<bv8>, i: nat, j: nat)
    requires i / 8 < |b| && j / 8 == i / 8
    ensures Bit(b[i / 8 := b[i / 8] | Mask(i % 8)], j) == (j == i || Bit(b, j))
  {
    assert j == i <==> j % 8 == i % 8;
    OrMask(b[i / 8], i % 8, j % 8);
  }

  /** Clearing bit `i` of the bytes `b`, seen from a bit `j` of the same byte. */
  lemma ClearBitAt(b: seq<bv8>, i: nat, j: nat)
    requires i / 8 < |b| && j / 8 == i / 8
    ensures Bit(b[i / 8 := b[i / 8] & !Mask(i % 8)], j) == (j != i && Bit(b, j))
  {
    assert j == i <==> j % 8 == i % 8;
    AndNotMask(b[i / 8], i % 8, j % 8);
  }

  lemma BitsSet(b: seq<bv8>, i: nat)
    requires i / 8 < |b|
    ensures BitsOf(b[i / 8 := b[i / 8] | Mask(i % 8)]) == BitsOf(b)[i := true]
  {
    var b' := b[i / 8 := b[i / 8] | Mask(i % 8)];
    forall j | 0 <= j < 8 * |b|
      ensures Bit(b', j) == (j == i || Bit(b, j))
    {
      if j / 8 == i / 8 {
        SetBitAt(b, i, j);
      } else {
        assert b'[j / 8] == b[j / 8];
      }
    }
  }

  lemma BitsClear(b: seq<bv8>, i: nat)
    requires i / 8 < |b|
    ensures BitsOf(b[i / 8 := b[i / 8] & !Mask(i % 8)]) == BitsOf(b)[i := false]
  {
    var b' := b[i / 8 := b[i / 8] & !Mask(i % 8)];
    forall j | 0 <= j < 8 * |b|
      ensures Bit(b', j) == (j != i && Bit(b, j))
    {
      if j / 8 == i / 8 {
        ClearBitAt(b, i, j);
      } else {
        assert b'[j / 8] == b[j / 8];
      }
    }
  }

  /** The element count of a bit_vec of `len` bits. */
  function Nel(len: nat): nat
  {
    (len + 8) / 8
  }

  /** Every bit below `len` lies in one of the `nel` bytes. */
  lemma NelCovers(len: nat, i: nat)
    requires i < len
    ensures i / 8 < Nel(len) && i < 8 * Nel(len)
  {
  }

  /**
   * The bytes the constructor leaves: it writes `p[i / 8]` for each `i`
   * below `nel`, so only the bytes up to `(nel - 1) / 8` get the fill
   * value; the rest keep whatever `junk` the allocation held.
   */
  function InitBytes(len: nat, value: bool, junk: seq<bv8>): (r: seq<bv8>)
    requires |junk| == Nel(len)
    ensures |r| == Nel(len)
  {
    seq(Nel(len), k requires 0 <= k < Nel(len) => if k <= (Nel(len) - 1) / 8 then (if value then 0xff else 0) else junk[k])
  }

  /** The bits of the bytes the constructor does write hold the fill value. */
  lemma InitPrefix(len: nat, value: bool, junk: seq<bv8>, i: nat)
    requires |junk| == Nel(len) && i / 8 <= (Nel(len) - 1) / 8
    ensures Bit(InitBytes(len, value, junk), i) == value
  {
    var b := InitBytes(len, value, junk)[i / 8];
    if value {
      assert b == 0xff;
    } else {
      assert b == 0;
    }
  }

  /**
   * A cleared bit_vec of 72 bits has ten bytes, of which the constructor
   * writes only the first two: bit 16, inside the vector, reads an
   * unwritten byte and can come out set.
   */
  lemma InitLeavesJunk()
    ensures var junk: seq<bv8> := [0, 0, 1, 0, 0, 0, 0, 0, 0, 0];
      && |junk| == Nel(72)
      && Bit(InitBytes(72, false, junk), 16)
  {
    var junk: seq<bv8> := [0, 0, 1, 0, 0, 0, 0, 0, 0, 0];
    assert InitBytes(72, false, junk)[2] == 1;
  }

  /** bit_vec: `len` bits packed eight to a byte in `p`. */
  class BitVec {
    const len: nat
    const nel: nat
    const p: array<bv8>

    ghost predicate Valid()
      reads this
    {
      nel == Nel(len) && p.Length == nel
    }

    /** The bits, in order. */
    ghost function Bits(): (r: seq<bool>)
      reads this, p
      ensures |r| == 8 * p.Length
    {
      BitsOf(p[..])
    }

    /**
     * `junk` is what `new unsigned char[nel]` happens to hold; the loop
     * indexes `p[i / as]`, so it overwrites only the first bytes.
     */
    constructor (len: nat, value: bool, junk: seq<bv8>)
      requires |junk| == Nel(len)
      ensures Valid() && this.len == len && fresh(p)
      ensures p[..] == InitBytes(len, value, junk)
    {
      this.len := len;
      var nel := Nel(len);
      this.nel := nel;
      var q := new bv8[nel](k requires 0 <= k < nel => junk[k]);
      var fill: bv8 := if value then 0xff else 0;
      var i := 0;
      while i < nel
        invariant 0 <= i <= nel
        invariant forall k :: 0 <= k < nel ==> q[k] == if 8 * k < i then fill else junk[k]
      {
        q[i / 8] := fill;
        i := i + 1;
      }
      p := q;
      assert forall k :: 0 <= k < nel ==> (8 * k < nel <==> k <= (nel - 1) / 8);
    }

    method Set(i: nat)
      requires Valid() && i / 8 < nel
      modifies p
      ensures Bits() == old(Bits())[i := true]
    {
      var el := i / 8;
      var bit := i - el * 8;
      BitsSet(p[..], i);
      p[el] := p[el] | Mask(bit);
    }

    method Clear(i: nat)
      requires Valid() && i / 8 < nel
      modifies p
      ensures Bits() == old(Bits())[i := false]
    {
      var el := i / 8;
      var bit := i - el * 8;
      BitsClear(p[..], i);
      p[el] := p[el] & !Mask(bit);
    }

    method Value(i: nat) returns (r: bool)
      requires Valid() && i / 8 < nel
      ensures r == Bits()[i]
    {
      var el := i / 8;
      var bit := i - el * 8;
      r := Has(p[el], bit);
    }
  }

  /**
   * One `rec_list` entry as this add_blob fills it in: the blob's bounding
   * box, pixel count and centre (the other fields are left unset).
   */
  datatype Rec = Rec(rect: BU.Rect, npix: int, xc: int, yc: int)

  /** The region of interest lies inside the image. */
  predicate RoiIn(g: array2<byte>, r: BU.Rect)
  {
    0 <= r.x && 0 <= r.y && 0 <= r.width && 0 <= r.height
    && r.x + r.width <= g.Length1 && r.y + r.height <= g.Length0
  }

  predicate InRoi(r: BU.Rect, q: BU.Pixel)
  {
    r.x <= q.x < r.x + r.width && r.y <= q.y < r.y + r.height
  }

  /** The bit of `checked` that stands for pixel `q`: row-major within the region. */
  function Idx(r: BU.Rect, q: BU.Pixel): int
  {
    (q.y - r.y) * r.width + (q.x - r.x)
  }

  /** A pixel of the region has a bit below `width * height`, inside the vector. */
  lemma IdxInRange(r: BU.Rect, q: BU.Pixel)
    requires InRoi(r, q)
    ensures 0 <= Idx(r, q) < r.width * r.height
    ensures Idx(r, q) / 8 < Nel(r.width * r.height) && Idx(r, q) < 8 * Nel(r.width * r.height)
  {
    BU.MulMono(r.width, 0, q.y - r.y);
    BU.MulMono(r.width, q.y - r.y, r.height - 1);
    NelCovers(r.width * r.height, Idx(r, q));
  }

  /** Two pixels of the region never share a bit. */
  lemma IdxInjective(r: BU.Rect, p: BU.Pixel, q: BU.Pixel)
    requires InRoi(r, p) && InRoi(r, q) && Idx(r, p) == Idx(r, q)
    ensures p == q
  {
    var a, c := p.y - r.y, q.y - r.y;
    BU.MulMono(r.width, a + 1, c);
    BU.MulMono(r.width, c + 1, a);
  }

  /** The bits `b` with the bit of every pixel of `taken` set. */
  ghost function Mark(b: seq<bool>, r: BU.Rect, taken: seq<BU.Pixel>): (m: seq<bool>)
    ensures |m| == |b|
  {
    if taken == [] then b
    else
      var m := Mark(b, r, taken[..|taken| - 1]);
      var i := Idx(r, taken[|taken| - 1]);
      if 0 <= i < |m| then m[i := true] else m
  }

  /** Every bit set in `b0` is set in `b`. */
  ghost predicate Grows(b0: seq<bool>, b: seq<bool>)
  {
    |b0| == |b| && forall i :: 0 <= i < |b| && b0[i] ==> b[i]
  }

  /** Marking only sets bits. */
  lemma {:induction false} MarkGrows(b: seq<bool>, r: BU.Rect, taken: seq<BU.Pixel>)
    ensures Grows(b, Mark(b, r, taken))
  {
    if taken != [] {
      MarkGrows(b, r, taken[..|taken| - 1]);
    }
  }

  /** Marking sets the bit of every marked pixel. */
  lemma {:induction false} MarkHas(b: seq<bool>, r: BU.Rect, taken: seq<BU.Pixel>)
    ensures forall k :: 0 <= k < |taken| && 0 <= Idx(r, taken[k]) < |b| ==> Mark(b, r, taken)[Idx(r, taken[k])]
  {
    if taken != [] {
      var w := taken[..|taken| - 1];
      MarkHas(b, r, w);
      forall k | 0 <= k < |w| && 0 <= Idx(r, taken[k]) < |b|
        ensures Mark(b, r, taken)[Idx(r, taken[k])]
      {
        assert taken[k] == w[k];
      }
    }
  }

  /**
   * `q` may be taken by a fill: it lies in the region, is below the
   * threshold and its bit is clear in `bits`.
   */
  ghost predicate Open(src: array2<byte>, r: BU.Rect, thresh: int, bits: seq<bool>, q: BU.Pixel)
    reads src
  {
    && RoiIn(src, r) && InRoi(r, q) && src[q.y, q.x] < thresh
    && 0 <= Idx(r, q) < |bits| && !bits[Idx(r, q)]
  }

  /** Every taken pixel was open in `bits0`. */
  ghost predicate Took(src: array2<byte>, r: BU.Rect, thresh: int, bits0: seq<bool>, taken: seq<BU.Pixel>)
    reads src
  {
    forall k :: 0 <= k < |taken| ==> Open(src, r, thresh, bits0, taken[k])
  }

  /** The box add_blob starts from: (r.x + r.width, r.y + r.height, r.x, r.y). */
  function Init(r: BU.Rect): BU.Bounds
  {
    BU.Bounds(r.x + r.width, r.y + r.height, r.x, r.y)
  }

  /** The loop's accumulators over the pixels `taken`. */
  function AccOf(taken: seq<BU.Pixel>, r: BU.Rect): BU.Acc
  {
    BU.Acc(BU.Box(taken, Init(r)), BU.SumX(taken), BU.SumY(taken), |taken|)
  }

  /** The record add_blob prepends for the pixels `s`. */
  function RecOf(s: seq<BU.Pixel>, r: BU.Rect): Rec
    requires s != []
  {
    var b := BU.Box(s, Init(r));
    var n := |s|;
    Rec(BU.Rect(b.left, b.top, b.right - b.left + 1, b.bottom - b.top + 1), n, BU.SumX(s) / n, BU.SumY(s) / n)
  }

  /**
   * The record's box is the tight bounding box of its pixels, inside the
   * region, and its centre lies in the box.
   */
  lemma RecordSpans(s: seq<BU.Pixel>, r: BU.Rect)
    requires s != [] && forall i :: 0 <= i < |s| ==> InRoi(r, s[i])
    ensures var c := RecOf(s, r);
      && c.npix == |s| && c.rect.width >= 1 && c.rect.height >= 1
      && r.x <= c.rect.x && c.rect.x + c.rect.width <= r.x + r.width
      && r.y <= c.rect.y && c.rect.y + c.rect.height <= r.y + r.height
      && c.rect.x <= c.xc < c.rect.x + c.rect.width
      && c.rect.y <= c.yc < c.rect.y + c.rect.height
      && (forall i :: 0 <= i < |s| ==>
            && c.rect.x <= s[i].x < c.rect.x + c.rect.width
            && c.rect.y <= s[i].y < c.rect.y + c.rect.height)
  {
    var b := BU.Box(s, Init(r));
    BU.BoxIsTight(s, Init(r));
    BU.SumXBounds(s, b.left, b.right);
    BU.SumYBounds(s, b.top, b.bottom);
    BU.FloorDivBetween(BU.SumX(s), |s|, b.left, b.right);
    BU.FloorDivBetween(BU.SumY(s), |s|, b.top, b.bottom);
  }

  /**
   * The neighbours of `p` that add_blob pushes, in stack order (the last
   * pushed first): up, left, down and right are tried in that order, each
   * when it is inside the region and below the threshold.
   */
  function Pushed(src: array2<byte>, r: BU.Rect, p: BU.Pixel, thresh: int): (nb: seq<BU.Pixel>)
    reads src
    requires RoiIn(src, r) && InRoi(r, p)
    ensures forall k :: 0 <= k < |nb| ==> InRoi(r, nb[k]) && BU.Adjacent(p, nb[k]) && src[nb[k].y, nb[k].x] < thresh
    // and every such neighbour is pushed
    ensures forall q :: BU.Adjacent(p, q) && InRoi(r, q) && src[q.y, q.x] < thresh ==> q in nb
  {
    var up := if p.y > r.y && src[p.y - 1, p.x] < thresh then [BU.Pixel(p.x, p.y - 1)] else [];
    var left := if p.x > r.x && src[p.y, p.x - 1] < thresh then [BU.Pixel(p.x - 1, p.y)] else [];
    var down := if p.y < r.y + r.height - 1 && src[p.y + 1, p.x] < thresh then [BU.Pixel(p.x, p.y + 1)] else [];
    var right := if p.x < r.x + r.width - 1 && src[p.y, p.x + 1] < thresh then [BU.Pixel(p.x + 1, p.y)] else [];
    right + down + left + up
  }

  /**
   * The fill's bookkeeping: `stack` holds region pixels, each adjacent to
   * the taken pixel `via` names; `taken` starts at the seed, is free of
   * duplicates, and every later pixel is a 4-neighbour of the earlier
   * pixel `parent` names.
   */
  ghost predicate Trail(r: BU.Rect, seed: BU.Pixel, taken: seq<BU.Pixel>, parent: seq<nat>,
                        stack: seq<BU.Pixel>, via: seq<nat>)
  {
    && |via| == |stack| && |parent| == |taken|
    && (forall k :: 0 <= k < |stack| ==> InRoi(r, stack[k]))
    && (forall k :: 0 <= k < |stack| ==> via[k] < |taken| && BU.Adjacent(taken[via[k]], stack[k]))
    && (forall k :: 0 <= k < |taken| ==> InRoi(r, taken[k]))
    && (forall k, l :: 0 <= k < l < |taken| ==> taken[k] != taken[l])
    && (taken != [] ==> taken[0] == seed)
    && (forall k :: 1 <= k < |taken| ==> parent[k] < k && BU.Adjacent(taken[parent[k]], taken[k]))
  }

  /** Taking pixel `p`, pushed from `taken[from]`, and pushing its neighbours `nb`. */
  lemma TrailTake(r: BU.Rect, seed: BU.Pixel, taken: seq<BU.Pixel>, parent: seq<nat>,
                  stack: seq<BU.Pixel>, via: seq<nat>, p: BU.Pixel, from: nat, nb: seq<BU.Pixel>)
    requires Trail(r, seed, taken, parent, stack, via)
    requires InRoi(r, p) && p !in taken
    requires taken == [] ==> p == seed
    requires taken != [] ==> from < |taken| && BU.Adjacent(taken[from], p)
    requires forall k :: 0 <= k < |nb| ==> InRoi(r, nb[k]) && BU.Adjacent(p, nb[k])
    ensures Trail(r, seed, taken + [p], parent + [from], nb + stack, BU.Repeat(|nb|, |taken|) + via)
  {
    var t := taken + [p];
    var v := BU.Repeat(|nb|, |taken|) + via;
    var st := nb + stack;
    forall k | 0 <= k < |st|
      ensures v[k] < |t| && BU.Adjacent(t[v[k]], st[k])
    {
      if k < |nb| {
        assert v[k] == |taken| && st[k] == nb[k];
      } else {
        assert v[k] == via[k - |nb|] && st[k] == stack[k - |nb|];
      }
    }
  }

  /** Popping the stack's top. */
  lemma TrailPop(r: BU.Rect, seed: BU.Pixel, taken: seq<BU.Pixel>, parent: seq<nat>,
                 stack: seq<BU.Pixel>, via: seq<nat>)
    requires Trail(r, seed, taken, parent, stack, via) && stack != []
    ensures Trail(r, seed, taken, parent, stack[1..], via[1..])
    ensures InRoi(r, stack[0]) && via[0] < |taken| && BU.Adjacent(taken[via[0]], stack[0])
  {
    assert forall k :: 0 <= k < |stack| - 1 ==> stack[1..][k] == stack[k + 1] && via[1..][k] == via[k + 1];
  }

  /** A bit that marking set, and that was clear before, belongs to a marked pixel. */
  lemma {:induction false} MarkOnly(b: seq<bool>, r: BU.Rect, taken: seq<BU.Pixel>, i: int)
    requires 0 <= i < |b| && Mark(b, r, taken)[i] && !b[i]
    ensures exists k :: 0 <= k < |taken| && Idx(r, taken[k]) == i
  {
    var w := taken[..|taken| - 1];
    var m := Mark(b, r, w);
    if m[i] {
      MarkOnly(b, r, w, i);
      var k :| 0 <= k < |w| && Idx(r, w[k]) == i;
      assert taken[k] == w[k];
    } else {
      assert Idx(r, taken[|taken| - 1]) == i;
    }
  }

  /**
   * Every 4-neighbour of a taken pixel that was open in `bits0` is taken
   * or still waiting in `pending` (the pixel in hand, then the stack).
   */
  ghost predicate Frontier(src: array2<byte>, r: BU.Rect, thresh: int, bits0: seq<bool>,
                           taken: seq<BU.Pixel>, pending: seq<BU.Pixel>)
    reads src
  {
    forall k, q :: 0 <= k < |taken| && BU.Adjacent(taken[k], q) && Open(src, r, thresh, bits0, q) ==>
      q in taken || q in pending
  }

  /** The fill is closed: no open 4-neighbour of a taken pixel was left out. */
  ghost predicate Closed(src: array2<byte>, r: BU.Rect, thresh: int, bits0: seq<bool>, taken: seq<BU.Pixel>)
    reads src
  {
    Frontier(src, r, thresh, bits0, taken, [])
  }

  /** Popping the top of the stack, or finding it empty, leaves the pending pixels as they are. */
  lemma FrontierPop(src: array2<byte>, r: BU.Rect, thresh: int, bits0: seq<bool>, taken: seq<BU.Pixel>,
                    s: seq<BU.Pixel>, ok: bool, p: BU.Pixel, rest: seq<BU.Pixel>)
    requires Frontier(src, r, thresh, bits0, taken, s)
    requires if ok then s != [] && p == s[0] && rest == s[1..] else s == [] && rest == []
    ensures Frontier(src, r, thresh, bits0, taken, BU.Pending(ok, p, rest))
  {
    if ok {
      assert BU.Pending(ok, p, rest) == s;
    }
  }

  /** Taking `p` and pushing its neighbours below the threshold keeps the frontier. */
  lemma FrontierTake(src: array2<byte>, r: BU.Rect, thresh: byte, bits0: seq<bool>, taken: seq<BU.Pixel>,
                     p: BU.Pixel, stack: seq<BU.Pixel>, nb: seq<BU.Pixel>)
    requires RoiIn(src, r) && InRoi(r, p)
    requires Frontier(src, r, thresh, bits0, taken, [p] + stack)
    requires nb == Pushed(src, r, p, thresh)
    ensures Frontier(src, r, thresh, bits0, taken + [p], nb + stack)
  {
    var t := taken + [p];
    forall k, q | 0 <= k < |t| && BU.Adjacent(t[k], q) && Open(src, r, thresh, bits0, q)
      ensures q in t || q in nb + stack
    {
      if k < |taken| {
        assert t[k] == taken[k];
        assert q in taken || q in [p] + stack;
      } else {
        assert q in nb;
      }
    }
  }

  /**
   * Skipping a popped `p` that is not below the threshold, or whose bit is
   * already set, keeps the frontier: if `p` was open it has been taken.
   */
  lemma FrontierSkip(src: array2<byte>, r: BU.Rect, thresh: byte, bits0: seq<bool>, taken: seq<BU.Pixel>,
                     p: BU.Pixel, stack: seq<BU.Pixel>)
    requires InRoi(r, p) && forall k :: 0 <= k < |taken| ==> InRoi(r, taken[k])
    requires Frontier(src, r, thresh, bits0, taken, [p] + stack)
    requires Open(src, r, thresh, bits0, p) ==> Mark(bits0, r, taken)[Idx(r, p)]
    ensures Frontier(src, r, thresh, bits0, taken, stack)
  {
    if Open(src, r, thresh, bits0, p) {
      MarkOnly(bits0, r, taken, Idx(r, p));
      var k :| 0 <= k < |taken| && Idx(r, taken[k]) == Idx(r, p);
      IdxInjective(r, taken[k], p);
    }
    forall k, q | 0 <= k < |taken| && BU.Adjacent(taken[k], q) && Open(src, r, thresh, bits0, q)
      ensures q in taken || q in stack
    {
      assert q in taken || q in [p] + stack;
    }
  }

  /** A pixel whose bit is still clear is open in `bits0` and not yet taken. */
  lemma TakeOpen(src: array2<byte>, r: BU.Rect, thresh: int, bits0: seq<bool>, taken: seq<BU.Pixel>, p: BU.Pixel)
    requires Took(src, r, thresh, bits0, taken)
    requires Open(src, r, thresh, Mark(bits0, r, taken), p)
    ensures Open(src, r, thresh, bits0, p) && p !in taken
    ensures Took(src, r, thresh, bits0, taken + [p])
  {
    MarkGrows(bits0, r, taken);
    MarkHas(bits0, r, taken);
  }

  /** `checked.set(yr * r.width + xr)` and the accumulator updates for a taken pixel. */
  method Take(checked: BitVec, r: BU.Rect, ghost bits0: seq<bool>, ghost taken: seq<BU.Pixel>, p: BU.Pixel, acc: BU.Acc)
    returns (acc': BU.Acc)
    requires checked.Valid() && checked.len == r.width * r.height && InRoi(r, p)
    requires checked.Bits() == Mark(bits0, r, taken) && acc == AccOf(taken, r)
    modifies checked.p
    ensures checked.Bits() == Mark(bits0, r, taken + [p])
    ensures acc' == AccOf(taken + [p], r)
  {
    IdxInRange(r, p);
    checked.Set(Idx(r, p));
    assert (taken + [p])[..|taken|] == taken;
    var b := acc.box;
    acc' := BU.Acc(BU.Bounds(Min(p.x, b.left), Min(p.y, b.top), Max(p.x, b.right), Max(p.y, b.bottom)),
                   acc.xtot + p.x, acc.ytot + p.y, acc.npix + 1);
  }

  /**
   * One taken pixel: set its bit, fold it into the accumulators and find
   * the neighbours to push (`nb`, in stack order).
   */
  method Visit(src: array2<byte>, r: BU.Rect, thresh: byte, checked: BitVec, ghost bits0: seq<bool>,
               ghost seed: BU.Pixel, p: BU.Pixel, ghost from: nat, acc: BU.Acc, ghost taken: seq<BU.Pixel>,
               ghost parent: seq<nat>, ghost stack: seq<BU.Pixel>, ghost via: seq<nat>)
    returns (acc': BU.Acc, nb: seq<BU.Pixel>)
    requires RoiIn(src, r) && checked.Valid() && checked.len == r.width * r.height
    requires Trail(r, seed, taken, parent, stack, via)
    requires checked.Bits() == Mark(bits0, r, taken) && Took(src, r, thresh, bits0, taken)
    requires acc == AccOf(taken, r)
    requires Open(src, r, thresh, checked.Bits(), p)
    requires taken == [] ==> p == seed
    requires taken != [] ==> from < |taken| && BU.Adjacent(taken[from], p)
    modifies checked.p
    ensures Trail(r, seed, taken + [p], parent + [from], nb + stack, BU.Repeat(|nb|, |taken|) + via)
    ensures checked.Bits() == Mark(bits0, r, taken + [p]) && Took(src, r, thresh, bits0, taken + [p])
    ensures acc' == AccOf(taken + [p], r)
    ensures nb == Pushed(src, r, p, thresh)
  {
    TakeOpen(src, r, thresh, bits0, taken, p);
    acc' := Take(checked, r, bits0, taken, p, acc);
    nb := Pushed(src, r, p, thresh);
    TrailTake(r, seed, taken, parent, stack, via, p, from, nb);
  }

  /** The loop invariant of add_blob's fill, from the bits `bits0` it started with. */
  ghost predicate Walk(src: array2<byte>, r: BU.Rect, thresh: byte, checked: BitVec, bits0: seq<bool>,
                       seed: BU.Pixel, ok: bool, p: BU.Pixel, from: nat, acc: BU.Acc, taken: seq<BU.Pixel>,
                       parent: seq<nat>, stack: seq<BU.Pixel>, via: seq<nat>)
    reads src, checked, checked.p
  {
    && Trail(r, seed, taken, parent, stack, via)
    && checked.Bits() == Mark(bits0, r, taken) && Took(src, r, thresh, bits0, taken)
    && (ok ==> InRoi(r, p))
    && (ok && taken != [] ==> from < |taken| && BU.Adjacent(taken[from], p))
    && (!ok ==> stack == [] && taken != [])
    && (taken == [] ==> ok && p == seed && Open(src, r, thresh, bits0, p))
    && acc == AccOf(taken, r)
  }

  /**
   * One turn of the fill loop: take `p` if it is below the threshold and
   * not yet checked (returning early once more than 2000 pixels are
   * counted), then pop.
   */
  method Advance(src: array2<byte>, r: BU.Rect, thresh: byte, checked: BitVec, ghost bits0: seq<bool>,
                 ghost seed: BU.Pixel, p: BU.Pixel, ghost from: nat, acc: BU.Acc, ghost taken: seq<BU.Pixel>,
                 ghost parent: seq<nat>, stack: seq<BU.Pixel>, ghost via: seq<nat>)
    returns (overflow: bool, ok': bool, p': BU.Pixel, ghost from': nat, acc': BU.Acc, stack': seq<BU.Pixel>,
             ghost taken': seq<BU.Pixel>, ghost parent': seq<nat>, ghost via': seq<nat>)
    requires RoiIn(src, r) && checked.Valid() && checked.len == r.width * r.height
    requires Walk(src, r, thresh, checked, bits0, seed, true, p, from, acc, taken, parent, stack, via)
    requires acc.npix <= BU.MaxBlobPixels
    modifies checked.p
    ensures Walk(src, r, thresh, checked, bits0, seed, ok', p', from', acc', taken', parent', stack', via')
    ensures overflow <==> acc'.npix > BU.MaxBlobPixels
    ensures overflow ==> !ok' && acc'.npix == BU.MaxBlobPixels + 1
    ensures acc'.npix == acc.npix || acc'.npix == acc.npix + 1
    ensures acc'.npix == acc.npix ==> |stack'| + (if ok' then 1 else 0) < |stack| + 1
    requires Frontier(src, r, thresh, bits0, taken, [p] + stack)
    ensures !overflow ==> Frontier(src, r, thresh, bits0, taken', BU.Pending(ok', p', stack'))
  {
    overflow, acc', stack', taken', parent', via' := false, acc, stack, taken, parent, via;
    IdxInRange(r, p);
    var seen := false;
    if src[p.y, p.x] < thresh {
      seen := checked.Value(Idx(r, p));
      if !seen {
        var nb;
        acc', nb := Visit(src, r, thresh, checked, bits0, seed, p, from, acc, taken, parent, stack, via);
        parent', taken' := parent + [from], taken + [p];
        if acc'.npix > BU.MaxBlobPixels {
          // drain the stack
          return true, false, p, from, acc', [], taken', parent', [];
        }
        FrontierTake(src, r, thresh, bits0, taken, p, stack, nb);
        stack' := nb + stack;
        via' := BU.Repeat(|nb|, |taken|) + via;
      }
    }
    if src[p.y, p.x] >= thresh || seen {
      FrontierSkip(src, r, thresh, bits0, taken, p, stack);
    }
    // pop_pt
    if stack' == [] {
      ok', p', from' := false, p, from;
      FrontierPop(src, r, thresh, bits0, taken', stack', ok', p', stack');
    } else {
      TrailPop(r, seed, taken', parent', stack', via');
      ok', p', from' := true, stack'[0], via'[0];
      FrontierPop(src, r, thresh, bits0, taken', stack', ok', p', stack'[1..]);
      stack', via' := stack'[1..], via'[1..];
    }
  }

  /**
   * The `while (pop_pt(&x, &y))` loop of add_blob, from an open seed.
   * `overflow` is the early return after more than 2000 pixels; `acc`
   * holds the accumulated bounding box, coordinate sums and pixel count.
   */
  method Fill(src: array2<byte>, r: BU.Rect, thresh: byte, checked: BitVec, seed: BU.Pixel)
    returns (overflow: bool, acc: BU.Acc, ghost taken: seq<BU.Pixel>, ghost parent: seq<nat>)
    requires RoiIn(src, r) && checked.Valid() && checked.len == r.width * r.height
    requires Open(src, r, thresh, checked.Bits(), seed)
    modifies checked.p
    ensures checked.Bits() == Mark(old(checked.Bits()), r, taken)
    ensures Spread(src, r, thresh, old(checked.Bits()), seed, taken, parent) && taken != []
    ensures acc == AccOf(taken, r)
    ensures overflow <==> acc.npix > BU.MaxBlobPixels
    ensures acc.npix <= BU.MaxBlobPixels + 1
    // without overflow the fill took the seed's whole 4-connected open region
    ensures !overflow ==> Closed(src, r, thresh, old(checked.Bits()), taken)
  {
    ghost var bits0 := checked.Bits();
    acc := BU.Acc(Init(r), 0, 0, 0);
    taken, parent := [], [];
    // push_pt(x0, y0), then the first pop_pt
    var stack: seq<BU.Pixel> := [];
    ghost var via: seq<nat> := [];
    var ok, p := true, seed;
    ghost var from: nat := 0;
    overflow := false;
    while ok && !overflow
      invariant Walk(src, r, thresh, checked, bits0, seed, ok, p, from, acc, taken, parent, stack, via)
      invariant overflow <==> acc.npix > BU.MaxBlobPixels
      invariant acc.npix <= BU.MaxBlobPixels + 1
      invariant overflow ==> !ok
      invariant !overflow ==> Frontier(src, r, thresh, bits0, taken, BU.Pending(ok, p, stack))
      decreases BU.MaxBlobPixels + 1 - acc.npix, |stack| + (if ok then 1 else 0)
    {
      overflow, ok, p, from, acc, stack, taken, parent, via :=
        Advance(src, r, thresh, checked, bits0, seed, p, from, acc, taken, parent, stack, via);
    }
  }

  /**
   * The fill took `taken` from `seed`: every pixel was open in `bits0`, none
   * is taken twice, and each after the first is a 4-neighbour of the
   * earlier pixel `parent` names.
   */
  ghost predicate Spread(src: array2<byte>, r: BU.Rect, thresh: int, bits0: seq<bool>, seed: BU.Pixel,
                         taken: seq<BU.Pixel>, parent: seq<nat>)
    reads src
  {
    && Took(src, r, thresh, bits0, taken)
    && (forall k, l :: 0 <= k < l < |taken| ==> taken[k] != taken[l])
    && (taken != [] ==> taken[0] == seed)
    && |parent| == |taken|
    && (forall k :: 1 <= k < |taken| ==> parent[k] < k && BU.Adjacent(taken[parent[k]], taken[k]))
  }

  /**
   * add_blob: flood-fill the pixels below the threshold from (x0, y0)
   * within the region `r`, setting the bit of each pixel taken. `taken`
   * lists the pixels counted, in order; `parent[k]` is the earlier pixel
   * `taken[k]` was pushed from. A seed at or above the threshold, or
   * already checked, returns at once and leaves `*error` as it was.
   */
  method AddBlob(src: array2<byte>, x0: int, y0: int, r: BU.Rect, precs: seq<Rec>, errorIn: bool,
                 thresh: byte, checked: BitVec)
    returns (res: seq<Rec>, error: bool, ghost taken: seq<BU.Pixel>, ghost parent: seq<nat>)
    requires RoiIn(src, r) && InRoi(r, BU.Pixel(x0, y0))
    requires checked.Valid() && checked.len == r.width * r.height
    modifies checked.p
    ensures !Open(src, r, thresh, old(checked.Bits()), BU.Pixel(x0, y0)) ==>
              res == precs && error == errorIn && taken == []
    // exactly the bits of the counted pixels are set
    ensures checked.Bits() == Mark(old(checked.Bits()), r, taken)
    ensures Spread(src, r, thresh, old(checked.Bits()), BU.Pixel(x0, y0), taken, parent)
    ensures Open(src, r, thresh, old(checked.Bits()), BU.Pixel(x0, y0)) ==> taken != []
    // without an error, every open 4-neighbour of a counted pixel was counted too
    ensures !error ==> Closed(src, r, thresh, old(checked.Bits()), taken)
    // overflow, too small, or a new record
    ensures Open(src, r, thresh, old(checked.Bits()), BU.Pixel(x0, y0)) ==> (error <==> |taken| > BU.MaxBlobPixels)
    ensures error && taken != [] ==> |taken| == BU.MaxBlobPixels + 1 && res == precs
    ensures !error && |taken| < BU.MinBlobPixels ==> res == precs
    ensures !error && |taken| >= BU.MinBlobPixels ==> res == [RecOf(taken, r)] + precs
  {
    var seed := BU.Pixel(x0, y0);
    IdxInRange(r, seed);
    if src[y0, x0] >= thresh {
      return precs, errorIn, [], [];
    }
    var seen := checked.Value(Idx(r, seed));
    if seen {
      return precs, errorIn, [], [];
    }
    var overflow, acc;
    overflow, acc, taken, parent := Fill(src, r, thresh, checked, seed);
    var b, npix := acc.box, acc.npix;
    if overflow {
      return precs, true, taken, parent;
    }
    if npix < BU.MinBlobPixels {
      return precs, false, taken, parent;
    }
    var pnr := Rec(BU.Rect(b.left, b.top, b.right - b.left + 1, b.bottom - b.top + 1),
                   npix, acc.xtot / npix, acc.ytot / npix);
    res := [pnr] + precs;
    error := false;
  }

  /**
   * What find_bbb has built so far, against the bits `bits0` the checked
   * vector started with: `precs` holds one record per blob of `blobs`,
   * newest first; each blob has between 3 and 2000 pixels, each of which
   * was open in `bits0`; no pixel belongs to two blobs; and each blob is a
   * whole 4-connected region of the pixels open in `bits0`.
   */
  ghost predicate Found(fg: array2<byte>, r: BU.Rect, thresh: int, bits0: seq<bool>,
                        precs: seq<Rec>, blobs: seq<seq<BU.Pixel>>)
    reads fg
  {
    && RecordsOf(precs, blobs, r)
    && (forall k, i :: 0 <= k < |blobs| && 0 <= i < |blobs[k]| ==> Open(fg, r, thresh, bits0, blobs[k][i]))
    && BU.Disjoint(blobs)
    && Whole(fg, r, thresh, bits0, blobs)
  }

  /** Every blob is closed in `bits0` and 4-connected. */
  ghost predicate Whole(fg: array2<byte>, r: BU.Rect, thresh: int, bits0: seq<bool>, blobs: seq<seq<BU.Pixel>>)
    reads fg
  {
    forall k :: 0 <= k < |blobs| ==> Closed(fg, r, thresh, bits0, blobs[k]) && BU.Connected(blobs[k])
  }

  lemma WholeGrow(fg: array2<byte>, r: BU.Rect, thresh: int, bits0: seq<bool>, blobs: seq<seq<BU.Pixel>>,
                  taken: seq<BU.Pixel>)
    requires Whole(fg, r, thresh, bits0, blobs)
    requires Closed(fg, r, thresh, bits0, taken) && BU.Connected(taken)
    ensures Whole(fg, r, thresh, bits0, [taken] + blobs)
  {
    var bs := [taken] + blobs;
    forall k | 0 <= k < |bs|
      ensures Closed(fg, r, thresh, bits0, bs[k]) && BU.Connected(bs[k])
    {
      if k > 0 {
        assert bs[k] == blobs[k - 1];
      }
    }
  }

  /** The bit of pixel `q` is set in `bits`. */
  predicate IsSet(bits: seq<bool>, r: BU.Rect, q: BU.Pixel)
  {
    0 <= Idx(r, q) < |bits| && bits[Idx(r, q)]
  }

  /**
   * The bits set so far are closed in `bits0`: a pixel open in `bits0`
   * next to one whose bit is set has its bit set too.
   */
  ghost predicate Settled(fg: array2<byte>, r: BU.Rect, thresh: int, bits0: seq<bool>, bits: seq<bool>)
    reads fg
  {
    && |bits| == |bits0|
    && forall p, q {:trigger BU.Adjacent(p, q)} ::
         BU.Adjacent(p, q) && Open(fg, r, thresh, bits0, p) && Open(fg, r, thresh, bits0, q) ==>
         (bits[Idx(r, p)] ==> bits[Idx(r, q)])
  }

  /** Nothing is set yet beyond `bits0`, so nothing is left out. */
  lemma SettledStart(fg: array2<byte>, r: BU.Rect, thresh: int, bits0: seq<bool>)
    ensures Settled(fg, r, thresh, bits0, bits0)
  {
  }

  /** The pixels a fill took, open in `mid`, were open in `bits0`, from which `mid` grew. */
  lemma TookEarlier(fg: array2<byte>, r: BU.Rect, thresh: int, bits0: seq<bool>, mid: seq<bool>,
                    taken: seq<BU.Pixel>)
    requires Grows(bits0, mid) && Took(fg, r, thresh, mid, taken)
    ensures Took(fg, r, thresh, bits0, taken)
  {
  }

  /** A fill from `mid`, closed in `mid`, keeps the set bits closed in `bits0`. */
  lemma SettledFill(fg: array2<byte>, r: BU.Rect, thresh: int, bits0: seq<bool>, mid: seq<bool>,
                    taken: seq<BU.Pixel>)
    requires Settled(fg, r, thresh, bits0, mid) && Grows(bits0, mid)
    requires Took(fg, r, thresh, mid, taken) && Closed(fg, r, thresh, mid, taken)
    ensures Settled(fg, r, thresh, bits0, Mark(mid, r, taken))
  {
    var b := Mark(mid, r, taken);
    forall p, q | BU.Adjacent(p, q) && Open(fg, r, thresh, bits0, p) && Open(fg, r, thresh, bits0, q)
      ensures b[Idx(r, p)] ==> b[Idx(r, q)]
    {
      SettledStep(fg, r, thresh, bits0, mid, taken, p, q);
    }
  }

  /** The step of SettledFill for one pair of neighbours `p`, `q`. */
  lemma SettledStep(fg: array2<byte>, r: BU.Rect, thresh: int, bits0: seq<bool>, mid: seq<bool>,
                    taken: seq<BU.Pixel>, p: BU.Pixel, q: BU.Pixel)
    requires Settled(fg, r, thresh, bits0, mid) && Grows(bits0, mid)
    requires Took(fg, r, thresh, mid, taken) && Closed(fg, r, thresh, mid, taken)
    requires BU.Adjacent(p, q) && Open(fg, r, thresh, bits0, p) && Open(fg, r, thresh, bits0, q)
    ensures Mark(mid, r, taken)[Idx(r, p)] ==> Mark(mid, r, taken)[Idx(r, q)]
  {
    var b := Mark(mid, r, taken);
    var i, j := Idx(r, p), Idx(r, q);
    MarkGrows(mid, r, taken);
    MarkHas(mid, r, taken);
    if b[i] && !mid[i] && !mid[j] {
      MarkOnly(mid, r, taken, i);
      var k :| 0 <= k < |taken| && Idx(r, taken[k]) == i;
      IdxInjective(r, taken[k], p);
      assert BU.Adjacent(taken[k], q) && Open(fg, r, thresh, mid, q);
      var l :| 0 <= l < |taken| && taken[l] == q;
    }
  }

  /** What a fill from `mid` took, closed in `mid`, is closed in `bits0`: a whole region. */
  lemma ClosedInOrigin(fg: array2<byte>, r: BU.Rect, thresh: int, bits0: seq<bool>, mid: seq<bool>,
                       taken: seq<BU.Pixel>)
    requires Settled(fg, r, thresh, bits0, mid) && Grows(bits0, mid)
    requires Took(fg, r, thresh, mid, taken) && Closed(fg, r, thresh, mid, taken)
    ensures Closed(fg, r, thresh, bits0, taken)
  {
    forall k, q | 0 <= k < |taken| && BU.Adjacent(taken[k], q) && Open(fg, r, thresh, bits0, q)
      ensures q in taken
    {
      var p := taken[k];
      assert Open(fg, r, thresh, mid, p) && Open(fg, r, thresh, bits0, p);
      assert BU.Adjacent(q, p);
      assert Open(fg, r, thresh, mid, q);
    }
  }

  /**
   * A fill from `seed` that overflowed: 2001 distinct pixels, 4-connected
   * from the seed, each open in `bits0`.
   */
  ghost predicate Spill(fg: array2<byte>, r: BU.Rect, thresh: int, bits0: seq<bool>, seed: BU.Pixel, s: seq<BU.Pixel>)
    reads fg
  {
    && |s| == BU.MaxBlobPixels + 1 && s[0] == seed && BU.Connected(s)
    && (forall i, j :: 0 <= i < j < |s| ==> s[i] != s[j])
    && Took(fg, r, thresh, bits0, s)
  }

  /** `precs[k]` is the record of `blobs[k]`, whose size add_blob accepted. */
  ghost predicate RecordsOf(precs: seq<Rec>, blobs: seq<seq<BU.Pixel>>, r: BU.Rect)
  {
    && |blobs| == |precs|
    && (forall k :: 0 <= k < |blobs| ==>
          BU.MinBlobPixels <= |blobs[k]| <= BU.MaxBlobPixels && precs[k] == RecOf(blobs[k], r))
  }

  /** The bit of every blob pixel is set in `bits`. */
  ghost predicate Covered(bits: seq<bool>, r: BU.Rect, blobs: seq<seq<BU.Pixel>>)
  {
    forall k, i :: 0 <= k < |blobs| && 0 <= i < |blobs[k]| ==>
      0 <= Idx(r, blobs[k][i]) < |bits| && bits[Idx(r, blobs[k][i])]
  }

  lemma RecordsGrow(precs: seq<Rec>, blobs: seq<seq<BU.Pixel>>, taken: seq<BU.Pixel>, r: BU.Rect)
    requires RecordsOf(precs, blobs, r)
    requires BU.MinBlobPixels <= |taken| <= BU.MaxBlobPixels
    ensures RecordsOf([RecOf(taken, r)] + precs, [taken] + blobs, r)
  {
    var ps, bs := [RecOf(taken, r)] + precs, [taken] + blobs;
    forall k | 0 <= k < |bs|
      ensures BU.MinBlobPixels <= |bs[k]| <= BU.MaxBlobPixels && ps[k] == RecOf(bs[k], r)
    {
      if k > 0 {
        assert bs[k] == blobs[k - 1] && ps[k] == precs[k - 1];
      }
    }
  }

  /** The pixels of a fill from `mid`, which grew from `bits0`, were open in `bits0`. */
  lemma OpenGrow(fg: array2<byte>, r: BU.Rect, thresh: int, bits0: seq<bool>, mid: seq<bool>,
                 blobs: seq<seq<BU.Pixel>>, taken: seq<BU.Pixel>)
    requires Grows(bits0, mid) && Took(fg, r, thresh, mid, taken)
    requires forall k, i :: 0 <= k < |blobs| && 0 <= i < |blobs[k]| ==> Open(fg, r, thresh, bits0, blobs[k][i])
    ensures forall k, i :: 0 <= k < |blobs| + 1 && 0 <= i < |([taken] + blobs)[k]| ==>
              Open(fg, r, thresh, bits0, ([taken] + blobs)[k][i])
  {
    var bs := [taken] + blobs;
    forall k, i | 0 <= k < |bs| && 0 <= i < |bs[k]|
      ensures Open(fg, r, thresh, bits0, bs[k][i])
    {
      if k > 0 {
        assert bs[k] == blobs[k - 1];
      }
    }
  }

  /** A fill's pixels, open in `mid`, are none of the blobs covered in `mid`. */
  lemma DisjointGrow(fg: array2<byte>, r: BU.Rect, thresh: int, mid: seq<bool>,
                     blobs: seq<seq<BU.Pixel>>, taken: seq<BU.Pixel>)
    requires BU.Disjoint(blobs) && Covered(mid, r, blobs) && Took(fg, r, thresh, mid, taken)
    requires forall i, j :: 0 <= i < j < |taken| ==> taken[i] != taken[j]
    ensures BU.Disjoint([taken] + blobs)
  {
    var bs := [taken] + blobs;
    forall k, l, i, j | 0 <= k < l < |bs| && 0 <= i < |bs[k]| && 0 <= j < |bs[l]|
      ensures bs[k][i] != bs[l][j]
    {
      assert bs[l] == blobs[l - 1];
      if k == 0 {
        assert bs[k][i] == taken[i];
      } else {
        assert bs[k] == blobs[k - 1];
      }
    }
  }

  /** After the fill, the old blobs and the new one are covered. */
  lemma CoveredGrow(mid: seq<bool>, r: BU.Rect, blobs: seq<seq<BU.Pixel>>, taken: seq<BU.Pixel>)
    requires Covered(mid, r, blobs)
    requires forall i :: 0 <= i < |taken| ==> 0 <= Idx(r, taken[i]) < |mid|
    ensures Covered(Mark(mid, r, taken), r, BU.Grown(blobs, taken))
  {
    var bits := Mark(mid, r, taken);
    MarkGrows(mid, r, taken);
    MarkHas(mid, r, taken);
    var bs := BU.Grown(blobs, taken);
    forall k, i | 0 <= k < |bs| && 0 <= i < |bs[k]|
      ensures 0 <= Idx(r, bs[k][i]) < |bits| && bits[Idx(r, bs[k][i])]
    {
      if |taken| >= BU.MinBlobPixels {
        if k > 0 {
          assert bs[k] == blobs[k - 1];
        } else {
          assert bs[k][i] == taken[i];
        }
      }
    }
  }

  /**
   * One blob candidate of find_bbb: add_blob seeded at (x1, y), with
   * `errorIn` what its flag held before. `taken` is what the fill took:
   * nothing when the seed was not open, and otherwise a fill from the seed.
   */
  method Candidate(fg: array2<byte>, r: BU.Rect, thresh: byte, checked: BitVec, ghost bits0: seq<bool>,
                   x1: int, y: int, errorIn: bool, precs: seq<Rec>, ghost blobs: seq<seq<BU.Pixel>>)
    returns (precs': seq<Rec>, error: bool, ghost blobs': seq<seq<BU.Pixel>>, ghost taken: seq<BU.Pixel>)
    requires RoiIn(fg, r) && InRoi(r, BU.Pixel(x1, y))
    requires checked.Valid() && checked.len == r.width * r.height
    requires Found(fg, r, thresh, bits0, precs, blobs)
    requires Covered(checked.Bits(), r, blobs) && Grows(bits0, checked.Bits())
    requires Settled(fg, r, thresh, bits0, checked.Bits())
    modifies checked.p
    // exactly the bits of the pixels taken are set, each open at the start
    ensures checked.Bits() == Mark(old(checked.Bits()), r, taken) && Grows(bits0, checked.Bits())
    ensures Took(fg, r, thresh, bits0, taken)
    // a seed that is not open takes nothing and leaves the flag as it was
    ensures taken == [] <==> !Open(fg, r, thresh, old(checked.Bits()), BU.Pixel(x1, y))
    ensures taken == [] ==> error == errorIn && precs' == precs
    ensures taken != [] ==> taken[0] == BU.Pixel(x1, y)
    // an error from a fill is an overflow: 2001 distinct 4-connected open pixels
    ensures error && taken != [] ==> Spill(fg, r, thresh, bits0, BU.Pixel(x1, y), taken)
    // without an error the fill is a whole 4-connected region of pixels open at
    // the start; it is recorded and kept when it has at least 3 pixels
    ensures !error ==> Region(fg, r, thresh, bits0, taken) && blobs' == BU.Grown(blobs, taken)
    ensures !error ==>
              precs' == if |taken| >= BU.MinBlobPixels then [RecOf(taken, r)] + precs else precs
    ensures !error ==> Found(fg, r, thresh, bits0, precs', blobs') && Settled(fg, r, thresh, bits0, checked.Bits())
    ensures !error && fg[y, x1] < thresh ==> IsSet(checked.Bits(), r, BU.Pixel(x1, y))
  {
    ghost var mid := checked.Bits();
    ghost var parent;
    IdxInRange(r, BU.Pixel(x1, y));
    precs', error, taken, parent := AddBlob(fg, x1, y, r, precs, errorIn, thresh, checked);
    blobs' := BU.Grown(blobs, taken);
    GrowsMark(bits0, mid, r, taken);
    MarkGrows(mid, r, taken);
    MarkHas(mid, r, taken);
    TookEarlier(fg, r, thresh, bits0, mid, taken);
    BU.ParentConnected(taken, parent);
    if taken != [] {
      assert taken[0] == BU.Pixel(x1, y);
    }
    if !error {
      SettledFill(fg, r, thresh, bits0, mid, taken);
      ClosedInOrigin(fg, r, thresh, bits0, mid, taken);
      FoundGrow(fg, r, thresh, bits0, mid, precs, blobs, taken, precs');
    }
  }

  lemma GrowsMark(bits0: seq<bool>, mid: seq<bool>, r: BU.Rect, taken: seq<BU.Pixel>)
    requires Grows(bits0, mid)
    ensures Grows(bits0, Mark(mid, r, taken))
  {
    MarkGrows(mid, r, taken);
  }

  /** Found and Covered are kept by a fill from the bits `mid` that did not overflow. */
  lemma FoundGrow(fg: array2<byte>, r: BU.Rect, thresh: int, bits0: seq<bool>, mid: seq<bool>,
                  precs: seq<Rec>, blobs: seq<seq<BU.Pixel>>, taken: seq<BU.Pixel>, precs': seq<Rec>)
    requires Found(fg, r, thresh, bits0, precs, blobs) && Covered(mid, r, blobs) && Grows(bits0, mid)
    requires Took(fg, r, thresh, mid, taken) && |taken| <= BU.MaxBlobPixels
    requires forall i, j :: 0 <= i < j < |taken| ==> taken[i] != taken[j]
    requires Closed(fg, r, thresh, bits0, taken) && BU.Connected(taken)
    requires |taken| < BU.MinBlobPixels ==> precs' == precs
    requires |taken| >= BU.MinBlobPixels ==> precs' == [RecOf(taken, r)] + precs
    ensures Found(fg, r, thresh, bits0, precs', BU.Grown(blobs, taken))
    ensures Covered(Mark(mid, r, taken), r, BU.Grown(blobs, taken))
  {
    CoveredGrow(mid, r, blobs, taken);
    if |taken| >= BU.MinBlobPixels {
      RecordsGrow(precs, blobs, taken, r);
      OpenGrow(fg, r, thresh, bits0, mid, blobs, taken);
      DisjointGrow(fg, r, thresh, mid, blobs, taken);
      WholeGrow(fg, r, thresh, bits0, blobs, taken);
    }
  }

  /** `*(uint64_t *)pfg != 0`: one of the eight bytes from (y, x) is not zero. */
  function AnyNonZero(fg: array2<byte>, y: int, x: int): bool
    reads fg
    requires 0 <= y < fg.Length0 && 0 <= x && x + 8 <= fg.Length1
  {
    exists k :: x <= k < x + 8 && fg[y, k] != 0
  }

  /** In a width that is a multiple of eight, the `c`-th group of eight columns fits. */
  lemma Step8(c: int, w: int)
    requires w % 8 == 0 && 0 <= 8 * c < w
    ensures 8 * c + 8 <= w
  {
  }

  /** The column where the group of eight columns holding column `x` of the region `r` starts. */
  function ChunkOf(r: BU.Rect, x: int): int
  {
    r.x + 8 * ((x - r.x) / 8)
  }

  /** The eight columns from the `c`-th group's start lie in that group. */
  lemma ChunkOfIn(r: BU.Rect, x: int, c: int, x1: int)
    requires x - r.x == 8 * c && x <= x1 < x + 8
    ensures ChunkOf(r, x1) == x
  {
    assert x1 - r.x == 8 * c + (x1 - x);
  }

  /** In a width that is a multiple of eight the groups end at the region's right edge. */
  lemma ChunkEndExact(r: BU.Rect)
    requires 0 <= r.width && r.width % 8 == 0
    ensures BU.ChunkEnd(r) == r.x + r.width
  {
    if r.width > 0 {
      assert r.width + 7 == 8 * (r.width / 8) + 7;
    }
  }

  /** `q` lies in the region `r` and is below the threshold. */
  predicate Below(fg: array2<byte>, r: BU.Rect, thresh: int, q: BU.Pixel)
    reads fg
  {
    RoiIn(fg, r) && InRoi(r, q) && fg[q.y, q.x] < thresh
  }

  /**
   * `q` is a candidate of find_bbb: a pixel of the region below the
   * threshold, in a group of eight columns that is not all zero.
   */
  predicate Cand(fg: array2<byte>, r: BU.Rect, thresh: int, q: BU.Pixel)
    reads fg
  {
    && Below(fg, r, thresh, q)
    && 0 <= ChunkOf(r, q.x) && ChunkOf(r, q.x) + 8 <= fg.Length1
    && AnyNonZero(fg, q.y, ChunkOf(r, q.x))
  }

  /** `t` is a whole 4-connected region of pixels open in `bits0`, or nothing. */
  ghost predicate Region(fg: array2<byte>, r: BU.Rect, thresh: int, bits0: seq<bool>, t: seq<BU.Pixel>)
    reads fg
  {
    Closed(fg, r, thresh, bits0, t) && BU.Connected(t) && Took(fg, r, thresh, bits0, t)
  }

  /** The candidate `p`, met `k`-th, was still open: open in `bits0` and in no earlier fill. */
  ghost predicate Unmet(fg: array2<byte>, r: BU.Rect, thresh: int, bits0: seq<bool>, fills: seq<seq<BU.Pixel>>,
                        p: BU.Pixel, k: int)
    reads fg
  {
    Open(fg, r, thresh, bits0, p) && forall j :: 0 <= j < k && j < |fills| ==> p !in fills[j]
  }

  /**
   * `fills[k]` is what add_blob took from the candidate `seeds[k]`: a whole
   * 4-connected region of pixels open in `bits0` starting at the candidate
   * when it was still open, and nothing otherwise.
   */
  ghost predicate Fills(fg: array2<byte>, r: BU.Rect, thresh: int, bits0: seq<bool>, fills: seq<seq<BU.Pixel>>,
                        seeds: seq<BU.Pixel>)
    reads fg
  {
    && |fills| <= |seeds|
    && (forall k :: 0 <= k < |fills| ==> (fills[k] != [] <==> Unmet(fg, r, thresh, bits0, fills, seeds[k], k)))
    && (forall k :: 0 <= k < |fills| && fills[k] != [] ==> fills[k][0] == seeds[k])
    && (forall k {:trigger Region(fg, r, thresh, bits0, fills[k])} :: 0 <= k < |fills| ==>
          Region(fg, r, thresh, bits0, fills[k]))
  }

  /** The bit of `q`, a pixel of the region, is set in `bits` but was clear in `bits0`. */
  ghost predicate Flipped(r: BU.Rect, bits0: seq<bool>, bits: seq<bool>, q: BU.Pixel)
  {
    InRoi(r, q) && |bits0| == |bits| && 0 <= Idx(r, q) < |bits| && bits[Idx(r, q)] && !bits0[Idx(r, q)]
  }

  /**
   * The fills find_bbb has made, read against the bits `bits`: the blobs
   * are the fills large enough to keep, every fill pixel has its bit set,
   * and every pixel whose bit was set since `bits0` lies in some fill.
   */
  ghost predicate Traced(r: BU.Rect, bits0: seq<bool>, bits: seq<bool>, blobs: seq<seq<BU.Pixel>>,
                         fills: seq<seq<BU.Pixel>>)
  {
    && blobs == BU.Kept(fills)
    && (forall k, i :: 0 <= k < |fills| && 0 <= i < |fills[k]| ==> IsSet(bits, r, fills[k][i]))
    && (forall q {:trigger Flipped(r, bits0, bits, q)} :: Flipped(r, bits0, bits, q) ==>
          exists k :: 0 <= k < |fills| && q in fills[k])
  }

  /** The candidates met on the way to `pos`: candidates the scan passed, in scan order. */
  ghost predicate Seeds(fg: array2<byte>, r: BU.Rect, thresh: int, pos: BU.Pixel, seeds: seq<BU.Pixel>)
    reads fg
  {
    && BU.InScanOrder(seeds)
    && forall q :: q in seeds ==> BU.Passed(r, pos, q) && Cand(fg, r, thresh, q)
  }

  /**
   * Every candidate the scan passed on its way to `pos` was met, and one
   * open in `bits0` lies in the fill of a candidate at or before it.
   */
  ghost predicate Met(fg: array2<byte>, r: BU.Rect, thresh: int, bits0: seq<bool>, pos: BU.Pixel,
                      fills: seq<seq<BU.Pixel>>, seeds: seq<BU.Pixel>)
    reads fg
  {
    forall q {:trigger BU.Passed(r, pos, q)} :: BU.Passed(r, pos, q) && Cand(fg, r, thresh, q) ==>
      && q in seeds
      && (Open(fg, r, thresh, bits0, q) ==>
            exists k :: 0 <= k < |fills| && k < |seeds| && q in fills[k] && !BU.Before(q, seeds[k]))
  }

  /**
   * The state of find_bbb's scan of the region `r` on reaching `pos`: the
   * found-blobs invariant, the set bits closed in `bits0`, the candidate
   * count, one fill per candidate with every newly set bit a fill pixel's,
   * the candidates met so far, and every open candidate passed taken by a
   * fill.
   */
  ghost predicate Scan(fg: array2<byte>, r: BU.Rect, thresh: int, bits0: seq<bool>, bits: seq<bool>,
                       pos: BU.Pixel, precs: seq<Rec>, blobs: seq<seq<BU.Pixel>>, fills: seq<seq<BU.Pixel>>,
                       seeds: seq<BU.Pixel>, numBlob: int)
    reads fg
  {
    && Found(fg, r, thresh, bits0, precs, blobs) && Grows(bits0, bits) && Settled(fg, r, thresh, bits0, bits)
    && |precs| <= numBlob <= BU.MaxCandidates + 1 && numBlob == |seeds| == |fills|
    && Traced(r, bits0, bits, blobs, fills) && Fills(fg, r, thresh, bits0, fills, seeds)
    && Seeds(fg, r, thresh, pos, seeds) && Met(fg, r, thresh, bits0, pos, fills, seeds)
  }

  /**
   * How a scan that stopped early left things: a bail comes at the 1002nd
   * candidate; an error frees every record and came from the last
   * candidate, whose fill overflowed or whose unset flag held garbage while
   * its bit was already set.
   */
  ghost predicate Ended(fg: array2<byte>, r: BU.Rect, thresh: int, bits0: seq<bool>, bits: seq<bool>,
                        garbage: seq<bool>, outcome: BU.ScanEnd, precs: seq<Rec>, blobs: seq<seq<BU.Pixel>>,
                        seeds: seq<BU.Pixel>, spill: seq<BU.Pixel>)
    reads fg
  {
    && (outcome == BU.Bailed <==> |seeds| == BU.MaxCandidates + 2)
    && (outcome == BU.Overflowed ==>
          && precs == [] && blobs == [] && 0 < |seeds| <= |garbage|
          && (|| Spill(fg, r, thresh, bits0, seeds[|seeds| - 1], spill)
              || (garbage[|seeds| - 1] && IsSet(bits, r, seeds[|seeds| - 1]))))
  }

  /**
   * How a scan that stopped early at its last candidate left things: the
   * fills of the candidates before it, every candidate passed before it
   * met and every open one taken, and a bail or an error as Ended says.
   */
  ghost predicate Stopped(fg: array2<byte>, r: BU.Rect, thresh: int, bits0: seq<bool>, bits: seq<bool>,
                          garbage: seq<bool>, outcome: BU.ScanEnd, precs: seq<Rec>, blobs: seq<seq<BU.Pixel>>,
                          fills: seq<seq<BU.Pixel>>, seeds: seq<BU.Pixel>, spill: seq<BU.Pixel>)
    reads fg
  {
    && seeds != [] && |fills| + 1 == |seeds| && |precs| <= BU.MaxCandidates + 1
    && Found(fg, r, thresh, bits0, precs, blobs) && Grows(bits0, bits) && Fills(fg, r, thresh, bits0, fills, seeds)
    && Seeds(fg, r, thresh, BU.Pixel(seeds[|seeds| - 1].x + 1, seeds[|seeds| - 1].y), seeds)
    && Met(fg, r, thresh, bits0, seeds[|seeds| - 1], fills, seeds)
    && (outcome == BU.Bailed ==> Settled(fg, r, thresh, bits0, bits) && Traced(r, bits0, bits, blobs, fills))
    && Ended(fg, r, thresh, bits0, bits, garbage, outcome, precs, blobs, seeds, spill)
  }

  /** Every candidate of the region has its bit set in `bits`. */
  ghost predicate Checked(fg: array2<byte>, r: BU.Rect, thresh: int, bits: seq<bool>)
    reads fg
  {
    forall q :: Cand(fg, r, thresh, q) ==> IsSet(bits, r, q)
  }

  /** The blobs, kept fills, have their bits set. */
  lemma TracedCovered(r: BU.Rect, bits0: seq<bool>, bits: seq<bool>, blobs: seq<seq<BU.Pixel>>,
                      fills: seq<seq<BU.Pixel>>)
    requires Traced(r, bits0, bits, blobs, fills)
    ensures Covered(bits, r, blobs)
  {
    BU.KeptMembers(fills);
    forall k, i | 0 <= k < |blobs| && 0 <= i < |blobs[k]|
      ensures 0 <= Idx(r, blobs[k][i]) < |bits| && bits[Idx(r, blobs[k][i])]
    {
      assert blobs[k] in fills;
      var j :| 0 <= j < |fills| && fills[j] == blobs[k];
      assert IsSet(bits, r, fills[j][i]);
    }
  }

  /** A pixel of the region is open now exactly when it was open in `bits0` and no fill took it. */
  lemma OpenNow(fg: array2<byte>, r: BU.Rect, thresh: int, bits0: seq<bool>, bits: seq<bool>,
                blobs: seq<seq<BU.Pixel>>, fills: seq<seq<BU.Pixel>>, p: BU.Pixel)
    requires Traced(r, bits0, bits, blobs, fills) && Grows(bits0, bits)
    ensures Open(fg, r, thresh, bits, p) <==>
              Open(fg, r, thresh, bits0, p) && forall k :: 0 <= k < |fills| ==> p !in fills[k]
  {
    if Open(fg, r, thresh, bits0, p) && !Open(fg, r, thresh, bits, p) {
      assert Flipped(r, bits0, bits, p);
    }
    forall k | 0 <= k < |fills| && p in fills[k]
      ensures IsSet(bits, r, p)
    {
      var i :| 0 <= i < |fills[k]| && fills[k][i] == p;
      assert IsSet(bits, r, fills[k][i]);
    }
  }

  /** A fill from `mid`, which had the earlier fills traced, is traced as the next fill. */
  lemma TracedGrow(r: BU.Rect, bits0: seq<bool>, mid: seq<bool>, blobs: seq<seq<BU.Pixel>>,
                   fills: seq<seq<BU.Pixel>>, taken: seq<BU.Pixel>)
    requires Traced(r, bits0, mid, blobs, fills) && |bits0| == |mid|
    requires forall i :: 0 <= i < |taken| ==> InRoi(r, taken[i]) && Idx(r, taken[i]) < |mid|
    ensures Traced(r, bits0, Mark(mid, r, taken), BU.Grown(blobs, taken), fills + [taken])
  {
    BU.KeptSnoc(fills, taken);
    FillsSet(r, bits0, mid, blobs, fills, taken);
    FlippedFilled(r, bits0, mid, blobs, fills, taken);
  }

  /** After a fill from `mid`, the pixels of the earlier fills and of the new one have their bits set. */
  lemma FillsSet(r: BU.Rect, bits0: seq<bool>, mid: seq<bool>, blobs: seq<seq<BU.Pixel>>,
                 fills: seq<seq<BU.Pixel>>, taken: seq<BU.Pixel>)
    requires Traced(r, bits0, mid, blobs, fills)
    requires forall i :: 0 <= i < |taken| ==> InRoi(r, taken[i]) && Idx(r, taken[i]) < |mid|
    ensures forall k, i :: 0 <= k < |fills| + 1 && 0 <= i < |(fills + [taken])[k]| ==>
              IsSet(Mark(mid, r, taken), r, (fills + [taken])[k][i])
  {
    var bits, fs := Mark(mid, r, taken), fills + [taken];
    MarkGrows(mid, r, taken);
    MarkHas(mid, r, taken);
    forall k, i | 0 <= k < |fs| && 0 <= i < |fs[k]|
      ensures IsSet(bits, r, fs[k][i])
    {
      if k < |fills| {
        assert fs[k] == fills[k];
        assert IsSet(mid, r, fills[k][i]);
      } else {
        assert fs[k][i] == taken[i];
      }
    }
  }

  /** After a fill from `mid`, a pixel whose bit was set since `bits0` lies in an earlier fill or the new one. */
  lemma FlippedFilled(r: BU.Rect, bits0: seq<bool>, mid: seq<bool>, blobs: seq<seq<BU.Pixel>>,
                      fills: seq<seq<BU.Pixel>>, taken: seq<BU.Pixel>)
    requires Traced(r, bits0, mid, blobs, fills) && |bits0| == |mid|
    requires forall i :: 0 <= i < |taken| ==> InRoi(r, taken[i])
    ensures forall q {:trigger Flipped(r, bits0, Mark(mid, r, taken), q)} :: Flipped(r, bits0, Mark(mid, r, taken), q) ==>
              exists k :: 0 <= k < |fills| + 1 && q in (fills + [taken])[k]
  {
    var bits, fs := Mark(mid, r, taken), fills + [taken];
    forall q | Flipped(r, bits0, bits, q)
      ensures exists k :: 0 <= k < |fs| && q in fs[k]
    {
      var i := Idx(r, q);
      if mid[i] {
        assert Flipped(r, bits0, mid, q);
        var k :| 0 <= k < |fills| && q in fills[k];
        assert fs[k] == fills[k];
      } else {
        MarkOnly(mid, r, taken, i);
        var l :| 0 <= l < |taken| && Idx(r, taken[l]) == i;
        IdxInjective(r, taken[l], q);
        assert fs[|fills|] == taken;
      }
    }
  }

  /** Whether a candidate was still open depends only on the fills before it. */
  lemma UnmetSnoc(fg: array2<byte>, r: BU.Rect, thresh: int, bits0: seq<bool>, fills: seq<seq<BU.Pixel>>,
                  t: seq<BU.Pixel>, p: BU.Pixel, k: int)
    requires k <= |fills|
    ensures Unmet(fg, r, thresh, bits0, fills + [t], p, k) <==> Unmet(fg, r, thresh, bits0, fills, p, k)
  {
    var fs := fills + [t];
    assert forall j :: 0 <= j < k ==> fs[j] == fills[j];
  }

  /** Meeting one more candidate keeps the fills as they were. */
  lemma FillsAdd(fg: array2<byte>, r: BU.Rect, thresh: int, bits0: seq<bool>, fills: seq<seq<BU.Pixel>>,
                 seeds: seq<BU.Pixel>, p: BU.Pixel)
    requires Fills(fg, r, thresh, bits0, fills, seeds)
    ensures Fills(fg, r, thresh, bits0, fills, seeds + [p])
  {
    var ss := seeds + [p];
    assert forall k :: 0 <= k < |fills| ==> ss[k] == seeds[k];
  }

  /** The fill of the newest candidate, taken exactly when it was still open, joins the fills. */
  lemma FillsGrow(fg: array2<byte>, r: BU.Rect, thresh: int, bits0: seq<bool>, fills: seq<seq<BU.Pixel>>,
                  seeds: seq<BU.Pixel>, taken: seq<BU.Pixel>)
    requires Fills(fg, r, thresh, bits0, fills, seeds) && |seeds| == |fills| + 1
    requires taken != [] <==> Unmet(fg, r, thresh, bits0, fills, seeds[|fills|], |fills|)
    requires taken != [] ==> taken[0] == seeds[|fills|]
    requires Region(fg, r, thresh, bits0, taken)
    ensures Fills(fg, r, thresh, bits0, fills + [taken], seeds)
  {
    var fs := fills + [taken];
    forall k | 0 <= k < |fs|
      ensures (fs[k] != [] <==> Unmet(fg, r, thresh, bits0, fs, seeds[k], k))
      ensures fs[k] != [] ==> fs[k][0] == seeds[k]
      ensures Region(fg, r, thresh, bits0, fs[k])
    {
      UnmetSnoc(fg, r, thresh, bits0, fills, taken, seeds[k], k);
      if k < |fills| {
        assert fs[k] == fills[k];
      }
    }
  }

  /** Meeting the candidate `p`, at the scan position, appends it in scan order. */
  lemma SeedsAdd(fg: array2<byte>, r: BU.Rect, thresh: int, p: BU.Pixel, seeds: seq<BU.Pixel>)
    requires Seeds(fg, r, thresh, p, seeds)
    requires r.y <= p.y && r.x <= p.x < BU.ChunkEnd(r) && Cand(fg, r, thresh, p)
    ensures Seeds(fg, r, thresh, BU.Pixel(p.x + 1, p.y), seeds + [p])
  {
    forall i | 0 <= i < |seeds|
      ensures BU.Before(seeds[i], p)
    {
      assert BU.Passed(r, p, seeds[i]);
    }
    BU.ScanOrderSnoc(seeds, p);
  }

  /** More fills and candidates keep every candidate passed met and taken. */
  lemma MetMono(fg: array2<byte>, r: BU.Rect, thresh: int, bits0: seq<bool>, pos: BU.Pixel,
                fills: seq<seq<BU.Pixel>>, seeds: seq<BU.Pixel>, fills': seq<seq<BU.Pixel>>, seeds': seq<BU.Pixel>)
    requires Met(fg, r, thresh, bits0, pos, fills, seeds)
    requires fills <= fills' && seeds <= seeds'
    ensures Met(fg, r, thresh, bits0, pos, fills', seeds')
  {
    forall q | BU.Passed(r, pos, q) && Cand(fg, r, thresh, q)
      ensures q in seeds'
      ensures Open(fg, r, thresh, bits0, q) ==>
                exists k :: 0 <= k < |fills'| && k < |seeds'| && q in fills'[k] && !BU.Before(q, seeds'[k])
    {
      if Open(fg, r, thresh, bits0, q) {
        var k :| 0 <= k < |fills| && k < |seeds| && q in fills[k] && !BU.Before(q, seeds[k]);
        assert fills'[k] == fills[k] && seeds'[k] == seeds[k];
      }
    }
  }

  /**
   * The candidate `p` and its fill leave every candidate up to and
   * including `p` met, and every open one taken.
   */
  lemma MetGrow(fg: array2<byte>, r: BU.Rect, thresh: int, bits0: seq<bool>, p: BU.Pixel,
                fills: seq<seq<BU.Pixel>>, seeds: seq<BU.Pixel>, taken: seq<BU.Pixel>)
    requires Met(fg, r, thresh, bits0, p, fills, seeds) && BU.InScanOrder(seeds)
    requires |seeds| == |fills| + 1 && seeds[|fills|] == p
    requires taken != [] ==> taken[0] == p
    requires taken == [] && Open(fg, r, thresh, bits0, p) ==> exists k :: 0 <= k < |fills| && p in fills[k]
    ensures Met(fg, r, thresh, bits0, BU.Pixel(p.x + 1, p.y), fills + [taken], seeds)
  {
    var fs := fills + [taken];
    MetMono(fg, r, thresh, bits0, p, fills, seeds, fs, seeds);
    forall q | BU.Passed(r, BU.Pixel(p.x + 1, p.y), q) && Cand(fg, r, thresh, q)
      ensures q in seeds
      ensures Open(fg, r, thresh, bits0, q) ==>
                exists k :: 0 <= k < |fs| && k < |seeds| && q in fs[k] && !BU.Before(q, seeds[k])
    {
      if q == p {
        assert seeds[|fills|] == p;
        if Open(fg, r, thresh, bits0, q) {
          if taken != [] {
            assert fs[|fills|] == taken;
          } else {
            var k :| 0 <= k < |fills| && p in fills[k];
            assert fs[k] == fills[k] && BU.Before(seeds[k], seeds[|fills|]);
          }
        }
      } else {
        assert BU.Passed(r, p, q);
      }
    }
  }

  /**
   * Meeting the candidate `p` with the bits `bits`: the fills, candidates
   * and met pixels take it in, the blobs have their bits set, and `p` is
   * open exactly when it was still open as the next candidate.
   */
  lemma SeedMet(fg: array2<byte>, r: BU.Rect, thresh: int, bits0: seq<bool>, bits: seq<bool>, p: BU.Pixel,
                blobs: seq<seq<BU.Pixel>>, fills: seq<seq<BU.Pixel>>, seeds: seq<BU.Pixel>)
    requires Traced(r, bits0, bits, blobs, fills) && Grows(bits0, bits)
    requires Fills(fg, r, thresh, bits0, fills, seeds) && |fills| == |seeds|
    requires Seeds(fg, r, thresh, p, seeds) && Met(fg, r, thresh, bits0, p, fills, seeds)
    requires r.y <= p.y && r.x <= p.x < BU.ChunkEnd(r) && Cand(fg, r, thresh, p)
    ensures Fills(fg, r, thresh, bits0, fills, seeds + [p])
    ensures Seeds(fg, r, thresh, BU.Pixel(p.x + 1, p.y), seeds + [p])
    ensures Met(fg, r, thresh, bits0, p, fills, seeds + [p])
    ensures Covered(bits, r, blobs)
    ensures Open(fg, r, thresh, bits, p) <==> Unmet(fg, r, thresh, bits0, fills, p, |fills|)
  {
    FillsAdd(fg, r, thresh, bits0, fills, seeds, p);
    SeedsAdd(fg, r, thresh, p, seeds);
    MetMono(fg, r, thresh, bits0, p, fills, seeds, fills, seeds + [p]);
    TracedCovered(r, bits0, bits, blobs, fills);
    OpenNow(fg, r, thresh, bits0, bits, blobs, fills, p);
  }

  /** The 1002nd candidate `p` stops the scan before add_blob. */
  lemma StopBail(fg: array2<byte>, r: BU.Rect, thresh: int, bits0: seq<bool>, bits: seq<bool>, garbage: seq<bool>,
                 p: BU.Pixel, precs: seq<Rec>, blobs: seq<seq<BU.Pixel>>, fills: seq<seq<BU.Pixel>>,
                 seeds: seq<BU.Pixel>, numBlob: int)
    requires Scan(fg, r, thresh, bits0, bits, p, precs, blobs, fills, seeds, numBlob) && numBlob > BU.MaxCandidates
    requires r.y <= p.y && r.x <= p.x < BU.ChunkEnd(r) && Cand(fg, r, thresh, p)
    ensures Stopped(fg, r, thresh, bits0, bits, garbage, BU.Bailed, precs, blobs, fills, seeds + [p], [])
  {
    SeedMet(fg, r, thresh, bits0, bits, p, blobs, fills, seeds);
    assert (seeds + [p])[|seeds|] == p;
  }

  /** A candidate `p` whose add_blob reported an error stops the scan with no records. */
  lemma StopFail(fg: array2<byte>, r: BU.Rect, thresh: int, bits0: seq<bool>, bits: seq<bool>, garbage: seq<bool>,
                 p: BU.Pixel, fills: seq<seq<BU.Pixel>>, seeds: seq<BU.Pixel>, spill: seq<BU.Pixel>)
    requires Grows(bits0, bits) && |seeds| <= BU.MaxCandidates && |garbage| == BU.MaxCandidates + 1
    requires Fills(fg, r, thresh, bits0, fills, seeds + [p]) && |fills| == |seeds|
    requires Seeds(fg, r, thresh, BU.Pixel(p.x + 1, p.y), seeds + [p])
    requires Met(fg, r, thresh, bits0, p, fills, seeds + [p])
    requires Spill(fg, r, thresh, bits0, p, spill) || (garbage[|seeds|] && IsSet(bits, r, p))
    ensures Stopped(fg, r, thresh, bits0, bits, garbage, BU.Overflowed, [], [], fills, seeds + [p], spill)
  {
    assert (seeds + [p])[|seeds|] == p;
  }

  /** A pixel that is no candidate moves the scan on by one column. */
  lemma SkipPixel(fg: array2<byte>, r: BU.Rect, thresh: int, bits0: seq<bool>, bits: seq<bool>, x1: int, y: int,
                  precs: seq<Rec>, blobs: seq<seq<BU.Pixel>>, fills: seq<seq<BU.Pixel>>, seeds: seq<BU.Pixel>,
                  numBlob: int)
    requires Scan(fg, r, thresh, bits0, bits, BU.Pixel(x1, y), precs, blobs, fills, seeds, numBlob)
    requires !Cand(fg, r, thresh, BU.Pixel(x1, y))
    ensures Scan(fg, r, thresh, bits0, bits, BU.Pixel(x1 + 1, y), precs, blobs, fills, seeds, numBlob)
  {
    var p, p' := BU.Pixel(x1, y), BU.Pixel(x1 + 1, y);
    forall q | BU.Passed(r, p', q) && Cand(fg, r, thresh, q)
      ensures q in seeds
      ensures Open(fg, r, thresh, bits0, q) ==>
                exists k :: 0 <= k < |fills| && k < |seeds| && q in fills[k] && !BU.Before(q, seeds[k])
    {
      assert BU.Passed(r, p, q);
    }
  }

  /** A group of eight zero bytes holds no candidate: the scan moves on past it. */
  lemma ChunkSkip(fg: array2<byte>, r: BU.Rect, thresh: int, bits0: seq<bool>, bits: seq<bool>, x: int, c: int,
                  y: int, precs: seq<Rec>, blobs: seq<seq<BU.Pixel>>, fills: seq<seq<BU.Pixel>>,
                  seeds: seq<BU.Pixel>, numBlob: int)
    requires Scan(fg, r, thresh, bits0, bits, BU.Pixel(x, y), precs, blobs, fills, seeds, numBlob)
    requires x - r.x == 8 * c && 0 <= x && x + 8 <= fg.Length1 && 0 <= y < fg.Length0
    requires !AnyNonZero(fg, y, x)
    ensures Scan(fg, r, thresh, bits0, bits, BU.Pixel(x + 8, y), precs, blobs, fills, seeds, numBlob)
  {
    var p, p' := BU.Pixel(x, y), BU.Pixel(x + 8, y);
    forall q | BU.Passed(r, p', q) && Cand(fg, r, thresh, q)
      ensures q in seeds
      ensures Open(fg, r, thresh, bits0, q) ==>
                exists k :: 0 <= k < |fills| && k < |seeds| && q in fills[k] && !BU.Before(q, seeds[k])
    {
      if !BU.Before(q, p) {
        ChunkOfIn(r, x, c, q.x);
        assert false;
      }
      assert BU.Passed(r, p, q);
    }
  }

  /** The end of a row of the region is the start of the next row. */
  lemma RowDone(fg: array2<byte>, r: BU.Rect, thresh: int, bits0: seq<bool>, bits: seq<bool>, y: int,
                precs: seq<Rec>, blobs: seq<seq<BU.Pixel>>, fills: seq<seq<BU.Pixel>>, seeds: seq<BU.Pixel>,
                numBlob: int)
    requires Scan(fg, r, thresh, bits0, bits, BU.Pixel(r.x + r.width, y), precs, blobs, fills, seeds, numBlob)
    requires BU.ChunkEnd(r) == r.x + r.width
    ensures Scan(fg, r, thresh, bits0, bits, BU.Pixel(r.x, y + 1), precs, blobs, fills, seeds, numBlob)
  {
    forall q | BU.Passed(r, BU.Pixel(r.x, y + 1), q) && Cand(fg, r, thresh, q)
      ensures q in seeds
      ensures Open(fg, r, thresh, bits0, q) ==>
                exists k :: 0 <= k < |fills| && k < |seeds| && q in fills[k] && !BU.Before(q, seeds[k])
    {
      assert BU.Passed(r, BU.Pixel(r.x + r.width, y), q);
    }
  }

  /** Before the first candidate nothing is found, set, filled or passed. */
  lemma ScanStart(fg: array2<byte>, r: BU.Rect, thresh: int, bits0: seq<bool>)
    ensures Scan(fg, r, thresh, bits0, bits0, BU.Pixel(r.x, r.y), [], [], [], [], 0)
  {
    SettledStart(fg, r, thresh, bits0);
  }

  /**
   * What a full scan of the region `r` leaves: every candidate checked, and
   * the candidates met exactly the candidates of the region.
   */
  lemma ScanDone(fg: array2<byte>, r: BU.Rect, thresh: int, bits0: seq<bool>, bits: seq<bool>, precs: seq<Rec>,
                 blobs: seq<seq<BU.Pixel>>, fills: seq<seq<BU.Pixel>>, seeds: seq<BU.Pixel>, numBlob: int)
    requires Scan(fg, r, thresh, bits0, bits, BU.Pixel(r.x, r.y + r.height), precs, blobs, fills, seeds, numBlob)
    requires BU.ChunkEnd(r) == r.x + r.width && 0 <= r.width * r.height && |bits0| == 8 * Nel(r.width * r.height)
    ensures Checked(fg, r, thresh, bits)
    ensures forall q :: q in seeds <==> Cand(fg, r, thresh, q)
  {
    forall q | Cand(fg, r, thresh, q)
      ensures q in seeds && IsSet(bits, r, q)
    {
      IdxInRange(r, q);
      assert BU.Passed(r, BU.Pixel(r.x, r.y + r.height), q);
      if Open(fg, r, thresh, bits0, q) {
        var k :| 0 <= k < |fills| && k < |seeds| && q in fills[k] && !BU.Before(q, seeds[k]);
        var i :| 0 <= i < |fills[k]| && fills[k][i] == q;
        assert IsSet(bits, r, fills[k][i]);
      }
    }
  }

  /** The candidates before the one a scan stopped at are exactly the candidates passed before it. */
  lemma StoppedExact(fg: array2<byte>, r: BU.Rect, thresh: int, bits0: seq<bool>, fills: seq<seq<BU.Pixel>>,
                     seeds: seq<BU.Pixel>)
    requires seeds != [] && |fills| + 1 == |seeds|
    requires Seeds(fg, r, thresh, BU.Pixel(seeds[|seeds| - 1].x + 1, seeds[|seeds| - 1].y), seeds)
    requires Met(fg, r, thresh, bits0, seeds[|seeds| - 1], fills, seeds)
    ensures forall q :: q in seeds[..|fills|] <==> BU.Passed(r, seeds[|fills|], q) && Cand(fg, r, thresh, q)
  {
    var ss, last := seeds[..|fills|], seeds[|fills|];
    forall q
      ensures q in ss <==> BU.Passed(r, last, q) && Cand(fg, r, thresh, q)
    {
      if q in ss {
        var i :| 0 <= i < |ss| && ss[i] == q;
        assert seeds[i] == q && seeds[i] in seeds;
        assert BU.Before(seeds[i], seeds[|fills|]);
      }
      if BU.Passed(r, last, q) && Cand(fg, r, thresh, q) {
        var i :| 0 <= i < |seeds| && seeds[i] == q;
        assert i != |fills|;
        assert ss[i] == q;
      }
    }
  }

  /**
   * What find_bbb does with one candidate at (`x1`, `y`): count it, bail
   * if the count was already past 1000, otherwise call add_blob with the
   * candidate's flag holding `garbage[numBlob]`; an error ends the scan
   * with every record freed.
   */
  method Seed(fg: array2<byte>, r: BU.Rect, thresh: byte, checked: BitVec, ghost bits0: seq<bool>,
              garbage: seq<bool>, x1: int, y: int, precs: seq<Rec>, ghost blobs: seq<seq<BU.Pixel>>,
              ghost fills: seq<seq<BU.Pixel>>, ghost seeds: seq<BU.Pixel>, numBlob: int)
    returns (precs': seq<Rec>, ghost blobs': seq<seq<BU.Pixel>>, ghost fills': seq<seq<BU.Pixel>>,
             ghost seeds': seq<BU.Pixel>, numBlob': int, outcome: BU.ScanEnd, ghost spill: seq<BU.Pixel>)
    requires r.y <= y && r.x <= x1 < BU.ChunkEnd(r) && Cand(fg, r, thresh, BU.Pixel(x1, y))
    requires checked.Valid() && checked.len == r.width * r.height && |garbage| == BU.MaxCandidates + 1
    requires Scan(fg, r, thresh, bits0, checked.Bits(), BU.Pixel(x1, y), precs, blobs, fills, seeds, numBlob)
    modifies checked.p
    // num_blob++ counts the candidate whatever follows
    ensures seeds' == seeds + [BU.Pixel(x1, y)] && numBlob' == numBlob + 1
    // the candidate's bit is set, its fill joins the others, and the scan goes on past it
    ensures outcome == BU.Finished ==> IsSet(checked.Bits(), r, BU.Pixel(x1, y))
    ensures outcome == BU.Finished ==>
              Scan(fg, r, thresh, bits0, checked.Bits(), BU.Pixel(x1 + 1, y), precs', blobs', fills', seeds', numBlob')
    // otherwise a bail or an error at this candidate
    ensures outcome != BU.Finished ==>
              fills' == fills && Stopped(fg, r, thresh, bits0, checked.Bits(), garbage, outcome, precs', blobs', fills',
                                         seeds', spill)
  {
    ghost var p := BU.Pixel(x1, y);
    seeds', numBlob', fills', spill := seeds + [p], numBlob + 1, fills, [];
    if numBlob > BU.MaxCandidates {
      StopBail(fg, r, thresh, bits0, checked.Bits(), garbage, p, precs, blobs, fills, seeds, numBlob);
      return precs, blobs, fills', seeds', numBlob', BU.Bailed, spill;
    }
    ghost var mid := checked.Bits();
    SeedMet(fg, r, thresh, bits0, mid, p, blobs, fills, seeds);
    var errorIn := garbage[numBlob];
    var error;
    ghost var taken;
    precs', error, blobs', taken := Candidate(fg, r, thresh, checked, bits0, x1, y, errorIn, precs, blobs);
    if error {
      if taken == [] {
        IdxInRange(r, p);
        assert IsSet(checked.Bits(), r, p);
      }
      StopFail(fg, r, thresh, bits0, checked.Bits(), garbage, p, fills, seeds, taken);
      precs', blobs', outcome, spill := [], [], BU.Overflowed, taken;
      return;
    }
    outcome := BU.Finished;
    TracedGrow(r, bits0, mid, blobs, fills, taken);
    FillsGrow(fg, r, thresh, bits0, fills, seeds', taken);
    MetGrow(fg, r, thresh, bits0, p, fills, seeds', taken);
    assert BU.Pixel(x1 + 1, y) == BU.Pixel(p.x + 1, p.y);
    fills' := fills + [taken];
  }

  /**
   * The innermost loop of find_bbb over the eight columns from (x, y), the
   * `c`-th group of row `y`, which is not all zero: every pixel below the
   * threshold is a candidate for Seed.
   */
  method ScanChunk(fg: array2<byte>, r: BU.Rect, thresh: byte, checked: BitVec, ghost bits0: seq<bool>,
                   garbage: seq<bool>, x: int, ghost c: int, y: int, precs: seq<Rec>, ghost blobs: seq<seq<BU.Pixel>>,
                   ghost fills: seq<seq<BU.Pixel>>, ghost seeds: seq<BU.Pixel>, numBlob: int)
    returns (precs': seq<Rec>, ghost blobs': seq<seq<BU.Pixel>>, ghost fills': seq<seq<BU.Pixel>>,
             ghost seeds': seq<BU.Pixel>, numBlob': int, outcome: BU.ScanEnd, ghost spill: seq<BU.Pixel>)
    requires RoiIn(fg, r) && BU.ChunkEnd(r) == r.x + r.width && r.y <= y < r.y + r.height
    requires x - r.x == 8 * c && 0 <= c && x + 8 <= r.x + r.width && AnyNonZero(fg, y, x)
    requires checked.Valid() && checked.len == r.width * r.height && |garbage| == BU.MaxCandidates + 1
    requires Scan(fg, r, thresh, bits0, checked.Bits(), BU.Pixel(x, y), precs, blobs, fills, seeds, numBlob)
    modifies checked.p
    ensures outcome == BU.Finished ==>
              Scan(fg, r, thresh, bits0, checked.Bits(), BU.Pixel(x + 8, y), precs', blobs', fills', seeds', numBlob')
    // a bail or an error at a candidate of this row
    ensures outcome != BU.Finished ==>
              Stopped(fg, r, thresh, bits0, checked.Bits(), garbage, outcome, precs', blobs', fills', seeds', spill)
              && seeds'[|seeds'| - 1].y == y
  {
    precs', blobs', fills', seeds', numBlob', outcome, spill := precs, blobs, fills, seeds, numBlob, BU.Finished, [];
    var x1 := x;
    ghost var pos := BU.Pixel(x, y);
    while x1 < x + 8 && x1 < fg.Length1
      invariant x <= x1 <= x + 8 && pos == BU.Pixel(x1, y) && outcome == BU.Finished
      invariant Scan(fg, r, thresh, bits0, checked.Bits(), pos, precs', blobs', fills', seeds', numBlob')
      decreases x + 8 - x1
    {
      ChunkOfIn(r, x, c, x1);
      if fg[y, x1] < thresh {
        precs', blobs', fills', seeds', numBlob', outcome, spill :=
          Seed(fg, r, thresh, checked, bits0, garbage, x1, y, precs', blobs', fills', seeds', numBlob');
        if outcome != BU.Finished {
          return;
        }
      } else {
        SkipPixel(fg, r, thresh, bits0, checked.Bits(), x1, y, precs', blobs', fills', seeds', numBlob');
      }
      x1, pos := x1 + 1, BU.Pixel(x1 + 1, y);
    }
  }

  /**
   * The middle loop of find_bbb over row `y` of the region `r`: its columns
   * eight at a time, skipping each group of eight zero bytes.
   */
  method ScanRow(fg: array2<byte>, r: BU.Rect, thresh: byte, checked: BitVec, ghost bits0: seq<bool>,
                 garbage: seq<bool>, y: int, precs: seq<Rec>, ghost blobs: seq<seq<BU.Pixel>>,
                 ghost fills: seq<seq<BU.Pixel>>, ghost seeds: seq<BU.Pixel>, numBlob: int)
    returns (precs': seq<Rec>, ghost blobs': seq<seq<BU.Pixel>>, ghost fills': seq<seq<BU.Pixel>>,
             ghost seeds': seq<BU.Pixel>, numBlob': int, outcome: BU.ScanEnd, ghost spill: seq<BU.Pixel>)
    requires RoiIn(fg, r) && r.width % 8 == 0 && BU.ChunkEnd(r) == r.x + r.width && r.y <= y < r.y + r.height
    requires checked.Valid() && checked.len == r.width * r.height && |garbage| == BU.MaxCandidates + 1
    requires Scan(fg, r, thresh, bits0, checked.Bits(), BU.Pixel(r.x, y), precs, blobs, fills, seeds, numBlob)
    modifies checked.p
    ensures outcome == BU.Finished ==>
              Scan(fg, r, thresh, bits0, checked.Bits(), BU.Pixel(r.x, y + 1), precs', blobs', fills', seeds', numBlob')
    // a bail or an error at a candidate of this row
    ensures outcome != BU.Finished ==>
              Stopped(fg, r, thresh, bits0, checked.Bits(), garbage, outcome, precs', blobs', fills', seeds', spill)
              && seeds'[|seeds'| - 1].y == y
  {
    precs', blobs', fills', seeds', numBlob', outcome, spill := precs, blobs, fills, seeds, numBlob, BU.Finished, [];
    var x := r.x;
    ghost var c := 0;
    ghost var pos := BU.Pixel(x, y);
    while x < r.x + r.width
      invariant x == r.x + 8 * c && 0 <= c && x <= r.x + r.width && outcome == BU.Finished
      invariant pos == BU.Pixel(x, y)
      invariant Scan(fg, r, thresh, bits0, checked.Bits(), pos, precs', blobs', fills', seeds', numBlob')
      decreases r.x + r.width - x
    {
      Step8(c, r.width);
      if AnyNonZero(fg, y, x) {
        precs', blobs', fills', seeds', numBlob', outcome, spill :=
          ScanChunk(fg, r, thresh, checked, bits0, garbage, x, c, y, precs', blobs', fills', seeds', numBlob');
        if outcome != BU.Finished {
          return;
        }
      } else {
        ChunkSkip(fg, r, thresh, bits0, checked.Bits(), x, c, y, precs', blobs', fills', seeds', numBlob');
      }
      x, c, pos := x + 8, c + 1, BU.Pixel(x + 8, y);
    }
    RowDone(fg, r, thresh, bits0, checked.Bits(), y, precs', blobs', fills', seeds', numBlob');
  }

  /**
   * find_bbb: scan the rows of the region `r` eight columns at a time,
   * skipping each group of eight zero bytes, and seed add_blob at every
   * pixel below the threshold. More than 1000 candidates stop the scan with
   * the records so far; an error from add_blob discards every record.
   *
   * `junk` is what the checked vector's allocation holds before its
   * constructor runs, and `garbage[n]` what the uninitialised `error` of
   * the n-th candidate holds when add_blob returns without setting it; so
   * `Overflowed` stands for any error add_blob reports, an overflow or
   * that garbage. `bits` are the checked vector's bits at the end, `seeds`
   * the candidates met, `fills` what each candidate's add_blob took and
   * `spill` what an overflowing fill took.
   */
  method FindBbb(fg: array2<byte>, r: BU.Rect, thresh: byte, junk: seq<bv8>, garbage: seq<bool>)
    returns (res: seq<Rec>, outcome: BU.ScanEnd, ghost blobs: seq<seq<BU.Pixel>>, ghost bits: seq<bool>,
             ghost fills: seq<seq<BU.Pixel>>, ghost seeds: seq<BU.Pixel>, ghost spill: seq<BU.Pixel>)
    requires RoiIn(fg, r) && r.width % 8 == 0
    requires |junk| == Nel(r.width * r.height) && |garbage| == BU.MaxCandidates + 1
    // one record per whole 4-connected blob of 3 to 2000 pixels open in the fresh bit vector
    ensures Found(fg, r, thresh, BitsOf(InitBytes(r.width * r.height, false, junk)), res, blobs)
    ensures |res| <= BU.MaxCandidates + 1 && Grows(BitsOf(InitBytes(r.width * r.height, false, junk)), bits)
    // a candidate's fill is its whole open region when it was still open, and nothing otherwise
    ensures Fills(fg, r, thresh, BitsOf(InitBytes(r.width * r.height, false, junk)), fills, seeds)
    // a full scan met exactly the candidates of the region, at most 1001 ...
    ensures outcome == BU.Finished ==> |fills| == |seeds| <= BU.MaxCandidates + 1
    ensures outcome == BU.Finished ==> forall q :: q in seeds <==> Cand(fg, r, thresh, q)
    // ... the blobs are the fills of at least 3 pixels, every bit it set is a fill pixel's,
    // every candidate open at the start lies in the fill of one at or before it, and
    // every candidate is checked
    ensures outcome == BU.Finished ==>
              && Settled(fg, r, thresh, BitsOf(InitBytes(r.width * r.height, false, junk)), bits)
              && Traced(r, BitsOf(InitBytes(r.width * r.height, false, junk)), bits, blobs, fills)
              && Met(fg, r, thresh, BitsOf(InitBytes(r.width * r.height, false, junk)),
                     BU.Pixel(r.x, r.y + r.height), fills, seeds)
              && Checked(fg, r, thresh, bits)
    // a bail at the 1002nd candidate, or an error from the last candidate, which frees
    // every record; the candidates before it are exactly the candidates passed before it
    ensures outcome != BU.Finished ==>
              && Stopped(fg, r, thresh, BitsOf(InitBytes(r.width * r.height, false, junk)), bits, garbage, outcome,
                         res, blobs, fills, seeds, spill)
              && seeds[|seeds| - 1].y < r.y + r.height
    ensures outcome != BU.Finished ==>
              forall q :: q in seeds[..|fills|] <==> BU.Passed(r, seeds[|fills|], q) && Cand(fg, r, thresh, q)
  {
    var checked := new BitVec(r.width * r.height, false, junk);
    ghost var bits0 := checked.Bits();
    ChunkEndExact(r);
    res, outcome, blobs, fills, seeds, spill := ScanRows(fg, r, thresh, checked, bits0, garbage);
    bits := checked.Bits();
    if outcome == BU.Finished {
      ScanDone(fg, r, thresh, bits0, bits, res, blobs, fills, seeds, |seeds|);
    } else {
      StoppedExact(fg, r, thresh, bits0, fills, seeds);
    }
  }

  /** The outer loop of find_bbb, over the rows of the region `r`. */
  method ScanRows(fg: array2<byte>, r: BU.Rect, thresh: byte, checked: BitVec, ghost bits0: seq<bool>,
                  garbage: seq<bool>)
    returns (res: seq<Rec>, outcome: BU.ScanEnd, ghost blobs: seq<seq<BU.Pixel>>, ghost fills: seq<seq<BU.Pixel>>,
             ghost seeds: seq<BU.Pixel>, ghost spill: seq<BU.Pixel>)
    requires RoiIn(fg, r) && r.width % 8 == 0 && BU.ChunkEnd(r) == r.x + r.width
    requires checked.Valid() && checked.len == r.width * r.height && |garbage| == BU.MaxCandidates + 1
    requires bits0 == checked.Bits()
    modifies checked.p
    ensures outcome == BU.Finished ==>
              Scan(fg, r, thresh, bits0, checked.Bits(), BU.Pixel(r.x, r.y + r.height), res, blobs, fills, seeds,
                   |seeds|)
    ensures outcome != BU.Finished ==>
              Stopped(fg, r, thresh, bits0, checked.Bits(), garbage, outcome, res, blobs, fills, seeds, spill)
              && seeds[|seeds| - 1].y < r.y + r.height
  {
    res, blobs, fills, seeds, outcome, spill := [], [], [], [], BU.Finished, [];
    var numBlob := 0;
    var y := r.y;
    ghost var pos := BU.Pixel(r.x, y);
    ScanStart(fg, r, thresh, bits0);
    while y < r.y + r.height
      invariant r.y <= y <= r.y + r.height && pos == BU.Pixel(r.x, y) && outcome == BU.Finished
      invariant Scan(fg, r, thresh, bits0, checked.Bits(), pos, res, blobs, fills, seeds, numBlob)
    {
      res, blobs, fills, seeds, numBlob, outcome, spill :=
        ScanRow(fg, r, thresh, checked, bits0, garbage, y, res, blobs, fills, seeds, numBlob);
      if outcome != BU.Finished {
        return;
      }
      y, pos := y + 1, BU.Pixel(r.x, y + 1);
    }
  }
}
