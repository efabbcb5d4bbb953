/**
 * Small shared vocabulary: an optional value, the fixed-width integer
 * types the C and Python code relies on, and integer sums over sequences.
 */
module Common {

  datatype Option<+T> = None | Some(value: T)

  /** An unsigned byte as stored in shared memory or an 8-bit image. */
  type byte = x: int | 0 <= x < 0x100

  const U32: int := 0x1_0000_0000

  /** Unsigned 32-bit wrap-around of a mathematical integer. */
  function Wrap32(x: int): (r: int)
    ensures 0 <= r < U32
    ensures 0 <= x < U32 ==> r == x
    ensures (r - x) % U32 == 0
  {
    x % U32
  }

  function Sum(s: seq<int>): int
  {
    if s == [] then 0 else s[0] + Sum(s[1..])
  }

  lemma {:induction false} SumAppend(a: seq<int>, b: seq<int>)
    ensures Sum(a + b) == Sum(a) + Sum(b)
  {
    if a == [] {
      assert a + b == b;
    } else {
      assert (a + b)[1..] == a[1..] + b;
      SumAppend(a[1..], b);
    }
  }

  /**
   * `flags & mask != 0` for a non-negative flag word and a one-bit mask
   * (mask a power of two), written with integer division.
   */
  function HasFlag(flags: int, mask: nat): bool
    requires mask > 0
  {
    (flags / mask) % 2 == 1
  }

  function Abs(x: int): nat { if x < 0 then -x else x }

  function Min(a: int, b: int): int { if a < b then a else b }
  function Max(a: int, b: int): int { if a < b then b else a }
}
