/** Go's `int64`: the 64-bit two's-complement integers and the wrap-around of `+` on them. */
module GoInt64 {

  const MIN_INT64: int := -0x8000_0000_0000_0000
  const MAX_INT64: int := 0x7FFF_FFFF_FFFF_FFFF
  const TWO_TO_THE_64: int := 0x1_0000_0000_0000_0000

  type Int64 = x: int | -0x8000_0000_0000_0000 <= x <= 0x7FFF_FFFF_FFFF_FFFF

  /** The int64 that Go's arithmetic yields for the exact result `x`: `x` shifted by 2^64 until it
      lies in the signed range. */
  function Wrap(x: int): Int64
    decreases if x < MIN_INT64 then MIN_INT64 - x else if x > MAX_INT64 then x - MAX_INT64 else 0
  {
    if x < MIN_INT64 then Wrap(x + TWO_TO_THE_64)
    else if x > MAX_INT64 then Wrap(x - TWO_TO_THE_64)
    else x
  }

  /** Wrap ignores whole turns of 2^64. */
  lemma {:induction false} WrapShift(x: int, k: int)
    ensures Wrap(x + k * TWO_TO_THE_64) == Wrap(x)
    decreases if k < 0 then -k else k, if x < MIN_INT64 then MIN_INT64 - x else if x > MAX_INT64 then x - MAX_INT64 else 0
  {
    if k > 0 {
      WrapShift(x, k - 1);
      WrapStep(x + (k - 1) * TWO_TO_THE_64);
    } else if k < 0 {
      WrapShift(x, k + 1);
      WrapStep(x + k * TWO_TO_THE_64);
    }
  }

  /** Adding 2^64 does not change the wrapped value. */
  lemma {:induction false} WrapStep(x: int)
    ensures Wrap(x + TWO_TO_THE_64) == Wrap(x)
    decreases if x < MIN_INT64 then MIN_INT64 - x else if x > MAX_INT64 then x - MAX_INT64 else 0
  {
    if x < MIN_INT64 {
    } else if x > MAX_INT64 {
      WrapStep(x - TWO_TO_THE_64);
    } else {
    }
  }

  /** Wrap changes its argument by whole turns of 2^64 only, and leaves an int64 as it is. */
  lemma {:induction false} WrapIsShift(x: int) returns (k: int)
    ensures Wrap(x) == x + k * TWO_TO_THE_64
    ensures MIN_INT64 <= x <= MAX_INT64 ==> k == 0
    decreases if x < MIN_INT64 then MIN_INT64 - x else if x > MAX_INT64 then x - MAX_INT64 else 0
  {
    if x < MIN_INT64 {
      k := WrapIsShift(x + TWO_TO_THE_64);
      k := k + 1;
    } else if x > MAX_INT64 {
      k := WrapIsShift(x - TWO_TO_THE_64);
      k := k - 1;
    } else {
      k := 0;
    }
  }

  /** Wrapping after every addition gives the same int64 as wrapping the exact sum once. */
  lemma {:induction false} WrapOfWrappedSum(a: int, b: int)
    ensures Wrap(Wrap(a) + b) == Wrap(a + b)
  {
    var k := WrapIsShift(a);
    WrapShift(a + b, k);
  }
}
