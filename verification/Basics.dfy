/** Types shared by the models: Go's unsigned 64-bit integers and byte strings, and the usual
    optional and error-carrying values. */
module Basics {

  const TWO64: int := 0x1_0000_0000_0000_0000

  /** Go's `uint64`. */
  type U64 = x: int | 0 <= x < TWO64

  /** `^uint64(0)`. */
  const MAX_U64: U64 := TWO64 - 1

  const TWO63: int := 0x8000_0000_0000_0000

  /** The `uint64` values a database column can hold: `database/sql` refuses those with the high bit
      set, and the statement fails. */
  type Column = x: int | 0 <= x < TWO63

  type Byte = x: int | 0 <= x < 256

  /** A Go `[]byte`, and also a Go `string`, which is a sequence of bytes. */
  type Bytes = seq<Byte>

  datatype Option<+T> = None | Some(value: T)

  datatype Result<+T> = Ok(value: T) | Err

  /** Go's wrapping `x + 1` on `uint64`. */
  function Increment(x: U64): (r: U64)
    ensures r == (x + 1) % TWO64
  {
    if x == MAX_U64 then 0 else x + 1
  }

  /** A set of integers confined to `[lo, hi)` has at most `hi - lo` elements. */
  lemma {:induction false} IntervalBound(s: set<int>, lo: int, hi: int)
    requires lo <= hi
    requires forall x :: x in s ==> lo <= x < hi
    ensures |s| <= hi - lo
    decreases hi - lo
  {
    if x :| x in s {
      IntervalBound(s - {hi - 1}, lo, hi - 1);
      assert |s| <= |s - {hi - 1}| + 1;
    } else {
      assert s == {};
    }
  }
}
