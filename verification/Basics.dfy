/** Types used everywhere. */
module Basics {

  datatype Option<+T> = None | Some(value: T)

  const TWO_32 := 0x1_0000_0000

  type Uint32 = n: int | 0 <= n < TWO_32

  function PowerOfTwo(n: nat): (r: nat)
    ensures r > 0
  {
    if n == 0 then 1 else 2 * PowerOfTwo(n - 1)
  }
}
