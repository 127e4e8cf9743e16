/** Optional values, driver results with their status codes, and Go's 32-bit integer conversion. */
module Wrappers {

  /** A Go pointer that may be nil. */
  datatype Option<+T> = None | Some(value: T) {
    function GetOr(default: T): T {
      match this
      case Some(v) => v
      case None => default
    }
  }

  /** The machine status codes the driver answers with. */
  datatype Code = InvalidArgument | Internal | NotFound | Uninitialized | OutOfRange | ResourceExhausted

  datatype Result<+T> = Ok(value: T) | Err(code: Code)

  type int32 = x: int | -0x8000_0000 <= x < 0x8000_0000

  /** Go's conversion int32(x): two's complement truncation. */
  function ToInt32(x: int): (r: int32)
    ensures -0x8000_0000 <= x < 0x8000_0000 ==> r == x
    ensures x >= 0 ==> r <= x
    ensures (r - x) % 0x1_0000_0000 == 0
  {
    (x + 0x8000_0000) % 0x1_0000_0000 - 0x8000_0000
  }

  function Min(a: int, b: int): int {
    if a <= b then a else b
  }

  predicate NoDuplicates<T(==)>(s: seq<T>) {
    forall i, j :: 0 <= i < j < |s| ==> s[i] != s[j]
  }
}
