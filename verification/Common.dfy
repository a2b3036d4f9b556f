/** Values shared by every module: options, integer helpers and the two's-complement
    32-bit arithmetic that Go's int32 replica counts use. */
module Common {

  datatype Option<+T> = None | Some(value: T)

  /** Instants and durations, in nanoseconds. */
  type Time = int

  const INT32_MIN: int := -0x8000_0000
  const INT32_MAX: int := 0x7FFF_FFFF

  predicate IsInt32(x: int) {
    INT32_MIN <= x <= INT32_MAX
  }

  /** The int32 that a 32-bit operation with exact result x leaves behind. */
  function Wrap32(x: int): (r: int)
    ensures IsInt32(r)
    ensures IsInt32(x) ==> r == x
    ensures exists k: int :: r == x + k * 0x1_0000_0000
  {
    var r := (x + 0x8000_0000) % 0x1_0000_0000 - 0x8000_0000;
    assert r == x + (-((x + 0x8000_0000) / 0x1_0000_0000)) * 0x1_0000_0000;
    r
  }

  function Min(a: int, b: int): int {
    if a <= b then a else b
  }

  function Max(a: int, b: int): int {
    if a >= b then a else b
  }

  /** x is in the closed segment between a and b, whichever way round they are. */
  predicate Between(x: int, a: int, b: int) {
    Min(a, b) <= x <= Max(a, b)
  }

  function CeilDiv(n: nat, d: int): (q: nat)
    requires d >= 1
    ensures d * q >= n
    ensures q > 0 ==> d * (q - 1) < n
  {
    if n == 0 then 0 else (n - 1) / d + 1
  }

  /** The last n items of s, or all of them. */
  function LastN<T>(s: seq<T>, n: nat): seq<T> {
    if |s| <= n then s else s[|s| - n..]
  }
}
