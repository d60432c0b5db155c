/** Go's integer division, which truncates toward zero (Dafny's `/` is Euclidean). */
module GoInt {
  /** `a / b` in Go for a positive divisor. */
  function TruncDiv(a: int, b: int): (q: int)
    requires 0 < b
    ensures 0 <= a ==> 0 <= q && q * b <= a < q * b + b
    ensures a < 0 ==> q <= 0 && q * b - b < a <= q * b
  {
    if 0 <= a then a / b else -((-a) / b)
  }
}
