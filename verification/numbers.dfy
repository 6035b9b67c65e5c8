/** Integer helpers shared by page enumeration and chunked download. */
module Numbers {

  /** Ceiling of `a / b` for a positive divisor, in integer arithmetic
      (`math.ceil(a / b)` without the float round trip). */
  function CeilDiv(a: nat, b: nat): nat
    requires b > 0
  {
    (a + b - 1) / b
  }

  /** `CeilDiv(a, b)` is the least `n` with `n * b >= a`: enough `b`-sized
      pieces to cover `a`, and one piece fewer would not. */
  lemma CeilDivIsLeastCover(a: nat, b: nat)
    requires b > 0
    ensures CeilDiv(a, b) * b >= a
    ensures CeilDiv(a, b) == 0 || (CeilDiv(a, b) - 1) * b < a
    ensures a == 0 <==> CeilDiv(a, b) == 0
  {
    var n := CeilDiv(a, b);
    var r := (a + b - 1) % b;
    assert n * b + r == a + b - 1;
    assert 0 <= r < b;
    if n > 0 {
      assert (n - 1) * b == n * b - b;
    }
  }

  function Min(a: int, b: int): int
  {
    if a <= b then a else b
  }
}
