/**
 The JavaScript number operations the carousel relies on, stated over Dafny's
 unbounded `int` and `real`: `Math.abs`, the truncating `%` operator and the
 small facts about real multiplication that `Math.floor` reasoning needs.
 */
module JsNum {

  /** `Math.abs` on an integer. */
  function Abs(x: int): (r: nat)
    ensures r == x || r == -x
  {
    if x < 0 then -x else x
  }

  /** The quotient JavaScript's `%` pairs with: division truncated toward zero. */
  function Quot(a: int, b: int): int
    requires b > 0
  {
    if a >= 0 then a / b else -((-a) / b)
  }

  /**
   JavaScript's `%`: the remainder of the division truncated toward zero, so it
   takes the sign of the dividend (unlike Dafny's `%`, which is never negative).
   */
  function Rem(a: int, b: int): (r: int)
    requires b > 0
    ensures a == b * Quot(a, b) + r
    ensures -b < r < b
    ensures a >= 0 ==> r >= 0
    ensures a < 0 ==> r <= 0
  {
    if a >= 0 then a % b else -((-a) % b)
  }

  /** A dividend already in `[0, b)` is its own remainder. */
  lemma RemSmall(a: int, b: int)
    requires 0 <= a < b
    ensures Rem(a, b) == a
  {
    assert a / b == 0;
  }

  /** A divisor leaves no remainder on itself. */
  lemma RemSelf(b: int)
    requires b > 0
    ensures Rem(b, b) == 0
  {
    assert b / b == 1;
  }

  lemma DivMul(a: real, w: real)
    requires w > 0.0
    ensures (a / w) * w == a
  {
  }

  lemma MulLe(a: real, b: real, w: real)
    requires a <= b && w > 0.0
    ensures a * w <= b * w
  {
  }

  lemma MulLt(a: real, b: real, w: real)
    requires a < b && w > 0.0
    ensures a * w < b * w
  {
  }

  lemma CastMul(p: int, w: int)
    ensures (p * w) as real == p as real * w as real
  {
  }

  /** Multiplying by a positive `w` moves a nonzero integer at least `w` away from zero. */
  lemma MulAwayFromZero(w: int, d: int)
    requires w > 0
    ensures d >= 1 ==> w * d >= w
    ensures d <= -1 ==> w * d <= -w
  {
    if d >= 1 {
      assert w * d == w * (d - 1) + w;
    } else if d <= -1 {
      assert w * d == w * (d + 1) - w;
    }
  }
}
