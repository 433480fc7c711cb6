/** Small datatypes shared by the models. */
module Common {

  /** A value that may be absent: a null pointer, or a timer that is not pending. */
  datatype Option<+T> = None | Some(value: T)

  function Abs(x: int): nat { if x < 0 then -x else x }

  /** A nonzero multiple of `b` is at least `b` away from zero. */
  lemma MulBig(b: nat, d: int)
    ensures d >= 1 ==> b * d >= b
    ensures d <= -1 ==> b * d <= 0 - b
  {
    if d >= 1 {
      assert b * d == b * (d - 1) + b;
    } else if d <= -1 {
      assert b * d == b * (d + 1) - b;
    }
  }

  /** Quotient and remainder are unique. */
  lemma DivModUnique(x: int, b: nat, q: int, r: nat)
    requires b > 0 && x == b * q + r && r < b
    ensures x / b == q && x % b == r
  {
    var d := x / b - q;
    assert x == b * (x / b) + x % b;
    assert b * d == b * (x / b) - b * q;
    MulBig(b, d);
  }

  lemma ModShift(x: int, k: int, b: nat)
    requires b > 0
    ensures (x + k * b) % b == x % b
  {
    var q, r := x / b, x % b;
    assert x == b * q + r;
    assert b * (q + k) == b * q + k * b;
    DivModUnique(x + k * b, b, q + k, r);
  }
}
