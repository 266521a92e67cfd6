/** Amounts of money, taken as exact `real` numbers, and the one-cent tolerance the
    application compares them with. */
module Money {
  /** One cent: balances within it of 0 count as settled, and split amounts within it of
      the expense amount count as adding up. */
  const Eps: real := 0.01

  /** `Math.abs`. */
  function Abs(x: real): (r: real)
    ensures r >= 0.0 && (r == x || r == -x)
  {
    if x < 0.0 then -x else x
  }

  /** `Math.min` of two amounts. */
  function Min(x: real, y: real): (r: real)
    ensures r <= x && r <= y && (r == x || r == y)
  {
    if x <= y then x else y
  }
}
