/**
 * Double-precision values as the scripts' numeric columns hold them: a finite
 * number, an infinity, or NaN (which pandas also uses for "missing").
 * Finite values are exact reals; rounding and signed zeros are not modelled,
 * and zero counts as positive when an infinity takes its sign from it.
 */
module Floats {

  datatype Value = Fin(r: real) | Inf(neg: bool) | NaN

  /** The sign an infinity takes from a finite operand. */
  function SignOf(x: real): bool { x < 0.0 }

  function Neg(x: Value): (r: Value)
    ensures r.Fin? <==> x.Fin?
    ensures r.NaN? <==> x.NaN?
    ensures x.Fin? ==> r.r == -x.r
  {
    match x
    case Fin(a) => Fin(-a)
    case Inf(n) => Inf(!n)
    case NaN => NaN
  }

  /** IEEE addition: opposite infinities give NaN. */
  function Add(x: Value, y: Value): (r: Value)
    ensures r.Fin? <==> x.Fin? && y.Fin?
    ensures r.NaN? <==> x.NaN? || y.NaN? || (x.Inf? && y.Inf? && x.neg != y.neg)
    ensures x.Fin? && y.Fin? ==> r.r == x.r + y.r
  {
    match (x, y)
    case (NaN, _) => NaN
    case (_, NaN) => NaN
    case (Fin(a), Fin(b)) => Fin(a + b)
    case (Inf(n), Fin(_)) => Inf(n)
    case (Fin(_), Inf(n)) => Inf(n)
    case (Inf(n), Inf(m)) => if n == m then Inf(n) else NaN
  }

  function Sub(x: Value, y: Value): (r: Value)
    ensures r.Fin? <==> x.Fin? && y.Fin?
    ensures x.Fin? && y.Fin? ==> r.r == x.r - y.r
  {
    Add(x, Neg(y))
  }

  /** IEEE multiplication: an infinity times zero is NaN. */
  function Mul(x: Value, y: Value): (r: Value)
    ensures r.Fin? <==> x.Fin? && y.Fin?
    ensures r.NaN? <==> x.NaN? || y.NaN? || (x.Inf? && y == Fin(0.0)) || (y.Inf? && x == Fin(0.0))
    ensures x.Fin? && y.Fin? ==> r.r == x.r * y.r
  {
    match (x, y)
    case (NaN, _) => NaN
    case (_, NaN) => NaN
    case (Fin(a), Fin(b)) => Fin(a * b)
    case (Inf(n), Fin(b)) => if b == 0.0 then NaN else Inf(n != SignOf(b))
    case (Fin(a), Inf(n)) => if a == 0.0 then NaN else Inf(n != SignOf(a))
    case (Inf(n), Inf(m)) => Inf(n != m)
  }

  /** IEEE division: x/0 is an infinity for x != 0 and NaN for 0/0; inf/inf is NaN. */
  function Div(x: Value, y: Value): (r: Value)
    ensures r.Fin? <==> x.Fin? && ((y.Fin? && y.r != 0.0) || y.Inf?)
    ensures x.Fin? && y.Fin? && y.r != 0.0 ==> r.r == x.r / y.r
    ensures x.Fin? && y.Inf? ==> r.r == 0.0
    ensures r.Inf? <==> (x.Fin? && x.r != 0.0 && y == Fin(0.0)) || (x.Inf? && y.Fin?)
  {
    match (x, y)
    case (NaN, _) => NaN
    case (_, NaN) => NaN
    case (Fin(a), Fin(b)) =>
      if b != 0.0 then Fin(a / b) else if a == 0.0 then NaN else Inf(SignOf(a))
    case (Fin(_), Inf(_)) => Fin(0.0)
    case (Inf(n), Fin(b)) => Inf(n != SignOf(b))
    case (Inf(_), Inf(_)) => NaN
  }

  /** x ** 2: never negative, never negative infinity. */
  function Square(x: Value): (r: Value)
    ensures r.Fin? <==> x.Fin?
    ensures r.Fin? ==> r.r == x.r * x.r && r.r >= 0.0
    ensures r.Inf? ==> !r.neg
    ensures r.NaN? <==> x.NaN?
  {
    Mul(x, x)
  }

  /** `Series.replace([inf, -inf], nan)`. */
  function ReplaceInf(x: Value): (r: Value)
    ensures !r.Inf?
    ensures !x.Inf? ==> r == x
  {
    if x.Inf? then NaN else x
  }

  /** `Series.replace(float('inf'), float('nan'))`: only positive infinity. */
  function ReplacePosInf(x: Value): (r: Value)
    ensures r != Inf(false)
    ensures x != Inf(false) ==> r == x
  {
    if x == Inf(false) then NaN else x
  }

  /** `column.replace([inf, -inf], nan)` on a column held in place. */
  method ReplaceInfColumn(a: array<Value>)
    modifies a
    ensures forall i | 0 <= i < a.Length :: a[i] == ReplaceInf(old(a[i]))
  {
    for i := 0 to a.Length
      invariant forall j | 0 <= j < i :: a[j] == ReplaceInf(old(a[j]))
      invariant forall j | i <= j < a.Length :: a[j] == old(a[j])
    {
      a[i] := ReplaceInf(a[i]);
    }
  }

  /** `column.replace(float('inf'), float('nan'))` on a column held in place. */
  method ReplacePosInfColumn(a: array<Value>)
    modifies a
    ensures forall i | 0 <= i < a.Length :: a[i] == ReplacePosInf(old(a[i]))
  {
    for i := 0 to a.Length
      invariant forall j | 0 <= j < i :: a[j] == ReplacePosInf(old(a[j]))
      invariant forall j | i <= j < a.Length :: a[j] == old(a[j])
    {
      a[i] := ReplacePosInf(a[i]);
    }
  }

  /** Python's `x >= y` on floats: false whenever either side is NaN. */
  predicate Ge(x: Value, y: Value)
  {
    match (x, y)
    case (NaN, _) => false
    case (_, NaN) => false
    case (Fin(a), Fin(b)) => a >= b
    case (Inf(n), _) => !n || y == Inf(true)
    case (Fin(_), Inf(m)) => m
  }

  /** Python's `x < y` on floats. */
  predicate Lt(x: Value, y: Value)
  {
    !x.NaN? && !y.NaN? && !Ge(x, y)
  }
}
