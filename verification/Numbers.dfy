/**
 Numbers of the two run modes and columns of them. Integers are machine integers: every operation is
 followed by `wrap`.
 */
module Numbers {
  import opened MachineIntegers

  /** `Bad` is what has no value: a division by zero, or numbers of two modes mixed. */
  datatype Num = Int(i: int) | Real(r: real) | Bad

  /** A number of the run mode, as the machine stores it. */
  predicate IsKind(wrap: Wrapping, fp64: bool, x: Num) {
    if fp64 then x.Real? else x.Int? && wrap(x.i) == x.i
  }

  function Plus(wrap: Wrapping, x: Num, y: Num): Num {
    match (x, y)
    case (Int(a), Int(b)) => Int(wrap(a + b))
    case (Real(a), Real(b)) => Real(a + b)
    case _ => Bad
  }

  function Minus(wrap: Wrapping, x: Num, y: Num): Num {
    match (x, y)
    case (Int(a), Int(b)) => Int(wrap(a - b))
    case (Real(a), Real(b)) => Real(a - b)
    case _ => Bad
  }

  function Times(wrap: Wrapping, x: Num, y: Num): Num {
    match (x, y)
    case (Int(a), Int(b)) => Int(wrap(a * b))
    case (Real(a), Real(b)) => Real(a * b)
    case _ => Bad
  }

  function Divide(x: Num, y: Num): Num {
    match (x, y)
    case (Real(a), Real(b)) => if b == 0.0 then Bad else Real(a / b)
    case _ => Bad
  }

  function Negate(wrap: Wrapping, x: Num): Num {
    match x
    case Int(a) => Int(wrap(-a))
    case Real(a) => Real(-a)
    case Bad => Bad
  }

  lemma TimesCommutes(wrap: Wrapping, x: Num, y: Num)
    ensures Times(wrap, x, y) == Times(wrap, y, x)
  {
    if x.Int? && y.Int? {
      assert x.i * y.i == y.i * x.i;
    }
  }

  /** Dividing by a constant is multiplying by its reciprocal. */
  lemma ReciprocalDivides(wrap: Wrapping, x: Num, c: Num)
    requires c.Real?
    ensures Times(wrap, x, Divide(Real(1.0), c)) == Divide(x, c)
  {
    if x.Real? && c.r != 0.0 {
      var q := 1.0 / c.r;
      assert x.r * q == x.r / c.r by {
        assert q * c.r == 1.0;
        assert (x.r * q) * c.r == x.r * (q * c.r);
        assert (x.r / c.r) * c.r == x.r;
      }
    }
  }

  // Columns.

  type Column = seq<Num>

  function PlusColumns(wrap: Wrapping, x: Column, y: Column): (z: Column)
    requires |x| == |y|
    ensures |z| == |x| && forall k | 0 <= k < |z| :: z[k] == Plus(wrap, x[k], y[k])
  {
    seq(|x|, k requires 0 <= k < |x| => Plus(wrap, x[k], y[k]))
  }

  function MinusColumns(wrap: Wrapping, x: Column, y: Column): (z: Column)
    requires |x| == |y|
    ensures |z| == |x| && forall k | 0 <= k < |z| :: z[k] == Minus(wrap, x[k], y[k])
  {
    seq(|x|, k requires 0 <= k < |x| => Minus(wrap, x[k], y[k]))
  }

  function PlusConst(wrap: Wrapping, c: Num, x: Column): (z: Column)
    ensures |z| == |x| && forall k | 0 <= k < |z| :: z[k] == Plus(wrap, x[k], c)
  {
    seq(|x|, k requires 0 <= k < |x| => Plus(wrap, x[k], c))
  }

  function MinusConst(wrap: Wrapping, c: Num, x: Column): (z: Column)
    ensures |z| == |x| && forall k | 0 <= k < |z| :: z[k] == Minus(wrap, x[k], c)
  {
    seq(|x|, k requires 0 <= k < |x| => Minus(wrap, x[k], c))
  }

  function NegateColumn(wrap: Wrapping, x: Column): (z: Column)
    ensures |z| == |x| && forall k | 0 <= k < |z| :: z[k] == Negate(wrap, x[k])
  {
    seq(|x|, k requires 0 <= k < |x| => Negate(wrap, x[k]))
  }
}
