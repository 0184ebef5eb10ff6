/** Machine numbers of the signing authority: Go's fixed-width integers and float64.
    Floats are exact reals plus the three special values; rounding is not modelled. */
module Numbers {

  const TWO63: int := 0x8000_0000_0000_0000
  const TWO64: int := 0x1_0000_0000_0000_0000

  type int64 = x: int | -0x8000_0000_0000_0000 <= x < 0x8000_0000_0000_0000
  type uint64 = x: int | 0 <= x < 0x1_0000_0000_0000_0000

  /** Milliseconds in a UTC day. */
  const DAY_MS: int64 := 24 * 60 * 60 * 1000

  /** Go's uint64 `x + 1`, which wraps. */
  function Succ64(x: uint64): uint64 { (x + 1) % 0x1_0000_0000_0000_0000 }

  /** Go's int64 `x + y`, which wraps. */
  function Add64(x: int64, y: int64): int64 {
    if x + y >= 0x8000_0000_0000_0000 then x + y - 0x1_0000_0000_0000_0000
    else if x + y < -0x8000_0000_0000_0000 then x + y + 0x1_0000_0000_0000_0000
    else x + y
  }

  /** Go's int64 `x - y`, which wraps. */
  function Sub64(x: int64, y: int64): int64 {
    if x - y >= 0x8000_0000_0000_0000 then x - y - 0x1_0000_0000_0000_0000
    else if x - y < -0x8000_0000_0000_0000 then x - y + 0x1_0000_0000_0000_0000
    else x - y
  }

  /** Both agree with the integers modulo 2^64, and exactly as long as the result fits. */
  lemma WrapsModulo(x: int64, y: int64)
    ensures (Add64(x, y) - (x + y)) % TWO64 == 0 && (Sub64(x, y) - (x - y)) % TWO64 == 0
    ensures -TWO63 <= x + y < TWO63 ==> Add64(x, y) == x + y
    ensures -TWO63 <= x - y < TWO63 ==> Sub64(x, y) == x - y
  {
  }

  /** Go's integer division by a positive divisor, which truncates toward zero. */
  function TruncDiv(x: int, d: int): int
    requires d > 0
  {
    if x >= 0 then x / d else -((-x) / d)
  }

  /** The UTC day number the spend buckets use. */
  function DayOf(nowMs: int64): int64 {
    var d := TruncDiv(nowMs, DAY_MS);
    assert -0x8000_0000_0000_0000 <= d < 0x8000_0000_0000_0000;
    d
  }

  /** A day is 86,400,000 milliseconds long, and the days follow one another from the epoch on. */
  lemma DayContains(nowMs: int64)
    requires 0 <= nowMs
    ensures 86_400_000 * DayOf(nowMs) <= nowMs < 86_400_000 * (DayOf(nowMs) + 1)
  {
  }

  datatype Float = NaN | PosInf | NegInf | Fin(r: real) {

    /** Go's `this < that`; every comparison with NaN is false. */
    predicate Lt(that: Float) {
      match (this, that)
      case (NaN, _) => false
      case (_, NaN) => false
      case (PosInf, _) => false
      case (_, NegInf) => false
      case (NegInf, _) => true
      case (_, PosInf) => true
      case (Fin(a), Fin(b)) => a < b
    }

    /** Go's `this == that`; NaN is not equal to itself. */
    predicate Eq(that: Float) { this != NaN && this == that }

    predicate Le(that: Float) { Lt(that) || Eq(that) }

    predicate IsZero() { this == Fin(0.0) }

    predicate Negative() { Lt(Fin(0.0)) }

    predicate Positive() { Fin(0.0).Lt(this) }

    function Add(that: Float): Float {
      match (this, that)
      case (NaN, _) => NaN
      case (_, NaN) => NaN
      case (Fin(a), Fin(b)) => Fin(a + b)
      case (Fin(_), _) => that
      case (_, Fin(_)) => this
      case (_, _) => if this == that then this else NaN
    }

    /** Go's product of two non-negative numbers: infinity times zero is NaN. */
    function MulNonNegative(that: Float): Float
      requires this != NaN && !Negative() && that != NaN && !that.Negative()
    {
      match (this, that)
      case (Fin(a), Fin(b)) => Fin(a * b)
      case (_, _) => if IsZero() || that.IsZero() then NaN else PosInf
    }
  }

  /** Comparison: numbers as numbers, the infinities at the ends, NaN with nothing. */
  lemma ComparisonMeans(x: Float, y: Float)
    ensures x == NaN || y == NaN ==> !x.Lt(y) && !x.Le(y) && !x.Eq(y)
    ensures x != NaN && y != NaN ==> (x.Le(y) <==> !y.Lt(x)) && (x.Eq(y) <==> x.Le(y) && y.Le(x))
    ensures x.Fin? && y.Fin? ==> (x.Lt(y) <==> x.r < y.r) && (x.Le(y) <==> x.r <= y.r)
    ensures x != NaN ==> NegInf.Le(x) && x.Le(PosInf)
    ensures x.Fin? ==> NegInf.Lt(x) && x.Lt(PosInf)
    ensures x.Negative() <==> x == NegInf || (x.Fin? && x.r < 0.0)
    ensures x.Positive() <==> x == PosInf || (x.Fin? && x.r > 0.0)
  {
  }

  /** Sums and products: numbers as numbers, NaN stays, an infinity swallows numbers. */
  lemma ArithmeticMeans(x: Float, y: Float)
    ensures x.Add(y) == y.Add(x)
    ensures x.Fin? && y.Fin? ==> x.Add(y) == Fin(x.r + y.r)
    ensures x == NaN || y == NaN ==> x.Add(y) == NaN
    ensures y.Fin? && (x == PosInf || x == NegInf) ==> x.Add(y) == x
    ensures x.Add(x) == if x.Fin? then Fin(x.r + x.r) else x
    ensures PosInf.Add(NegInf) == NaN
    ensures x != NaN && !x.Negative() && y != NaN && !y.Negative() ==>
      && (x.Fin? && y.Fin? ==> x.MulNonNegative(y) == Fin(x.r * y.r))
      && (!x.Fin? ==> x.MulNonNegative(y) == if y.IsZero() then NaN else PosInf)
      && (!y.Fin? ==> x.MulNonNegative(y) == if x.IsZero() then NaN else PosInf)
  {
  }
}
