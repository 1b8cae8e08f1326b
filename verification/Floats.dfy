/**
 * Floats as the cold start uses them: real numbers, the two infinities, and the value that is no
 * number. Finite results are exact here; what comparisons, `min`, `max` and sums make of the special
 * values is Python's.
 */
module Floats {

  datatype Float = NotANumber | MinusInfinity | Finite(r: real) | PlusInfinity

  /** Python's `a < b`: false as soon as one side is no number. */
  predicate Less(a: Float, b: Float) {
    match (a, b)
    case (Finite(x), Finite(y)) => x < y
    case (MinusInfinity, Finite(_)) => true
    case (MinusInfinity, PlusInfinity) => true
    case (Finite(_), PlusInfinity) => true
    case _ => false
  }

  /** Where a value lies on the line, the finite ones together. */
  function Place(a: Float): int {
    match a
    case MinusInfinity => -1
    case Finite(_) => 0
    case PlusInfinity => 1
    case NotANumber => 2
  }

  /** The order of the line; a value that is no number is not on it. */
  lemma LessIsOrder(a: Float, b: Float)
    ensures Less(a, b)
            <==> a != NotANumber && b != NotANumber
                 && (Place(a) < Place(b) || (a.Finite? && b.Finite? && a.r < b.r))
  {
  }

  predicate AtMost(a: Float, b: Float) { Less(a, b) || (a == b && a != NotANumber) }

  /** Python's `min(a, b)`: the first argument, unless the second is smaller. */
  function Min(a: Float, b: Float): Float { if Less(b, a) then b else a }

  /** Python's `max(a, b)`: the first argument, unless the second is greater. */
  function Max(a: Float, b: Float): Float { if Less(a, b) then b else a }

  function Plus(a: Float, b: Float): Float {
    if a == NotANumber || b == NotANumber then NotANumber
    else if a.Finite? && b.Finite? then Finite(a.r + b.r)
    else if a.Finite? then b
    else if b.Finite? || a == b then a
    else NotANumber
  }

  function Minus(a: Float, b: Float): Float { Plus(a, Scale(-1.0, b)) }

  /** Multiplication with a finite factor. */
  function Scale(c: real, a: Float): Float {
    match a
    case NotANumber => NotANumber
    case Finite(x) => Finite(c * x)
    case PlusInfinity => if c > 0.0 then PlusInfinity else if c < 0.0 then MinusInfinity else NotANumber
    case MinusInfinity => if c > 0.0 then MinusInfinity else if c < 0.0 then PlusInfinity else NotANumber
  }

  function Square(a: Float): Float {
    match a
    case NotANumber => NotANumber
    case Finite(x) => Finite(x * x)
    case _ => PlusInfinity
  }

  // ---- rounding -----------------------------------------------------------------------------------

  /** The integer nearest to `x`, the even one of two. */
  function Nearest(x: real): int {
    var low := x.Floor;
    var gap := x - low as real;
    if gap < 0.5 then low else if gap > 0.5 then low + 1 else if low % 2 == 0 then low else low + 1
  }

  /** Rounding to an integer: at most half away, and even where two are. */
  lemma NearestIs(x: real, k: int)
    ensures k == Nearest(x)
            <==> -0.5 <= x - k as real <= 0.5 && (x - k as real == 0.5 || k as real - x == 0.5 ==> k % 2 == 0)
  {
    var low := x.Floor;
    assert low as real <= x < (low + 1) as real;
    if -0.5 <= x - k as real <= 0.5 { assert k == low || k == low + 1; }
  }

  /** Python's `round(x, 4)`. */
  function Round4(a: Float): Float { if a.Finite? then Finite(Nearest(a.r * 10000.0) as real / 10000.0) else a }

  /** Python's `round(x, 3)`. */
  function Round3(a: Float): Float { if a.Finite? then Finite(Nearest(a.r * 1000.0) as real / 1000.0) else a }

  /** Rounding gives a multiple of the last digit, at most half of one away. */
  lemma RoundingIs(x: real) returns (k: int, l: int)
    ensures Round4(Finite(x)) == Finite(k as real / 10000.0) && -0.00005 <= x - k as real / 10000.0 <= 0.00005
    ensures Round3(Finite(x)) == Finite(l as real / 1000.0) && -0.0005 <= x - l as real / 1000.0 <= 0.0005
  {
    k, l := Nearest(x * 10000.0), Nearest(x * 1000.0);
    NearestIs(x * 10000.0, k);
    NearestIs(x * 1000.0, l);
  }

  /** Rounding to four digits reaches a four-digit bound from half a unit below, the even neighbour's tie included. */
  lemma RoundReaches(x: real, k: int)
    requires k % 2 == 0
    ensures Round4(Finite(x)).Finite?
    ensures AtMost(Finite(k as real / 10000.0), Round4(Finite(x))) <==> x >= (k as real - 0.5) / 10000.0
  {
    var y := x * 10000.0;
    assert Nearest(y) >= k <==> y >= k as real - 0.5;
  }

  // ---- sums ---------------------------------------------------------------------------------------

  function Sum(xs: seq<Float>): Float { if xs == [] then Finite(0.0) else Plus(Sum(xs[..|xs| - 1]), xs[|xs| - 1]) }

  function Mean(xs: seq<Float>): Float { if xs == [] then Finite(0.0) else Scale(1.0 / |xs| as real, Sum(xs)) }

  /** A sum of floats below plus infinity, none of them no number, is such a float. */
  lemma {:induction false} SumOfNumbers(xs: seq<Float>)
    requires forall i | 0 <= i < |xs| :: xs[i] == MinusInfinity || xs[i].Finite?
    ensures Sum(xs) == MinusInfinity || Sum(xs).Finite?
  {
    if xs != [] { SumOfNumbers(xs[..|xs| - 1]); }
  }

  /** A sum without minus infinity is not minus infinity. */
  lemma {:induction false} SumNotMinusInfinity(xs: seq<Float>)
    requires forall i | 0 <= i < |xs| :: xs[i] != MinusInfinity
    ensures Sum(xs) != MinusInfinity
  {
    if xs != [] { SumNotMinusInfinity(xs[..|xs| - 1]); }
  }

  lemma {:induction false} ConstantSum(xs: seq<Float>, c: real)
    requires forall i | 0 <= i < |xs| :: xs[i] == Finite(c)
    ensures Sum(xs) == Finite(|xs| as real * c)
  {
    if xs != [] { ConstantSum(xs[..|xs| - 1], c); }
  }

  lemma ConstantMean(xs: seq<Float>, c: real)
    requires xs != [] && forall i | 0 <= i < |xs| :: xs[i] == Finite(c)
    ensures Mean(xs) == Finite(c)
  {
    ConstantSum(xs, c);
    var n := |xs| as real;
    assert 1.0 / n * (n * c) == 1.0 / n * n * c;
  }

  lemma {:induction false} SumNotNegative(xs: seq<Float>)
    requires forall i | 0 <= i < |xs| :: xs[i].Finite? ==> xs[i].r >= 0.0
    ensures Sum(xs).Finite? ==> Sum(xs).r >= 0.0
  {
    if xs != [] { SumNotNegative(xs[..|xs| - 1]); }
  }
}
