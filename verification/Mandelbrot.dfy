/** The escape counts of examples/pmandel.c over exact reals.

    A pixel's count is the number of times the loop of `single_mandelbrot_point` (or of one of
    its two variants) runs before the orbit leaves the disc of radius `divergent_limit`, or the
    iteration cap is met.  The modulus test `sqrt(x*x + y*y) < limit` is written without the root:
    it holds exactly when the limit is positive and the squared modulus is below its square.
 */
module Mandelbrot {

  datatype Complex = Complex(re: real, im: real)

  function Multiply(a: Complex, b: Complex): Complex {
    Complex(a.re * b.re - a.im * b.im, a.re * b.im + a.im * b.re)
  }

  function Add(a: Complex, b: Complex): Complex {
    Complex(a.re + b.re, a.im + b.im)
  }

  function Subtract(a: Complex, b: Complex): Complex {
    Complex(a.re - b.re, a.im - b.im)
  }

  function NormSquared(z: Complex): real {
    z.re * z.re + z.im * z.im
  }

  /** Which recurrence the loop iterates: z*z + c, z*(1 - z) or z*(z + p), p the start point. */
  datatype Equation = Quadratic(c: Complex) | Subtractive | Additive(p: Complex)

  function Iterate(eq: Equation, z: Complex): Complex {
    match eq
    case Quadratic(c) => Add(Multiply(z, z), c)
    case Subtractive => Multiply(z, Subtract(Complex(1.0, 0.0), z))
    case Additive(p) => Multiply(z, Add(z, p))
  }

  /** `absolute_complex(z) < limit`. */
  predicate Inside(z: Complex, limit: real) {
    limit > 0.0 && NormSquared(z) < limit * limit
  }

  /** The three recurrences in coordinates: z*z + c, z*(1 - z) and z*(z + c). */
  lemma QuadraticInCoordinates(x: real, y: real, a: real, b: real)
    ensures Iterate(Quadratic(Complex(a, b)), Complex(x, y)) == Complex(x * x - y * y + a, x * y + y * x + b)
  {
  }

  lemma SubtractiveInCoordinates(x: real, y: real)
    ensures Iterate(Subtractive, Complex(x, y)) == Complex(x * (1.0 - x) + y * y, y * (1.0 - x) - x * y)
  {
    Negated(x, y);
    Negated(y, y);
  }

  lemma Negated(a: real, b: real)
    ensures a * (0.0 - b) == -(a * b)
  {
  }

  lemma AdditiveInCoordinates(x: real, y: real, a: real, b: real)
    ensures Iterate(Additive(Complex(a, b)), Complex(x, y))
         == Complex(x * (x + a) - y * (y + b), x * (y + b) + y * (x + a))
  {
  }

  /** The n-th point of the orbit that starts at z. */
  function Orbit(eq: Equation, z: Complex, n: nat): Complex
    decreases n
  {
    if n == 0 then z else Orbit(eq, Iterate(eq, z), n - 1)
  }

  /** The count the loop returns, as a recursion on the iterations still allowed. */
  function EscapeCount(eq: Equation, z: Complex, cap: int, limit: real): nat
    decreases if cap > 0 then cap else 0
  {
    if cap > 0 && Inside(z, limit) then 1 + EscapeCount(eq, Iterate(eq, z), cap - 1, limit) else 0
  }

  /** n is the escape time of the orbit: the first index whose point is not inside. */
  ghost predicate IsEscapeTime(eq: Equation, z: Complex, limit: real, n: nat) {
    && !Inside(Orbit(eq, z, n), limit)
    && forall k: nat :: k < n ==> Inside(Orbit(eq, z, k), limit)
  }

  /** The loop of `single_mandelbrot_point`, `subtractive_mandelbrot_point` and
      `additive_mandelbrot_point`. */
  method PointCount(eq: Equation, start: Complex, cap: int, limit: real) returns (count: int)
    ensures count == EscapeCount(eq, start, cap, limit)
    ensures 0 <= count
    ensures forall k: nat :: k < count ==> Inside(Orbit(eq, start, k), limit)
    ensures count < cap ==> IsEscapeTime(eq, start, limit, count)
    ensures count <= cap || (count == 0 && cap < 0)
  {
    count := 0;
    var z := start;
    while Inside(z, limit) && count < cap
      invariant 0 <= count && (count <= cap || (count == 0 && cap < 0))
      invariant z == Orbit(eq, start, count)
      invariant EscapeCount(eq, start, cap, limit) == count + EscapeCount(eq, z, cap - count, limit)
      invariant forall k: nat :: k < count ==> Inside(Orbit(eq, start, k), limit)
      decreases cap - count
    {
      OrbitSucc(eq, start, count);
      z := Iterate(eq, z);
      count := count + 1;
    }
  }

  lemma {:induction false} OrbitSucc(eq: Equation, z: Complex, n: nat)
    ensures Orbit(eq, z, n + 1) == Iterate(eq, Orbit(eq, z, n))
    decreases n
  {
    if n > 0 {
      OrbitSucc(eq, Iterate(eq, z), n - 1);
    }
  }

  /** The count never passes the cap, every point counted is inside, and a count short of the cap
      is the escape time. */
  lemma {:induction false} CountDescribesOrbit(eq: Equation, z: Complex, cap: int, limit: real)
    ensures var c := EscapeCount(eq, z, cap, limit);
            && (c <= cap || (c == 0 && cap < 0))
            && (forall k: nat :: k < c ==> Inside(Orbit(eq, z, k), limit))
            && (c < cap ==> IsEscapeTime(eq, z, limit, c))
    decreases if cap > 0 then cap else 0
  {
    var c := EscapeCount(eq, z, cap, limit);
    if cap > 0 && Inside(z, limit) {
      CountDescribesOrbit(eq, Iterate(eq, z), cap - 1, limit);
      forall k: nat | k < c ensures Inside(Orbit(eq, z, k), limit) {
        if k > 0 {
          assert Orbit(eq, z, k) == Orbit(eq, Iterate(eq, z), k - 1);
        }
      }
      assert c < cap ==> Orbit(eq, z, c) == Orbit(eq, Iterate(eq, z), c - 1);
    }
  }

  /** With a non-negative cap, the count is the smaller of the cap and the escape time; an orbit
      with no escape time counts to the cap. */
  lemma CountIsCappedEscapeTime(eq: Equation, z: Complex, cap: nat, limit: real, n: nat)
    requires IsEscapeTime(eq, z, limit, n)
    ensures EscapeCount(eq, z, cap, limit) == if n < cap then n else cap
  {
    CountDescribesOrbit(eq, z, cap, limit);
    var c := EscapeCount(eq, z, cap, limit);
    assert n < c ==> Inside(Orbit(eq, z, n), limit);
    assert c < n ==> Inside(Orbit(eq, z, c), limit);
  }

  /** Raising the cap never changes the count of a pixel that had already escaped, and lowering it
      only clips. */
  lemma CapOnlyClips(eq: Equation, z: Complex, low: nat, high: nat, limit: real)
    requires low <= high
    ensures var c := EscapeCount(eq, z, high, limit);
            EscapeCount(eq, z, low, limit) == if c < low then c else low
  {
    CountDescribesOrbit(eq, z, low, limit);
    CountDescribesOrbit(eq, z, high, limit);
    var d := EscapeCount(eq, z, high, limit);
    if d < high {
      CountIsCappedEscapeTime(eq, z, low, limit, d);
    } else if EscapeCount(eq, z, low, limit) < low {
      CountIsCappedEscapeTime(eq, z, high, limit, EscapeCount(eq, z, low, limit));
    }
  }

  // ----- divergence for the default limit

  const INFINITE_LIMIT := 4.0
  const MAX_COORDINATE := 2.0

  /** Inside the default limit is inside the open disc of radius 4. */
  lemma InsideDefault(z: Complex)
    ensures Inside(z, INFINITE_LIMIT) <==> z.re * z.re + z.im * z.im < 16.0
  {
  }

  /** c lies in the square [-2,2] x [-2,2] that `check_mand_params` clips the view to. */
  predicate InView(c: Complex) {
    && -MAX_COORDINATE <= c.re <= MAX_COORDINATE
    && -MAX_COORDINATE <= c.im <= MAX_COORDINATE
  }

  lemma ProductNonNegative(a: real, b: real)
    requires (a >= 0.0 && b >= 0.0) || (a <= 0.0 && b <= 0.0)
    ensures a * b >= 0.0
  {
  }

  lemma SquareAtMostFour(a: real)
    requires -2.0 <= a <= 2.0
    ensures a * a <= 4.0
  {
    ProductNonNegative(2.0 - a, 2.0 + a);
    assert (2.0 - a) * (2.0 + a) == 4.0 - a * a;
  }

  lemma NormOfSquare(z: Complex)
    ensures NormSquared(Multiply(z, z)) == NormSquared(z) * NormSquared(z)
  {
    var x, y := z.re * z.re, z.im * z.im;
    var p := z.re * z.im;
    assert p * p == x * y;
    assert NormSquared(Multiply(z, z)) == (x - y) * (x - y) + (p + p) * (p + p);
    assert (p + p) * (p + p) == 4.0 * (p * p);
  }

  /** |a + c|^2 >= |a|^2 / 2 - |c|^2, from 2|ac| <= |a|^2/2 + 2|c|^2 coordinate by coordinate. */
  lemma SumKeepsHalf(a: Complex, c: Complex)
    ensures 2.0 * NormSquared(Add(a, c)) >= NormSquared(a) - 2.0 * NormSquared(c)
  {
    CoordinateKeepsHalf(a.re, c.re);
    CoordinateKeepsHalf(a.im, c.im);
  }

  lemma CoordinateKeepsHalf(x: real, u: real)
    ensures 2.0 * ((x + u) * (x + u)) >= x * x - 2.0 * (u * u)
  {
    ProductNonNegative(x + 2.0 * u, x + 2.0 * u);
    assert 2.0 * ((x + u) * (x + u)) - (x * x - 2.0 * (u * u)) == (x + 2.0 * u) * (x + 2.0 * u);
  }

  /** Once at modulus 4 or more, a quadratic step with c in the view square stays there. */
  lemma StepStaysOutside(z: Complex, c: Complex)
    requires InView(c) && NormSquared(z) >= 16.0
    ensures NormSquared(Iterate(Quadratic(c), z)) >= 16.0
  {
    var w := Multiply(z, z);
    assert Iterate(Quadratic(c), z) == Add(w, c);
    SquareEscapes(z);
    SumKeepsHalf(w, c);
    ViewIsSmall(c);
  }

  lemma ViewIsSmall(c: Complex)
    requires InView(c)
    ensures NormSquared(c) <= 8.0
  {
    SquareAtMostFour(c.re);
    SquareAtMostFour(c.im);
  }

  lemma SquareEscapes(z: Complex)
    requires NormSquared(z) >= 16.0
    ensures NormSquared(Multiply(z, z)) >= 256.0
  {
    NormOfSquare(z);
    SquareAtLeast(NormSquared(z), 16.0);
  }

  lemma SquareAtLeast(r: real, a: real)
    requires r >= a >= 0.0
    ensures r * r >= a * a
  {
    ProductNonNegative(r - a, r + a);
  }

  /** An orbit with c in the view square that has reached modulus 4 stays at or above it forever. */
  lemma {:induction false} EscapeIsForever(c: Complex, z: Complex, n: nat, m: nat)
    requires InView(c) && n <= m
    requires !Inside(Orbit(Quadratic(c), z, n), INFINITE_LIMIT)
    ensures !Inside(Orbit(Quadratic(c), z, m), INFINITE_LIMIT)
  {
    if n < m {
      EscapeIsForever(c, z, n, m - 1);
      OrbitSucc(Quadratic(c), z, m - 1);
      StepStaysOutside(Orbit(Quadratic(c), z, m - 1), c);
    }
  }

  /** Hence the count decides the orbit below the cap: the n-th point is inside exactly when n is
      less than the count. */
  lemma CountDecidesDivergence(c: Complex, z: Complex, cap: nat, n: nat)
    requires InView(c)
    ensures var k := EscapeCount(Quadratic(c), z, cap, INFINITE_LIMIT);
            n < cap ==> (n < k <==> Inside(Orbit(Quadratic(c), z, n), INFINITE_LIMIT))
  {
    var k := EscapeCount(Quadratic(c), z, cap, INFINITE_LIMIT);
    CountDescribesOrbit(Quadratic(c), z, cap, INFINITE_LIMIT);
    if k <= n < cap {
      EscapeIsForever(c, z, k, n);
    }
  }
}
