/** Pixels and centroids as 3-D integer points, the distance between them and
    the C integer division the segmenter uses. */
module Pixels {

  /** An 8-bit unsigned value, as stored in an OpenCV `CV_8U` or `Vec3b` matrix. */
  newtype byte = x: int | 0 <= x < 256

  /** One pixel of the blurred colour image. OpenCV stores the channels in
      the order blue (channel 0), green (channel 1), red (channel 2). */
  datatype Vec3b = Vec3b(blue: byte, green: byte, red: byte)

  /** The program's `point` struct: a vector in colour space plus a flag that
      only centroids use. */
  datatype Point = Point(r: int, g: int, b: int, fixed: bool)

  /** The two points have the same three components (the flag is not compared). */
  predicate SameColour(p: Point, q: Point)
  {
    p.r == q.r && p.g == q.g && p.b == q.b
  }

  /** Every component is a channel value. */
  predicate InRange(p: Point)
  {
    0 <= p.r <= 255 && 0 <= p.g <= 255 && 0 <= p.b <= 255
  }

  /** How the assignment loop reads a pixel: B from channel 0, G from
      channel 1, R from channel 2. The flag of a pixel is never read. */
  function PixelPoint(v: Vec3b): (p: Point)
    ensures InRange(p) && !p.fixed
    ensures p.b == v.blue as int && p.g == v.green as int && p.r == v.red as int
  {
    Point(v.red as int, v.green as int, v.blue as int, false)
  }

  /** The cells of a matrix, row by row. */
  ghost function Contents<T>(a: array2<T>): (g: seq<seq<T>>)
    reads a
    ensures |g| == a.Length0
    ensures forall i :: 0 <= i < a.Length0 ==> |g[i]| == a.Length1
    ensures forall i, j :: 0 <= i < a.Length0 && 0 <= j < a.Length1 ==> g[i][j] == a[i, j]
  {
    seq(a.Length0, i requires 0 <= i < a.Length0 reads a =>
      seq(a.Length1, j requires 0 <= j < a.Length1 reads a => a[i, j]))
  }

  /** `g` holds the cells of matrix `a`, row by row. */
  ghost predicate Holds<T>(a: array2<T>, g: seq<seq<T>>)
    reads a
  {
    |g| == a.Length0 && (forall i :: 0 <= i < a.Length0 ==> |g[i]| == a.Length1) &&
    forall i, j :: 0 <= i < a.Length0 && 0 <= j < a.Length1 ==> g[i][j] == a[i, j]
  }

  /** Squared Euclidean distance between the colours of two points. */
  function SqDist(p: Point, q: Point): nat
  {
    var x := q.r - p.r;
    var y := q.g - p.g;
    var z := q.b - p.b;
    x * x + y * y + z * z
  }

  /** The integer square root: the largest r with r * r <= n. */
  function ISqrt(n: nat): (r: nat)
    ensures r * r <= n < (r + 1) * (r + 1)
  {
    SqrtFrom(n, 0)
  }

  /** The largest r at least `low` with r * r <= n, searched upward. */
  function SqrtFrom(n: nat, low: nat): (r: nat)
    requires low <= n && low * low <= n
    ensures low <= r && r * r <= n < (r + 1) * (r + 1)
    decreases n - low
  {
    if (low + 1) * (low + 1) <= n then
      SelfBelowSquare(low + 1);
      SqrtFrom(n, low + 1)
    else low
  }

  lemma SelfBelowSquare(x: nat)
    ensures x <= x * x
  {
    if x > 0 {
      assert x * 1 <= x * x;
    }
  }

  /** The integer square root is the only number whose square brackets n. */
  lemma ISqrtUnique(n: nat, r: nat)
    requires r * r <= n < (r + 1) * (r + 1)
    ensures r == ISqrt(n)
  {
    var s := ISqrt(n);
    if r < s {
      SquareMonotone(r + 1, s);
    } else if s < r {
      SquareMonotone(s + 1, r);
    }
  }

  lemma SquareMonotone(a: nat, b: nat)
    requires a <= b
    ensures a * a <= b * b
  {
    assert a * a <= a * b <= b * b;
  }

  /** `distance` truncated to `int`, as every caller does: the Euclidean
      distance rounded down. */
  function Distance(p: Point, q: Point): (d: nat)
    ensures d * d <= SqDist(p, q) < (d + 1) * (d + 1)
  {
    ISqrt(SqDist(p, q))
  }

  lemma DistanceSymmetric(p: Point, q: Point)
    ensures Distance(p, q) == Distance(q, p)
  {
    assert SqDist(p, q) == SqDist(q, p) by {
      SquareOfNegation(q.r - p.r);
      SquareOfNegation(q.g - p.g);
      SquareOfNegation(q.b - p.b);
    }
  }

  lemma SquareOfNegation(x: int)
    ensures (-x) * (-x) == x * x
  {
  }

  /** The distance is zero exactly between points of the same colour; the
      flag plays no part. */
  lemma DistanceZeroIff(p: Point, q: Point)
    ensures Distance(p, q) == 0 <==> SameColour(p, q)
  {
    var x, y, z := q.r - p.r, q.g - p.g, q.b - p.b;
    SquareNonNegative(x);
    SquareNonNegative(y);
    SquareNonNegative(z);
    if SameColour(p, q) {
      assert SqDist(p, q) == 0;
    } else {
      assert x != 0 || y != 0 || z != 0;
      SquarePositive(x);
      SquarePositive(y);
      SquarePositive(z);
      assert SqDist(p, q) >= 1;
    }
  }

  lemma SquareNonNegative(x: int)
    ensures x * x >= 0
  {
  }

  lemma SquarePositive(x: int)
    ensures x != 0 ==> x * x >= 1
  {
    if x > 0 {
      assert x * x >= x * 1;
    } else if x < 0 {
      assert x * x == (-x) * (-x);
      assert (-x) * (-x) >= (-x) * 1;
    }
  }

  function Abs(x: int): nat
  {
    if x < 0 then -x else x
  }

  /** C's `/` on `int` (section 6.5.5 of ISO C99): the quotient truncated
      toward zero, which differs from Dafny's `/` when an operand is negative.
      Its magnitude is the quotient of the magnitudes, and it is negative
      only when the operands have opposite signs. */
  function TruncDiv(a: int, b: int): (q: int)
    requires b != 0
    ensures Abs(q) == Abs(a) / Abs(b)
    ensures q != 0 ==> ((q < 0) <==> ((a < 0) != (b < 0)))
  {
    var m := Abs(a) / Abs(b);
    DivNonNegative(Abs(a), Abs(b));
    if (a < 0) == (b < 0) then m else -m
  }

  /** The truncated quotient brackets the dividend between two multiples of
      the divisor. */
  lemma TruncDivBracket(a: int, b: int)
    requires b != 0
    ensures Abs(TruncDiv(a, b)) * Abs(b) <= Abs(a) < (Abs(TruncDiv(a, b)) + 1) * Abs(b)
  {
    DivBracket(Abs(a), Abs(b));
  }

  lemma DivNonNegative(a: nat, b: nat)
    requires b > 0
    ensures a / b >= 0
  {
  }

  lemma DivBracket(a: nat, b: nat)
    requires b > 0
    ensures (a / b) * b <= a < (a / b + 1) * b
  {
    var m, k := a / b, a % b;
    assert a == m * b + k && 0 <= k < b;
    assert (m + 1) * b == m * b + b;
  }

  /** A positive n times a non-zero d is at least n away from zero. */
  lemma MulSign(d: int, n: int)
    requires n > 0
    ensures d >= 1 ==> d * n >= n
    ensures d <= -1 ==> d * n <= -n
  {
    if d >= 1 {
      assert (d - 1) * n >= 0;
    } else if d <= -1 {
      assert (-d - 1) * n >= 0;
    }
  }

  /** A multiple of a positive n below n is zero. */
  lemma SmallMultiple(d: int, n: int)
    requires n > 0 && 0 <= d * n < n
    ensures d == 0
  {
    MulSign(d, n);
  }

  /** Multiplication by a positive n keeps the order of its factors. */
  lemma MulCancel(x: int, y: int, n: int)
    requires n > 0 && x * n <= y * n
    ensures x <= y
  {
    MulSign(x - y, n);
    assert (x - y) * n == x * n - y * n;
  }

  /** On non-negative operands C's division and Dafny's coincide. */
  lemma TruncDivNonNegative(a: int, b: int)
    requires a >= 0 && b > 0
    ensures TruncDiv(a, b) == a / b
  {
  }

  /** Dividing a sum of at most n channel values by n gives a channel value. */
  lemma TruncDivBounded(s: int, n: int)
    requires n > 0 && 0 <= s <= 255 * n
    ensures 0 <= TruncDiv(s, n) <= 255
  {
    DivBracket(s, n);
    MulCancel(s / n, 255, n);
  }
}
