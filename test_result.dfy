/** The summary of a finished quiz and its derived score (TestResult.kt). */
module TestResults {

  /** The pass mark, in percent; the boundary itself passes. */
  const PassThreshold: int := 80

  /**
   * Kotlin's `Int` division: the quotient is truncated toward zero (not Euclidean as Dafny's `/`).
   * So `q * b` lies between zero and `a`, less than one divisor away from `a`: the multiple of `b`
   * nearest `a` on the side of zero.
   */
  function TruncDiv(a: int, b: int): (q: int)
    requires b != 0
    ensures 0 <= a ==> 0 <= q * b <= a && a - q * b < Abs(b)
    ensures a < 0 ==> a <= q * b <= 0 && q * b - a < Abs(b)
  {
    var m := Abs(a) / Abs(b);
    TruncDivStep(a, b, m);
    if (a < 0) == (b < 0) then m else -m
  }

  function Abs(x: int): (r: nat)
    ensures r == x || r == -x
  {
    if x < 0 then -x else x
  }

  /** The magnitude of the quotient times the divisor lands within one divisor below the dividend's magnitude. */
  lemma TruncDivStep(a: int, b: int, m: int)
    requires b != 0 && m == Abs(a) / Abs(b)
    ensures 0 <= m * Abs(b) <= Abs(a) < m * Abs(b) + Abs(b)
    ensures (if (a < 0) == (b < 0) then m else -m) * b == (if a < 0 then -(m * Abs(b)) else m * Abs(b))
  {
    var x, y := Abs(a), Abs(b);
    EuclidNat(x, y);
    if b < 0 {
      NegateFactor(m, b);
    }
  }

  /** Dafny's division on a natural number and a positive divisor. */
  lemma EuclidNat(x: nat, y: nat)
    requires 0 < y
    ensures 0 <= (x / y) * y <= x < (x / y) * y + y
  {
    var m, r := x / y, x % y;
    assert x == y * m + r && 0 <= r < y;
    assert 0 <= m;
  }

  lemma NegateFactor(m: int, b: int)
    ensures (-m) * b == m * (-b) && m * b == -(m * (-b))
  {
  }

  datatype TestResult = TestResult(
    categoryId: int,
    totalQuestions: int,
    correctAnswers: int,
    timeSpent: int,
    completedAt: int)
  {
    /**
     * The score in whole percent, `correctAnswers * 100 / totalQuestions` in Kotlin's truncating
     * division. A zero total throws ArithmeticException in the source, hence the requires.
     * For a meaningful tally it is the floor of the exact percentage, between 0 and 100.
     */
    function Percentage(): (p: int)
      requires totalQuestions != 0
      ensures 0 <= correctAnswers && 0 < totalQuestions ==>
                p * totalQuestions <= correctAnswers * 100 < (p + 1) * totalQuestions
      ensures 0 <= correctAnswers <= totalQuestions ==> 0 <= p <= 100
    {
      var p := TruncDiv(correctAnswers * 100, totalQuestions);
      if 0 <= correctAnswers && 0 < totalQuestions then
        TruncDivBrackets(correctAnswers * 100, totalQuestions);
        PercentBetweenBounds(p, correctAnswers, totalQuestions);
        p
      else
        p
    }

    /**
     * Whether the attempt passes: at least 80 percent, boundary included. For a meaningful tally
     * that is exactly "at least four fifths of the answers are correct".
     */
    predicate IsPassed()
      requires totalQuestions != 0
      ensures 0 <= correctAnswers && 0 < totalQuestions ==>
                (IsPassed() <==> 5 * correctAnswers >= 4 * totalQuestions)
    {
      if 0 <= correctAnswers && 0 < totalQuestions then
        FourFifthsMark(Percentage(), correctAnswers, totalQuestions);
        Percentage() >= PassThreshold
      else
        Percentage() >= PassThreshold
    }
  }

  /** For a non-negative dividend and a positive divisor, truncation is the floor: the quotient brackets the dividend. */
  lemma TruncDivBrackets(a: int, b: int)
    requires 0 <= a && 0 < b
    ensures TruncDiv(a, b) * b <= a < (TruncDiv(a, b) + 1) * b
  {
    var q, r := a / b, a % b;
    assert a == b * q + r && 0 <= r < b;
    assert TruncDiv(a, b) == q;
    assert (q + 1) * b == q * b + b;
  }

  /** A whole percentage bracketing a tally of at most the total lies between 0 and 100. */
  lemma PercentBetweenBounds(p: int, c: int, t: int)
    requires 0 < t && p * t <= c * 100 < (p + 1) * t
    ensures 0 <= c <= t ==> 0 <= p <= 100
  {
    if 0 <= c <= t {
      if p > 100 {
        MulStrictMono(100, p, t);
      } else if p + 1 < 0 {
        MulStrictMono(p + 1, 0, t);
      }
    }
  }

  /** Multiplying by a positive number keeps a strict order: the step the score proofs rest on. */
  lemma MulStrictMono(x: int, y: int, t: int)
    requires x < y && 0 < t
    ensures x * t < y * t
  {
    var d := y - x;
    assert y * t == x * t + d * t;
    assert d * t >= t by {
      var e := d - 1;
      assert d * t == t + e * t;
    }
  }

  /** A whole percentage bracketing `c` of `t` reaches the pass mark exactly when `c` is at least four fifths of `t`. */
  lemma FourFifthsMark(p: int, c: int, t: int)
    requires 0 < t && p * t <= c * 100 < (p + 1) * t
    ensures p >= PassThreshold <==> 5 * c >= 4 * t
  {
    if p >= 80 {
      if p > 80 { MulStrictMono(80, p, t); }
    } else {
      if p + 1 < 80 { MulStrictMono(p + 1, 80, t); }
    }
  }

  /** With the total fixed, more correct answers never lower the percentage nor turn a pass into a fail. */
  lemma PercentageMonotone(r: TestResult, more: int)
    requires 0 <= r.correctAnswers <= more && 0 < r.totalQuestions
    ensures r.(correctAnswers := more).Percentage() >= r.Percentage()
    ensures r.IsPassed() ==> r.(correctAnswers := more).IsPassed()
  {
    var s := r.(correctAnswers := more);
    var p, q, t := r.Percentage(), s.Percentage(), r.totalQuestions;
    if p > q {
      MulStrictMono(q, p - 1, t);
    }
  }

  /** A perfect tally scores 100 percent and passes. */
  lemma AllCorrectPasses(r: TestResult)
    requires 0 < r.totalQuestions && r.correctAnswers == r.totalQuestions
    ensures r.Percentage() == 100 && r.IsPassed()
  {
    var p, t := r.Percentage(), r.totalQuestions;
    if p < 100 {
      MulStrictMono(p + 1, 100, t);
    } else if p > 100 {
      MulStrictMono(100, p, t);
    }
  }

  /** The inclusive boundary: 8 of 10 is exactly 80 percent and passes, 7 of 10 is 70 percent and fails. */
  lemma PassBoundary(categoryId: int, timeSpent: int, completedAt: int)
    ensures TestResult(categoryId, 10, 8, timeSpent, completedAt).Percentage() == 80
    ensures TestResult(categoryId, 10, 8, timeSpent, completedAt).IsPassed()
    ensures TestResult(categoryId, 10, 7, timeSpent, completedAt).Percentage() == 70
    ensures !TestResult(categoryId, 10, 7, timeSpent, completedAt).IsPassed()
  {
  }

  /** Truncating division differs from flooring on a negative tally: -1 of 3 is -33 percent, not -34. */
  lemma NegativeTallyTruncates()
    ensures TestResult(0, 3, -1, 0, 0).Percentage() == -33
  {
  }
}
