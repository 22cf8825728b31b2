/**
 * C++ integer division (truncation toward zero) and the two places the
 * controller uses it: the FID delay shift computed when a recording starts
 * and the elapsed-minutes test of the auto-stop rule.
 */
module CDivision {

  function Abs(x: int): (r: nat)
    ensures r == x || r == -x
  {
    if x < 0 then -x else x
  }

  /** `a / b` as C++ computes it on `int`: the quotient of the magnitudes, negated when the signs differ. */
  function TruncDiv(a: int, b: int): (q: int)
    requires b != 0
  {
    if a >= 0 && b > 0 then a / b
    else if a < 0 && b < 0 then (-a) / (-b)
    else if a < 0 then -((-a) / b)
    else -(a / (-b))
  }

  /**
   * The C++ division identity: the remainder `a - q * b` left by the
   * truncated quotient is smaller than the divisor in magnitude and has the
   * sign of the dividend (or is zero).
   */
  lemma TruncDivRemainder(a: int, b: int)
    requires b != 0
    ensures Abs(a - TruncDiv(a, b) * b) < Abs(b)
    ensures a - TruncDiv(a, b) * b == 0 || (a - TruncDiv(a, b) * b < 0 <==> a < 0)
  {
    var q := TruncDiv(a, b);
    if a >= 0 && b > 0 {
      FloorDivRemainder(a, b);
    } else if a < 0 && b < 0 {
      FloorDivRemainder(-a, -b);
      NegMul(q, -b);
    } else if a < 0 {
      FloorDivRemainder(-a, b);
      NegMul((-a) / b, b);
    } else {
      FloorDivRemainder(a, -b);
      NegMul(a / (-b), -b);
      NegMul(-(a / (-b)), -b);
    }
  }

  /** The quotient's sign follows the operands' signs, and a dividend smaller than the divisor gives 0. */
  lemma TruncDivSign(a: int, b: int)
    requires b != 0
    ensures (a >= 0) == (b > 0) ==> TruncDiv(a, b) >= 0
    ensures (a <= 0) == (b > 0) ==> TruncDiv(a, b) <= 0
    ensures Abs(a) < Abs(b) ==> TruncDiv(a, b) == 0
  {
    FloorDivBounds(Abs(a), Abs(b));
  }

  lemma FloorDivRemainder(n: int, d: int)
    requires n >= 0 && d > 0
    ensures 0 <= n - (n / d) * d < d
  {
  }

  /** Floor division of naturals: a natural quotient, bracketing the dividend, and 0 below the divisor. */
  lemma FloorDivBounds(n: int, d: int)
    requires n >= 0 && d > 0
    ensures n / d >= 0
    ensures (n / d) * d <= n < (n / d) * d + d
    ensures n < d ==> n / d == 0
  {
    var q := n / d;
    FloorDivRemainder(n, d);
    if q < 0 {
      MulMonotone(q, -1, d);
      assert false;
    }
    if n < d && q >= 1 {
      MulMonotone(1, q, d);
    }
  }

  lemma NegMul(x: int, y: int)
    ensures (-x) * y == -(x * y) && x * (-y) == -(x * y)
  {
  }

  /** On non-negative operands truncation and Dafny's floor division agree. */
  lemma TruncDivNonNegative(a: int, b: int)
    requires a >= 0 && b > 0
    ensures TruncDiv(a, b) == a / b
  {
  }

  /** Sample period in milliseconds, `1000 / samplesPerSecond`. */
  function SamplePeriodMs(samplesPerSecond: int): (p: int)
    requires 1 <= samplesPerSecond <= 1000
    ensures 1 <= p <= 1000
    ensures p * samplesPerSecond <= 1000 < (p + 1) * samplesPerSecond
  {
    QuotientBrackets(1000, samplesPerSecond);
    var p := TruncDiv(1000, samplesPerSecond);
    MulMonotone(1, samplesPerSecond, p);
    p
  }

  /**
   * The shift given to the FID wave of a new recording: the GC delay
   * converted to whole samples (truncated toward zero) and negated.
   */
  function FidShift(gcDelayMs: int, samplesPerSecond: int): (shift: int)
    requires 1 <= samplesPerSecond <= 1000
    ensures gcDelayMs >= 0 ==> shift <= 0
    ensures gcDelayMs <= 0 ==> shift >= 0
    ensures Abs(gcDelayMs) < SamplePeriodMs(samplesPerSecond) ==> shift == 0
  {
    TruncDivSign(gcDelayMs, SamplePeriodMs(samplesPerSecond));
    -TruncDiv(gcDelayMs, SamplePeriodMs(samplesPerSecond))
  }

  /**
   * For a non-negative delay the FID wave is moved back by the largest whole
   * number of sample periods that fits into the delay.
   */
  lemma {:induction false} FidShiftIsWholePeriods(gcDelayMs: int, samplesPerSecond: int)
    requires 1 <= samplesPerSecond <= 1000
    requires gcDelayMs >= 0
    ensures var n := -FidShift(gcDelayMs, samplesPerSecond);
            var p := SamplePeriodMs(samplesPerSecond);
            n >= 0 && n * p <= gcDelayMs < (n + 1) * p
  {
    var p := SamplePeriodMs(samplesPerSecond);
    QuotientBrackets(gcDelayMs, p);
  }

  /** A negative delay shifts the FID wave forward by the mirror-image amount. */
  lemma FidShiftOdd(gcDelayMs: int, samplesPerSecond: int)
    requires 1 <= samplesPerSecond <= 1000
    ensures FidShift(-gcDelayMs, samplesPerSecond) == -FidShift(gcDelayMs, samplesPerSecond)
  {
    assert Abs(-gcDelayMs) == Abs(gcDelayMs);
  }

  /** On non-negative operands the quotient brackets the dividend between two multiples of the divisor. */
  lemma QuotientBrackets(a: int, b: int)
    requires a >= 0 && b > 0
    ensures TruncDiv(a, b) >= 0
    ensures TruncDiv(a, b) * b <= a < (TruncDiv(a, b) + 1) * b
  {
    var q := TruncDiv(a, b);
    assert q == a / b;
    FloorDivBounds(a, b);
    MulSucc(q, b);
  }

  lemma MulSucc(x: int, y: int)
    ensures (x + 1) * y == x * y + y
  {
  }

  /** Whole minutes recorded, `(samples / samplesPerSecond) / 60` with both divisions truncating. */
  function ElapsedMinutes(samples: nat, samplesPerSecond: int): (m: int)
    requires samplesPerSecond >= 1
    ensures m >= 0
    ensures m * 60 * samplesPerSecond <= samples
  {
    var seconds := TruncDiv(samples, samplesPerSecond);
    QuotientBrackets(samples, samplesPerSecond);
    var minutes := TruncDiv(seconds, 60);
    QuotientBrackets(seconds, 60);
    MulMonotone(minutes * 60, seconds, samplesPerSecond);
    minutes
  }

  lemma MulMonotone(a: int, b: int, c: int)
    requires a <= b && c >= 0
    ensures a * c <= b * c
  {
  }

  /** The auto-stop rule: a positive duration limit is reached. */
  predicate AutoStopDue(samples: nat, samplesPerSecond: int, durationMinutes: int)
    requires samplesPerSecond >= 1
  {
    durationMinutes > 0 && ElapsedMinutes(samples, samplesPerSecond) >= durationMinutes
  }

  /**
   * The two truncating divisions lose nothing for the comparison: with a
   * positive limit of L minutes the rule fires exactly once the EAD wave
   * holds L * 60 * samplesPerSecond samples, and never when L <= 0.
   */
  lemma {:induction false} AutoStopThreshold(samples: nat, samplesPerSecond: int, durationMinutes: int)
    requires samplesPerSecond >= 1
    ensures AutoStopDue(samples, samplesPerSecond, durationMinutes)
            <==> durationMinutes > 0 && samples >= durationMinutes * 60 * samplesPerSecond
  {
    var s := samplesPerSecond;
    var l := durationMinutes;
    var seconds := TruncDiv(samples, s);
    QuotientBrackets(samples, s);
    var minutes := TruncDiv(seconds, 60);
    QuotientBrackets(seconds, 60);
    if l > 0 {
      if minutes >= l {
        MulMonotone(l, minutes, 60);
        MulMonotone(l * 60, minutes * 60, s);
        assert minutes * 60 * s <= samples;
      } else {
        assert minutes + 1 <= l;
        MulMonotone(minutes + 1, l, 60);
        assert seconds + 1 <= l * 60;
        MulMonotone(seconds + 1, l * 60, s);
        assert samples < l * 60 * s;
      }
    }
  }

  /** The worked example: at 100 samples/s a one-minute limit fires at sample 6000 and not before. */
  lemma AutoStopExample()
    ensures !AutoStopDue(5999, 100, 1)
    ensures AutoStopDue(6000, 100, 1)
    ensures !AutoStopDue(1000000, 100, 0)
  {
    AutoStopThreshold(5999, 100, 1);
    AutoStopThreshold(6000, 100, 1);
  }
}
