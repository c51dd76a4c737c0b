/** Speed-dependent battery autonomy (src/utils/calculations.py). The
    geometric helpers of that file (great-circle distance, bearing, wind
    adjusted speed) are floating-point oracles and appear elsewhere only as
    function parameters. */
module Calculations {

  /** Autonomy of the battery at a cruise speed: flat at or below 36,
      falling with the square of the speed above it. */
  function Autonomy(speed: int, base: real, correction: real): (a: real)
    ensures base > 0.0 && correction > 0.0 ==> 0.0 < a <= base * correction
  {
    if speed <= 36 then base * correction
    else
      var q := 36.0 / speed as real;
      QuotientBelowOne(speed);
      ProductBelow(base, correction, q);
      base * (q * q) * correction
  }

  lemma QuotientBelowOne(speed: int)
    requires speed > 36
    ensures 0.0 < 36.0 / speed as real < 1.0
  {
  }

  lemma ProductBelow(base: real, correction: real, q: real)
    requires 0.0 < q < 1.0
    ensures base > 0.0 && correction > 0.0 ==> 0.0 < base * (q * q) * correction <= base * correction
  {
    if base > 0.0 && correction > 0.0 {
      assert 0.0 < q * q < 1.0 by {
        assert q * q < q * 1.0;
      }
      assert base * (q * q) < base * 1.0;
      assert base * (q * q) * correction < base * correction;
      assert 0.0 < base * (q * q);
    }
  }

  /** Above the minimum speed, autonomy times the square of the speed is the
      constant 36^2 * base * correction (an inverse-square law). */
  lemma {:induction false} AutonomyInverseSquare(speed: int, base: real, correction: real)
    requires speed > 36
    ensures Autonomy(speed, base, correction) * (speed as real * speed as real) == 1296.0 * base * correction
  {
    var s := speed as real;
    var q := 36.0 / s;
    assert q * s == 36.0;
    calc {
      Autonomy(speed, base, correction) * (s * s);
      base * (q * q) * correction * (s * s);
      base * correction * ((q * s) * (q * s));
      { assert q * s == 36.0; }
      base * correction * (36.0 * (q * s));
      base * correction * (36.0 * 36.0);
    }
  }

  /** Strictly decreasing in the speed above 36, for a positive base and
      correction. */
  lemma {:induction false} AutonomyStrictlyDecreasing(s1: int, s2: int, base: real, correction: real)
    requires 36 < s1 < s2
    requires base > 0.0 && correction > 0.0
    ensures Autonomy(s1, base, correction) > Autonomy(s2, base, correction)
  {
    var k := base * correction;
    assert k > 0.0;
    var q1 := 36.0 / s1 as real;
    var q2 := 36.0 / s2 as real;
    assert q1 * (s1 as real) == 36.0;
    assert q2 * (s2 as real) == 36.0;
    assert 0.0 < q2 < q1 by {
      QuotientBelowOne(s2);
      assert q2 * (s2 as real) == q1 * (s1 as real);
      assert q1 * (s1 as real) < q1 * (s2 as real);
    }
    assert q2 * q2 < q1 * q1 by {
      assert q2 * q2 < q2 * q1;
      assert q2 * q1 < q1 * q1;
    }
    assert Autonomy(s1, base, correction) == k * (q1 * q1);
    assert Autonomy(s2, base, correction) == k * (q2 * q2);
    assert k * (q2 * q2) < k * (q1 * q1);
  }

  /** Never increasing in the speed, over all speeds. */
  lemma {:induction false} AutonomyNonIncreasing(s1: int, s2: int, base: real, correction: real)
    requires s1 <= s2
    requires base > 0.0 && correction > 0.0
    ensures Autonomy(s1, base, correction) >= Autonomy(s2, base, correction)
  {
    if s1 <= 36 {
    } else if s1 < s2 {
      AutonomyStrictlyDecreasing(s1, s2, base, correction);
    }
  }

  /** The two examples of the repository's autonomy tests, with the
      configured base 5000 and correction 0.93: 60 km/h gives a positive
      autonomy under 7200, and 40 km/h more than 80 km/h. */
  lemma AutonomyExamples()
    ensures Autonomy(60, 5000.0, 0.93) == 1674.0
    ensures 0.0 < Autonomy(60, 5000.0, 0.93) < 7200.0
    ensures Autonomy(40, 5000.0, 0.93) > Autonomy(80, 5000.0, 0.93)
  {
    assert Autonomy(60, 5000.0, 0.93) == 5000.0 * (0.6 * 0.6) * 0.93;
    AutonomyStrictlyDecreasing(40, 80, 5000.0, 0.93);
  }
}
