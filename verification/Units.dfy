/** User units and motor steps: `conv2bareposition` / `conv2postion` for one axis
    (src/core/IAPBoard.cpp:345-378), over exact reals. */
module Units {
  import opened Basics

  /** User units to steps: divide by the factor, add the zero offset, drop the fraction. */
  function ToSteps(u: real, factor: real, offset: int): int
    requires factor != 0.0
  {
    Trunc(u / factor + offset as real)
  }

  /** Steps to user units. */
  function ToUnits(steps: int, factor: real, offset: int): real {
    (steps - offset) as real * factor
  }

  lemma ScaledBelow(a: real, c: real, p: real)
    requires p == a * c && -1.0 < a < 1.0 && c > 0.0
    ensures -c < p < c
  {
    ProductStrict(a, 1.0, c);
    ProductStrict(-1.0, a, c);
    assert 1.0 * c == c && -1.0 * c == -c;
  }

  lemma ProductDifference(a: real, b: real, c: real)
    ensures a * c - b * c == (a - b) * c
  {
  }

  lemma QuotientBack(u: real, f: real)
    requires f != 0.0
    ensures u / f * f == u
  {
  }

  lemma ProductBack(s: real, f: real)
    requires f != 0.0
    ensures s * f / f == s
  {
  }

  /** Steps to units to steps loses nothing. */
  lemma StepsRoundTrip(steps: int, factor: real, offset: int)
    requires factor != 0.0
    ensures ToSteps(ToUnits(steps, factor, offset), factor, offset) == steps
  {
    var u := ToUnits(steps, factor, offset);
    ProductBack((steps - offset) as real, factor);
    assert u / factor + offset as real == steps as real;
  }

  /** Units to steps to units is off by strictly less than one step's worth. */
  lemma UnitsRoundTrip(u: real, factor: real, offset: int)
    requires factor != 0.0
    ensures Abs(ToUnits(ToSteps(u, factor, offset), factor, offset) - u) < Abs(factor)
  {
    var q := u / factor;
    TruncWithinOne(q + offset as real);
    GapInUnits(u, ToSteps(u, factor, offset), factor, offset);
  }

  /** The fraction is dropped towards zero steps, whatever the signs. */
  lemma TowardsZero(u: real, factor: real, offset: int)
    requires factor != 0.0
    ensures Abs(ToSteps(u, factor, offset) as real - (u / factor + offset as real)) < 1.0
    ensures Abs(ToSteps(u, factor, offset) as real) <= Abs(u / factor + offset as real)
  {
    TruncWithinOne(u / factor + offset as real);
    hide Trunc, Abs;
  }

  lemma GapInUnits(u: real, s: int, factor: real, offset: int)
    requires factor != 0.0
    requires Abs((s - offset) as real - u / factor) < 1.0
    ensures Abs(ToUnits(s, factor, offset) - u) < Abs(factor)
  {
    var steps, q := (s - offset) as real, u / factor;
    ProductDifference(steps, q, factor);
    QuotientBack(u, factor);
    var err := steps * factor - u;
    assert err == (steps - q) * factor;
    if factor > 0.0 {
      ScaledBelow(steps - q, factor, err);
    } else {
      assert err == (q - steps) * -factor;
      ScaledBelow(q - steps, -factor, err);
    }
  }

  lemma QuotientMonotone(a: real, b: real, f: real)
    requires a <= b && f != 0.0
    ensures f > 0.0 ==> a / f <= b / f
    ensures f < 0.0 ==> a / f >= b / f
  {
    QuotientBack(a, f);
    QuotientBack(b, f);
    var qa, qb := a / f, b / f;
    if f > 0.0 && qb < qa {
      ProductStrict(qb, qa, f);
    }
    if f < 0.0 && qa < qb {
      ProductStrict(qa, qb, -f);
    }
  }

  /** Order is kept by positive factors and reversed by negative ones; only weakly on the way to
      steps, strictly on the way back. */
  lemma ConversionOrder(u: real, v: real, s: int, t: int, factor: real, offset: int)
    requires factor != 0.0 && u <= v && s < t
    ensures factor > 0.0 ==> ToSteps(u, factor, offset) <= ToSteps(v, factor, offset)
    ensures factor < 0.0 ==> ToSteps(u, factor, offset) >= ToSteps(v, factor, offset)
    ensures factor > 0.0 ==> ToUnits(s, factor, offset) < ToUnits(t, factor, offset)
    ensures factor < 0.0 ==> ToUnits(s, factor, offset) > ToUnits(t, factor, offset)
  {
    StepsOrder(u, v, factor, offset);
    UnitsOrder((s - offset) as real, (t - offset) as real, factor);
    hide ToSteps;
  }

  lemma StepsOrder(u: real, v: real, factor: real, offset: int)
    requires factor != 0.0 && u <= v
    ensures factor > 0.0 ==> ToSteps(u, factor, offset) <= ToSteps(v, factor, offset)
    ensures factor < 0.0 ==> ToSteps(u, factor, offset) >= ToSteps(v, factor, offset)
  {
    QuotientMonotone(u, v, factor);
    var qu, qv, o := u / factor, v / factor, offset as real;
    hide Trunc;
    if factor > 0.0 {
      TruncMonotone(qu + o, qv + o);
    } else {
      TruncMonotone(qv + o, qu + o);
    }
  }

  lemma UnitsOrder(a: real, b: real, factor: real)
    requires a < b
    ensures factor > 0.0 ==> a * factor < b * factor
    ensures factor < 0.0 ==> a * factor > b * factor
  {
    if factor > 0.0 {
      ProductStrict(a, b, factor);
    }
    if factor < 0.0 {
      ProductStrict(a, b, -factor);
    }
  }

  /** A relative move converts its distance like an absolute target, so it adds the zero offset.
      The motor is therefore displaced by the requested distance to strictly within one step for
      every request exactly when the offset is zero. */
  lemma RelativeMoveExact(factor: real, offset: int)
    requires factor != 0.0
    ensures (forall d: real :: Abs(ToSteps(d, factor, offset) as real - d / factor) < 1.0) <==> offset == 0
  {
    if forall d: real :: Abs(ToSteps(d, factor, offset) as real - d / factor) < 1.0 {
      var zero := 0.0;
      assert zero / factor == 0.0;
      assert Abs(ToSteps(zero, factor, offset) as real - zero / factor) < 1.0;
      assert ToSteps(zero, factor, offset) == offset;
    }
    if offset == 0 {
      forall d: real
        ensures Abs(ToSteps(d, factor, offset) as real - d / factor) < 1.0
      {
        TruncWithinOne(d / factor);
      }
    }
  }

  /** An absolute move to 0 user units targets the offset itself. */
  lemma ZeroTargetsOffset(factor: real, offset: int)
    requires factor != 0.0
    ensures ToSteps(0.0, factor, offset) == offset
    ensures ToUnits(offset, factor, offset) == 0.0
  {
    assert 0.0 / factor == 0.0;
  }
}
