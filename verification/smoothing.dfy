/** Linear interpolation as `@phucbm/lerp` computes it, over exact reals, and the
    facts about repeated smoothing that the controller relies on. */
module Smoothing {
  import opened JsValues
  import opened RealArith

  /** The default of the library's third parameter: a call that passes `undefined`
      as the fraction interpolates with this value. */
  const DefaultFraction: real := 0.1

  /** `x` lies on the closed segment between `a` and `b`, in either order. */
  predicate Between(x: real, a: real, b: real)
  {
    (a <= x <= b) || (b <= x <= a)
  }

  /** One smoothing step from `a` toward `b` with weight `t`, as the library
      computes it. Its properties are stated by the lemmas below. */
  function Lerp(a: real, b: real, t: real): real
  {
    a * (1.0 - t) + b * t
  }

  /** The remaining gap to the target is the old gap scaled by `1 - t`; the
      distance covered is the old gap scaled by `t`. */
  lemma LerpGap(a: real, b: real, t: real)
    ensures Lerp(a, b, t) - b == (a - b) * (1.0 - t)
    ensures Lerp(a, b, t) - a == (b - a) * t
  {
  }

  /** For a weight in [0, 1] one step stays on the segment between start and target. */
  lemma LerpBetween(a: real, b: real, t: real)
    requires 0.0 <= t <= 1.0
    ensures Between(Lerp(a, b, t), a, b)
  {
    LerpGap(a, b, t);
    SignProduct(b - a, t);
    SignProduct(a - b, 1.0 - t);
  }

  /** The form the test suite substitutes for the library, `start + (end - start) * t`,
      is the same function. */
  lemma MockLerpAgrees(a: real, b: real, t: real)
    ensures Lerp(a, b, t) == a + (b - a) * t
  {
    LerpGap(a, b, t);
  }

  /** A step with a weight strictly between 0 and 1 never lands exactly on a target
      it did not start on, and it strictly shrinks the gap. */
  lemma LerpApproaches(a: real, b: real, t: real)
    requires 0.0 < t < 1.0 && a != b
    ensures Lerp(a, b, t) != b
    ensures Abs(Lerp(a, b, t) - b) < Abs(a - b)
  {
    LerpGap(a, b, t);
    Shrink(a - b, Lerp(a, b, t) - b, 1.0 - t);
  }

  function Pow(x: real, n: nat): real
  {
    if n == 0 then 1.0 else x * Pow(x, n - 1)
  }

  lemma {:induction false} PowBounds(x: real, n: nat)
    requires 0.0 <= x <= 1.0
    ensures 0.0 <= Pow(x, n) <= 1.0
    ensures 0.0 < x ==> 0.0 < Pow(x, n)
  {
    if n > 0 {
      PowBounds(x, n - 1);
      MulBounds(Pow(x, n - 1), x);
      assert x * Pow(x, n - 1) <= 1.0;
      if 0.0 < x {
        NonZeroProduct(x, Pow(x, n - 1));
      }
    }
  }

  /** `n` smoothing steps toward a fixed target `b`, first step first. */
  function Iterate(a: real, b: real, t: real, n: nat): real
    decreases n
  {
    if n == 0 then a else Iterate(Lerp(a, b, t), b, t, n - 1)
  }

  /** The last of `n + 1` steps is one more step from where `n` steps ended. */
  lemma {:induction false} IterateLast(a: real, b: real, t: real, n: nat)
    ensures Iterate(a, b, t, n + 1) == Lerp(Iterate(a, b, t, n), b, t)
    decreases n
  {
    if n > 0 {
      IterateLast(Lerp(a, b, t), b, t, n - 1);
    }
  }

  /** After `n` steps toward a fixed target the gap is the initial gap times
      `(1 - t)^n`: exponential decay toward the target. */
  lemma {:induction false} IterateGap(a: real, b: real, t: real, n: nat)
    ensures Iterate(a, b, t, n) - b == (a - b) * Pow(1.0 - t, n)
    decreases n
  {
    if n > 0 {
      IterateGap(Lerp(a, b, t), b, t, n - 1);
      LerpGap(a, b, t);
      assert Iterate(a, b, t, n) == Iterate(Lerp(a, b, t), b, t, n - 1);
      assert Pow(1.0 - t, n) == (1.0 - t) * Pow(1.0 - t, n - 1);
      ScaleTwice(Iterate(a, b, t, n) - b, Lerp(a, b, t) - b, a - b, 1.0 - t,
                 Pow(1.0 - t, n - 1), Pow(1.0 - t, n));
    }
  }

  /** `now` is `start` with its magnitude scaled by `(1 - t)^n`. */
  predicate Decayed(now: real, start: real, t: real, n: nat)
  {
    Abs(now) == Abs(start) * Pow(1.0 - t, n)
  }

  /** The distance to the target after `n` steps, for a weight in [0, 1]. */
  lemma IterateDistance(a: real, b: real, t: real, n: nat)
    requires 0.0 <= t <= 1.0
    ensures Decayed(Iterate(a, b, t, n) - b, a - b, t, n)
  {
    IterateGap(a, b, t, n);
    PowBounds(1.0 - t, n);
    AbsOfScaled(Iterate(a, b, t, n) - b, a - b, Pow(1.0 - t, n));
  }

  /** The fraction's polarity: 0 never moves, 1 lands on the target at once, and
      within [0, 1] a larger fraction leaves a smaller gap. */
  lemma FractionPolarity(a: real, b: real, t1: real, t2: real)
    requires 0.0 <= t1 <= t2 <= 1.0
    ensures Lerp(a, b, 0.0) == a && Lerp(a, b, 1.0) == b
    ensures Abs(Lerp(a, b, t2) - b) <= Abs(Lerp(a, b, t1) - b)
  {
    LerpGap(a, b, t1);
    LerpGap(a, b, t2);
    AbsOfScaled(Lerp(a, b, t1) - b, a - b, 1.0 - t1);
    AbsOfScaled(Lerp(a, b, t2) - b, a - b, 1.0 - t2);
    MulMonotone(Abs(a - b), 1.0 - t2, 1.0 - t1);
  }

  /** With a weight in [0, 1] every further step is at least as close to the target. */
  lemma IterateMonotone(a: real, b: real, t: real, n: nat)
    requires 0.0 <= t <= 1.0
    ensures Abs(Iterate(a, b, t, n + 1) - b) <= Abs(Iterate(a, b, t, n) - b)
  {
    IterateLast(a, b, t, n);
    LerpGap(Iterate(a, b, t, n), b, t);
    ContractStep(Iterate(a, b, t, n) - b, Iterate(a, b, t, n + 1) - b, 1.0 - t);
  }

  /** With a weight in [0, 1) smoothing never reaches a target it did not start on. */
  lemma IterateNeverArrives(a: real, b: real, t: real, n: nat)
    requires 0.0 <= t < 1.0 && a != b
    ensures Iterate(a, b, t, n) != b
  {
    IterateGap(a, b, t, n);
    PowBounds(1.0 - t, n);
    NonZeroProduct(a - b, Pow(1.0 - t, n));
    assert Iterate(a, b, t, n) - b != 0.0;
  }

  /** Smoothing toward 0: the magnitude decays as `(1 - t)^n` and, for a weight
      below 1, a non-zero start never reaches 0. */
  lemma DecayToZero(a: real, t: real, n: nat)
    requires 0.0 <= t <= 1.0
    ensures Decayed(Iterate(a, 0.0, t, n), a, t, n)
    ensures t < 1.0 && a != 0.0 ==> Iterate(a, 0.0, t, n) != 0.0
  {
    var g, p := Iterate(a, 0.0, t, n), Pow(1.0 - t, n);
    IterateGap(a, 0.0, t, n);
    assert g == a * p;
    PowBounds(1.0 - t, n);
    AbsOfScaled(g, a, p);
    if t < 1.0 && a != 0.0 {
      NonZeroProduct(a, p);
    }
  }

  /** The fraction the library uses for a settings value: `undefined` takes the
      parameter default. */
  function FractionOf(f: Prop<real>): real
  {
    match f
    case Defined(x) => x
    case Undefined => DefaultFraction
  }

  /** The library call on JavaScript numbers: NaN in either position is NaN out;
      otherwise one real step with the resolved fraction, which closes the gap by
      that fraction and, for a fraction in [0, 1], lands between the two ends. */
  function LerpNum(a: Num, b: Num, f: Prop<real>): (r: Num)
    ensures r.Finite? <==> a.Finite? && b.Finite?
    ensures r.Finite? ==> r.v - b.v == (a.v - b.v) * (1.0 - FractionOf(f))
    ensures r.Finite? && 0.0 <= FractionOf(f) <= 1.0 ==> Between(r.v, a.v, b.v)
  {
    if a.Finite? && b.Finite? then
      var t := FractionOf(f);
      LerpGap(a.v, b.v, t);
      if 0.0 <= t <= 1.0 then LerpBetween(a.v, b.v, t); Finite(Lerp(a.v, b.v, t))
      else Finite(Lerp(a.v, b.v, t))
    else NaN
  }
}
