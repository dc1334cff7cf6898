/**
 * The interpolation and smoothing helpers of `TweenFuncts` (TweenFuncts.cs:5-34).
 * Each value-returning overload is a function; each `ref` overload is a
 * method whose out-parameter is the caller's variable after the call.
 */
module Tween {

  /** `Linear`: the line through `(x0, y0)` and `(x1, y1)`, evaluated at `x`. */
  function Linear(x: real, x0: real, x1: real, y0: real, y1: real): real
    requires x1 != x0
  {
    y0 + (x - x0) * (y1 - y0) / (x1 - x0)
  }

  /** The line passes through both of its end points. */
  lemma LinearEndpoints(x0: real, x1: real, y0: real, y1: real)
    requires x1 != x0
    ensures Linear(x0, x0, x1, y0, y1) == y0
    ensures Linear(x1, x0, x1, y0, y1) == y1
  {
    assert (x1 - x0) * (y1 - y0) / (x1 - x0) == y1 - y0;
  }

  /** Between its end points the line stays between their values. */
  lemma LinearBetween(x: real, x0: real, x1: real, y0: real, y1: real)
    requires x0 < x1 && y0 <= y1 && x0 <= x <= x1
    ensures y0 <= Linear(x, x0, x1, y0, y1) <= y1
  {
    var f := (x - x0) / (x1 - x0);
    DivAtMostOne(x - x0, x1 - x0);
    assert (x - x0) * (y1 - y0) / (x1 - x0) == f * (y1 - y0);
    assert 0.0 <= f * (y1 - y0) <= y1 - y0 by {
      ScaleBetween(f, y1 - y0);
    }
  }

  lemma DivAtMostOne(a: real, d: real)
    requires 0.0 <= a <= d && d > 0.0
    ensures 0.0 <= a / d <= 1.0
  {
    assert d / d == 1.0;
  }

  lemma ScaleBetween(f: real, d: real)
    requires 0.0 <= f <= 1.0 && 0.0 <= d
    ensures 0.0 <= f * d <= d
  {
    assert d - f * d == (1.0 - f) * d;
  }

  /** Swapping the roles of the axes gives the inverse map. */
  lemma LinearInverse(x: real, x0: real, x1: real, y0: real, y1: real)
    requires x1 != x0 && y1 != y0
    ensures Linear(Linear(x, x0, x1, y0, y1), y0, y1, x0, x1) == x
  {
    var y := Linear(x, x0, x1, y0, y1);
    assert y - y0 == (x - x0) * (y1 - y0) / (x1 - x0);
    assert (y - y0) * (x1 - x0) / (y1 - y0) == x - x0;
  }

  /** `SmoothToTarget` (value overload): `current` moved by a `1/scalar` part of its distance to `target`. */
  function SmoothToTarget(current: real, target: real, scalar: real): real
    requires scalar != 0.0
  {
    current + (target - current) / scalar
  }

  /** The part of the distance to the target that a call of `SmoothToTarget` keeps. */
  function Retained(scalar: real): real
    requires scalar != 0.0
  {
    1.0 - 1.0 / scalar
  }

  /** The remaining distance to the target shrinks by the factor `1 - 1/scalar`. */
  lemma SmoothToTargetGap(current: real, target: real, scalar: real)
    requires scalar != 0.0
    ensures target - SmoothToTarget(current, target, scalar) == (target - current) * Retained(scalar)
  {
    assert (target - current) / scalar == (target - current) * (1.0 / scalar);
  }

  /** With `scalar == 1` the target is reached at once; the target itself is never left. */
  lemma SmoothToTargetFixed(current: real, target: real, scalar: real)
    requires scalar != 0.0
    ensures SmoothToTarget(current, target, 1.0) == target
    ensures SmoothToTarget(target, target, scalar) == target
  {
  }

  /** For `scalar ≥ 1` the result lies between `current` and `target`: no overshoot. */
  lemma SmoothToTargetBetween(current: real, target: real, scalar: real)
    requires scalar >= 1.0
    ensures current <= target ==> current <= SmoothToTarget(current, target, scalar) <= target
    ensures target <= current ==> target <= SmoothToTarget(current, target, scalar) <= current
  {
    var f := 1.0 / scalar;
    assert 0.0 < f <= 1.0;
    assert (target - current) / scalar == f * (target - current);
    if current <= target {
      ScaleBetween(f, target - current);
    } else {
      ScaleBetween(f, current - target);
      assert f * (target - current) == -(f * (current - target));
    }
  }

  /** `x` to the power `k`. */
  function Pow(x: real, k: nat): real
  {
    if k == 0 then 1.0 else x * Pow(x, k - 1)
  }

  /** The value after `k` successive calls of `SmoothToTarget`, as once per frame. */
  function SmoothedSteps(current: real, target: real, scalar: real, k: nat): real
    requires scalar != 0.0
  {
    if k == 0 then current else SmoothToTarget(SmoothedSteps(current, target, scalar, k - 1), target, scalar)
  }

  /** After `k` calls the distance to the target is the first distance times `(1 - 1/scalar)^k`. */
  lemma {:induction false} SmoothedStepsGap(current: real, target: real, scalar: real, k: nat)
    requires scalar != 0.0
    ensures target - SmoothedSteps(current, target, scalar, k) == (target - current) * Pow(Retained(scalar), k)
  {
    if k > 0 {
      SmoothedStepsGap(current, target, scalar, k - 1);
      SmoothToTargetGap(SmoothedSteps(current, target, scalar, k - 1), target, scalar);
      var g := Retained(scalar);
      assert (target - current) * Pow(g, k - 1) * g == (target - current) * (g * Pow(g, k - 1));
    }
  }

  /** `ExponentialSmoothing` (value overload): `input` scaled by `scalar`. */
  function ExponentialSmoothing(input: real, scalar: real): real
  {
    input * scalar
  }

  /** Scaling by one is the identity, and scaling by `1/scalar` undoes scaling by `scalar`. */
  lemma ExponentialSmoothingInverse(input: real, scalar: real)
    requires scalar != 0.0
    ensures ExponentialSmoothing(input, 1.0) == input
    ensures ExponentialSmoothing(ExponentialSmoothing(input, scalar), 1.0 / scalar) == input
  {
    assert input * scalar * (1.0 / scalar) == input * (scalar / scalar);
  }

  function ExponentialSteps(input: real, scalar: real, k: nat): real
  {
    if k == 0 then input else ExponentialSmoothing(ExponentialSteps(input, scalar, k - 1), scalar)
  }

  /** `k` calls scale by `scalar^k`. */
  lemma {:induction false} ExponentialStepsPow(input: real, scalar: real, k: nat)
    ensures ExponentialSteps(input, scalar, k) == input * Pow(scalar, k)
  {
    if k > 0 {
      ExponentialStepsPow(input, scalar, k - 1);
      assert input * Pow(scalar, k - 1) * scalar == input * (scalar * Pow(scalar, k - 1));
    }
  }

  /** `LinearSmoothing` (value overload): `input` moved by the fixed amount `scalar`. */
  function LinearSmoothing(input: real, scalar: real): real
  {
    input + scalar
  }

  /** Moving by zero is the identity, and moving by `-scalar` undoes moving by `scalar`. */
  lemma LinearSmoothingInverse(input: real, scalar: real)
    ensures LinearSmoothing(input, 0.0) == input
    ensures LinearSmoothing(LinearSmoothing(input, scalar), -scalar) == input
  {
  }

  function LinearSteps(input: real, scalar: real, k: nat): real
  {
    if k == 0 then input else LinearSmoothing(LinearSteps(input, scalar, k - 1), scalar)
  }

  /** `k` calls move by `k·scalar`. */
  lemma {:induction false} LinearStepsSum(input: real, scalar: real, k: nat)
    ensures LinearSteps(input, scalar, k) == input + (k as real) * scalar
  {
    if k > 0 {
      LinearStepsSum(input, scalar, k - 1);
    }
  }

  /** The `ref` overload of `SmoothToTarget`: `current` is returned updated in place. */
  method SmoothToTargetRef(current: real, target: real, scalar: real) returns (updated: real)
    requires scalar != 0.0
    ensures updated == SmoothToTarget(current, target, scalar)
    ensures target - updated == (target - current) * Retained(scalar)
  {
    updated := current;
    updated := updated + (target - updated) / scalar;
    SmoothToTargetGap(current, target, scalar);
  }

  /** The `ref` overload of `ExponentialSmoothing`. */
  method ExponentialSmoothingRef(input: real, scalar: real) returns (updated: real)
    ensures updated == ExponentialSmoothing(input, scalar)
    ensures scalar != 0.0 ==> updated / scalar == input
  {
    updated := input;
    updated := updated * scalar;
  }

  /** The `ref` overload of `LinearSmoothing`. */
  method LinearSmoothingRef(input: real, scalar: real) returns (updated: real)
    ensures updated == LinearSmoothing(input, scalar)
    ensures updated - scalar == input
  {
    updated := input;
    updated := updated + scalar;
  }
}
