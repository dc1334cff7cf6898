/**
 * The per-frame decay of the fields, `fadeD` and `fadeV` (Fluid.cs:209-221),
 * cell by cell. The caller invokes them once per frame, outside `step`.
 */
module Decay {

  /** The amount `fadeD` takes from every density cell per call. */
  const FadeAmount := 0.05
  /** The largest density `fadeD` lets through. */
  const MaxDensity := 255.0
  /** The factor `fadeV` applies to every velocity component per call. */
  const Damping := 0.99

  /** Math.Clamp on reals: `v` limited to `[lo, hi]`. */
  function ClampReal(v: real, lo: real, hi: real): real
    requires lo <= hi
  {
    if v < lo then lo else if v > hi then hi else v
  }

  /** One density cell after `fadeD` (Fluid.cs:211): decremented, then clamped to `[0, 255]`. */
  function FadeCell(v: real): (r: real)
    ensures 0.0 <= r <= MaxDensity
  {
    ClampReal(v - FadeAmount, 0.0, MaxDensity)
  }

  /** The density buffer after `fadeD`: every cell faded. */
  function Fade(u: seq<real>): (r: seq<real>)
    ensures |r| == |u|
  {
    seq(|u|, k requires 0 <= k < |u| => FadeCell(u[k]))
  }

  /** One velocity component after `fadeV` (Fluid.cs:218-219). */
  function DampCell(v: real): real
  {
    v * Damping
  }

  /** A velocity buffer after `fadeV`: every cell damped. */
  function Damp(u: seq<real>): (r: seq<real>)
    ensures |r| == |u|
  {
    seq(|u|, k requires 0 <= k < |u| => DampCell(u[k]))
  }

  /** After `fadeD` every density cell lies in `[0, 255]`, and an empty cell stays empty. */
  lemma FadeInRange(u: seq<real>)
    ensures forall k | 0 <= k < |u| :: 0.0 <= Fade(u)[k] <= MaxDensity
    ensures forall k | 0 <= k < |u| && u[k] == 0.0 :: Fade(u)[k] == 0.0
  {
  }

  /** `fadeD` never increases a cell that is already within `[0, 255]`. */
  lemma FadeCellDecreases(v: real)
    requires 0.0 <= v <= MaxDensity
    ensures FadeCell(v) <= v
    ensures v > 0.0 ==> FadeCell(v) < v
  {
  }

  /** A cell after `k` consecutive calls of `fadeD`. */
  function FadeSteps(v: real, k: nat): real
  {
    if k == 0 then v else FadeCell(FadeSteps(v, k - 1))
  }

  /**
   * Repeated fading takes `FadeAmount` per call until the cell is empty:
   * after `k` calls a cell that started in `[0, 255]` holds
   * `max(v - k·0.05, 0)`.
   */
  lemma {:induction false} FadeStepsValue(v: real, k: nat)
    requires 0.0 <= v <= MaxDensity
    ensures FadeSteps(v, k) == if v - (k as real) * FadeAmount < 0.0 then 0.0 else v - (k as real) * FadeAmount
  {
    if k > 0 {
      FadeStepsValue(v, k - 1);
    }
  }

  /** A density cell in `[0, 255]` is empty after `20·255 = 5100` calls of `fadeD`, and stays empty. */
  lemma FadeStepsEmptyInRange(v: real, k: nat)
    requires 0.0 <= v <= MaxDensity && k >= 5100
    ensures FadeSteps(v, k) == 0.0
  {
    FadeStepsValue(v, k);
    assert (k as real) * FadeAmount >= 5100.0 * FadeAmount;
  }

  /** `k + 1` calls of `fadeD` are one call followed by `k` more. */
  lemma {:induction false} FadeStepsShift(v: real, k: nat)
    ensures FadeSteps(v, k + 1) == FadeSteps(FadeCell(v), k)
  {
    if k > 0 {
      FadeStepsShift(v, k - 1);
    }
  }

  /**
   * Any density cell, whatever it holds (the input may push it above 255),
   * is empty after 5101 calls of `fadeD`: the first call clamps it into
   * `[0, 255]`, and 5100 more empty it.
   */
  lemma FadeStepsEmpty(v: real, k: nat)
    requires k >= 5101
    ensures FadeSteps(v, k) == 0.0
  {
    FadeStepsShift(v, k - 1);
    FadeStepsEmptyInRange(FadeCell(v), k - 1);
  }

  /** `fadeV` shrinks every component towards zero and keeps its sign; zero stays zero. */
  lemma DampShrinks(u: seq<real>)
    ensures forall k | 0 <= k < |u| :: (u[k] >= 0.0 ==> 0.0 <= Damp(u)[k] <= u[k]) && (u[k] <= 0.0 ==> u[k] <= Damp(u)[k] <= 0.0)
    ensures forall k | 0 <= k < |u| && u[k] == 0.0 :: Damp(u)[k] == 0.0
  {
  }
}
