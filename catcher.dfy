/**
 * The catcher (the bin at the bottom of the play area) and the two ways the
 * player moves it: a pointer coordinate turned into a percentage of the play
 * area's width, and the two on-screen step buttons. Every position the player
 * can reach lies in [MinPosition, MaxPosition].
 */
module Catcher {
  import opened Geometry

  const MinPosition: real := 5.0
  const MaxPosition: real := 95.0
  const StartPosition: real := 50.0
  /** How far one press of a step button moves the catcher. */
  const Step: real := 10.0

  function Max(a: real, b: real): real { if a >= b then a else b }
  function Min(a: real, b: real): real { if a <= b then a else b }

  /** `max(5, min(95, x))`: the nearest admissible catcher position. */
  function Clamp(x: real): (r: real)
    ensures MinPosition <= r <= MaxPosition
    ensures MinPosition <= x <= MaxPosition ==> r == x
    ensures x < MinPosition ==> r == MinPosition
    ensures x > MaxPosition ==> r == MaxPosition
  {
    Max(MinPosition, Min(MaxPosition, x))
  }

  /** The pointer's horizontal coordinate as a percentage of the play area's width. */
  function PointerPercent(clientX: real, area: Rect): (p: real)
    requires area.width > 0.0
    ensures p >= 0.0 <==> clientX >= area.left
    ensures p <= 100.0 <==> clientX <= area.Right()
    ensures clientX == area.left ==> p == 0.0
    ensures clientX == area.Right() ==> p == 100.0
  {
    var relative := clientX - area.left;
    var fraction := relative / area.width;
    assert relative == fraction * area.width;
    assert relative - area.width == (fraction - 1.0) * area.width;
    ScaleKeepsSign(fraction, area.width);
    ScaleKeepsSign(fraction - 1.0, area.width);
    assert (area.Right() - area.left) / area.width == 1.0;
    fraction * 100.0
  }

  /** Scaling by a positive width keeps the sign. */
  lemma ScaleKeepsSign(a: real, w: real)
    requires w > 0.0
    ensures a * w >= 0.0 <==> a >= 0.0
    ensures a * w <= 0.0 <==> a <= 0.0
  {
  }

  /** A pointer further right never gives a smaller percentage, and a pointer strictly further right a larger one. */
  lemma PointerPercentMonotone(a: real, b: real, area: Rect)
    requires area.width > 0.0
    requires a <= b
    ensures PointerPercent(a, area) <= PointerPercent(b, area)
    ensures a < b ==> PointerPercent(a, area) < PointerPercent(b, area)
  {
    var fa := (a - area.left) / area.width;
    var fb := (b - area.left) / area.width;
    assert b - a == (fb - fa) * area.width;
    ScaleKeepsSign(fb - fa, area.width);
  }

  /** The left step button: ten points to the left, never past MinPosition. */
  function StepLeft(p: real): (r: real)
    ensures r >= MinPosition
    ensures MinPosition <= p <= MaxPosition ==> MinPosition <= r <= p
    ensures p - Step >= MinPosition ==> r == p - Step
    ensures p - Step < MinPosition ==> r == MinPosition
  {
    Max(MinPosition, p - Step)
  }

  /** The right step button: ten points to the right, never past MaxPosition. */
  function StepRight(p: real): (r: real)
    ensures r <= MaxPosition
    ensures MinPosition <= p <= MaxPosition ==> p <= r <= MaxPosition
    ensures p + Step <= MaxPosition ==> r == p + Step
    ensures p + Step > MaxPosition ==> r == MaxPosition
  {
    Min(MaxPosition, p + Step)
  }

  /** Away from the edges, one step in each direction brings the catcher back. */
  lemma StepsUndoEachOther(p: real)
    requires MinPosition + Step <= p <= MaxPosition - Step
    ensures StepLeft(StepRight(p)) == p
    ensures StepRight(StepLeft(p)) == p
  {
  }
}
