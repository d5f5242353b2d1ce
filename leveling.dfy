/**
 * Score, level and speed: the points for a catch, the level-up rule that runs
 * after every change of score or level, and the spawn interval each level
 * implies.
 */
module Leveling {
  /** Points for one caught item. */
  const CatchPoints: int := 10
  /** Level `l` is left when the score is a positive multiple of `l * Threshold`. */
  const Threshold: int := 50
  const StartLevel: int := 1
  const StartSpeed: real := 2.0
  /** Speed gained per level. */
  const SpeedStep: real := 0.5
  /** Milliseconds between spawns at level 0, and the amount each level takes off. */
  const BaseSpawnInterval: int := 800
  const SpawnIntervalStep: int := 50

  /** Whether one run of the level-up rule raises the level. */
  predicate Fires(score: int, level: int)
    requires level >= 1
  {
    score > 0 && score % (level * Threshold) == 0
  }

  /** The speed that goes with a level: each level above the first adds SpeedStep. */
  function SpeedAt(level: int): (s: real)
    requires level >= 1
    ensures s >= StartSpeed > 0.0
  {
    StartSpeed + (level - StartLevel) as real * SpeedStep
  }

  /** A positive multiple of a positive number is at least that number. */
  lemma MultipleAtLeast(s: int, m: int)
    requires s > 0 && m > 0 && s % m == 0
    ensures s >= m
  {
  }

  /**
   * The level reached once the rule has stopped firing. The rule re-runs after
   * every level change, so one score can raise the level more than once: it
   * rises through every level at which the rule fires, and stops at the first
   * one where it does not.
   */
  function LevelAfter(score: int, level: int): (r: int)
    requires level >= 1
    ensures r >= level
    ensures !Fires(score, r)
    ensures forall l :: level <= l < r ==> Fires(score, l)
    decreases score - level * Threshold + Threshold
  {
    if Fires(score, level) then
      MultipleAtLeast(score, level * Threshold);
      LevelAfter(score, level + 1)
    else level
  }

  /**
   * The rule never fires on a score that is not a positive multiple of
   * Threshold, so a level change needs a score of 50, 100, 150, ...
   */
  lemma FiresOnlyOnThresholds(score: int, level: int)
    requires level >= 1
    requires Fires(score, level)
    ensures score > 0 && score % Threshold == 0
    ensures score >= level * Threshold
  {
    MultipleAtLeast(score, level * Threshold);
    var q := score / (level * Threshold);
    assert score == Threshold * (level * q);
  }

  /**
   * Milliseconds between two spawns at a level. Nothing clamps it: from level
   * 16 on it is zero or negative.
   */
  function SpawnInterval(level: int): (ms: int)
    ensures ms > 0 <==> level <= 15
    ensures level >= 1 ==> ms < BaseSpawnInterval
    ensures ms % SpawnIntervalStep == 0
  {
    BaseSpawnInterval - level * SpawnIntervalStep
  }

  /** Spawns come strictly faster at every level up. */
  lemma SpawnIntervalShrinks(level: int, higher: int)
    requires level < higher
    ensures SpawnInterval(higher) <= SpawnInterval(level) - SpawnIntervalStep
  {
  }

  /**
   * Reaching 50 at level 1 raises the level once; a tick that catches two items
   * at once can jump from 40 to 60 and pass 50 without a level-up; reaching 100
   * at level 1 then raises the level twice in a row.
   */
  lemma ThresholdExamples()
    ensures LevelAfter(50, 1) == 2
    ensures !Fires(60, 1)
    ensures LevelAfter(100, 1) == 3
  {
  }
}
