/** The framework's configuration: the pass thresholds of the three levels,
    held as class attributes that the API can change at run time, and the
    fixed scoring scale. */
module Configuration {

  import opened Results

  /** Every level is scored out of 10. */
  const Level1MaxScore: nat := 10
  const Level2MaxScore: nat := 10
  const Level3MaxScore: nat := 10

  /** Thresholds used when the environment does not set them. */
  const DefaultLevel1Threshold: real := 7.0
  const DefaultLevel2Threshold: real := 6.0
  const DefaultLevel3Threshold: real := 8.0

  /** What `get_threshold` answers for a level it does not know. */
  const UnknownLevelThreshold: real := 7.0

  /** `score >= threshold if score is not None else False`: a missing score fails. */
  predicate Passes(score: Option<nat>, threshold: real)
  {
    score.Some? && score.value as real >= threshold
  }

  class Config {
    var level1Threshold: real
    var level2Threshold: real
    var level3Threshold: real

    /** The thresholds as loaded at start-up: a value found in the
        environment (already parsed as a float) or the default. */
    constructor (env1: Option<real>, env2: Option<real>, env3: Option<real>)
      ensures level1Threshold == (if env1.Some? then env1.value else DefaultLevel1Threshold)
      ensures level2Threshold == (if env2.Some? then env2.value else DefaultLevel2Threshold)
      ensures level3Threshold == (if env3.Some? then env3.value else DefaultLevel3Threshold)
    {
      level1Threshold := if env1.Some? then env1.value else DefaultLevel1Threshold;
      level2Threshold := if env2.Some? then env2.value else DefaultLevel2Threshold;
      level3Threshold := if env3.Some? then env3.value else DefaultLevel3Threshold;
    }

    /** The threshold of a level; levels other than 1, 2 and 3 get 7.0. */
    function GetThreshold(level: int): (t: real)
      reads this
      ensures level == 1 ==> t == level1Threshold
      ensures level == 2 ==> t == level2Threshold
      ensures level == 3 ==> t == level3Threshold
      ensures level < 1 || level > 3 ==> t == UnknownLevelThreshold
    {
      if level == 1 then level1Threshold
      else if level == 2 then level2Threshold
      else if level == 3 then level3Threshold
      else UnknownLevelThreshold
    }

    /** Sets the threshold of level 1, 2 or 3; any other level is ignored.
        Afterwards the level reads back the new value and every other level
        keeps its old one. */
    method SetThreshold(level: int, value: real)
      modifies this
      ensures 1 <= level <= 3 ==> GetThreshold(level) == value
      ensures forall l :: l != level ==> GetThreshold(l) == old(GetThreshold(l))
      ensures (level < 1 || level > 3) ==>
        level1Threshold == old(level1Threshold) && level2Threshold == old(level2Threshold) && level3Threshold == old(level3Threshold)
      ensures level != 1 ==> level1Threshold == old(level1Threshold)
      ensures level != 2 ==> level2Threshold == old(level2Threshold)
      ensures level != 3 ==> level3Threshold == old(level3Threshold)
      ensures level == 1 ==> level1Threshold == value
      ensures level == 2 ==> level2Threshold == value
      ensures level == 3 ==> level3Threshold == value
    {
      if level == 1 {
        level1Threshold := value;
      } else if level == 2 {
        level2Threshold := value;
      } else if level == 3 {
        level3Threshold := value;
      }
    }
  }
}
