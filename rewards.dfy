/**
 * The score rules of the back end: the score change of one answer by
 * tier, the cat's growth stage for an accumulated score, and the score at
 * which the next stage begins.
 */
module Rewards {
  import opened Levels

  /** SCORE_RULES: (change when correct, change when incorrect) per tier. */
  function ScoreRule(tier: Tier): (rule: (int, int))
    ensures rule.0 in {1, 3, 5} && rule.1 == -1
  {
    match tier
    case Basic => (1, -1)
    case Intermediate => (3, -1)
    case Advanced => (5, -1)
  }

  /** get_score_change */
  function ScoreChange(tier: Tier, isCorrect: bool): (delta: int)
    ensures isCorrect ==> delta == (match tier case Basic => 1 case Intermediate => 3 case Advanced => 5)
    ensures !isCorrect ==> delta == -1
  {
    var (correct, incorrect) := ScoreRule(tier);
    if isCorrect then correct else incorrect
  }

  /** The last score of stages 1 to 3 (inclusive upper thresholds). */
  const StageTops: seq<int> := [50, 150, 300]

  /** get_cat_stage */
  function CatStage(totalScore: int): (stage: int)
    ensures 1 <= stage <= 4
    ensures stage == 1 <==> totalScore <= 50
    ensures stage == 2 <==> 50 < totalScore <= 150
    ensures stage == 3 <==> 150 < totalScore <= 300
    ensures stage == 4 <==> 300 < totalScore
  {
    if totalScore <= 50 then 1
    else if totalScore <= 150 then 2
    else if totalScore <= 300 then 3
    else 4
  }

  /** next_stage_threshold: the first score of the next stage, or the score itself at the last stage. */
  function NextStageThreshold(totalScore: int): (next: int)
    ensures next >= totalScore
    ensures next == totalScore <==> CatStage(totalScore) == 4
    ensures next == totalScore || CatStage(next) == CatStage(totalScore) + 1
  {
    var stage := CatStage(totalScore);
    if stage == 1 then 51
    else if stage == 2 then 151
    else if stage == 3 then 301
    else totalScore
  }

  /** A higher score never means an earlier stage. */
  lemma CatStageMonotone(a: int, b: int)
    requires a <= b
    ensures CatStage(a) <= CatStage(b)
  {
  }

  /** Below the last stage, the threshold lies strictly above the score and opens exactly the next stage, and nothing in between does. */
  lemma NextStageOpensNext(s: int)
    requires CatStage(s) < 4
    ensures NextStageThreshold(s) > s
    ensures NextStageThreshold(s) in {51, 151, 301}
    ensures CatStage(NextStageThreshold(s)) == CatStage(s) + 1
    ensures forall t :: s <= t < NextStageThreshold(s) ==> CatStage(t) == CatStage(s)
  {
  }

  /** At the last stage the threshold is the score itself. */
  lemma NextStageAtTop(s: int)
    requires CatStage(s) == 4
    ensures NextStageThreshold(s) == s
  {
  }
}
