/**
 * The front end's copy of the cat-growth rules: the stage for a score,
 * the picture and caption of a stage, and the points still needed for
 * the next stage.
 */
module CatView {
  import Rewards

  /** getCatStage */
  function GetCatStage(catScore: int): (stage: int)
    ensures 1 <= stage <= 4
  {
    if catScore <= 50 then 1
    else if catScore <= 150 then 2
    else if catScore <= 300 then 3
    else 4
  }

  const Images: seq<string> := ["/images/cat-stage-1.gif", "/images/cat-stage-2.gif", "/images/cat-stage-3.gif", "/images/cat-stage-4.gif"]

  const Labels: seq<string> := ["阶段 1 · 幼猫", "阶段 2 · 少年猫", "阶段 3 · 强壮猫", "阶段 4 · 终极猫"]

  /** getCatImage: stages 1 to 3 have their own picture, anything else shows the last one. */
  function GetCatImage(stage: int): (image: string)
    ensures 1 <= stage <= 3 ==> image == Images[stage - 1]
    ensures !(1 <= stage <= 3) ==> image == Images[3]
  {
    if stage == 1 then "/images/cat-stage-1.gif"
    else if stage == 2 then "/images/cat-stage-2.gif"
    else if stage == 3 then "/images/cat-stage-3.gif"
    else "/images/cat-stage-4.gif"
  }

  /** stageLabel: same mapping for the caption. */
  function StageLabel(stage: int): (caption: string)
    ensures 1 <= stage <= 3 ==> caption == Labels[stage - 1]
    ensures !(1 <= stage <= 3) ==> caption == Labels[3]
  {
    match stage
    case 1 => "阶段 1 · 幼猫"
    case 2 => "阶段 2 · 少年猫"
    case 3 => "阶段 3 · 强壮猫"
    case _ => "阶段 4 · 终极猫"
  }

  /** nextStageDiff: points needed for the next stage, 0 at the last stage. */
  function NextStageDiff(catScore: int): (diff: int)
    ensures catScore <= 300 ==> diff >= 1
    ensures catScore > 300 ==> diff == 0
  {
    if catScore <= 50 then 51 - catScore
    else if catScore <= 150 then 151 - catScore
    else if catScore <= 300 then 301 - catScore
    else 0
  }

  /** The four stages have four different pictures and four different captions. */
  lemma StagesDistinct(a: int, b: int)
    requires 1 <= a <= 4 && 1 <= b <= 4 && a != b
    ensures GetCatImage(a) != GetCatImage(b)
    ensures StageLabel(a) != StageLabel(b)
  {
  }

  /** The front end and the back end place every score in the same stage. */
  lemma StageAgrees(s: int)
    ensures GetCatStage(s) == Rewards.CatStage(s)
  {
  }

  /** Below the last stage, the points shown are what the back end's threshold asks for, and earning them moves exactly one stage up. */
  lemma DiffMatchesThreshold(s: int)
    requires s <= 300
    ensures NextStageDiff(s) == Rewards.NextStageThreshold(s) - s
    ensures GetCatStage(s + NextStageDiff(s)) == GetCatStage(s) + 1
    ensures forall t :: s <= t < s + NextStageDiff(s) ==> GetCatStage(t) == GetCatStage(s)
  {
  }
}
