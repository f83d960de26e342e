/** The seasonal engine: the four staged milestones of a project. */
module Seasonal {
  import opened Base

  datatype Stage = Prep30d | AssetCheck14d | Final48h | Jit15m

  const STAGE_ORDER: seq<Stage> := [Prep30d, AssetCheck14d, Final48h, Jit15m]

  function StageIndex(stage: Stage): nat {
    match stage
    case Prep30d => 0
    case AssetCheck14d => 1
    case Final48h => 2
    case Jit15m => 3
  }

  function StageOffset(stage: Stage): int {
    match stage
    case Prep30d => -30 * 24 * 60
    case AssetCheck14d => -14 * 24 * 60
    case Final48h => -48 * 60
    case Jit15m => -15
  }

  datatype Milestone = Milestone(household: Id, project: Id, stage: Stage, fireAt: Instant, fired: bool)

  /** What can anchor a project: an explicit date, the parsed opening rule of a timeline, the target window. */
  datatype Anchor = Anchor(goalDate: Option<Instant>, opens: Option<Instant>, targetStart: Option<Instant>)

  /** The first anchor present; None where the source throws. */
  function ResolveGoalDate(anchor: Anchor): Option<Instant> {
    if anchor.goalDate.Some? then anchor.goalDate
    else if anchor.opens.Some? then anchor.opens
    else anchor.targetStart
  }

  function ComputeMilestones(household: Id, project: Id, goal: Instant): (r: seq<Milestone>)
    ensures |r| == |STAGE_ORDER|
  {
    seq(|STAGE_ORDER|, i requires 0 <= i < |STAGE_ORDER| =>
      Milestone(household, project, STAGE_ORDER[i], AddMinutes(goal, StageOffset(STAGE_ORDER[i])), false))
  }

  /** The milestones of a project: each stage once, in order, unfired, its lead time before the goal. */
  lemma MilestonesAre(household: Id, project: Id, goal: Instant)
    ensures ComputeMilestones(household, project, goal) ==
      [Milestone(household, project, Prep30d, goal - 2_592_000_000, false),
       Milestone(household, project, AssetCheck14d, goal - 1_209_600_000, false),
       Milestone(household, project, Final48h, goal - 172_800_000, false),
       Milestone(household, project, Jit15m, goal - 900_000, false)]
  {
  }

  /** The goal an anchor gives: its explicit date, without one the opening date, without both the window's start. */
  lemma GoalPrecedence(anchor: Anchor, goal: Instant)
    ensures ResolveGoalDate(anchor) == Some(goal) <==>
      || anchor.goalDate == Some(goal)
      || (anchor.goalDate.None? && anchor.opens == Some(goal))
      || (anchor.goalDate.None? && anchor.opens.None? && anchor.targetStart == Some(goal))
  {
  }

  lemma NoGoal(anchor: Anchor)
    ensures ResolveGoalDate(anchor).None? <==> anchor == Anchor(None, None, None)
  {
  }

  /** Milestones come in stage order, and a later stage fires strictly later. */
  lemma MilestonesAscend(household: Id, project: Id, goal: Instant, i: nat, j: nat)
    requires i < 4 && j < 4
    ensures var ms := ComputeMilestones(household, project, goal);
      && StageIndex(ms[i].stage) == i
      && (i < j <==> ms[i].fireAt < ms[j].fireAt)
      && ms[i].fireAt < goal
  {
  }
}
