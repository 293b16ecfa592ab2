/**
 * The page-level rules of the goals screen (src/pages/Goals.tsx): the four
 * list filters and their button counts, the progress update with its
 * auto-complete rule, the edit update, and the overview slices.
 */
module GoalsPage {
  import opened Optional
  import opened Seqs
  import opened GoalTypes
  import UseGoals
  import GoalModalForm
  import MilestoneModalForm

  /** The filter buttons: all, active, completed, overdue. */
  datatype FilterType = All | Active | Completed | Overdue

  // ---------------------------------------------------------------------------
  // Goal list

  /** What each goal filter means, stated per goal. */
  predicate GoalMatches(f: FilterType, g: Goal, now: Timestamp) {
    match f
    case All => true
    case Active => g.status == GoalStatus.Active
    case Completed => g.status == GoalStatus.Completed
    case Overdue => UseGoals.IsOverdueGoal(g, now)
  }

  /** `filteredGoals`: the status filters go through `getGoalsByStatus`, overdue is filtered in place. */
  function FilteredGoals(goals: seq<Goal>, f: FilterType, now: Timestamp): seq<Goal> {
    match f
    case Active => UseGoals.GetGoalsByStatus(goals, GoalStatus.Active)
    case Completed => UseGoals.GetGoalsByStatus(goals, GoalStatus.Completed)
    case Overdue => Filter(goals, (g: Goal) => UseGoals.IsOverdueGoal(g, now))
    case All => goals
  }

  /** Each goal filter is the filter by what it means. */
  lemma FilteredGoalsIsFilter(goals: seq<Goal>, f: FilterType, now: Timestamp)
    ensures FilteredGoals(goals, f, now) == Filter(goals, (g: Goal) => GoalMatches(f, g, now))
  {
    var spec := (g: Goal) => GoalMatches(f, g, now);
    match f {
      case All => FilterKeepsAll(goals, spec);
      case Active => FilterAgrees(goals, (g: Goal) => g.status == GoalStatus.Active, spec);
      case Completed => FilterAgrees(goals, (g: Goal) => g.status == GoalStatus.Completed, spec);
      case Overdue => FilterAgrees(goals, (g: Goal) => UseGoals.IsOverdueGoal(g, now), spec);
    }
  }

  /**
   * Every goal filter returns exactly the goals that match it, each as often as
   * in the list and in list order; 'all' returns the list itself.
   */
  lemma FilteredGoalsSpec(goals: seq<Goal>, f: FilterType, now: Timestamp)
    ensures FilteredGoals(goals, f, now) == Filter(goals, (g: Goal) => GoalMatches(f, g, now))
    ensures IsSubsequence(FilteredGoals(goals, f, now), goals)
    ensures forall g :: g in FilteredGoals(goals, f, now) <==> g in goals && GoalMatches(f, g, now)
    ensures forall g :: multiset(FilteredGoals(goals, f, now))[g] == if GoalMatches(f, g, now) then multiset(goals)[g] else 0
    ensures f == All ==> FilteredGoals(goals, f, now) == goals
  {
    FilteredGoalsIsFilter(goals, f, now);
    FilterSpec(goals, (g: Goal) => GoalMatches(f, g, now));
  }

  /** `goalFilterOptions`: the count shown on each goal filter button. */
  function GoalFilterCount(f: FilterType, goals: seq<Goal>, stats: UseGoals.GoalStats): nat {
    match f
    case All => |goals|
    case Active => stats.activeGoals
    case Completed => stats.completedGoals
    case Overdue => stats.overdue
  }

  /** Each goal button's count, taken from the stats, is the length of that filter's list. */
  lemma GoalFilterCountMatches(goals: seq<Goal>, milestones: seq<Milestone>, f: FilterType, now: Timestamp)
    ensures GoalFilterCount(f, goals, UseGoals.GetGoalStats(goals, milestones, now)) == |FilteredGoals(goals, f, now)|
  {
    match f
    case All =>
    case Active =>
      FilterAgrees(goals, UseGoals.IsActiveGoal, (g: Goal) => g.status == GoalStatus.Active);
    case Completed =>
      FilterAgrees(goals, UseGoals.IsCompletedGoal, (g: Goal) => g.status == GoalStatus.Completed);
    case Overdue =>
      FilterAgrees(goals, UseGoals.OverdueGoalTest(now), (g: Goal) => UseGoals.IsOverdueGoal(g, now));
  }

  // ---------------------------------------------------------------------------
  // Milestone list

  /** What each milestone filter means: 'active' is status pending. */
  predicate MilestoneMatches(f: FilterType, m: Milestone, now: Timestamp) {
    match f
    case All => true
    case Active => m.status == MilestoneStatus.Pending
    case Completed => m.status == MilestoneStatus.Completed
    case Overdue => IsOverdueMilestone(m, now)
  }

  predicate IsPendingMilestone(m: Milestone) {
    m.status == MilestoneStatus.Pending
  }

  /** The overdue test of the milestone list. */
  predicate IsOverdueMilestone(m: Milestone, now: Timestamp) {
    m.targetDate.Some? && m.status != MilestoneStatus.Completed && m.targetDate.value < now
  }

  /** The overdue test of the milestone count button, written with the conditions in another order. */
  predicate IsCountedOverdueMilestone(m: Milestone, now: Timestamp) {
    m.targetDate.Some? && m.targetDate.value < now && m.status != MilestoneStatus.Completed
  }

  /** `filteredMilestones`. */
  function FilteredMilestones(milestones: seq<Milestone>, f: FilterType, now: Timestamp): seq<Milestone> {
    match f
    case Active => Filter(milestones, IsPendingMilestone)
    case Completed => Filter(milestones, (m: Milestone) => m.status == MilestoneStatus.Completed)
    case Overdue => Filter(milestones, (m: Milestone) => IsOverdueMilestone(m, now))
    case All => milestones
  }

  /** Each milestone filter is the filter by what it means. */
  lemma FilteredMilestonesIsFilter(milestones: seq<Milestone>, f: FilterType, now: Timestamp)
    ensures FilteredMilestones(milestones, f, now) == Filter(milestones, (m: Milestone) => MilestoneMatches(f, m, now))
  {
    var spec := (m: Milestone) => MilestoneMatches(f, m, now);
    match f {
      case All => FilterKeepsAll(milestones, spec);
      case Active => FilterAgrees(milestones, IsPendingMilestone, spec);
      case Completed => FilterAgrees(milestones, (m: Milestone) => m.status == MilestoneStatus.Completed, spec);
      case Overdue => FilterAgrees(milestones, (m: Milestone) => IsOverdueMilestone(m, now), spec);
    }
  }

  /**
   * Every milestone filter returns exactly the milestones that match it, each
   * as often as in the list and in list order.
   */
  lemma FilteredMilestonesSpec(milestones: seq<Milestone>, f: FilterType, now: Timestamp)
    ensures FilteredMilestones(milestones, f, now) == Filter(milestones, (m: Milestone) => MilestoneMatches(f, m, now))
    ensures IsSubsequence(FilteredMilestones(milestones, f, now), milestones)
    ensures forall m :: m in FilteredMilestones(milestones, f, now) <==> m in milestones && MilestoneMatches(f, m, now)
    ensures forall m :: multiset(FilteredMilestones(milestones, f, now))[m] == if MilestoneMatches(f, m, now) then multiset(milestones)[m] else 0
    ensures f == All ==> FilteredMilestones(milestones, f, now) == milestones
  {
    FilteredMilestonesIsFilter(milestones, f, now);
    FilterSpec(milestones, (m: Milestone) => MilestoneMatches(f, m, now));
  }

  /** `milestoneFilterOptions`: counts recomputed on the list, except 'completed' from the stats. */
  function MilestoneFilterCount(f: FilterType, milestones: seq<Milestone>, stats: UseGoals.GoalStats, now: Timestamp): nat {
    match f
    case All => |milestones|
    case Active => |Filter(milestones, IsPendingMilestone)|
    case Completed => stats.completedMilestones
    case Overdue => |Filter(milestones, (m: Milestone) => IsCountedOverdueMilestone(m, now))|
  }

  /** Each milestone button's count is the length of that filter's list. */
  lemma MilestoneFilterCountMatches(goals: seq<Goal>, milestones: seq<Milestone>, f: FilterType, now: Timestamp)
    ensures MilestoneFilterCount(f, milestones, UseGoals.GetGoalStats(goals, milestones, now), now)
         == |FilteredMilestones(milestones, f, now)|
  {
    match f
    case All =>
    case Active =>
    case Completed =>
      FilterAgrees(milestones, UseGoals.IsCompletedMilestone, (m: Milestone) => m.status == MilestoneStatus.Completed);
    case Overdue =>
      FilterAgrees(milestones, (m: Milestone) => IsCountedOverdueMilestone(m, now), (m: Milestone) => IsOverdueMilestone(m, now));
  }

  // ---------------------------------------------------------------------------
  // Updates sent from the page

  /** `handleUpdateProgress`: the update built for a new progress value. */
  function ProgressUpdate(goal: Goal, newValue: real): (u: GoalPatch)
    ensures u.currentValue == Some(newValue)
    ensures u.status.Some? <==> newValue >= goal.targetValue && goal.status == GoalStatus.Active
    ensures u.status.Some? ==> u.status.value == GoalStatus.Completed
    ensures u.(currentValue := None, status := None) == EmptyGoalPatch
  {
    var updates := EmptyGoalPatch.(currentValue := Some(newValue));
    if newValue >= goal.targetValue && goal.status == GoalStatus.Active then
      updates.(status := Some(GoalStatus.Completed))
    else
      updates
  }

  /**
   * Applied to the goal, the progress update sets the value, completes an
   * active goal that reached its target, and leaves every other field and
   * every other status (paused, cancelled, completed) as it was.
   */
  lemma ProgressUpdateRule(goal: Goal, newValue: real)
    ensures UseGoals.MergeGoal(goal, ProgressUpdate(goal, newValue)).currentValue == newValue
    ensures UseGoals.MergeGoal(goal, ProgressUpdate(goal, newValue)).status ==
      if newValue >= goal.targetValue && goal.status == GoalStatus.Active then GoalStatus.Completed else goal.status
    ensures UseGoals.MergeGoal(goal, ProgressUpdate(goal, newValue)).(currentValue := goal.currentValue, status := goal.status) == goal
  {
  }

  /**
   * When the store returns a row carrying the progress update, every entry of
   * that goal takes the new value, and an active goal that reached its target
   * becomes completed; the other entries are unchanged.
   */
  lemma ProgressUpdateApplied(goals: seq<Goal>, goal: Goal, newValue: real, row: GoalPatch, i: int)
    requires CarriesGoal(row, ProgressUpdate(goal, newValue))
    requires 0 <= i < |goals|
    ensures |UseGoals.WithGoalMerged(goals, goal.id, row)| == |goals|
    ensures goals[i].id == goal.id ==> UseGoals.WithGoalMerged(goals, goal.id, row)[i].currentValue == newValue
    ensures goals[i].id == goal.id && newValue >= goal.targetValue && goal.status == GoalStatus.Active ==>
      UseGoals.WithGoalMerged(goals, goal.id, row)[i].status == GoalStatus.Completed
    ensures goals[i].id != goal.id ==> UseGoals.WithGoalMerged(goals, goal.id, row)[i] == goals[i]
  {
    UseGoals.WithGoalMergedSpec(goals, goal.id, row);
  }

  /** `handleUpdateGoal`: the saved form, sent as a partial goal. */
  function EditUpdate(data: CreateGoalData): GoalPatch {
    EmptyGoalPatch.(title := Some(data.title), description := Some(data.description),
                    category := Some(data.category), goalType := Some(data.goalType),
                    targetValue := Some(data.targetValue), targetDate := Some(data.targetDate),
                    priority := Some(data.priority))
  }

  /** `handleUpdateMilestone`: the saved form, sent as a partial milestone. */
  function MilestoneEditUpdate(data: CreateMilestoneData): MilestonePatch {
    EmptyMilestonePatch.(goalId := Some(data.goalId), title := Some(data.title),
                         description := Some(data.description), targetDate := Some(data.targetDate),
                         reward := Some(data.reward))
  }

  /**
   * Saving the goal form unchanged sends the goal's own fields back: merged
   * into the goal they leave it as it was, except that an absent description
   * becomes ''.
   */
  lemma UnchangedGoalEdit(goal: Goal)
    ensures UseGoals.MergeGoal(goal, EditUpdate(GoalModalForm.PrefillGoalForm(goal)))
         == goal.(description := Some(goal.description.GetOr("")))
  {
  }

  /**
   * Saving the milestone form unchanged leaves the milestone as it was, except
   * that an absent link, description or reward becomes ''.
   */
  lemma UnchangedMilestoneEdit(m: Milestone)
    ensures UseGoals.MergeMilestone(m, MilestoneEditUpdate(MilestoneModalForm.PrefillMilestoneForm(m)))
         == m.(goalId := Some(m.goalId.GetOr("")), description := Some(m.description.GetOr("")),
               reward := Some(m.reward.GetOr("")))
  {
  }

  // ---------------------------------------------------------------------------
  // Overview

  /** `goals.slice(0, 6)`: the recent goals shown on the overview. */
  function RecentGoals(goals: seq<Goal>): (r: seq<Goal>)
    ensures |r| == if |goals| < 6 then |goals| else 6
    ensures forall i :: 0 <= i < |r| ==> r[i] == goals[i]
  {
    if |goals| < 6 then goals else goals[..6]
  }

  /** `milestones.slice(0, 5)`: the recent milestones shown on the overview. */
  function RecentMilestones(milestones: seq<Milestone>): (r: seq<Milestone>)
    ensures |r| == if |milestones| < 5 then |milestones| else 5
    ensures forall i :: 0 <= i < |r| ==> r[i] == milestones[i]
  {
    if |milestones| < 5 then milestones else milestones[..5]
  }
}
