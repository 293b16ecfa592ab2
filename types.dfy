/**
 * The records of the goal feature (src/types/goals.ts): goals, milestones,
 * their enumerations, the creation payloads, and `Partial<...>` updates.
 *
 * Every date is a millisecond timestamp. An optional date is `None` both when
 * the field is absent and when it is the empty string: every test in the
 * feature reads such a field by truthiness, which treats the two alike.
 */
module GoalTypes {
  import opened Optional

  /** Milliseconds since the epoch, the value of `new Date(text).getTime()`. */
  type Timestamp = int

  /** The length of a day in milliseconds, `1000 * 60 * 60 * 24`. */
  const DayMs: int := 86_400_000

  datatype GoalCategory = Content | Growth | Engagement | Revenue | Learning | Personal

  datatype GoalType =
    | Subscribers | Followers | Views | Posts | Videos | Revenue | EngagementRate | Custom

  datatype GoalStatus = Active | Completed | Paused | Cancelled

  datatype GoalPriority = Low | Medium | High | Critical

  datatype MilestoneStatus = Pending | Completed | Overdue

  datatype Goal = Goal(
    id: string,
    userId: string,
    title: string,
    description: Option<string>,
    category: GoalCategory,
    goalType: GoalType,
    targetValue: real,
    currentValue: real,
    targetDate: Option<Timestamp>,
    status: GoalStatus,
    priority: GoalPriority,
    createdAt: Timestamp,
    updatedAt: Timestamp)

  datatype Milestone = Milestone(
    id: string,
    userId: string,
    goalId: Option<string>,
    title: string,
    description: Option<string>,
    targetDate: Option<Timestamp>,
    completedAt: Option<Timestamp>,
    status: MilestoneStatus,
    reward: Option<string>,
    createdAt: Timestamp,
    updatedAt: Timestamp)

  /** The derived view of one goal that the goal cards show. */
  datatype GoalProgress = GoalProgress(
    goal: Goal,
    progressPercentage: real,
    daysRemaining: Option<int>,
    isOverdue: bool,
    recentActivity: int)

  /** What the goal form produces and `createGoal` receives. */
  datatype CreateGoalData = CreateGoalData(
    title: string,
    description: Option<string>,
    category: GoalCategory,
    goalType: GoalType,
    targetValue: real,
    targetDate: Option<Timestamp>,
    priority: GoalPriority)

  /** What the milestone form produces and `createMilestone` receives. */
  datatype CreateMilestoneData = CreateMilestoneData(
    goalId: Option<string>,
    title: string,
    description: Option<string>,
    targetDate: Option<Timestamp>,
    reward: Option<string>)

  /** `Partial<Goal>`: every field may be missing. */
  datatype GoalPatch = GoalPatch(
    id: Option<string>,
    userId: Option<string>,
    title: Option<string>,
    description: Option<Option<string>>,
    category: Option<GoalCategory>,
    goalType: Option<GoalType>,
    targetValue: Option<real>,
    currentValue: Option<real>,
    targetDate: Option<Option<Timestamp>>,
    status: Option<GoalStatus>,
    priority: Option<GoalPriority>,
    createdAt: Option<Timestamp>,
    updatedAt: Option<Timestamp>)

  /** `Partial<Milestone>`: every field may be missing. */
  datatype MilestonePatch = MilestonePatch(
    id: Option<string>,
    userId: Option<string>,
    goalId: Option<Option<string>>,
    title: Option<string>,
    description: Option<Option<string>>,
    targetDate: Option<Option<Timestamp>>,
    completedAt: Option<Option<Timestamp>>,
    status: Option<MilestoneStatus>,
    reward: Option<Option<string>>,
    createdAt: Option<Timestamp>,
    updatedAt: Option<Timestamp>)

  const EmptyGoalPatch: GoalPatch :=
    GoalPatch(None, None, None, None, None, None, None, None, None, None, None, None, None)

  const EmptyMilestonePatch: MilestonePatch :=
    MilestonePatch(None, None, None, None, None, None, None, None, None, None, None)

  /** The whole row of a goal as a patch, which is what the store returns. */
  function FullGoalPatch(g: Goal): GoalPatch {
    GoalPatch(Some(g.id), Some(g.userId), Some(g.title), Some(g.description), Some(g.category),
              Some(g.goalType), Some(g.targetValue), Some(g.currentValue), Some(g.targetDate),
              Some(g.status), Some(g.priority), Some(g.createdAt), Some(g.updatedAt))
  }

  /** The whole row of a milestone as a patch, which is what the store returns. */
  function FullMilestonePatch(m: Milestone): MilestonePatch {
    MilestonePatch(Some(m.id), Some(m.userId), Some(m.goalId), Some(m.title), Some(m.description),
                   Some(m.targetDate), Some(m.completedAt), Some(m.status), Some(m.reward),
                   Some(m.createdAt), Some(m.updatedAt))
  }

  /** A field the update asked for comes back with the requested value. */
  predicate Agrees<T(==)>(requested: Option<T>, returned: Option<T>) {
    requested.Some? ==> returned == requested
  }

  /** The returned row `row` holds every field the update `updates` asked for. */
  predicate CarriesGoal(row: GoalPatch, updates: GoalPatch) {
    && Agrees(updates.id, row.id) && Agrees(updates.userId, row.userId)
    && Agrees(updates.title, row.title) && Agrees(updates.description, row.description)
    && Agrees(updates.category, row.category) && Agrees(updates.goalType, row.goalType)
    && Agrees(updates.targetValue, row.targetValue) && Agrees(updates.currentValue, row.currentValue)
    && Agrees(updates.targetDate, row.targetDate) && Agrees(updates.status, row.status)
    && Agrees(updates.priority, row.priority) && Agrees(updates.createdAt, row.createdAt)
    && Agrees(updates.updatedAt, row.updatedAt)
  }

  /** The returned row `row` holds every field the update `updates` asked for. */
  predicate CarriesMilestone(row: MilestonePatch, updates: MilestonePatch) {
    && Agrees(updates.id, row.id) && Agrees(updates.userId, row.userId)
    && Agrees(updates.goalId, row.goalId) && Agrees(updates.title, row.title)
    && Agrees(updates.description, row.description) && Agrees(updates.targetDate, row.targetDate)
    && Agrees(updates.completedAt, row.completedAt) && Agrees(updates.status, row.status)
    && Agrees(updates.reward, row.reward) && Agrees(updates.createdAt, row.createdAt)
    && Agrees(updates.updatedAt, row.updatedAt)
  }
}
