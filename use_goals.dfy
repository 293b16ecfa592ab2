/**
 * The goal data hook (src/hooks/useGoals.ts): the user's goal and milestone
 * lists held in memory, the create/update/delete operations and real-time
 * change handlers that replace them, and the derived queries over them.
 *
 * The remote store is not modelled: each remote call is represented by the
 * reply it produced, `Returned(row)` or `Failed(message)`, and the clock by a
 * `now` parameter.
 */
module UseGoals {
  import opened Optional
  import opened Seqs
  import opened GoalTypes

  datatype StoreError = NotAuthenticated | RemoteError(message: string)

  /** A hook operation either resolves with a value or throws. */
  datatype Result<T> = Success(value: T) | Failure(error: StoreError)

  /** What the remote store answered to one request. */
  datatype Reply<T> = Returned(row: T) | Failed(message: string)

  /** One real-time change notification; a deletion carries the old row's id. */
  datatype Change<T> = Insert(newRow: T) | Update(newRow: T) | Delete(oldId: string)

  /** The row `createGoal` sends for insertion: the form data plus owner, zero progress and status active. */
  datatype GoalInsert = GoalInsert(data: CreateGoalData, userId: string, currentValue: real, status: GoalStatus)

  /** The row `createMilestone` sends for insertion: the form data plus owner and status pending. */
  datatype MilestoneInsert = MilestoneInsert(data: CreateMilestoneData, userId: string, status: MilestoneStatus)

  function NewGoalInsert(data: CreateGoalData, userId: string): GoalInsert {
    GoalInsert(data, userId, 0.0, GoalStatus.Active)
  }

  function NewMilestoneInsert(data: CreateMilestoneData, userId: string): MilestoneInsert {
    MilestoneInsert(data, userId, MilestoneStatus.Pending)
  }

  /** The stored goal `row` holds exactly what `ins` asked to insert. */
  predicate GoalStoredAs(row: Goal, ins: GoalInsert) {
    && row.title == ins.data.title && row.description == ins.data.description
    && row.category == ins.data.category && row.goalType == ins.data.goalType
    && row.targetValue == ins.data.targetValue && row.targetDate == ins.data.targetDate
    && row.priority == ins.data.priority && row.userId == ins.userId
    && row.currentValue == ins.currentValue && row.status == ins.status
  }

  /** `{ ...goal, ...data }`: the fields present in the patch override the goal's. */
  function MergeGoal(g: Goal, p: GoalPatch): Goal {
    Goal(p.id.GetOr(g.id), p.userId.GetOr(g.userId), p.title.GetOr(g.title),
         p.description.GetOr(g.description), p.category.GetOr(g.category),
         p.goalType.GetOr(g.goalType), p.targetValue.GetOr(g.targetValue),
         p.currentValue.GetOr(g.currentValue), p.targetDate.GetOr(g.targetDate),
         p.status.GetOr(g.status), p.priority.GetOr(g.priority),
         p.createdAt.GetOr(g.createdAt), p.updatedAt.GetOr(g.updatedAt))
  }

  /** `{ ...milestone, ...data }`: the fields present in the patch override the milestone's. */
  function MergeMilestone(m: Milestone, p: MilestonePatch): Milestone {
    Milestone(p.id.GetOr(m.id), p.userId.GetOr(m.userId), p.goalId.GetOr(m.goalId),
              p.title.GetOr(m.title), p.description.GetOr(m.description),
              p.targetDate.GetOr(m.targetDate), p.completedAt.GetOr(m.completedAt),
              p.status.GetOr(m.status), p.reward.GetOr(m.reward),
              p.createdAt.GetOr(m.createdAt), p.updatedAt.GetOr(m.updatedAt))
  }

  // ---------------------------------------------------------------------------
  // The list updates, as functions of the old list

  /** Local update of goal `id`: every entry with that id gets the returned row merged in. */
  function WithGoalMerged(goals: seq<Goal>, id: string, row: GoalPatch): seq<Goal> {
    ReplaceWhere(goals, (g: Goal) => g.id == id, (g: Goal) => MergeGoal(g, row))
  }

  /** Real-time UPDATE: every entry with the new row's id is replaced by it wholesale. */
  function WithGoalReplaced(goals: seq<Goal>, row: Goal): seq<Goal> {
    ReplaceWhere(goals, (g: Goal) => g.id == row.id, (g: Goal) => row)
  }

  /** Local delete and real-time DELETE: the entries whose id is not `id`. */
  function WithoutGoal(goals: seq<Goal>, id: string): seq<Goal> {
    Filter(goals, (g: Goal) => g.id != id)
  }

  function WithMilestoneMerged(milestones: seq<Milestone>, id: string, row: MilestonePatch): seq<Milestone> {
    ReplaceWhere(milestones, (m: Milestone) => m.id == id, (m: Milestone) => MergeMilestone(m, row))
  }

  function WithMilestoneReplaced(milestones: seq<Milestone>, row: Milestone): seq<Milestone> {
    ReplaceWhere(milestones, (m: Milestone) => m.id == row.id, (m: Milestone) => row)
  }

  function WithoutMilestone(milestones: seq<Milestone>, id: string): seq<Milestone> {
    Filter(milestones, (m: Milestone) => m.id != id)
  }

  /** The update `completeMilestone` sends: status completed, completed at `at`. */
  function CompletionPatch(at: Timestamp): MilestonePatch {
    EmptyMilestonePatch.(status := Some(MilestoneStatus.Completed), completedAt := Some(Some(at)))
  }

  predicate UniqueGoalIds(goals: seq<Goal>) {
    forall i, j :: 0 <= i < j < |goals| ==> goals[i].id != goals[j].id
  }

  // ---------------------------------------------------------------------------
  // The hook's state

  /** The hook's two lists for the signed-in `user` (None when nobody is signed in). */
  class GoalStore {
    const user: Option<string>
    var goals: seq<Goal>
    var milestones: seq<Milestone>

    constructor (user: Option<string>)
      ensures this.user == user && goals == [] && milestones == []
    {
      this.user := user;
      goals := [];
      milestones := [];
    }

    /**
     * `createGoal`: sends the insert (only when signed in) and, once the store
     * returns the new row, puts it at the front of the list.
     */
    method CreateGoal(data: CreateGoalData, reply: Reply<Goal>) returns (sent: Option<GoalInsert>, result: Result<Goal>)
      modifies this`goals
      ensures user.None? ==> sent == None && result == Failure(NotAuthenticated) && goals == old(goals)
      ensures user.Some? ==> sent == Some(NewGoalInsert(data, user.value))
      ensures sent.Some? ==> && sent.value.data == data && sent.value.currentValue == 0.0
                             && sent.value.status == GoalStatus.Active
      ensures user.Some? && reply.Failed? ==> result == Failure(RemoteError(reply.message)) && goals == old(goals)
      ensures user.Some? && reply.Returned? ==> result == Success(reply.row) && goals == [reply.row] + old(goals)
    {
      if user.None? {
        return None, Failure(NotAuthenticated);
      }
      sent := Some(NewGoalInsert(data, user.value));
      match reply
      case Failed(message) =>
        result := Failure(RemoteError(message));
      case Returned(row) =>
        goals := [row] + goals;
        result := Success(row);
    }

    /**
     * `updateGoal`: `updates` goes to the store, and the row it returns is
     * merged into every entry with id `id`.
     */
    method UpdateGoal(id: string, updates: GoalPatch, reply: Reply<GoalPatch>) returns (sent: Option<GoalPatch>, result: Result<GoalPatch>)
      modifies this`goals
      ensures user.None? ==> sent == None && result == Failure(NotAuthenticated) && goals == old(goals)
      ensures user.Some? ==> sent == Some(updates)
      ensures user.Some? && reply.Failed? ==> result == Failure(RemoteError(reply.message)) && goals == old(goals)
      ensures user.Some? && reply.Returned? ==> result == Success(reply.row) && goals == WithGoalMerged(old(goals), id, reply.row)
    {
      if user.None? {
        return None, Failure(NotAuthenticated);
      }
      sent := Some(updates);
      match reply
      case Failed(message) =>
        result := Failure(RemoteError(message));
      case Returned(row) =>
        goals := WithGoalMerged(goals, id, row);
        result := Success(row);
    }

    /** `deleteGoal`: once the store confirms, drops every entry with id `id`. */
    method DeleteGoal(id: string, reply: Reply<()>) returns (result: Result<()>)
      modifies this`goals
      ensures user.None? ==> result == Failure(NotAuthenticated) && goals == old(goals)
      ensures user.Some? && reply.Failed? ==> result == Failure(RemoteError(reply.message)) && goals == old(goals)
      ensures user.Some? && reply.Returned? ==> result == Success(()) && goals == WithoutGoal(old(goals), id)
    {
      if user.None? {
        return Failure(NotAuthenticated);
      }
      match reply
      case Failed(message) =>
        result := Failure(RemoteError(message));
      case Returned(_) =>
        goals := WithoutGoal(goals, id);
        result := Success(());
    }

    method CreateMilestone(data: CreateMilestoneData, reply: Reply<Milestone>) returns (sent: Option<MilestoneInsert>, result: Result<Milestone>)
      modifies this`milestones
      ensures user.None? ==> sent == None && result == Failure(NotAuthenticated) && milestones == old(milestones)
      ensures user.Some? ==> sent == Some(NewMilestoneInsert(data, user.value))
      ensures sent.Some? ==> sent.value.data == data && sent.value.status == MilestoneStatus.Pending
      ensures user.Some? && reply.Failed? ==> result == Failure(RemoteError(reply.message)) && milestones == old(milestones)
      ensures user.Some? && reply.Returned? ==> result == Success(reply.row) && milestones == [reply.row] + old(milestones)
    {
      if user.None? {
        return None, Failure(NotAuthenticated);
      }
      sent := Some(NewMilestoneInsert(data, user.value));
      match reply
      case Failed(message) =>
        result := Failure(RemoteError(message));
      case Returned(row) =>
        milestones := [row] + milestones;
        result := Success(row);
    }

    /**
     * `updateMilestone`: `updates` goes to the store, and the row it returns is
     * merged into every entry with id `id`.
     */
    method UpdateMilestone(id: string, updates: MilestonePatch, reply: Reply<MilestonePatch>) returns (sent: Option<MilestonePatch>, result: Result<MilestonePatch>)
      modifies this`milestones
      ensures user.None? ==> sent == None && result == Failure(NotAuthenticated) && milestones == old(milestones)
      ensures user.Some? ==> sent == Some(updates)
      ensures user.Some? && reply.Failed? ==> result == Failure(RemoteError(reply.message)) && milestones == old(milestones)
      ensures user.Some? && reply.Returned? ==> result == Success(reply.row) && milestones == WithMilestoneMerged(old(milestones), id, reply.row)
    {
      if user.None? {
        return None, Failure(NotAuthenticated);
      }
      sent := Some(updates);
      match reply
      case Failed(message) =>
        result := Failure(RemoteError(message));
      case Returned(row) =>
        milestones := WithMilestoneMerged(milestones, id, row);
        result := Success(row);
    }

    /** `completeMilestone`: an `updateMilestone` with the completion patch stamped `completedAt`. */
    method CompleteMilestone(id: string, completedAt: Timestamp, reply: Reply<MilestonePatch>) returns (sent: Option<MilestonePatch>, result: Result<MilestonePatch>)
      modifies this`milestones
      ensures user.None? ==> sent == None && result == Failure(NotAuthenticated) && milestones == old(milestones)
      ensures user.Some? ==> && sent == Some(CompletionPatch(completedAt))
                             && sent.value.status == Some(MilestoneStatus.Completed)
                             && sent.value.completedAt == Some(Some(completedAt))
      ensures user.Some? && reply.Failed? ==> result == Failure(RemoteError(reply.message)) && milestones == old(milestones)
      ensures user.Some? && reply.Returned? ==> result == Success(reply.row) && milestones == WithMilestoneMerged(old(milestones), id, reply.row)
    {
      sent, result := UpdateMilestone(id, CompletionPatch(completedAt), reply);
    }

    method DeleteMilestone(id: string, reply: Reply<()>) returns (result: Result<()>)
      modifies this`milestones
      ensures user.None? ==> result == Failure(NotAuthenticated) && milestones == old(milestones)
      ensures user.Some? && reply.Failed? ==> result == Failure(RemoteError(reply.message)) && milestones == old(milestones)
      ensures user.Some? && reply.Returned? ==> result == Success(()) && milestones == WithoutMilestone(old(milestones), id)
    {
      if user.None? {
        return Failure(NotAuthenticated);
      }
      match reply
      case Failed(message) =>
        result := Failure(RemoteError(message));
      case Returned(_) =>
        milestones := WithoutMilestone(milestones, id);
        result := Success(());
    }

    /**
     * A signed-in create whose row then also arrives as a real-time INSERT:
     * the row ends up in the list twice, so ids are no longer unique.
     */
    method CreateThenInsert(data: CreateGoalData, row: Goal) returns (result: Result<Goal>)
      requires user.Some?
      modifies this`goals
      ensures result == Success(row)
      ensures goals == [row, row] + old(goals)
      ensures !UniqueGoalIds(goals)
    {
      var sent;
      sent, result := CreateGoal(data, Returned(row));
      OnGoalChange(Insert(row));
      assert goals[0].id == goals[1].id;
    }

    /** The real-time handler of the goals table. */
    method OnGoalChange(change: Change<Goal>)
      modifies this`goals
      ensures change.Insert? ==> goals == [change.newRow] + old(goals)
      ensures change.Update? ==> goals == WithGoalReplaced(old(goals), change.newRow)
      ensures change.Delete? ==> goals == WithoutGoal(old(goals), change.oldId)
    {
      match change
      case Insert(row) => goals := [row] + goals;
      case Update(row) => goals := WithGoalReplaced(goals, row);
      case Delete(id) => goals := WithoutGoal(goals, id);
    }

    /** The real-time handler of the milestones table. */
    method OnMilestoneChange(change: Change<Milestone>)
      modifies this`milestones
      ensures change.Insert? ==> milestones == [change.newRow] + old(milestones)
      ensures change.Update? ==> milestones == WithMilestoneReplaced(old(milestones), change.newRow)
      ensures change.Delete? ==> milestones == WithoutMilestone(old(milestones), change.oldId)
    {
      match change
      case Insert(row) => milestones := [row] + milestones;
      case Update(row) => milestones := WithMilestoneReplaced(milestones, row);
      case Delete(id) => milestones := WithoutMilestone(milestones, id);
    }
  }

  // ---------------------------------------------------------------------------
  // Derived queries

  function Min(a: real, b: real): real {
    if a <= b then a else b
  }

  /** `target > 0 ? Math.min(current / target * 100, 100) : 0`. */
  function ProgressPercentage(current: real, target: real): (pct: real)
    ensures target <= 0.0 ==> pct == 0.0
    ensures pct <= 100.0
    ensures target > 0.0 ==> (pct == 100.0 <==> current >= target)
    ensures target > 0.0 && current < target ==> pct * target == current * 100.0
    ensures current >= 0.0 ==> pct >= 0.0
  {
    if target > 0.0 then
      var ratio := current / target;
      assert ratio * target == current;
      assert current >= target <==> ratio >= 1.0;
      Min(ratio * 100.0, 100.0)
    else 0.0
  }

  /** `Math.ceil((target - now) / DayMs)`: the whole days left, rounded up. */
  function DaysRemaining(target: Timestamp, now: Timestamp): (days: int)
    ensures DayMs * (days - 1) < target - now <= DayMs * days
  {
    -((now - target) / DayMs)
  }

  /** `getGoalProgress`. */
  function GetGoalProgress(goal: Goal, now: Timestamp): (r: GoalProgress)
    ensures r.goal == goal && r.recentActivity == 0
    ensures r.progressPercentage == ProgressPercentage(goal.currentValue, goal.targetValue)
    ensures goal.targetDate.None? ==> r.daysRemaining == None && !r.isOverdue
    ensures goal.targetDate.Some? ==>
      && r.daysRemaining == Some(DaysRemaining(goal.targetDate.value, now))
      && (r.isOverdue <==> now - goal.targetDate.value >= DayMs)
  {
    var pct := ProgressPercentage(goal.currentValue, goal.targetValue);
    match goal.targetDate
    case None => GoalProgress(goal, pct, None, false, 0)
    case Some(t) =>
      var days := DaysRemaining(t, now);
      GoalProgress(goal, pct, Some(days), days < 0, 0)
  }

  /** `getGoalsByStatus`: the goals with status `status`, in list order. */
  function GetGoalsByStatus(goals: seq<Goal>, status: GoalStatus): (r: seq<Goal>)
    ensures forall g :: g in r <==> g in goals && g.status == status
    ensures forall g :: multiset(r)[g] == if g.status == status then multiset(goals)[g] else 0
    ensures IsSubsequence(r, goals)
  {
    var p := (g: Goal) => g.status == status;
    FilterMembership(goals, p);
    FilterMultiplicity(goals, p);
    FilterIsSubsequence(goals, p);
    Filter(goals, p)
  }

  /** `getMilestonesByGoal`: the milestones linked to goal `goalId`, in list order. */
  function GetMilestonesByGoal(milestones: seq<Milestone>, goalId: string): (r: seq<Milestone>)
    ensures forall m :: m in r <==> m in milestones && m.goalId == Some(goalId)
    ensures forall m :: multiset(r)[m] == if m.goalId == Some(goalId) then multiset(milestones)[m] else 0
    ensures IsSubsequence(r, milestones)
  {
    var p := (m: Milestone) => m.goalId == Some(goalId);
    FilterMembership(milestones, p);
    FilterMultiplicity(milestones, p);
    FilterIsSubsequence(milestones, p);
    Filter(milestones, p)
  }

  predicate IsActiveGoal(g: Goal) {
    g.status == GoalStatus.Active
  }

  predicate IsCompletedGoal(g: Goal) {
    g.status == GoalStatus.Completed
  }

  /** A goal counts as overdue when it has a date strictly before `now` and is not completed. */
  predicate IsOverdueGoal(g: Goal, now: Timestamp) {
    g.targetDate.Some? && g.status != GoalStatus.Completed && g.targetDate.value < now
  }

  function OverdueGoalTest(now: Timestamp): Goal -> bool {
    (g: Goal) => IsOverdueGoal(g, now)
  }

  predicate IsCompletedMilestone(m: Milestone) {
    m.status == MilestoneStatus.Completed
  }

  datatype GoalStats = GoalStats(
    totalGoals: nat,
    activeGoals: nat,
    completedGoals: nat,
    overdue: nat,
    totalMilestones: nat,
    completedMilestones: nat,
    completionRate: real)

  /** `getGoalStats`. */
  function GetGoalStats(goals: seq<Goal>, milestones: seq<Milestone>, now: Timestamp): (r: GoalStats)
    ensures r.totalGoals == |goals| && r.totalMilestones == |milestones|
    ensures r.activeGoals + r.completedGoals <= r.totalGoals
    ensures r.overdue + r.completedGoals <= r.totalGoals
    ensures r.completedMilestones <= r.totalMilestones
    ensures 0.0 <= r.completionRate <= 100.0
    ensures r.totalGoals == 0 ==> r.completionRate == 0.0
    ensures r.totalGoals > 0 ==> r.completionRate * (r.totalGoals as real) == (r.completedGoals as real) * 100.0
  {
    var active := |Filter(goals, IsActiveGoal)|;
    var completed := |Filter(goals, IsCompletedGoal)|;
    var overdue := |Filter(goals, OverdueGoalTest(now))|;
    assert active + completed <= |goals| by {
      FilterDisjointLengths(goals, IsActiveGoal, IsCompletedGoal);
    }
    assert overdue + completed <= |goals| by {
      assert forall i :: 0 <= i < |goals| ==> !(OverdueGoalTest(now)(goals[i]) && IsCompletedGoal(goals[i]));
      FilterDisjointLengths(goals, OverdueGoalTest(now), IsCompletedGoal);
    }
    var total := |goals|;
    var rate := if total > 0 then CompletionRate(completed, total) else 0.0;
    GoalStats(total, active, completed, overdue, |milestones|, |Filter(milestones, IsCompletedMilestone)|, rate)
  }

  /** `completed / total * 100`. */
  function CompletionRate(completed: nat, total: nat): (rate: real)
    requires 0 < total && completed <= total
    ensures 0.0 <= rate <= 100.0
    ensures rate * (total as real) == (completed as real) * 100.0
  {
    var ratio := (completed as real) / (total as real);
    assert ratio * (total as real) == completed as real;
    ratio * 100.0
  }

  // ---------------------------------------------------------------------------
  // Properties of the list updates and queries

  /** Updating id `id` changes only the entries with that id, each by merging the returned row. */
  lemma WithGoalMergedSpec(goals: seq<Goal>, id: string, row: GoalPatch)
    ensures |WithGoalMerged(goals, id, row)| == |goals|
    ensures forall i :: 0 <= i < |goals| ==>
      WithGoalMerged(goals, id, row)[i] == if goals[i].id == id then MergeGoal(goals[i], row) else goals[i]
  {
    forall i | 0 <= i < |goals|
      ensures WithGoalMerged(goals, id, row)[i] == if goals[i].id == id then MergeGoal(goals[i], row) else goals[i]
    {
      ReplaceWhereAt(goals, (g: Goal) => g.id == id, (g: Goal) => MergeGoal(g, row), i);
    }
  }

  lemma WithMilestoneMergedSpec(milestones: seq<Milestone>, id: string, row: MilestonePatch)
    ensures |WithMilestoneMerged(milestones, id, row)| == |milestones|
    ensures forall i :: 0 <= i < |milestones| ==>
      WithMilestoneMerged(milestones, id, row)[i] == if milestones[i].id == id then MergeMilestone(milestones[i], row) else milestones[i]
  {
    forall i | 0 <= i < |milestones|
      ensures WithMilestoneMerged(milestones, id, row)[i] == if milestones[i].id == id then MergeMilestone(milestones[i], row) else milestones[i]
    {
      ReplaceWhereAt(milestones, (m: Milestone) => m.id == id, (m: Milestone) => MergeMilestone(m, row), i);
    }
  }

  /** A real-time UPDATE replaces exactly the entries with the row's id by the row. */
  lemma WithGoalReplacedSpec(goals: seq<Goal>, row: Goal)
    ensures |WithGoalReplaced(goals, row)| == |goals|
    ensures forall i :: 0 <= i < |goals| ==>
      WithGoalReplaced(goals, row)[i] == if goals[i].id == row.id then row else goals[i]
  {
    forall i | 0 <= i < |goals|
      ensures WithGoalReplaced(goals, row)[i] == if goals[i].id == row.id then row else goals[i]
    {
      ReplaceWhereAt(goals, (g: Goal) => g.id == row.id, (g: Goal) => row, i);
    }
  }

  lemma WithMilestoneReplacedSpec(milestones: seq<Milestone>, row: Milestone)
    ensures |WithMilestoneReplaced(milestones, row)| == |milestones|
    ensures forall i :: 0 <= i < |milestones| ==>
      WithMilestoneReplaced(milestones, row)[i] == if milestones[i].id == row.id then row else milestones[i]
  {
    forall i | 0 <= i < |milestones|
      ensures WithMilestoneReplaced(milestones, row)[i] == if milestones[i].id == row.id then row else milestones[i]
    {
      ReplaceWhereAt(milestones, (m: Milestone) => m.id == row.id, (m: Milestone) => row, i);
    }
  }

  /** Merging a returned full row gives that row: the local update then agrees with the real-time one. */
  lemma LocalUpdateAgreesWithRealtime(goals: seq<Goal>, row: Goal)
    ensures WithGoalMerged(goals, row.id, FullGoalPatch(row)) == WithGoalReplaced(goals, row)
  {
    ReplaceWhereAgrees(goals, (g: Goal) => g.id == row.id, (g: Goal) => MergeGoal(g, FullGoalPatch(row)),
                       (g: Goal) => g.id == row.id, (g: Goal) => row);
  }

  lemma LocalMilestoneUpdateAgreesWithRealtime(milestones: seq<Milestone>, row: Milestone)
    ensures WithMilestoneMerged(milestones, row.id, FullMilestonePatch(row)) == WithMilestoneReplaced(milestones, row)
  {
    ReplaceWhereAgrees(milestones, (m: Milestone) => m.id == row.id, (m: Milestone) => MergeMilestone(m, FullMilestonePatch(row)),
                       (m: Milestone) => m.id == row.id, (m: Milestone) => row);
  }

  /** A returned row that carries the requested fields leaves them in the merged goal. */
  lemma MergeKeepsRequestedFields(g: Goal, row: GoalPatch, updates: GoalPatch)
    requires CarriesGoal(row, updates)
    ensures MergeGoal(MergeGoal(g, row), updates) == MergeGoal(g, row)
  {
  }

  /**
   * Deleting id `id` leaves no entry with that id, keeps every other entry as
   * often as it occurred and in its order, and changes nothing when no entry
   * had that id.
   */
  lemma WithoutGoalSpec(goals: seq<Goal>, id: string)
    ensures forall g :: g in WithoutGoal(goals, id) <==> g in goals && g.id != id
    ensures forall g :: multiset(WithoutGoal(goals, id))[g] == if g.id != id then multiset(goals)[g] else 0
    ensures IsSubsequence(WithoutGoal(goals, id), goals)
    ensures (forall i :: 0 <= i < |goals| ==> goals[i].id != id) ==> WithoutGoal(goals, id) == goals
  {
    var p := (g: Goal) => g.id != id;
    FilterMembership(goals, p);
    FilterMultiplicity(goals, p);
    FilterIsSubsequence(goals, p);
    if forall i :: 0 <= i < |goals| ==> goals[i].id != id {
      FilterKeepsAll(goals, p);
    }
  }

  lemma WithoutMilestoneSpec(milestones: seq<Milestone>, id: string)
    ensures forall m :: m in WithoutMilestone(milestones, id) <==> m in milestones && m.id != id
    ensures forall m :: multiset(WithoutMilestone(milestones, id))[m] == if m.id != id then multiset(milestones)[m] else 0
    ensures IsSubsequence(WithoutMilestone(milestones, id), milestones)
    ensures (forall i :: 0 <= i < |milestones| ==> milestones[i].id != id) ==> WithoutMilestone(milestones, id) == milestones
  {
    var p := (m: Milestone) => m.id != id;
    FilterMembership(milestones, p);
    FilterMultiplicity(milestones, p);
    FilterIsSubsequence(milestones, p);
    if forall i :: 0 <= i < |milestones| ==> milestones[i].id != id {
      FilterKeepsAll(milestones, p);
    }
  }

  /**
   * A local create puts the returned row in front, and the real-time INSERT
   * of the same row puts it in front again: ids are not kept unique.
   */
  lemma CreateThenInsertDuplicates(goals: seq<Goal>, row: Goal)
    ensures !UniqueGoalIds([row] + ([row] + goals))
  {
    var s := [row] + ([row] + goals);
    assert s[0].id == s[1].id;
  }

  /**
   * When the returned row carries the completion patch, every entry with the
   * completed id becomes completed at `at` and every other entry is unchanged.
   */
  lemma CompletionTouchesOnlyThatMilestone(milestones: seq<Milestone>, id: string, at: Timestamp, row: MilestonePatch)
    requires CarriesMilestone(row, CompletionPatch(at))
    ensures |WithMilestoneMerged(milestones, id, row)| == |milestones|
    ensures forall i :: 0 <= i < |milestones| && milestones[i].id == id ==>
      && WithMilestoneMerged(milestones, id, row)[i].status == MilestoneStatus.Completed
      && WithMilestoneMerged(milestones, id, row)[i].completedAt == Some(at)
    ensures forall i :: 0 <= i < |milestones| && milestones[i].id != id ==>
      WithMilestoneMerged(milestones, id, row)[i] == milestones[i]
  {
    WithMilestoneMergedSpec(milestones, id, row);
  }

  /** A goal stored as `createGoal` asked is active, at zero progress, and not completed in the stats. */
  lemma NewGoalStartsAtZero(row: Goal, data: CreateGoalData, userId: string, now: Timestamp)
    requires GoalStoredAs(row, NewGoalInsert(data, userId))
    ensures row.status == GoalStatus.Active && row.userId == userId
    ensures GetGoalProgress(row, now).progressPercentage == 0.0
    ensures !IsCompletedGoal(row)
  {
  }

  /** The card's overdue flag implies the stats' overdue test, but only after a whole day. */
  lemma ProgressOverdueIsStatsOverdue(g: Goal, now: Timestamp)
    requires g.status != GoalStatus.Completed
    ensures GetGoalProgress(g, now).isOverdue ==> IsOverdueGoal(g, now)
    ensures g.targetDate.Some? && now - DayMs < g.targetDate.value < now ==>
      IsOverdueGoal(g, now) && !GetGoalProgress(g, now).isOverdue
  {
  }
}
