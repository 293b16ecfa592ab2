# Goals and milestones: a verified model

This project models the client-side goal and milestone logic of a creator
dashboard. Users set **goals** with a category, a metric type, a target value,
an optional target date, a status (active, completed, paused, cancelled) and a
priority. They track progress toward them. They also keep **milestones**:
checkpoints that may be linked to a goal, that carry a status (pending,
completed, overdue) and that can be marked complete.

Modules, one per source file:

- `GoalTypes` (`types.dfy`): the records and enumerations of `src/types/goals.ts`,
  and `Partial<Goal>` / `Partial<Milestone>` as patches with one optional entry per field.
- `UseGoals` (`use_goals.dfy`): the `useGoals` hook. The class `GoalStore` holds
  the two in-memory lists. Its methods are the create/update/delete operations
  and the real-time change handlers, each stated against a function of the old
  list. The derived queries are functions: progress, days remaining, the overdue
  flag, filtering by status or goal, and the aggregate statistics.
- `GoalsPage` (`goals_page.dfy`): the goals screen. It has the four list filters
  and their button counts, the progress update with its auto-complete rule, the
  edit updates and the overview slices.
- `GoalModalForm` and `MilestoneModalForm` (`goal_modal.dfy`, `milestone_modal.dfy`):
  the two forms. Each class holds the form record and its error record, with
  opening, validation, submit gating and the per-field change handler.
  The goal form also holds the type-to-unit table.
- `Seqs`, `Text`, `Optional`: `filter`, replace-where `map`, `find`, subsequence;
  `String.prototype.trim`; the optional value.

Conventions:

- Dates are millisecond timestamps. An optional date is `None` both when absent
  and when it is the empty string. Every test in the feature reads such a field
  by truthiness, and truthiness treats the two alike.
- "Now" and "start of today" are parameters.
- Numeric values are `real`.
- Each remote call is represented by the reply it produced: `Returned(row)` or
  `Failed(message)`. A signed-out user makes every hook operation fail with
  `NotAuthenticated` before anything is sent.

The progress handler's own comment reads "Auto-complete goal if target is
reached" (src/pages/Goals.tsx:137). Its condition also requires the goal to be
active (src/pages/Goals.tsx:138), and no other update completes a goal. The
model follows the condition: a paused or cancelled goal keeps its status.

## Model

| member | source | states |
|---|---|---|
| UseGoals.GoalStore.constructor | src/hooks/useGoals.ts:7-9 | both lists start empty for the signed-in user |
| UseGoals.GoalStore.CreateGoal | src/hooks/useGoals.ts:62-89 | signed out: fails, nothing sent, list unchanged. Otherwise sends the insert built by `NewGoalInsert` (zero progress, active). On failure the list is unchanged. On success the returned row is put in front and the old list follows in order |
| UseGoals.GoalStore.UpdateGoal | src/hooks/useGoals.ts:92-116 | signed out: fails, nothing sent. Otherwise sends `updates` as given; on success the list becomes `WithGoalMerged` of the old list (returned row merged into entries with that id); otherwise unchanged with the error |
| UseGoals.GoalStore.DeleteGoal | src/hooks/useGoals.ts:119-138 | on success the list becomes `WithoutGoal` of the old list; otherwise unchanged with the error |
| UseGoals.GoalStore.CreateMilestone | src/hooks/useGoals.ts:141-167 | sends the insert with status pending when signed in; the returned row goes to the front |
| UseGoals.GoalStore.UpdateMilestone | src/hooks/useGoals.ts:170-194 | signed out: fails, nothing sent. Otherwise sends `updates` as given; on success the returned row is merged into the milestones with that id; otherwise unchanged |
| UseGoals.GoalStore.CompleteMilestone | src/hooks/useGoals.ts:197-202 | when signed in it sends exactly `CompletionPatch(completedAt)`: status completed and `completed_at` the given time, nothing else; the list outcome is UpdateMilestone's |
| UseGoals.GoalStore.DeleteMilestone | src/hooks/useGoals.ts:205-224 | on success every milestone with that id is dropped; otherwise unchanged |
| UseGoals.GoalStore.OnGoalChange | src/hooks/useGoals.ts:306-324 | INSERT prepends the new row without checking ids. UPDATE replaces the entries with the row's id. DELETE drops the entries with the old id |
| UseGoals.GoalStore.OnMilestoneChange | src/hooks/useGoals.ts:339-357 | the same three rules for the milestone list |
| UseGoals.WithGoalMergedSpec | src/hooks/useGoals.ts:108-110 | a local update keeps length and order; each entry with the id becomes the merge of it and the returned row, and every other entry is unchanged |
| UseGoals.WithMilestoneMergedSpec | src/hooks/useGoals.ts:186-188 | the same for milestones |
| UseGoals.WithGoalReplacedSpec | src/hooks/useGoals.ts:313-318 | a real-time UPDATE keeps length and order and replaces exactly the entries with the row's id by the row |
| UseGoals.WithMilestoneReplacedSpec | src/hooks/useGoals.ts:346-351 | the same for milestones |
| UseGoals.LocalUpdateAgreesWithRealtime | src/hooks/useGoals.ts:109 | when the returned row is the whole row, the local merge gives the same list as the real-time replacement |
| UseGoals.LocalMilestoneUpdateAgreesWithRealtime | src/hooks/useGoals.ts:187 | the same for milestones |
| UseGoals.MergeKeepsRequestedFields | src/hooks/useGoals.ts:96-110 | if the returned row carries the requested fields, the merged entry already holds every requested value |
| UseGoals.WithoutGoalSpec | src/hooks/useGoals.ts:133 | after a delete, exactly the entries with another id remain, each as often as before and in their order; deleting an absent id changes nothing |
| UseGoals.WithoutMilestoneSpec | src/hooks/useGoals.ts:219 | the same for milestones |
| UseGoals.GoalStore.CreateThenInsert | src/hooks/useGoals.ts:83 | on the store: a signed-in create followed by the real-time INSERT (useGoals.ts:311) of the returned row leaves that row twice in front of the old list, so ids are no longer unique |
| UseGoals.CreateThenInsertDuplicates | src/hooks/useGoals.ts:83 | a local create followed by the real-time INSERT of the same row leaves two entries with one id, so unique ids are not an invariant |
| UseGoals.CompletionTouchesOnlyThatMilestone | src/hooks/useGoals.ts:197-201 | when the returned row carries the completion, every milestone with that id is completed at the given time and all others are unchanged |
| UseGoals.NewGoalStartsAtZero | src/hooks/useGoals.ts:66-71 | a goal stored as created is active, owned by the user, at 0% progress and not counted as completed |
| UseGoals.ProgressPercentage | src/hooks/useGoals.ts:228-230 | 0 when target ≤ 0; never above 100; for target > 0 it is 100 exactly when current ≥ target, and below the target it is current/target·100; never negative for a non-negative current value |
| UseGoals.DaysRemaining | src/hooks/useGoals.ts:238-239 | the ceiling of the time left over one day: `DayMs·(d−1) < target − now ≤ DayMs·d` |
| UseGoals.GetGoalProgress | src/hooks/useGoals.ts:227-250 | no date: no days remaining and not overdue. With a date: days remaining as above, and overdue exactly when now − date ≥ one full day |
| UseGoals.ProgressOverdueIsStatsOverdue | src/hooks/useGoals.ts:235-270 | for an open goal the card's overdue flag implies the statistics' overdue test; a date less than a day past is overdue for the statistics but not for the card |
| UseGoals.GetGoalsByStatus | src/hooks/useGoals.ts:253-255 | exactly the goals with that status, each as often as in the list, as a subsequence of the list |
| UseGoals.GetMilestonesByGoal | src/hooks/useGoals.ts:258-260 | exactly the milestones linked to that goal, each as often as in the list, as a subsequence of the list |
| UseGoals.GetGoalStats | src/hooks/useGoals.ts:263-286 | active + completed ≤ total; overdue + completed ≤ total; completed milestones ≤ total milestones; the completion rate is 0 with no goals, else completed/total·100, within [0, 100] |
| UseGoals.CompletionRate | src/hooks/useGoals.ts:275 | completed/total·100 lies in [0, 100] |
| GoalsPage.FilteredGoalsIsFilter | src/pages/Goals.tsx:57-78 | `filteredGoals` (`FilteredGoals`) for each filter equals filtering the list by that filter's per-goal meaning |
| GoalsPage.FilteredGoalsSpec | src/pages/Goals.tsx:57-78 | every goal filter equals filtering by its meaning (status active, status completed, or dated before now and not completed); each matching goal occurs as often as in the list, no other goal occurs, and the order is kept; 'all' is the list itself |
| GoalsPage.GoalFilterCountMatches | src/pages/Goals.tsx:202-207 | each goal button's count, taken from the statistics, equals the length of that filter's list |
| GoalsPage.FilteredMilestonesIsFilter | src/pages/Goals.tsx:81-102 | `filteredMilestones` (`FilteredMilestones`) for each filter equals filtering the list by that filter's per-milestone meaning |
| GoalsPage.FilteredMilestonesSpec | src/pages/Goals.tsx:81-102 | the milestone filters: 'active' is pending, 'completed' is completed, 'overdue' uses the goals' date rule; each matching milestone occurs as often as in the list, no other occurs, and the order is kept; 'all' is the list |
| GoalsPage.MilestoneFilterCountMatches | src/pages/Goals.tsx:209-214 | each milestone button's count (recomputed, or from the statistics for 'completed') equals the length of that filter's list, when both are computed at the same `now` |
| GoalsPage.ProgressUpdate | src/pages/Goals.tsx:133-140 | the update always sets the value; it sets status completed exactly when the new value reaches the target and the goal is active; it sets nothing else |
| GoalsPage.ProgressUpdateRule | src/pages/Goals.tsx:135-140 | applied to the goal: the new value is set, an active goal reaching its target becomes completed, every other status is kept, and no other field changes |
| GoalsPage.ProgressUpdateApplied | src/pages/Goals.tsx:133-146 | once the store confirms, every entry of that goal has the new value and is completed when the rule fired; other entries are unchanged |
| GoalsPage.UnchangedGoalEdit | src/pages/Goals.tsx:112-121 | saving the edit form unchanged gives back the goal, except that an absent description becomes '' |
| GoalsPage.UnchangedMilestoneEdit | src/pages/Goals.tsx:156-165 | saving the milestone edit form unchanged gives back the milestone, except that an absent link, description or reward becomes '' |
| GoalsPage.RecentGoals | src/pages/Goals.tsx:359 | the first min(6, n) goals, in order |
| GoalsPage.RecentMilestones | src/pages/Goals.tsx:386 | the first min(5, m) milestones, in order |
| Text.TrimEmptyIff | src/components/Goals/GoalModal.tsx:85 | a trimmed title is empty exactly when every character is white space or a line terminator |
| GoalModalForm.PrefillGoalForm | src/components/Goals/GoalModal.tsx:55-64 | the edit form always has a description; that it is the goal's own fields, with '' for an absent description, is proved by `GoalsPage.UnchangedGoalEdit` |
| GoalModalForm.WithField | src/components/Goals/GoalModal.tsx:117-118 | the changed field reads back the new value (a description as entered, '' included; a target as exactly the parsed integer), and every other field is unchanged |
| GoalModalForm.GoalFormErrorsUnique | src/components/Goals/GoalModal.tsx:82-103 | the validation rules fix the error record uniquely |
| GoalModalForm.GoalFormAccepted | src/components/Goals/GoalModal.tsx:82-103 | no errors exactly when the title is not blank, the target is positive, and the date is absent or its timestamp is not before the start of today |
| GoalModalForm.DefaultFormNeedsOnlyTitle | src/components/Goals/GoalModal.tsx:65-76 | the blank form fails only for its empty title |
| GoalModalForm.GoalModal.constructor | src/components/Goals/GoalModal.tsx:40-50 | the form starts blank (content, subscribers, 1000, medium) with no errors |
| GoalModalForm.GoalModal.Open | src/components/Goals/GoalModal.tsx:53-78 | opening prefills from the goal being edited, or resets to the blank form, and clears the errors |
| GoalModalForm.GoalModal.ValidateForm | src/components/Goals/GoalModal.tsx:82-103 | title error iff the title is blank; target error iff target ≤ 0; date error iff a date is given before the start of today; the messages; no other keys |
| GoalModalForm.GoalModal.HandleSubmit | src/components/Goals/GoalModal.tsx:105-115 | stores the validation result; hands the form to save (and closes) exactly when there is no error |
| GoalModalForm.GoalModal.HandleChange | src/components/Goals/GoalModal.tsx:117-122 | sets only that field; blanks only that field's message, and only if one is shown |
| Seqs.Find | src/components/Goals/GoalModal.tsx:124 | `find` returns an element satisfying the test with no earlier element satisfying it, or nothing when no element does |
| GoalModalForm.EveryTypeHasOneUnit | src/components/Goals/GoalModal.tsx:21-30 | the type table lists every goal type exactly once, so the lookup always finds that type |
| GoalModalForm.SelectedTypeIsRow | src/components/Goals/GoalModal.tsx:124 | the lookup for a row's type returns that row |
| GoalModalForm.SpecialUnits | src/components/Goals/GoalModal.tsx:27-29 | revenue is in dollars, engagement rate in percent, custom metrics in units |
| MilestoneModalForm.PrefillMilestoneForm | src/components/Goals/MilestoneModal.tsx:27-34 | the edit form always has a link, description and reward; that they are the milestone's own, with '' when absent, is proved by `GoalsPage.UnchangedMilestoneEdit` |
| MilestoneModalForm.WithField | src/components/Goals/MilestoneModal.tsx:81-82 | the changed field reads back the new value (a link, description or reward as the text entered, '' included), and every other field is unchanged |
| MilestoneModalForm.MilestoneFormErrorsUnique | src/components/Goals/MilestoneModal.tsx:50-67 | the validation rules fix the error record uniquely |
| MilestoneModalForm.MilestoneFormAccepted | src/components/Goals/MilestoneModal.tsx:50-67 | no errors exactly when the title is not blank and the date is absent or not before the start of today |
| MilestoneModalForm.DefaultFormNeedsOnlyTitle | src/components/Goals/MilestoneModal.tsx:35-43 | the blank form fails only for its empty title |
| MilestoneModalForm.MilestoneModal.constructor | src/components/Goals/MilestoneModal.tsx:14-22 | the form starts with every text field '' and no errors |
| MilestoneModalForm.MilestoneModal.Open | src/components/Goals/MilestoneModal.tsx:25-46 | opening prefills from the milestone being edited, or resets to the blank form, and clears the errors |
| MilestoneModalForm.MilestoneModal.ValidateForm | src/components/Goals/MilestoneModal.tsx:50-67 | title error iff the title is blank; date error iff a date is given before the start of today; only those two keys |
| MilestoneModalForm.MilestoneModal.HandleSubmit | src/components/Goals/MilestoneModal.tsx:69-79 | stores the validation result; saves and closes exactly when there is no error |
| MilestoneModalForm.MilestoneModal.HandleChange | src/components/Goals/MilestoneModal.tsx:81-86 | sets only that field; blanks only that field's message, and only if one is shown |
| MilestoneModalForm.ActiveGoalsSpec | src/components/Goals/MilestoneModal.tsx:88 | the goals offered for linking are exactly the active ones, in list order, the same as the hook's active-status query |

## Left out

- Fetching (`fetchGoals`, `fetchMilestones`, `refetch`), the `loading`/`error` state and the page's refresh button: these are remote reads whose only list effect is to replace a list wholesale.
- Subscribing to and unsubscribing from the change channels, and console logging: plumbing around the handlers, which are modelled.
- The remote store: the model takes its reply as given. `updates` is what an update sends; its effect on the list comes only from the returned row, as in the code.
- UseGoals.DaysRemaining: exact ceiling over integer milliseconds. The floating-point division and `Math.ceil` agree with it for every date within about 10^8 days of now; beyond that, float rounding is not modelled.
- Parsing of ISO date strings, local midnight and time zones, `parseInt` on the target input: the model takes the parsed timestamp, the start of today and the parsed integer as inputs. An unparsable date (`NaN`) is not modelled.
- GoalModalForm.GoalFormAccepted and MilestoneModalForm.MilestoneFormAccepted do not say whether today's date is accepted. The date input's "YYYY-MM-DD" is read as UTC midnight and compared with local midnight (src/components/Goals/GoalModal.tsx:94-97, src/components/Goals/MilestoneModal.tsx:58-61). So west of UTC, today's date is refused as "in the past". The model compares whatever timestamp the parse gave.
- GoalsPage.MilestoneFilterCountMatches assumes the list and the count read the clock at the same instant. In the page the filtered list is memoised on the list and the filter only (src/pages/Goals.tsx:102), while the overdue count reads the clock on every render (src/pages/Goals.tsx:213). So the count can exceed the shown list until the memo recomputes.
- The confirmation dialogs before deletes, the tab and filter selection state, and all rendering. This includes the goal and milestone cards, the category and priority option tables (labels, emoji and colours), and the related-goal `<option>` list built from the active goals.
- The settings page, the user settings hook and the table-listing script: remote I/O and DOM theme changes.
