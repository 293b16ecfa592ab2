/**
 * The milestone form (src/components/Goals/MilestoneModal.tsx): its blank and
 * prefilled contents, the change handler that clears that field's error, the
 * validator, the submit gate and the list of goals a milestone may be linked to.
 *
 * A date input arrives as its timestamp (`None` when empty) and the start of
 * today as a parameter.
 */
module MilestoneModalForm {
  import opened Optional
  import opened Seqs
  import opened Text
  import opened GoalTypes
  import UseGoals

  /** The keys of the form record, which also key its error messages. */
  datatype MilestoneField = GoalId | Title | Description | TargetDate | Reward

  /** What one input hands to the change handler. */
  datatype FieldValue = TextInput(text: string) | DateInput(date: Option<Timestamp>)

  /** The date input hands a date, every other input text. */
  predicate Fits(field: MilestoneField, value: FieldValue) {
    if field == TargetDate then value.DateInput? else value.TextInput?
  }

  const TitleRequired: string := "Milestone title is required"
  const DateInPast: string := "Target date cannot be in the past"

  /** The blank form for a new milestone: every text field ''. */
  const DefaultMilestoneForm: CreateMilestoneData :=
    CreateMilestoneData(Some(""), "", Some(""), None, Some(""))

  /** The form opened on an existing milestone, with absent link, description and reward as ''. */
  function PrefillMilestoneForm(m: Milestone): (form: CreateMilestoneData)
    ensures form.goalId.Some? && form.description.Some? && form.reward.Some?
  {
    CreateMilestoneData(Some(m.goalId.GetOr("")), m.title, Some(m.description.GetOr("")),
                        m.targetDate, Some(m.reward.GetOr("")))
  }

  /** The input's value as the field's stored value. */
  function FieldOf(form: CreateMilestoneData, field: MilestoneField): FieldValue {
    match field
    case GoalId => TextInput(form.goalId.GetOr(""))
    case Title => TextInput(form.title)
    case Description => TextInput(form.description.GetOr(""))
    case TargetDate => DateInput(form.targetDate)
    case Reward => TextInput(form.reward.GetOr(""))
  }

  /** `{ ...prev, [field]: value }`: the form with one field set and every other field kept. */
  function WithField(form: CreateMilestoneData, field: MilestoneField, value: FieldValue): (r: CreateMilestoneData)
    requires Fits(field, value)
    ensures FieldOf(r, field) == value
    ensures field == GoalId ==> r.goalId == Some(value.text)
    ensures field == Description ==> r.description == Some(value.text)
    ensures field == Reward ==> r.reward == Some(value.text)
    ensures field != GoalId ==> r.goalId == form.goalId
    ensures field != Title ==> r.title == form.title
    ensures field != Description ==> r.description == form.description
    ensures field != TargetDate ==> r.targetDate == form.targetDate
    ensures field != Reward ==> r.reward == form.reward
  {
    match field
    case GoalId => form.(goalId := Some(value.text))
    case Title => form.(title := value.text)
    case Description => form.(description := Some(value.text))
    case TargetDate => form.(targetDate := value.date)
    case Reward => form.(reward := Some(value.text))
  }

  /**
   * `errs` is what validation reports for `form`: a title error exactly when the
   * title is blank, a date error exactly when a date is given and lies before
   * the start of today, each with its message, and no other key.
   */
  predicate MilestoneFormErrors(errs: map<MilestoneField, string>, form: CreateMilestoneData, startOfToday: Timestamp) {
    && errs.Keys <= {Title, TargetDate}
    && (Title in errs <==> AllSpace(form.title))
    && (TargetDate in errs <==> form.targetDate.Some? && form.targetDate.value < startOfToday)
    && (Title in errs ==> errs[Title] == TitleRequired)
    && (TargetDate in errs ==> errs[TargetDate] == DateInPast)
  }

  /** The validation result is determined by the form and the day. */
  lemma MilestoneFormErrorsUnique(e1: map<MilestoneField, string>, e2: map<MilestoneField, string>, form: CreateMilestoneData, startOfToday: Timestamp)
    requires MilestoneFormErrors(e1, form, startOfToday) && MilestoneFormErrors(e2, form, startOfToday)
    ensures e1 == e2
  {
  }

  /** A form passes exactly when its title is not blank and its date (if any) is not before today. */
  lemma MilestoneFormAccepted(errs: map<MilestoneField, string>, form: CreateMilestoneData, startOfToday: Timestamp)
    requires MilestoneFormErrors(errs, form, startOfToday)
    ensures errs == map[] <==> !AllSpace(form.title) && (form.targetDate.None? || form.targetDate.value >= startOfToday)
  {
  }

  /** The blank form is refused for its empty title alone. */
  lemma DefaultFormNeedsOnlyTitle(errs: map<MilestoneField, string>, startOfToday: Timestamp)
    requires MilestoneFormErrors(errs, DefaultMilestoneForm, startOfToday)
    ensures errs == map[Title := TitleRequired]
  {
  }

  /** The milestone form's state while it is open. */
  class MilestoneModal {
    var formData: CreateMilestoneData
    var errors: map<MilestoneField, string>

    constructor ()
      ensures formData == DefaultMilestoneForm && errors == map[]
    {
      formData := DefaultMilestoneForm;
      errors := map[];
    }

    /** Opening the form: prefilled from `milestone` when editing, blank otherwise, with no errors. */
    method Open(milestone: Option<Milestone>)
      modifies this
      ensures milestone.Some? ==> formData == PrefillMilestoneForm(milestone.value)
      ensures milestone.None? ==> formData == DefaultMilestoneForm
      ensures errors == map[]
    {
      match milestone {
        case Some(m) => formData := PrefillMilestoneForm(m);
        case None => formData := DefaultMilestoneForm;
      }
      errors := map[];
    }

    /** `validateForm`: fills the error record key by key. */
    method ValidateForm(startOfToday: Timestamp) returns (newErrors: map<MilestoneField, string>)
      ensures MilestoneFormErrors(newErrors, formData, startOfToday)
    {
      newErrors := map[];
      TrimEmptyIff(formData.title);
      if Trim(formData.title) == "" {
        newErrors := newErrors[Title := TitleRequired];
      }
      if formData.targetDate.Some? {
        if formData.targetDate.value < startOfToday {
          newErrors := newErrors[TargetDate := DateInPast];
        }
      }
    }

    /** `handleSubmit`: records the errors, and hands the form over (then closes) only when there are none. */
    method HandleSubmit(startOfToday: Timestamp) returns (saved: Option<CreateMilestoneData>)
      modifies this`errors
      ensures MilestoneFormErrors(errors, formData, startOfToday)
      ensures saved.Some? <==> errors == map[]
      ensures saved.Some? ==> saved.value == formData
    {
      var newErrors := ValidateForm(startOfToday);
      errors := newErrors;
      if |newErrors| == 0 {
        saved := Some(formData);
      } else {
        saved := None;
      }
    }

    /** `handleChange`: sets one field, and blanks that field's error message if one is shown. */
    method HandleChange(field: MilestoneField, value: FieldValue)
      requires Fits(field, value)
      modifies this
      ensures formData == WithField(old(formData), field, value)
      ensures field in old(errors) && old(errors)[field] != "" ==> errors == old(errors)[field := ""]
      ensures !(field in old(errors) && old(errors)[field] != "") ==> errors == old(errors)
    {
      formData := WithField(formData, field, value);
      if field in errors && errors[field] != "" {
        errors := errors[field := ""];
      }
    }
  }

  /** `activeGoals`: the goals offered as the milestone's related goal. */
  function ActiveGoals(goals: seq<Goal>): seq<Goal> {
    Filter(goals, (g: Goal) => g.status == GoalStatus.Active)
  }

  /** The offered goals are exactly the active ones, in list order: the hook's active-status query. */
  lemma ActiveGoalsSpec(goals: seq<Goal>)
    ensures ActiveGoals(goals) == UseGoals.GetGoalsByStatus(goals, GoalStatus.Active)
    ensures forall g :: g in ActiveGoals(goals) <==> g in goals && g.status == GoalStatus.Active
    ensures IsSubsequence(ActiveGoals(goals), goals)
  {
  }
}
