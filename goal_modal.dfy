/**
 * The goal form (src/components/Goals/GoalModal.tsx): its default and
 * prefilled contents, the per-field change handler that also clears that
 * field's error, the validator, the submit gate and the type-to-unit table.
 *
 * Parsing of the date and number inputs and the reading of the clock are not
 * modelled: a date input arrives as its timestamp (`None` when empty), a number
 * input as the integer `parseInt(...) || 0` gave, and the start of today as a
 * parameter.
 */
module GoalModalForm {
  import opened Optional
  import opened Seqs
  import opened Text
  import opened GoalTypes

  /** The keys of the form record, which also key its error messages. */
  datatype GoalField = Title | Description | Category | Type | TargetValue | TargetDate | Priority

  /** What one input hands to the change handler. */
  datatype FieldValue =
    | TextInput(text: string)
    | NumberInput(number: int)
    | DateInput(date: Option<Timestamp>)
    | CategoryInput(category: GoalCategory)
    | TypeInput(goalType: GoalType)
    | PriorityInput(priority: GoalPriority)

  /** Each input hands its own kind of value to the handler. */
  predicate Fits(field: GoalField, value: FieldValue) {
    match field
    case Title => value.TextInput?
    case Description => value.TextInput?
    case Category => value.CategoryInput?
    case Type => value.TypeInput?
    case TargetValue => value.NumberInput?
    case TargetDate => value.DateInput?
    case Priority => value.PriorityInput?
  }

  const TitleRequired: string := "Goal title is required"
  const TargetValueNotPositive: string := "Target value must be greater than 0"
  const DateInPast: string := "Target date cannot be in the past"

  /** The blank form for a new goal. */
  const DefaultGoalForm: CreateGoalData :=
    CreateGoalData("", Some(""), GoalCategory.Content, GoalType.Subscribers, 1000.0, None, GoalPriority.Medium)

  /** The form opened on an existing goal: its fields, with an absent description as ''. */
  function PrefillGoalForm(goal: Goal): (form: CreateGoalData)
    ensures form.description.Some?
  {
    CreateGoalData(goal.title, Some(goal.description.GetOr("")), goal.category, goal.goalType,
                   goal.targetValue, goal.targetDate, goal.priority)
  }

  /** The input's value as the field's stored value. */
  function FieldOf(form: CreateGoalData, field: GoalField): FieldValue {
    match field
    case Title => TextInput(form.title)
    case Description => TextInput(form.description.GetOr(""))
    case Category => CategoryInput(form.category)
    case Type => TypeInput(form.goalType)
    case TargetValue => NumberInput(form.targetValue.Floor)
    case TargetDate => DateInput(form.targetDate)
    case Priority => PriorityInput(form.priority)
  }

  /** `{ ...prev, [field]: value }`: the form with one field set and every other field kept. */
  function WithField(form: CreateGoalData, field: GoalField, value: FieldValue): (r: CreateGoalData)
    requires Fits(field, value)
    ensures FieldOf(r, field) == value
    ensures field == Description ==> r.description == Some(value.text)
    ensures field == TargetValue ==> r.targetValue == value.number as real
    ensures field != Title ==> r.title == form.title
    ensures field != Description ==> r.description == form.description
    ensures field != Category ==> r.category == form.category
    ensures field != Type ==> r.goalType == form.goalType
    ensures field != TargetValue ==> r.targetValue == form.targetValue
    ensures field != TargetDate ==> r.targetDate == form.targetDate
    ensures field != Priority ==> r.priority == form.priority
  {
    match field
    case Title => form.(title := value.text)
    case Description => form.(description := Some(value.text))
    case Category => form.(category := value.category)
    case Type => form.(goalType := value.goalType)
    case TargetValue => form.(targetValue := value.number as real)
    case TargetDate => form.(targetDate := value.date)
    case Priority => form.(priority := value.priority)
  }

  /**
   * `errs` is what validation reports for `form`: a title error exactly when the
   * title is blank, a target error exactly when the target is not positive, a
   * date error exactly when a date is given and lies before the start of
   * today, each with its message, and no other key.
   */
  predicate GoalFormErrors(errs: map<GoalField, string>, form: CreateGoalData, startOfToday: Timestamp) {
    && errs.Keys <= {Title, TargetValue, TargetDate}
    && (Title in errs <==> AllSpace(form.title))
    && (TargetValue in errs <==> form.targetValue <= 0.0)
    && (TargetDate in errs <==> form.targetDate.Some? && form.targetDate.value < startOfToday)
    && (Title in errs ==> errs[Title] == TitleRequired)
    && (TargetValue in errs ==> errs[TargetValue] == TargetValueNotPositive)
    && (TargetDate in errs ==> errs[TargetDate] == DateInPast)
  }

  /** The validation result is determined by the form and the day. */
  lemma GoalFormErrorsUnique(e1: map<GoalField, string>, e2: map<GoalField, string>, form: CreateGoalData, startOfToday: Timestamp)
    requires GoalFormErrors(e1, form, startOfToday) && GoalFormErrors(e2, form, startOfToday)
    ensures e1 == e2
  {
  }

  /** A form passes exactly when its title is not blank, its target positive, and its date (if any) not before today. */
  lemma GoalFormAccepted(errs: map<GoalField, string>, form: CreateGoalData, startOfToday: Timestamp)
    requires GoalFormErrors(errs, form, startOfToday)
    ensures errs == map[] <==>
      !AllSpace(form.title) && form.targetValue > 0.0 && (form.targetDate.None? || form.targetDate.value >= startOfToday)
  {
  }

  /** The blank form is refused for its empty title alone. */
  lemma DefaultFormNeedsOnlyTitle(errs: map<GoalField, string>, startOfToday: Timestamp)
    requires GoalFormErrors(errs, DefaultGoalForm, startOfToday)
    ensures errs == map[Title := TitleRequired]
  {
  }

  /** The goal form's state while it is open. */
  class GoalModal {
    var formData: CreateGoalData
    var errors: map<GoalField, string>

    constructor ()
      ensures formData == DefaultGoalForm && errors == map[]
    {
      formData := DefaultGoalForm;
      errors := map[];
    }

    /** Opening the form: prefilled from `goal` when editing, blank otherwise, with no errors. */
    method Open(goal: Option<Goal>)
      modifies this
      ensures goal.Some? ==> formData == PrefillGoalForm(goal.value)
      ensures goal.None? ==> formData == DefaultGoalForm
      ensures errors == map[]
    {
      match goal {
        case Some(g) => formData := PrefillGoalForm(g);
        case None => formData := DefaultGoalForm;
      }
      errors := map[];
    }

    /** `validateForm`: fills the error record key by key. */
    method ValidateForm(startOfToday: Timestamp) returns (newErrors: map<GoalField, string>)
      ensures GoalFormErrors(newErrors, formData, startOfToday)
    {
      newErrors := map[];
      TrimEmptyIff(formData.title);
      if Trim(formData.title) == "" {
        newErrors := newErrors[Title := TitleRequired];
      }
      if formData.targetValue <= 0.0 {
        newErrors := newErrors[TargetValue := TargetValueNotPositive];
      }
      if formData.targetDate.Some? {
        if formData.targetDate.value < startOfToday {
          newErrors := newErrors[TargetDate := DateInPast];
        }
      }
    }

    /** `handleSubmit`: records the errors, and hands the form over (then closes) only when there are none. */
    method HandleSubmit(startOfToday: Timestamp) returns (saved: Option<CreateGoalData>)
      modifies this`errors
      ensures GoalFormErrors(errors, formData, startOfToday)
      ensures saved.Some? <==> errors == map[]
      ensures saved.Some? ==> saved.value == formData
    {
      var newErrors := ValidateForm(startOfToday);
      errors := newErrors;
      if |newErrors| == 0 {
        saved := Some(formData);
      } else {
        saved := None;
      }
    }

    /** `handleChange`: sets one field, and blanks that field's error message if one is shown. */
    method HandleChange(field: GoalField, value: FieldValue)
      requires Fits(field, value)
      modifies this
      ensures formData == WithField(old(formData), field, value)
      ensures field in old(errors) && old(errors)[field] != "" ==> errors == old(errors)[field := ""]
      ensures !(field in old(errors) && old(errors)[field] != "") ==> errors == old(errors)
    {
      formData := WithField(formData, field, value);
      if field in errors && errors[field] != "" {
        errors := errors[field := ""];
      }
    }
  }

  // ---------------------------------------------------------------------------
  // The goal type table

  datatype TypeOption = TypeOption(value: GoalType, caption: string, unit: string)

  const TypeOptions: seq<TypeOption> := [
    TypeOption(GoalType.Subscribers, "Subscribers", "subscribers"),
    TypeOption(GoalType.Followers, "Followers", "followers"),
    TypeOption(GoalType.Views, "Views", "views"),
    TypeOption(GoalType.Posts, "Posts", "posts"),
    TypeOption(GoalType.Videos, "Videos", "videos"),
    TypeOption(GoalType.Revenue, "Revenue", "dollars"),
    TypeOption(GoalType.EngagementRate, "Engagement Rate", "percent"),
    TypeOption(GoalType.Custom, "Custom Metric", "units")
  ]

  /** `typeOptions.find(t => t.value === type)`: the entry shown beside the target input. */
  function SelectedType(t: GoalType): Option<TypeOption> {
    Find(TypeOptions, (o: TypeOption) => o.value == t)
  }

  /** No goal type has two rows in the table. */
  lemma TypeOptionsDistinct()
    ensures forall i, j :: 0 <= i < j < |TypeOptions| ==> TypeOptions[i].value != TypeOptions[j].value
  {
  }

  /** The table lists every goal type exactly once, so every type has exactly one unit. */
  lemma EveryTypeHasOneUnit(t: GoalType)
    ensures SelectedType(t).Some? && SelectedType(t).value.value == t
    ensures forall i, j :: 0 <= i < j < |TypeOptions| ==> TypeOptions[i].value != TypeOptions[j].value
  {
    TypeOptionsDistinct();
    var k := match t
      case Subscribers => 0 case Followers => 1 case Views => 2 case Posts => 3
      case Videos => 4 case Revenue => 5 case EngagementRate => 6 case Custom => 7;
    assert TypeOptions[k].value == t;
  }

  /** The entry found for the type of row `k` is row `k`. */
  lemma SelectedTypeIsRow(k: int)
    requires 0 <= k < |TypeOptions|
    ensures SelectedType(TypeOptions[k].value) == Some(TypeOptions[k])
  {
    var t := TypeOptions[k].value;
    EveryTypeHasOneUnit(t);
    var i :| 0 <= i < |TypeOptions| && TypeOptions[i] == SelectedType(t).value;
    assert i == k;
  }

  /** Revenue goals are counted in dollars, engagement rate in percent, custom metrics in units. */
  lemma SpecialUnits()
    ensures SelectedType(GoalType.Revenue) == Some(TypeOption(GoalType.Revenue, "Revenue", "dollars"))
    ensures SelectedType(GoalType.EngagementRate) == Some(TypeOption(GoalType.EngagementRate, "Engagement Rate", "percent"))
    ensures SelectedType(GoalType.Custom) == Some(TypeOption(GoalType.Custom, "Custom Metric", "units"))
  {
    SelectedTypeIsRow(5);
    SelectedTypeIsRow(6);
    SelectedTypeIsRow(7);
  }
}
