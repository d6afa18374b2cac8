/** The habit editing page: the form filled from the stored habit with
    defaults, `validateForm`, `handleChange` and `handleSubmit`. */
module EditHabit {
  import opened Wrappers
  import opened JsStrings
  import opened JsNumbers
  import opened FormState

  /** `formData.target`: the number the habit was loaded with, or the text
      of the number input once the user has edited it. */
  datatype Target = TargetNumber(n: int) | TargetText(text: string)

  /** The value of one form field, as `formData[name]` holds it. */
  datatype Value = Text(text: string) | Number(n: int) | Flag(on: bool)

  datatype Field = Name | Description | Frequency | Unit | TargetField | Color | ReminderTime | ReminderEnabled

  function Key(f: Field): string
  {
    match f
    case Name => "name"
    case Description => "description"
    case Frequency => "frequency"
    case Unit => "unit"
    case TargetField => "target"
    case Color => "color"
    case ReminderTime => "reminderTime"
    case ReminderEnabled => "reminderEnabled"
  }

  /** Only the reminder switch is a checkbox input. */
  predicate IsCheckbox(f: Field)
  {
    f == ReminderEnabled
  }

  datatype Form = Form(name: string, description: string, frequency: string, unit: string,
                       target: Target, color: string, reminderTime: string, reminderEnabled: bool)
  {
    function Get(f: Field): Value
    {
      match f
      case Name => Text(name)
      case Description => Text(description)
      case Frequency => Text(frequency)
      case Unit => Text(unit)
      case TargetField => (match target case TargetNumber(n) => Number(n) case TargetText(t) => Text(t))
      case Color => Text(color)
      case ReminderTime => Text(reminderTime)
      case ReminderEnabled => Flag(reminderEnabled)
    }

    /** `{ ...prev, [name]: type === "checkbox" ? checked : value }`: the
        checkbox stores `checked`, every other input its text, and no other
        field changes. */
    function Edited(f: Field, value: string, checked: bool): (r: Form)
      ensures r.Get(f) == (if IsCheckbox(f) then Flag(checked) else Text(value))
      ensures forall g :: g != f ==> r.Get(g) == Get(g)
    {
      match f
      case Name => this.(name := value)
      case Description => this.(description := value)
      case Frequency => this.(frequency := value)
      case Unit => this.(unit := value)
      case TargetField => this.(target := TargetText(value))
      case Color => this.(color := value)
      case ReminderTime => this.(reminderTime := value)
      case ReminderEnabled => this.(reminderEnabled := checked)
    }
  }

  const DefaultFrequency: string := "daily"
  const DefaultUnit: string := "completion"
  const DefaultColor: string := "#6d28d9"

  /** `useState` before the habit has arrived. */
  const InitialForm: Form := Form("", "", DefaultFrequency, DefaultUnit, TargetNumber(1), DefaultColor, "", false)

  /** The habit as the server returns it; any field may be missing. */
  datatype StoredHabit = StoredHabit(name: Option<string>, description: Option<string>,
                                     frequency: Option<string>, unit: Option<string>,
                                     target: Option<int>, color: Option<string>,
                                     reminderTime: Option<string>, reminderEnabled: Option<bool>)

  /** The form a loaded habit fills in: each field keeps a truthy stored
      value and otherwise takes its default. */
  function LoadForm(h: StoredHabit): (r: Form)
    ensures r.frequency != "" && r.unit != "" && r.color != ""
    ensures r.name == (if h.name.Some? && h.name.value != "" then h.name.value else "")
    ensures r.description == (if h.description.Some? && h.description.value != "" then h.description.value else "")
    ensures r.frequency == (if h.frequency.Some? && h.frequency.value != "" then h.frequency.value else DefaultFrequency)
    ensures r.unit == (if h.unit.Some? && h.unit.value != "" then h.unit.value else DefaultUnit)
    ensures r.color == (if h.color.Some? && h.color.value != "" then h.color.value else DefaultColor)
    ensures r.reminderTime == (if h.reminderTime.Some? && h.reminderTime.value != "" then h.reminderTime.value else "")
    ensures r.target.TargetNumber? && r.target.n != 0
    ensures h.target.None? || h.target == Some(0) ==> r.target == TargetNumber(1)
    ensures h.target.Some? && h.target.value != 0 ==> r.target == TargetNumber(h.target.value)
    ensures r.reminderEnabled <==> h.reminderEnabled == Some(true)
  {
    Form(OrText(h.name, ""), OrText(h.description, ""), OrText(h.frequency, DefaultFrequency),
         OrText(h.unit, DefaultUnit), TargetNumber(OrNumber(h.target, 1)), OrText(h.color, DefaultColor),
         OrText(h.reminderTime, ""), h.reminderEnabled == Some(true))
  }

  /** The habit a form is saved as (`updateHabit(id, formData)`), for a form
      whose target is still a number. */
  function SavedAs(f: Form): StoredHabit
    requires f.target.TargetNumber?
  {
    StoredHabit(Some(f.name), Some(f.description), Some(f.frequency), Some(f.unit),
                Some(f.target.n), Some(f.color), Some(f.reminderTime), Some(f.reminderEnabled))
  }

  /** Saving a loaded form unchanged and loading it again gives the same
      form: the defaults are a fixed point. */
  lemma ReloadIsStable(h: StoredHabit)
    ensures LoadForm(SavedAs(LoadForm(h))) == LoadForm(h)
  {
  }

  /** A habit carrying no values at all loads as the initial form. */
  lemma LoadEmptyHabit()
    ensures LoadForm(StoredHabit(None, None, None, None, None, None, None, None)) == InitialForm
  {
  }

  // ----------------------------------------------------- validation

  const NameRequired: string := "Habit name is required"
  const TargetNotPositive: string := "Target must be greater than 0"
  const ReminderTimeRequired: string := "Please select a reminder time"
  const UpdateFailed: string := "Failed to update habit. Please try again."

  /** `formData.target <= 0`: a number compares directly, the input's text
      after conversion by `Number`, so the empty text counts as 0, a
      literal too small for a double counts as 0, and a text that is not a
      number never compares. */
  predicate TargetAtMostZero(t: Target)
  {
    match t
    case TargetNumber(n) => n <= 0
    case TargetText(s) => AtMostZero(ToNumber(s))
  }

  /** The target rule on typed digits agrees with the rule on the number
      they spell; clearing the input or typing 0 is refused, and text that
      is not a number gets through. */
  lemma TargetRuleOnText(n: nat)
    ensures TargetAtMostZero(TargetText(NatToString(n))) <==> TargetAtMostZero(TargetNumber(n))
    ensures TargetAtMostZero(TargetText(""))
    ensures !TargetAtMostZero(TargetText("abc"))
  {
    ToNumberOfNatToString(n);
    ToNumberOfEmpty();
    ToNumberOfAbc();
  }

  /** Text that is not a number, such as a word, passes the target rule:
      `NaN <= 0` is false. */
  lemma TargetRuleOnWord(s: string)
    requires Trim(s) != [] && StartsWord(Trim(s)[0])
    ensures !TargetAtMostZero(TargetText(s)) && TargetError(TargetText(s)).None?
  {
    ToNumberOfWord(s);
  }

  /** A positive literal below the smallest double, such as "1e-400",
      converts to 0 and so fails the target rule. */
  lemma TargetRuleOnTinyLiteral()
    ensures TargetAtMostZero(TargetText("1e-400")) && TargetError(TargetText("1e-400")) == Some(TargetNotPositive)
  {
    ToNumberOfTinyLiteral();
  }

  /** The target rule by itself. */
  function TargetError(t: Target): (r: Option<string>)
    ensures r.Some? <==> TargetAtMostZero(t)
    ensures r.Some? ==> r.value == TargetNotPositive
  {
    if TargetAtMostZero(t) then Some(TargetNotPositive) else None
  }

  /** The name rule: a blank name is missing. */
  function NameError(name: string): (r: Option<string>)
    ensures r.Some? <==> IsBlank(name)
    ensures r.Some? ==> r.value == NameRequired
  {
    BlankError(name, NameRequired)
  }

  /** The reminder rule: a reminder that is on needs a time. */
  function ReminderError(f: Form): (r: Option<string>)
    ensures r.Some? <==> f.reminderEnabled && f.reminderTime == ""
    ensures r.Some? ==> r.value == ReminderTimeRequired
  {
    if f.reminderEnabled && f.reminderTime == "" then Some(ReminderTimeRequired) else None
  }

  /** The rule behind each key of the error map. */
  function RuleError(f: Form, k: string): Option<string>
  {
    if k == "name" then NameError(f.name)
    else if k == "target" then TargetError(f.target)
    else if k == "reminderTime" then ReminderError(f)
    else None
  }

  /** `validateForm()`: an entry for exactly the keys whose rule fails. */
  function Validate(f: Form): (r: map<string, string>)
    ensures r.Keys <= {"name", "target", "reminderTime"}
    ensures forall k :: k in r <==> RuleError(f, k).Some?
    ensures forall k :: k in r ==> r[k] == RuleError(f, k).value
  {
    map k | k in {"name", "target", "reminderTime"} && RuleError(f, k).Some? :: RuleError(f, k).value
  }

  /** The name entry of `validateForm()`. */
  lemma ValidateName(f: Form)
    ensures "name" in Validate(f) <==> IsBlank(f.name)
    ensures "name" in Validate(f) ==> Validate(f)["name"] == NameRequired
  {
    var r := Validate(f);
    assert RuleError(f, "name") == NameError(f.name);
    assert "name" in r <==> RuleError(f, "name").Some?;
  }

  /** The target entry of `validateForm()`. */
  lemma ValidateTarget(f: Form)
    ensures "target" in Validate(f) <==> TargetAtMostZero(f.target)
    ensures "target" in Validate(f) ==> Validate(f)["target"] == TargetNotPositive
  {
    var r := Validate(f);
    assert RuleError(f, "target") == TargetError(f.target);
    assert "target" in r <==> RuleError(f, "target").Some?;
  }

  /** The reminder entry of `validateForm()`. */
  lemma ValidateReminder(f: Form)
    ensures "reminderTime" in Validate(f) <==> f.reminderEnabled && f.reminderTime == ""
    ensures "reminderTime" in Validate(f) ==> Validate(f)["reminderTime"] == ReminderTimeRequired
  {
    var r := Validate(f);
    assert RuleError(f, "reminderTime") == ReminderError(f);
    assert "reminderTime" in r <==> RuleError(f, "reminderTime").Some?;
  }

  /** The error map is empty exactly when the three rules pass. */
  lemma ValidateEmptyIff(f: Form)
    ensures Validate(f) == map[] <==>
              !IsBlank(f.name) && !TargetAtMostZero(f.target) && !(f.reminderEnabled && f.reminderTime == "")
  {
    var r := Validate(f);
    ValidateName(f);
    ValidateTarget(f);
    ValidateReminder(f);
    if r != map[] {
      var k :| k in r;
      assert k == "name" || k == "target" || k == "reminderTime";
    }
  }

  /** A freshly loaded target fails the rule only when the stored target is
      negative: a missing target, and a stored 0, load as 1. */
  lemma LoadedTargetRule(h: StoredHabit)
    ensures TargetAtMostZero(LoadForm(h).target) <==> h.target.Some? && h.target.value < 0
  {
  }

  // ------------------------------------------------------- the page

  class EditHabitPage {
    var form: Form
    var errors: Errors
    var isSubmitting: bool
    var loading: bool

    constructor ()
      ensures form == InitialForm && errors == map[] && !isSubmitting && loading
    {
      form, errors, isSubmitting, loading := InitialForm, map[], false, true;
    }

    /** The fetch effect; `redirected` is the move back to the dashboard when
        the request fails or resolves without a habit. */
    method Load(fetched: Fetch<StoredHabit>) returns (redirected: bool)
      modifies this
      ensures !loading
      ensures redirected <==> !(fetched.Received? && fetched.body.Some?)
      ensures form == (if redirected then old(form) else LoadForm(fetched.body.value))
      ensures errors == old(errors) && isSubmitting == old(isSubmitting)
    {
      if fetched.Received? && fetched.body.Some? {
        form := LoadForm(fetched.body.value);
        redirected := false;
      } else {
        redirected := true;
      }
      loading := false;
    }

    /** `handleChange`. */
    method HandleChange(field: Field, value: string, checked: bool)
      modifies this
      ensures form == old(form).Edited(field, value, checked)
      ensures errors == ClearError(old(errors), Key(field))
      ensures isSubmitting == old(isSubmitting) && loading == old(loading)
    {
      form := form.Edited(field, value, checked);
      if HasError(errors, Key(field)) {
        errors := errors[Key(field) := None];
      }
    }

    /** `handleSubmit`. `updateOk` is whether `updateHabit` resolves;
        `update` is the form sent, `navigated` the move to the habit page. */
    method HandleSubmit(updateOk: bool) returns (update: Option<Form>, navigated: bool)
      modifies this
      ensures form == old(form) && loading == old(loading)
      ensures Validate(old(form)) != map[] ==>
                errors == Stored(Validate(old(form))) && isSubmitting == old(isSubmitting)
                && update.None? && !navigated
      ensures Validate(old(form)) == map[] ==>
                update == Some(old(form)) && !isSubmitting && navigated == updateOk
                && errors == (if updateOk then old(errors) else SubmitFailure(UpdateFailed))
    {
      var newErrors := Validate(form);
      if newErrors != map[] {
        errors := Stored(newErrors);
        return None, false;
      }
      isSubmitting := true;
      update := Some(form);
      navigated := updateOk;
      if !updateOk {
        errors := SubmitFailure(UpdateFailed);
      }
      isSubmitting := false;
    }
  }
}
