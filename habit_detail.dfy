/** The habit detail page: the clamped log-value input, the figures and
    labels it shows with their fallbacks, which view is drawn, and the
    state changes of logging progress and of the delete confirmation. */
module HabitDetail {
  import opened Wrappers
  import opened JsNumbers
  import Dashboard

  /** One entry of the habit's activity history. */
  datatype HabitLog = HabitLog(date: string, value: int)

  /** The habit as `getHabit(id)` returns it; any figure may be missing. */
  datatype DetailHabit = DetailHabit(name: string, description: Option<string>, color: Option<string>,
                                     unit: Option<string>, completionRate: Option<real>,
                                     totalLogged: Option<int>, currentStreak: Option<int>,
                                     bestStreak: Option<int>, lastCompletedDate: Option<string>,
                                     logs: Option<seq<HabitLog>>)

  // -------------------------------------------------- log-value input

  /** `Math.max(1, Number.parseInt(e.target.value) || 1)`. */
  function ClampedLogValue(text: string): (v: int)
    ensures v >= 1
    ensures ParseInt(text).None? ==> v == 1
    ensures ParseInt(text).Some? && ParseInt(text).value >= 1 ==> v == ParseInt(text).value
    ensures ParseInt(text).Some? && ParseInt(text).value < 1 ==> v == 1
  {
    var parsed := OrNumber(ParseInt(text), 1);
    if parsed > 1 then parsed else 1
  }

  /** The detail page's input is the dashboard's with a lower bound of 1:
      both read a positive value alike, and only where the dashboard lets a
      negative value through does this page put 1 instead. */
  lemma ClampOfDashboardInput(text: string)
    ensures ClampedLogValue(text) == (if Dashboard.LogInputValue(text) >= 1 then Dashboard.LogInputValue(text) else 1)
    ensures ClampedLogValue(text) == Dashboard.LogInputValue(text) <==> Dashboard.LogInputValue(text) >= 1
  {
  }

  /** Typing the digits of an integer gives that integer when it is at
      least 1, and 1 otherwise. */
  lemma ClampOfInteger(n: int)
    ensures ClampedLogValue(IntToString(n)) == (if n >= 1 then n else 1)
  {
    ParseIntOfIntToString(n);
  }

  // ------------------------------------------------------ the figures

  /** The date line under the log input: "Never" for a falsy date. The
      locale formatting of a present date is not modelled. */
  datatype LastCompleted = Never | CompletedOn(date: string)

  function LastCompletedLabel(h: DetailHabit): (r: LastCompleted)
    ensures r == Never <==> h.lastCompletedDate.None? || h.lastCompletedDate == Some("")
    ensures r.CompletedOn? ==> Some(r.date) == h.lastCompletedDate
  {
    if h.lastCompletedDate.Some? && h.lastCompletedDate.value != "" then CompletedOn(h.lastCompletedDate.value) else Never
  }

  /** The displayed figures and labels of a loaded habit. */
  datatype Display = Display(completionRate: real, totalLogged: int, currentStreak: int, bestStreak: int,
                             totalUnit: string, valueUnit: string, color: string)

  const DefaultColor: string := "#6d28d9"

  /** The stat cards, the unit labels and the header colour: a missing or
      zero figure shows 0, the completion rate as the server sends it,
      fraction included, a missing unit reads "completions" on the total
      card but "completion" beside the input, and a missing colour is the
      default purple. */
  function DisplayOf(h: DetailHabit): (d: Display)
    ensures h.completionRate.None? ==> d.completionRate == 0.0
    ensures h.totalLogged.None? ==> d.totalLogged == 0
    ensures h.currentStreak.None? ==> d.currentStreak == 0
    ensures h.bestStreak.None? ==> d.bestStreak == 0
    ensures h.completionRate.Some? ==> d.completionRate == h.completionRate.value
    ensures h.totalLogged.Some? ==> d.totalLogged == h.totalLogged.value
    ensures h.currentStreak.Some? ==> d.currentStreak == h.currentStreak.value
    ensures h.bestStreak.Some? ==> d.bestStreak == h.bestStreak.value
    ensures d.totalUnit != "" && d.valueUnit != "" && d.color != ""
  {
    Display(OrReal(h.completionRate, 0.0), OrNumber(h.totalLogged, 0), OrNumber(h.currentStreak, 0),
            OrNumber(h.bestStreak, 0), OrText(h.unit, "completions"), OrText(h.unit, "completion"),
            OrText(h.color, DefaultColor))
  }

  /** The two unit fallbacks disagree: a habit without a unit, or with an
      empty one, is counted in "completions" on the total card and logged
      in "completion"; with a unit both show it. */
  lemma UnitFallbacks(h: DetailHabit)
    ensures h.unit.None? || h.unit == Some("") ==>
              DisplayOf(h).totalUnit == "completions" && DisplayOf(h).valueUnit == "completion"
    ensures h.unit.Some? && h.unit.value != "" ==> DisplayOf(h).totalUnit == DisplayOf(h).valueUnit == h.unit.value
  {
  }

  /** The activity history: the table of the logs when `habit.logs &&
      habit.logs.length > 0`, and "No activity logged yet" (`None`)
      otherwise. */
  function HistoryOf(h: DetailHabit): (r: Option<seq<HabitLog>>)
    ensures r.None? <==> h.logs.None? || h.logs.value == []
    ensures r.Some? ==> r == h.logs && |r.value| > 0
  {
    if h.logs.Some? && |h.logs.value| > 0 then h.logs else None
  }

  datatype View = Spinner | NotFound | Details(habit: DetailHabit)

  /** The spinner while loading; once loading is over, the not-found view
      for a missing habit and the details otherwise. */
  function ViewOf(loading: bool, habit: Option<DetailHabit>): (v: View)
    ensures v == Spinner <==> loading
    ensures v == NotFound <==> !loading && habit.None?
    ensures v.Details? <==> !loading && habit.Some?
    ensures v.Details? ==> v.habit == habit.value
  {
    if loading then Spinner else if habit.None? then NotFound else Details(habit.value)
  }

  // ------------------------------------------------------- the page

  class HabitDetailPage {
    const id: string
    var habit: Option<DetailHabit>
    var loading: bool
    var logValue: int
    var showDeleteConfirm: bool

    /** The log value the input holds is never below 1. */
    predicate Valid()
      reads this
    {
      logValue >= 1
    }

    function Shown(): View
      reads this
    {
      ViewOf(loading, habit)
    }

    constructor (habitId: string)
      ensures id == habitId && habit.None? && loading && logValue == 1 && !showDeleteConfirm
      ensures Valid()
    {
      id := habitId;
      habit, loading, logValue, showDeleteConfirm := None, true, 1, false;
    }

    /** The fetch effect: the answer, `null` included, becomes the habit; a
        failed request keeps it. Loading ends either way. */
    method FinishFetch(fetched: Fetch<DetailHabit>)
      requires Valid()
      modifies this
      ensures Valid() && !loading
      ensures habit == (if fetched.Received? then fetched.body else old(habit))
      ensures logValue == old(logValue) && showDeleteConfirm == old(showDeleteConfirm)
      ensures Shown() == (if habit.None? then NotFound else Details(habit.value))
    {
      if fetched.Received? {
        habit := fetched.body;
      }
      loading := false;
    }

    /** The value input's `onChange`. */
    method ChangeLogValue(text: string)
      requires Valid()
      modifies this
      ensures Valid() && logValue == ClampedLogValue(text)
      ensures habit == old(habit) && loading == old(loading) && showDeleteConfirm == old(showDeleteConfirm)
    {
      logValue := ClampedLogValue(text);
    }

    /** `handleLogProgress`: the value is logged for this habit (`logOk` is
        whether that call resolves), then the habit is fetched again
        (`refetched`). Only when both succeed is the habit replaced and the
        value reset to 1; otherwise nothing changes. */
    method HandleLogProgress(logOk: bool, refetched: Fetch<DetailHabit>) returns (request: Dashboard.LogRequest)
      requires Valid()
      modifies this
      ensures Valid()
      ensures request == Dashboard.LogRequest(id, old(logValue)) && request.value >= 1
      ensures logOk && refetched.Received? ==> habit == refetched.body && logValue == 1
      ensures !(logOk && refetched.Received?) ==> habit == old(habit) && logValue == old(logValue)
      ensures loading == old(loading) && showDeleteConfirm == old(showDeleteConfirm)
    {
      request := Dashboard.LogRequest(id, logValue);
      if logOk && refetched.Received? {
        habit := refetched.body;
        logValue := 1;
      }
    }

    /** The delete button of the header opens the confirmation. */
    method AskDelete()
      requires Valid()
      modifies this
      ensures Valid() && showDeleteConfirm
      ensures habit == old(habit) && loading == old(loading) && logValue == old(logValue)
    {
      showDeleteConfirm := true;
    }

    /** The confirmation's Cancel button closes it. */
    method CancelDelete()
      requires Valid()
      modifies this
      ensures Valid() && !showDeleteConfirm
      ensures habit == old(habit) && loading == old(loading) && logValue == old(logValue)
    {
      showDeleteConfirm := false;
    }

    /** `handleDelete`: this habit's id is deleted, and the page leaves for
        the dashboard only when that call resolves; its own state does not
        change. */
    method HandleDelete(deleteOk: bool) returns (deleted: string, navigated: bool)
      ensures deleted == id && navigated == deleteOk
    {
      deleted := id;
      navigated := deleteOk;
    }
  }
}
