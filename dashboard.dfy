/** The dashboard: the figures computed from the habit list (total streak,
    today's progress and completion rate), the log-value input, and the
    log modal's state. "Today" is a parameter. */
module Dashboard {
  import opened Wrappers
  import opened JsStrings
  import opened JsNumbers

  /** A habit of the list the server returns, as far as the dashboard reads it. */
  datatype Habit = Habit(id: string, name: string, unit: Option<string>,
                         currentStreak: Option<int>, lastCompletedDate: Option<string>)

  // ---------------------------------------------------- total streak

  /** `habits.reduce((total, habit) => total + (habit.currentStreak || 0), acc)`. */
  function StreakFold(hs: seq<Habit>, acc: int): int
  {
    if hs == [] then acc else StreakFold(hs[1..], acc + OrNumber(hs[0].currentStreak, 0))
  }

  /** The reduce, started at 0 as the page does. */
  function TotalStreak(hs: seq<Habit>): int
  {
    StreakFold(hs, 0)
  }

  /** The sum of the streaks, a missing one counted as 0, written as a plain
      recursive sum. */
  function StreakSum(hs: seq<Habit>): int
  {
    if hs == [] then 0 else OrNumber(hs[0].currentStreak, 0) + StreakSum(hs[1..])
  }

  lemma {:induction false} StreakFoldShift(hs: seq<Habit>, acc: int)
    ensures StreakFold(hs, acc) == acc + StreakSum(hs)
  {
    if hs != [] {
      StreakFoldShift(hs[1..], acc + OrNumber(hs[0].currentStreak, 0));
    }
  }

  /** The reduce adds up every habit's streak, a missing one as 0; no habits
      give 0. */
  lemma TotalStreakIsSum(hs: seq<Habit>)
    ensures TotalStreak(hs) == StreakSum(hs)
    ensures hs == [] ==> TotalStreak(hs) == 0
  {
    StreakFoldShift(hs, 0);
  }

  /** The total of two lists is the sum of their totals. */
  lemma {:induction false} StreakSumAppend(a: seq<Habit>, b: seq<Habit>)
    ensures StreakSum(a + b) == StreakSum(a) + StreakSum(b)
  {
    if a != [] {
      assert (a + b)[0] == a[0] && (a + b)[1..] == a[1..] + b;
      StreakSumAppend(a[1..], b);
    } else {
      assert a + b == b;
    }
  }

  /** With no negative streaks, each habit's streak is at most the total. */
  lemma {:induction false} StreakBoundsTotal(hs: seq<Habit>, k: nat)
    requires k < |hs|
    requires forall j :: 0 <= j < |hs| ==> OrNumber(hs[j].currentStreak, 0) >= 0
    ensures 0 <= OrNumber(hs[k].currentStreak, 0) <= TotalStreak(hs)
  {
    TotalStreakIsSum(hs);
    SumNonNegative(hs[1..]);
    if k > 0 {
      StreakBoundsTotal(hs[1..], k - 1);
      TotalStreakIsSum(hs[1..]);
      assert hs[1..][k - 1] == hs[k];
    }
  }

  lemma {:induction false} SumNonNegative(hs: seq<Habit>)
    requires forall j :: 0 <= j < |hs| ==> OrNumber(hs[j].currentStreak, 0) >= 0
    ensures StreakSum(hs) >= 0
  {
    if hs != [] {
      assert OrNumber(hs[0].currentStreak, 0) >= 0;
      SumNonNegative(hs[1..]);
    }
  }

  // ------------------------------------------------ today's progress

  /** `habits.filter((h) => h.lastCompletedDate === today)`. */
  function CompletedOn(hs: seq<Habit>, today: string): (r: seq<Habit>)
    ensures |r| <= |hs|
    ensures forall k :: 0 <= k < |r| ==> r[k] in hs && r[k].lastCompletedDate == Some(today)
    ensures forall h :: h in hs && h.lastCompletedDate == Some(today) ==> h in r
    ensures forall h :: multiset(r)[h] == if h.lastCompletedDate == Some(today) then multiset(hs)[h] else 0
  {
    if hs == [] then []
    else
      var rest := CompletedOn(hs[1..], today);
      assert hs == [hs[0]] + hs[1..];
      if hs[0].lastCompletedDate == Some(today) then [hs[0]] + rest else rest
  }

  /** The number of habits completed today. */
  function CompletedToday(hs: seq<Habit>, today: string): (n: nat)
    ensures n <= |hs|
  {
    |CompletedOn(hs, today)|
  }

  /** The first habit adds one to today's count exactly when it was
      completed today; no habits count 0. */
  lemma CompletedTodayCons(hs: seq<Habit>, today: string)
    ensures hs == [] ==> CompletedToday(hs, today) == 0
    ensures hs != [] ==>
              CompletedToday(hs, today)
              == (if hs[0].lastCompletedDate == Some(today) then 1 else 0) + CompletedToday(hs[1..], today)
  {
  }

  /** Today's count of two lists is the sum of their counts: each habit
      adds one when it was completed today and nothing otherwise. */
  lemma {:induction false} CompletedTodayAppend(a: seq<Habit>, b: seq<Habit>, today: string)
    ensures CompletedToday(a + b, today) == CompletedToday(a, today) + CompletedToday(b, today)
  {
    if a != [] {
      assert (a + b)[0] == a[0] && (a + b)[1..] == a[1..] + b;
      CompletedTodayAppend(a[1..], b, today);
      CompletedTodayCons(a + b, today);
      CompletedTodayCons(a, today);
    } else {
      assert a + b == b;
    }
  }

  lemma {:induction false} AllCompleted(hs: seq<Habit>, today: string)
    requires forall k :: 0 <= k < |hs| ==> hs[k].lastCompletedDate == Some(today)
    ensures CompletedToday(hs, today) == |hs|
  {
    if hs != [] {
      AllCompleted(hs[1..], today);
    }
  }

  lemma {:induction false} NoneCompleted(hs: seq<Habit>, today: string)
    requires forall k :: 0 <= k < |hs| ==> hs[k].lastCompletedDate != Some(today)
    ensures CompletedToday(hs, today) == 0
  {
    if hs != [] {
      NoneCompleted(hs[1..], today);
    }
  }

  /** The "Completion Rate" figure: 0 with no habits, otherwise the
      percentage of habits completed today rounded to the nearest integer,
      halves up. It always lies between 0 and 100. */
  function CompletionRate(hs: seq<Habit>, today: string): (r: int)
    ensures 0 <= r <= 100
    ensures |hs| == 0 ==> r == 0
    ensures |hs| > 0 ==> |hs| * (2 * r - 1) <= 200 * CompletedToday(hs, today) < |hs| * (2 * r + 1)
  {
    if |hs| > 0 then RoundedPercent(CompletedToday(hs, today), |hs|) else 0
  }

  /** Every habit done today gives 100. */
  lemma CompletionRateAllDone(hs: seq<Habit>, today: string)
    requires |hs| > 0
    requires forall k :: 0 <= k < |hs| ==> hs[k].lastCompletedDate == Some(today)
    ensures CompletionRate(hs, today) == 100
  {
    AllCompleted(hs, today);
    RoundedPercentExtremes(|hs|);
  }

  /** No habit done today gives 0. */
  lemma CompletionRateNoneDone(hs: seq<Habit>, today: string)
    requires forall k :: 0 <= k < |hs| ==> hs[k].lastCompletedDate != Some(today)
    ensures CompletionRate(hs, today) == 0
  {
    NoneCompleted(hs, today);
    if |hs| > 0 {
      RoundedPercentExtremes(|hs|);
    }
  }

  /** The "Today's Progress" text `${completed}/${total}`. */
  function ProgressText(hs: seq<Habit>, today: string): string
  {
    NatToString(CompletedToday(hs, today)) + "/" + NatToString(|hs|)
  }

  lemma NatToStringHasNoSlash(n: nat)
    ensures '/' !in NatToString(n)
  {
    var s := NatToString(n);
    forall k | 0 <= k < |s|
      ensures s[k] != '/'
    {
      DecimalDigitRange(s[k]);
    }
  }

  /** The progress text reads back as the two counts: one slash, the
      completed count before it and the habit count after it. */
  lemma ProgressTextReadsBack(hs: seq<Habit>, today: string)
    ensures var parts := Split(ProgressText(hs, today), '/');
            |parts| == 2 && ParseInt(parts[0]) == Some(CompletedToday(hs, today))
            && ParseInt(parts[1]) == Some(|hs|)
  {
    var c := NatToString(CompletedToday(hs, today));
    var n := NatToString(|hs|);
    NatToStringHasNoSlash(CompletedToday(hs, today));
    NatToStringHasNoSlash(|hs|);
    assert ProgressText(hs, today) == c + ['/'] + n;
    SplitCons(c, n, '/');
    SplitFree(n, '/');
    ParseIntOfIntToString(CompletedToday(hs, today));
    ParseIntOfIntToString(|hs|);
  }

  // -------------------------------------------------- log-value input

  /** `Number.parseInt(e.target.value) || 1`: text that is not a number and
      text that reads as 0 give 1; every other value, a negative one
      included, is kept. */
  function LogInputValue(text: string): (v: int)
    ensures v != 0
    ensures ParseInt(text).None? || ParseInt(text).value == 0 ==> v == 1
    ensures ParseInt(text).Some? && ParseInt(text).value != 0 ==> v == ParseInt(text).value
  {
    OrNumber(ParseInt(text), 1)
  }

  /** Typing the digits of an integer logs that integer, except that 0
      becomes 1; so negative values are let through. */
  lemma LogInputOfInteger(n: int)
    ensures LogInputValue(IntToString(n)) == (if n == 0 then 1 else n)
  {
    ParseIntOfIntToString(n);
  }

  /** The unit shown in the log modal. */
  function ModalUnit(h: Habit): (u: string)
    ensures u != ""
    ensures h.unit.Some? && h.unit.value != "" ==> u == h.unit.value
  {
    OrText(h.unit, "completion")
  }

  // ------------------------------------------------------- the page

  /** The body of the `logHabit` request. */
  datatype LogRequest = LogRequest(habitId: string, value: int)

  class DashboardPage {
    var habits: seq<Habit>
    var loading: bool
    var selectedHabit: Option<Habit>
    var showLogModal: bool
    var logValue: int

    constructor ()
      ensures habits == [] && !loading && selectedHabit.None? && !showLogModal && logValue == 1
    {
      habits, loading, selectedHabit, showLogModal, logValue := [], false, None, false, 1;
    }

    /** `showLogModal && selectedHabit`: the modal is drawn. */
    predicate ModalShown()
      reads this
    {
      showLogModal && selectedHabit.Some?
    }

    /** `fetchHabits`: `response || []` replaces the list; a failed request
        keeps it. It catches its own errors and always ends loading. */
    method FetchHabits(fetched: Fetch<seq<Habit>>)
      modifies this
      ensures habits == (if fetched.Received? then fetched.body.GetOr([]) else old(habits))
      ensures !loading
      ensures selectedHabit == old(selectedHabit) && showLogModal == old(showLogModal)
      ensures logValue == old(logValue)
    {
      loading := true;
      if fetched.Received? {
        habits := fetched.body.GetOr([]);
      }
      loading := false;
    }

    /** `openLogModal(habit)`. */
    method OpenLogModal(habit: Habit)
      modifies this
      ensures selectedHabit == Some(habit) && showLogModal && ModalShown()
      ensures habits == old(habits) && loading == old(loading) && logValue == old(logValue)
    {
      selectedHabit := Some(habit);
      showLogModal := true;
    }

    /** The close and cancel buttons: the selection stays. */
    method CloseLogModal()
      modifies this
      ensures !showLogModal && !ModalShown()
      ensures selectedHabit == old(selectedHabit) && habits == old(habits)
      ensures loading == old(loading) && logValue == old(logValue)
    {
      showLogModal := false;
    }

    /** The value input's `onChange`. */
    method ChangeLogValue(text: string)
      modifies this
      ensures logValue == LogInputValue(text) && logValue != 0
      ensures habits == old(habits) && loading == old(loading)
      ensures selectedHabit == old(selectedHabit) && showLogModal == old(showLogModal)
    {
      logValue := LogInputValue(text);
    }

    /** `handleLogHabit`. With no habit selected nothing happens. Otherwise
        the selected habit's value is logged (`logOk` is whether that call
        resolves); after success the list is fetched again (`refresh`), the
        modal closes, the selection is cleared and the value returns to 1;
        after failure nothing changes. */
    method HandleLogHabit(logOk: bool, refresh: Fetch<seq<Habit>>) returns (request: Option<LogRequest>)
      modifies this
      ensures old(selectedHabit).None? ==>
                request.None? && habits == old(habits) && loading == old(loading)
                && selectedHabit == old(selectedHabit) && showLogModal == old(showLogModal)
                && logValue == old(logValue)
      ensures old(selectedHabit).Some? ==> request == Some(LogRequest(old(selectedHabit).value.id, old(logValue)))
      ensures old(selectedHabit).Some? && !logOk ==>
                habits == old(habits) && loading == old(loading) && selectedHabit == old(selectedHabit)
                && showLogModal == old(showLogModal) && logValue == old(logValue)
      ensures old(selectedHabit).Some? && logOk ==>
                habits == (if refresh.Received? then refresh.body.GetOr([]) else old(habits))
                && !loading && selectedHabit.None? && !showLogModal && logValue == 1 && !ModalShown()
    {
      if selectedHabit.None? {
        return None;
      }
      request := Some(LogRequest(selectedHabit.value.id, logValue));
      if logOk {
        FetchHabits(refresh);
        showLogModal := false;
        selectedHabit := None;
        logValue := 1;
      }
    }
  }
}
