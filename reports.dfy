/** The reports page: the CSV export, the status and trend rules of the
    habit table, and which of its three views is shown. */
module Reports {
  import opened Wrappers
  import opened JsStrings
  import opened JsNumbers

  // ------------------------------------------------------------ CSV

  /** One entry of `data.logs` in the analytics answer. */
  datatype ExportLog = ExportLog(date: string, habitName: string, value: int, unit: string)

  /** The analytics answer: the `logs` the export writes and the
      `completionRates` rows of the habit table; the overall figures are
      display only. */
  datatype Analytics = Analytics(logs: Option<seq<ExportLog>>, completionRates: seq<ReportHabit>)

  const HeaderLine: string := "Date,Habit,Value,Unit"
  const Header: string := HeaderLine + "\n"

  /** The four fields of a log as the template literal writes them. */
  function Fields(log: ExportLog): seq<string>
  {
    [log.date, log.habitName, IntToString(log.value), log.unit]
  }

  /** `${log.date},${log.habitName},${log.value},${log.unit}`. */
  function Line(log: ExportLog): string
  {
    log.date + "," + log.habitName + "," + IntToString(log.value) + "," + log.unit
  }

  /** A line is its four fields joined by commas. */
  lemma LineIsJoin(log: ExportLog)
    ensures Line(log) == Join(Fields(log), ',')
  {
    Join4(log.date, log.habitName, IntToString(log.value), log.unit, ',');
  }

  lemma Join4(a: string, b: string, c: string, e: string, d: char)
    ensures Join([a, b, c, e], d) == a + [d] + b + [d] + c + [d] + e
  {
    var p := [a, b, c, e];
    assert p[1..] == [b, c, e] && p[1..][1..] == [c, e] && p[1..][1..][1..] == [e];
    assert Join([e], d) == e;
    assert Join([c, e], d) == c + [d] + e;
    assert Join([b, c, e], d) == b + [d] + (c + [d] + e);
  }

  /** Appending the row of log `i` to the first `i` rows gives the first
      `i + 1` rows. */
  lemma GrowRows(logs: seq<ExportLog>, i: nat)
    requires i < |logs|
    ensures Header + Rows(logs[..i]) + (Line(logs[i]) + "\n") == Header + Rows(logs[..i + 1])
  {
    RowsSnoc(logs, i);
  }

  lemma RowsSnoc(logs: seq<ExportLog>, i: nat)
    requires i < |logs|
    ensures Rows(logs[..i + 1]) == Rows(logs[..i]) + Line(logs[i]) + "\n"
  {
    assert logs[..i + 1][..i] == logs[..i];
  }

  /** The lines written for `logs`, in order. */
  function Lines(logs: seq<ExportLog>): (r: seq<string>)
    ensures |r| == |logs|
  {
    seq(|logs|, k requires 0 <= k < |logs| => Line(logs[k]))
  }

  /** The lines of a list are the lines of all but its last log, then the
      last log's line. */
  lemma LinesSnoc(logs: seq<ExportLog>)
    requires logs != []
    ensures Lines(logs) == Lines(logs[..|logs| - 1]) + [Line(logs[|logs| - 1])]
  {
    var init := logs[..|logs| - 1];
    var a := Lines(logs);
    var b := Lines(init) + [Line(logs[|logs| - 1])];
    forall k | 0 <= k < |a|
      ensures a[k] == b[k]
    {
      if k < |init| {
        assert init[k] == logs[k];
      }
    }
  }

  /** The text appended for `logs`: each line followed by a newline. */
  function Rows(logs: seq<ExportLog>): string
  {
    if logs == [] then "" else Rows(logs[..|logs| - 1]) + Line(logs[|logs| - 1]) + "\n"
  }

  /** What `generateCSV(data)` returns: the header, then one row per log;
      `data.logs?.forEach` writes no rows when `logs` is missing. */
  function Csv(data: Analytics): string
  {
    Header + (match data.logs case None => "" case Some(logs) => Rows(logs))
  }

  /** `generateCSV`: the string is grown one row at a time. */
  method GenerateCsv(data: Analytics) returns (csv: string)
    ensures csv == Csv(data)
  {
    csv := Header;
    if data.logs.Some? {
      var logs := data.logs.value;
      var i := 0;
      while i < |logs|
        invariant 0 <= i <= |logs|
        invariant csv == Header + Rows(logs[..i])
      {
        var row := Line(logs[i]) + "\n";
        GrowRows(logs, i);
        csv := csv + row;
        i := i + 1;
      }
      assert logs[..|logs|] == logs;
    }
  }

  /** The export always begins with the header line. */
  lemma CsvStartsWithHeader(data: Analytics)
    ensures |Header| <= |Csv(data)| && Csv(data)[..|Header|] == Header
  {
  }

  /** With the logs missing or empty the export is the header alone. */
  lemma CsvOfNoLogs(rates: seq<ReportHabit>)
    ensures Csv(Analytics(None, rates)) == Header
    ensures Csv(Analytics(Some([]), rates)) == Header
  {
  }

  /** The rows are the lines of the logs joined by newlines, with a final
      newline after the last. */
  lemma {:induction false} RowsAsJoin(logs: seq<ExportLog>)
    requires logs != []
    ensures Rows(logs) == Join(Lines(logs), '\n') + "\n"
  {
    var n := |logs|;
    if n == 1 {
      assert Rows(logs) == Rows([]) + Line(logs[0]) + "\n";
    } else {
      var init := logs[..n - 1];
      RowsAsJoin(init);
      LinesSnoc(logs);
      JoinSnoc(Lines(init), Line(logs[n - 1]), '\n');
    }
  }

  lemma {:induction false} JoinSnoc(parts: seq<string>, last: string, d: char)
    requires parts != []
    ensures Join(parts + [last], d) == Join(parts, d) + [d] + last
  {
    if |parts| == 1 {
      assert (parts + [last])[1..] == [last];
    } else {
      assert (parts + [last])[1..] == parts[1..] + [last];
      JoinSnoc(parts[1..], last, d);
    }
  }

  /** A rendered integer never holds a comma or a newline. */
  lemma IntToStringClean(n: int)
    ensures ',' !in IntToString(n) && '\n' !in IntToString(n)
  {
    IntToStringCharacters(n);
    var s := IntToString(n);
    forall k | 0 <= k < |s|
      ensures s[k] != ',' && s[k] != '\n'
    {
      if IsDigit(s[k], 10) {
        DecimalDigitRange(s[k]);
      }
    }
  }

  /** A log whose text fields hold neither a comma nor a newline. */
  predicate Clean(log: ExportLog)
  {
    ',' !in log.date && ',' !in log.habitName && ',' !in log.unit
    && '\n' !in log.date && '\n' !in log.habitName && '\n' !in log.unit
  }

  lemma LineHasNoNewline(log: ExportLog)
    requires Clean(log)
    ensures '\n' !in Line(log)
  {
    IntToStringClean(log.value);
  }

  /** The pieces the export is made of, in the order they are written:
      the header, the line of each log, and the empty text after the last
      newline. */
  function Pieces(logs: seq<ExportLog>): (r: seq<string>)
    ensures |r| == |logs| + 2
  {
    seq(|logs| + 2, k requires 0 <= k < |logs| + 2 =>
      if k == 0 then HeaderLine else if k <= |logs| then Line(logs[k - 1]) else "")
  }

  lemma PiecesInOrder(logs: seq<ExportLog>)
    ensures Pieces(logs) == [HeaderLine] + Lines(logs) + [""]
  {
    var a := Pieces(logs);
    var b := [HeaderLine] + Lines(logs) + [""];
    forall k | 0 <= k < |a|
      ensures a[k] == b[k]
    {
      if 1 <= k <= |logs| {
        LineAt(logs, k - 1);
      }
    }
  }

  /** The export is its pieces joined by newlines. */
  lemma CsvAsJoin(logs: seq<ExportLog>, rates: seq<ReportHabit>)
    ensures Csv(Analytics(Some(logs), rates)) == Join(Pieces(logs), '\n')
  {
    var lines := Lines(logs);
    var parts := Pieces(logs);
    PiecesInOrder(logs);
    var tail := lines + [""];
    assert parts == [HeaderLine] + tail && parts[1..] == tail;
    if logs == [] {
      assert tail == [""];
    } else {
      assert Join(parts, '\n') == HeaderLine + "\n" + Join(tail, '\n');
      JoinSnoc(lines, "", '\n');
      RowsAsJoin(logs);
      var j := Join(lines, '\n');
      assert Join(tail, '\n') == j + "\n";
      assert Rows(logs) == j + "\n";
    }
  }

  lemma PiecesHaveNoNewline(logs: seq<ExportLog>)
    requires forall k :: 0 <= k < |logs| ==> Clean(logs[k])
    ensures forall k :: 0 <= k < |Pieces(logs)| ==> '\n' !in Pieces(logs)[k]
  {
    forall k | 0 <= k < |Pieces(logs)|
      ensures '\n' !in Pieces(logs)[k]
    {
      if k == 0 {
        assert Pieces(logs)[k] == HeaderLine;
      } else if k <= |logs| {
        LinePieceHasNoNewline(logs, k);
      } else {
        assert Pieces(logs)[k] == "";
      }
    }
  }

  lemma LinePieceHasNoNewline(logs: seq<ExportLog>, k: nat)
    requires 1 <= k <= |logs| && Clean(logs[k - 1])
    ensures '\n' !in Pieces(logs)[k]
  {
    LineHasNoNewline(logs[k - 1]);
  }

  /** The line at position `k` is the line of the `k`-th log. */
  lemma LineAt(logs: seq<ExportLog>, k: nat)
    requires k < |logs|
    ensures Lines(logs)[k] == Line(logs[k])
  {
  }

  /** Reading the export back: splitting at newlines gives the header, one
      line per log in order, and the empty text after the last newline.
      This holds for clean logs only, since no field is quoted. */
  lemma CsvReadsBack(logs: seq<ExportLog>, rates: seq<ReportHabit>)
    requires forall k :: 0 <= k < |logs| ==> Clean(logs[k])
    ensures Split(Csv(Analytics(Some(logs), rates)), '\n') == [HeaderLine] + Lines(logs) + [""]
  {
    CsvAsJoin(logs, rates);
    PiecesHaveNoNewline(logs);
    SplitJoin(Pieces(logs), '\n');
    PiecesInOrder(logs);
  }

  /** Splitting a clean line at commas gives its four fields back. */
  lemma LineReadsBack(log: ExportLog)
    requires Clean(log)
    ensures Split(Line(log), ',') == Fields(log)
  {
    IntToStringClean(log.value);
    LineIsJoin(log);
    SplitJoin(Fields(log), ',');
  }

  /** A comma inside a field is written as it is, so each one adds a column:
      a line has exactly four columns only when its fields are free of
      commas. */
  lemma ColumnCount(log: ExportLog)
    ensures |Split(Line(log), ',')| == 4 + Count(log.date, ',') + Count(log.habitName, ',') + Count(log.unit, ',')
  {
    var v := IntToString(log.value);
    IntToStringClean(log.value);
    CountAbsent(v, ',');
    assert Count(",", ',') == 1;
    var x1 := log.date + ",";
    var x2 := x1 + log.habitName;
    var x3 := x2 + ",";
    var x4 := x3 + v;
    var x5 := x4 + ",";
    assert Line(log) == x5 + log.unit;
    CountAppend(log.date, ",", ',');
    CountAppend(x1, log.habitName, ',');
    CountAppend(x2, ",", ',');
    CountAppend(x3, v, ',');
    CountAppend(x4, ",", ',');
    CountAppend(x5, log.unit, ',');
  }

  /** The newlines inside the text fields of one log. */
  function LogNewlines(log: ExportLog): nat
  {
    Count(log.date, '\n') + Count(log.habitName, '\n') + Count(log.unit, '\n')
  }

  /** The newlines inside the text fields of all the logs. */
  function FieldNewlines(logs: seq<ExportLog>): nat
  {
    if logs == [] then 0 else FieldNewlines(logs[..|logs| - 1]) + LogNewlines(logs[|logs| - 1])
  }

  lemma LineNewlines(log: ExportLog)
    ensures Count(Line(log), '\n') == LogNewlines(log)
  {
    var v := IntToString(log.value);
    IntToStringClean(log.value);
    CountAbsent(v, '\n');
    assert Count(",", '\n') == 0;
    var x1 := log.date + ",";
    var x2 := x1 + log.habitName;
    var x3 := x2 + ",";
    var x4 := x3 + v;
    var x5 := x4 + ",";
    assert Line(log) == x5 + log.unit;
    CountAppend(log.date, ",", '\n');
    CountAppend(x1, log.habitName, '\n');
    CountAppend(x2, ",", '\n');
    CountAppend(x3, v, '\n');
    CountAppend(x4, ",", '\n');
    CountAppend(x5, log.unit, '\n');
  }

  lemma {:induction false} RowsNewlines(logs: seq<ExportLog>)
    ensures Count(Rows(logs), '\n') == |logs| + FieldNewlines(logs)
  {
    if logs != [] {
      var init := logs[..|logs| - 1];
      var last := logs[|logs| - 1];
      RowsNewlines(init);
      LineNewlines(last);
      CountAppend(Rows(init), Line(last), '\n');
      CountAppend(Rows(init) + Line(last), "\n", '\n');
      assert Count("\n", '\n') == 1;
    }
  }

  /** A newline inside a field is written as it is, so each one adds a row:
      splitting the export at newlines gives the header, one piece per log
      and the empty tail only when no field holds a newline. */
  lemma RowCount(logs: seq<ExportLog>, rates: seq<ReportHabit>)
    ensures |Split(Csv(Analytics(Some(logs), rates)), '\n')| == |logs| + 2 + FieldNewlines(logs)
  {
    var csv := Csv(Analytics(Some(logs), rates));
    assert csv == Header + Rows(logs);
    RowsNewlines(logs);
    CountAppend(Header, Rows(logs), '\n');
    HeaderNewlines();
  }

  lemma HeaderNewlines()
    ensures Count(Header, '\n') == 1
  {
    var newline: string := ['\n'];
    HeaderLineClean();
    CountAbsent(HeaderLine, '\n');
    CountOne('\n', '\n');
    assert Header == HeaderLine + newline;
    CountAppend(HeaderLine, newline, '\n');
  }

  lemma CountOne(c: char, d: char)
    ensures Count([c], d) == if c == d then 1 else 0
  {
    assert [c][1..] == [];
  }

  lemma HeaderLineClean()
    ensures '\n' !in HeaderLine
  {
  }

  // ------------------------------------------------------ the export

  /** A file handed to the browser's download. */
  datatype Download = Download(fileName: string, content: string)

  const ExportFileName: string := "habitflow-data.csv"

  /** `handleExportData`: the "all" analytics are fetched and their CSV is
      downloaded; a failed request, or an answer that is `null` (reading
      `data.logs` then throws), downloads nothing. */
  method HandleExportData(fetched: Fetch<Analytics>) returns (download: Option<Download>)
    ensures fetched.Received? && fetched.body.Some? ==>
              download == Some(Download(ExportFileName, Csv(fetched.body.value)))
    ensures !(fetched.Received? && fetched.body.Some?) ==> download.None?
  {
    if fetched.Received? && fetched.body.Some? {
      var csv := GenerateCsv(fetched.body.value);
      download := Some(Download(ExportFileName, csv));
    } else {
      download := None;
    }
  }

  // ------------------------------------------------ status and trend

  /** The status of a habit's completion rate. A missing rate compares
      false with both thresholds. */
  datatype Status = Excellent | Good | NeedsImprovement

  const ExcellentFrom: real := 80.0
  const GoodFrom: real := 50.0

  function StatusOf(rate: Option<real>): (s: Status)
    ensures s == Excellent <==> rate.Some? && rate.value >= ExcellentFrom
    ensures s == Good <==> rate.Some? && GoodFrom <= rate.value < ExcellentFrom
    ensures s == NeedsImprovement <==> rate.None? || rate.value < GoodFrom
  {
    if rate.Some? && rate.value >= ExcellentFrom then Excellent
    else if rate.Some? && rate.value >= GoodFrom then Good
    else NeedsImprovement
  }

  function Rank(s: Status): nat
  {
    match s
    case NeedsImprovement => 0
    case Good => 1
    case Excellent => 2
  }

  /** A higher rate never earns a lower status. */
  lemma StatusMonotone(a: real, b: real)
    requires a <= b
    ensures Rank(StatusOf(Some(a))) <= Rank(StatusOf(Some(b)))
  {
  }

  /** The status label. */
  function Label(rate: Option<real>): (r: string)
    ensures r == "Excellent" <==> StatusOf(rate) == Excellent
    ensures r == "Good" <==> StatusOf(rate) == Good
    ensures r == "Needs Improvement" <==> StatusOf(rate) == NeedsImprovement
  {
    if rate.Some? && rate.value >= ExcellentFrom then "Excellent"
    else if rate.Some? && rate.value >= GoodFrom then "Good"
    else "Needs Improvement"
  }

  /** The badge's colour classes, chosen by the same two thresholds as the
      label: green, yellow and red go with the three labels. */
  function BadgeClasses(rate: Option<real>): (r: string)
    ensures r == "bg-green-100 text-green-800" <==> Label(rate) == "Excellent"
    ensures r == "bg-yellow-100 text-yellow-800" <==> Label(rate) == "Good"
    ensures r == "bg-red-100 text-red-800" <==> Label(rate) == "Needs Improvement"
  {
    if rate.Some? && rate.value >= ExcellentFrom then "bg-green-100 text-green-800"
    else if rate.Some? && rate.value >= GoodFrom then "bg-yellow-100 text-yellow-800"
    else "bg-red-100 text-red-800"
  }

  /** How the trend arrow and figure are drawn. */
  datatype TrendStyle = TrendStyle(colorClass: string, rotated: bool)

  /** `habit.trend === "up"`: only the exact text "up" draws the green upward
      arrow; anything else, a missing trend included, draws it red and
      turned over. */
  function Trend(trend: Option<string>): (r: TrendStyle)
    ensures r.rotated <==> trend != Some("up")
    ensures r.colorClass == (if trend == Some("up") then "text-green-500" else "text-red-500")
  {
    if trend == Some("up") then TrendStyle("text-green-500", false) else TrendStyle("text-red-500", true)
  }

  // ------------------------------------------------------- the page

  /** One row of the habit table, an entry of `analytics.completionRates`. */
  datatype ReportHabit = ReportHabit(name: string, completionRate: Option<real>, trend: Option<string>)

  /** A habit of the `getHabits` answer; the page only counts them. */
  datatype ListedHabit = ListedHabit(id: string)

  /** The report view draws one table row per entry of
      `analytics.completionRates`, in order. */
  datatype View = Spinner | EmptyState | Report(rows: seq<ReportHabit>)

  /** The view shown: the spinner while loading, then the empty state when
      the analytics are missing or there are no habits; otherwise the table
      of the analytics' rows. */
  function ViewOf(loading: bool, analytics: Option<Analytics>, habitCount: nat): (v: View)
    ensures v == Spinner <==> loading
    ensures v == EmptyState <==> !loading && (analytics.None? || habitCount == 0)
    ensures v.Report? <==> !loading && analytics.Some? && habitCount > 0
    ensures v.Report? ==> v.rows == analytics.value.completionRates
  {
    if loading then Spinner
    else if analytics.None? || habitCount == 0 then EmptyState
    else Report(analytics.value.completionRates)
  }

  class ReportsPage {
    var habits: seq<ListedHabit>
    var selectedPeriod: string
    var loading: bool
    var analytics: Option<Analytics>

    constructor ()
      ensures habits == [] && selectedPeriod == "week" && loading && analytics.None?
    {
      habits, selectedPeriod, loading, analytics := [], "week", true, None;
    }

    function Shown(): View
      reads this
    {
      ViewOf(loading, analytics, |habits|)
    }

    /** The load effect: habits first (`habitsData || []`), then the
        analytics of the selected period, which `analyticsPeriod` names
        when that request is made. A failed request skips what follows it;
        loading ends in every case. */
    method LoadData(habitsFetch: Fetch<seq<ListedHabit>>, analyticsFetch: Fetch<Analytics>)
      returns (analyticsPeriod: Option<string>)
      modifies this
      ensures selectedPeriod == old(selectedPeriod) && !loading
      ensures habitsFetch.Failed? ==> habits == old(habits) && analytics == old(analytics) && analyticsPeriod.None?
      ensures habitsFetch.Received? ==> habits == habitsFetch.body.GetOr([]) && analyticsPeriod == Some(selectedPeriod)
      ensures habitsFetch.Received? && analyticsFetch.Failed? ==> analytics == old(analytics)
      ensures habitsFetch.Received? && analyticsFetch.Received? ==> analytics == analyticsFetch.body
    {
      loading := true;
      analyticsPeriod := None;
      if habitsFetch.Received? {
        habits := habitsFetch.body.GetOr([]);
        analyticsPeriod := Some(selectedPeriod);
        if analyticsFetch.Received? {
          analytics := analyticsFetch.body;
        }
      }
      loading := false;
    }

    /** A period button: the period changes, and with it the effect runs
        again (a separate `LoadData`). */
    method SelectPeriod(period: string)
      modifies this
      ensures selectedPeriod == period
      ensures habits == old(habits) && loading == old(loading) && analytics == old(analytics)
    {
      selectedPeriod := period;
    }
  }
}
