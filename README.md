# HabitFlow client core, modelled in Dafny

HabitFlow is a React habit tracker. This project models the logic of its
pages and of its authentication provider:

- the three forms (registration, login, habit editing): their validation
  rules, `handleChange`, which resets only the edited field's error, and
  `handleSubmit` with its error and success paths;
- the `AuthProvider` session: the start-up restore from `localStorage`,
  `login`, `logout`, the JSON encoding of the stored user and the `useAuth`
  guard;
- the dashboard: the total streak, today's progress, the completion rate,
  the log-value input and the log modal;
- the habit detail page: the clamped log value, the display fallbacks,
  the three views, logging progress and the delete confirmation;
- the reports page: the CSV export, the status and trend rules of the habit
  table, the three views, the load effect and the period buttons.

The JavaScript built-ins these pages rely on are modelled on their
ECMAScript definitions, so that each rule's edge cases are those of the
browser, with three exceptions listed under "## Left out": the percentage
is rounded on exact rationals rather than doubles, `Number(string)` keeps a
literal exact except that one too small for a double becomes 0, and
`JSON.parse` reads only the texts the provider itself writes. The built-ins
are:

- `trim()` and `\s` white space;
- `length` in UTF-16 code units;
- the unanchored pattern `/\S+@\S+\.\S+/.test`;
- `Number.parseInt` and `Number(string)`, including NaN comparisons;
- `Math.round` of a percentage, computed exactly;
- `||` on a missing, empty or zero value.

Components whose state React updates are classes. Their fields are the
`useState` variables and their methods are the handlers. The outcome of
every awaited request is a parameter: it was rejected, or it resolved
with a body that may be `null`. The browser's acceptance of a
`localStorage` write is a parameter as well. "Today" is a parameter.

The model has these modules:

- `Wrappers`: `Option`, `Fetch`, `||`.
- `JsStrings` and `JsNumbers`: the built-ins listed above.
- `FormState`: the shared error-map handling.
- `AuthContext`, `Register`, `Login`, `EditHabit`, `Dashboard`,
  `HabitDetail` and `Reports`: one module per source file.

## Model

| member | source | states |
|---|---|---|
| Wrappers.OrText | src/dashboard/EditHabit.jsx:32-38 | `x \|\| fallback` on text keeps a non-empty string and gives the fallback for a missing or empty one |
| Wrappers.OrNumber | src/dashboard/Dashboard.jsx:56 | `x \|\| fallback` on a number keeps a non-zero number and gives the fallback for a missing value or 0 |
| JsStrings.TrimStart | src/pages/Register.jsx:40 | the result is a suffix of the input, everything dropped is white space, and the result does not start with white space |
| JsStrings.TrimEnd | src/pages/Register.jsx:40 | the result is a prefix of the input, everything dropped is white space, and the result does not end with white space |
| JsStrings.TrimEmptyIffBlank | src/pages/Register.jsx:40 | `!s.trim()` holds exactly when every character of `s` is white space, so the empty string and a string of blanks are both missing names |
| JsStrings.Utf16Length | src/pages/Register.jsx:52 | `length` is between the character count and twice it, and equals the character count when no character lies outside the Basic Multilingual Plane |
| JsStrings.TestEmailCorrect | src/pages/Register.jsx:46 | the scanner accepts a string exactly when `\S+@\S+\.\S+` matches somewhere in it, an unanchored match with three non-blank runs |
| JsStrings.TestEmailSound | src/pages/Register.jsx:46 | every string the scanner accepts has a match of the pattern |
| JsStrings.TestEmailComplete | src/pages/Register.jsx:46 | every string with a match of the pattern is accepted by the scanner |
| JsNumbers.ParseIntOfIntToString | src/dashboard/Dashboard.jsx:163 | `Number.parseInt` reads the decimal rendering of any integer, negative ones included, back as that integer |
| JsNumbers.ParseIntNaN | src/dashboard/Dashboard.jsx:163 | text whose first non-blank character, after one optional sign, is not a digit parses to NaN |
| JsNumbers.ToNumberOfNatToString | src/dashboard/EditHabit.jsx:71 | `Number` converts the decimal digits of a natural number back to that number |
| JsNumbers.ToNumberOfEmpty | src/dashboard/EditHabit.jsx:71 | `Number("")` is 0 |
| JsNumbers.ToNumberOfWord | src/dashboard/EditHabit.jsx:71 | `Number` of any text whose trimmed form starts with a Latin letter other than `I` (which could begin `Infinity`) is NaN |
| JsNumbers.Underflow | src/dashboard/EditHabit.jsx:71 | a value of magnitude at most 2^-1075, half the smallest double, becomes 0; any other value keeps its sign and stays non-zero, as rounding to the nearest double does |
| JsNumbers.ToNumberOfTinyLiteral | src/dashboard/EditHabit.jsx:71 | `Number("1e-400")` is 0 |
| JsNumbers.ToNumberOfAbc | src/dashboard/EditHabit.jsx:71 | `Number("abc")` is NaN |
| JsNumbers.RoundedPercent | src/dashboard/Dashboard.jsx:62 | the result is the integer nearest to `100 * part / whole`, halves rounded up, and lies in 0..100 when `part <= whole` |
| JsNumbers.RoundedPercentExtremes | src/dashboard/Dashboard.jsx:62 | the whole is 100 percent and nothing is 0 percent |
| FormState.ClearError | src/pages/Register.jsx:31-34 | resetting an error nulls only that key when it holds a message; no key is added or removed and every other entry is unchanged |
| FormState.ClearErrorIdempotent | src/pages/Register.jsx:31-34 | clearing the same error twice is clearing it once |
| FormState.Stored | src/pages/Register.jsx:69-72 | the stored errors have exactly the keys and messages of the validation result |
| FormState.BlankError | src/pages/Register.jsx:40-42 | the shared required-name rule: a message, the one given, exactly when the name trims to nothing |
| FormState.SubmitFailure | src/pages/Register.jsx:83 | a submit failure replaces every earlier message by the single `submit` entry |
| FormState.EmailError | src/pages/Register.jsx:44-48 | "Email is required" exactly for the empty e-mail, "Email is invalid" exactly for a non-empty one the pattern does not match, and no message exactly when it matches |
| AuthContext.DecodeEncode | src/contexts/AuthContext.jsx:22-36 | `JSON.parse` of what `JSON.stringify` stored gives the same user back, for text and for a user object |
| AuthContext.DecodeExact | src/contexts/AuthContext.jsx:22-36 | whatever text the parse accepts is exactly what `JSON.stringify` writes for the value it gives |
| AuthContext.DecodeAcceptsExactlyEncoded | src/contexts/AuthContext.jsx:22-36 | a stored text parses exactly when it is the encoding of some user value |
| AuthContext.EncodeNotEmpty | src/contexts/AuthContext.jsx:22-36 | a stored user value is never the falsy empty string |
| AuthContext.RestoreFromStorage | src/contexts/AuthContext.jsx:18-29 | start-up sets the token exactly when both keys hold text, and the user exactly when moreover the stored user parses; `loading` stays on only when that parse throws, which is exactly when the stored user is not the encoding of any user value; storage is untouched |
| AuthContext.LoginSurvivesReload | src/contexts/AuthContext.jsx:18-39 | after a login whose writes were accepted and whose token is non-empty, a reload restores the same user and token |
| AuthContext.LogoutStorage | src/contexts/AuthContext.jsx:41-47 | logout removes the `token` and `user` keys and leaves every other key and value alone |
| AuthContext.LogoutIdempotent | src/contexts/AuthContext.jsx:41-47 | logging out twice is logging out once |
| AuthContext.LoginThenLogout | src/contexts/AuthContext.jsx:33-47 | login then logout leaves neither key, no user and no token, and a reload then starts signed out |
| AuthContext.UseAuth | src/contexts/AuthContext.jsx:5-11 | `useAuth` throws its message exactly when there is no provider, and otherwise gives the provider's value |
| AuthContext.AuthSession.constructor | src/contexts/AuthContext.jsx:14-16 | no user, no token, loading, over the browser's storage |
| AuthContext.AuthSession.Init | src/contexts/AuthContext.jsx:18-29 | the effect's new state is the restore of the old one, and it reports the parse failure exactly when the restore throws |
| AuthContext.AuthSession.Login | src/contexts/AuthContext.jsx:33-39 | the user and token are set and loading ends; the two keys are written only when storage accepts them, and the call fails exactly when it does not |
| AuthContext.AuthSession.Logout | src/contexts/AuthContext.jsx:41-47 | user and token are cleared, loading ends, and both keys are removed |
| Register.FieldOf | src/pages/Register.jsx:25-35 | an error key names a field exactly when it is one of the four input names, and that field's key is the name |
| Register.Form.With | src/pages/Register.jsx:25-30 | the edited field takes the new value and every other field keeps its own |
| Register.NameError | src/pages/Register.jsx:40-42 | the name is missing exactly when it is blank, with the message "Name is required" |
| Register.PasswordError | src/pages/Register.jsx:50-54 | "required" exactly for the empty password, "too short" exactly for one of 1 to 5 UTF-16 code units, no error from 6 on |
| Register.ConfirmError | src/pages/Register.jsx:56-60 | "please confirm" exactly for an empty confirmation, "do not match" exactly for a different non-empty one, no error exactly when it equals the password |
| Register.Validate | src/pages/Register.jsx:37-63 | only the four field keys appear, each with the message of its own rule |
| Register.ValidateField | src/pages/Register.jsx:37-63 | a field has an entry exactly when its rule fails, holding that rule's message |
| Register.ValidateEmptyIffAcceptable | src/pages/Register.jsx:37-72 | the form is submitted exactly when the name is not blank, the e-mail matches, the password has at least six code units and the confirmation equals it |
| Register.PostedBodyIgnoresCredentials | src/pages/Register.jsx:78 | as written, two registrations with the same name but different e-mails and passwords post the same body |
| Register.PostedBodyIgnoresCredentialEdits | src/pages/Register.jsx:78 | as written, changing the e-mail, the password or the confirmation of any form leaves the posted body unchanged |
| Register.RequestOf | src/pages/Register.jsx:78 | the intended request carries the form's name, e-mail and password |
| Register.RequestKeepsCredentials | src/pages/Register.jsx:78 | two acceptable forms post the same intended request exactly when they are the same form |
| Register.RegisterPage.constructor | src/pages/Register.jsx:13-23 | the form starts empty, with no errors and not loading |
| Register.RegisterPage.HandleChange | src/pages/Register.jsx:25-35 | the form becomes the edited form and the errors become the cleared errors; loading is unchanged |
| Register.RegisterPage.HandleSubmit | src/pages/Register.jsx:65-87 | invalid: the messages are stored and nothing is posted. Valid: the request is posted. The request posted is the intended one (`RequestOf`), not the name alone (see "## Findings"). A rejected call gives the failure message. An answer logs its user and token in, and the page navigates exactly when storage accepts the login. Loading ends |
| Login.Key | src/pages/Login.jsx:18-22 | the key of a field is one of the two input names, `email` exactly for the e-mail field |
| Login.Form.With | src/pages/Login.jsx:18-20 | the edited field takes the new value and the other keeps its own |
| Login.Validate | src/pages/Login.jsx:24-30 | the e-mail has an entry exactly when the pattern fails, holding the registration form's message, and the password has one exactly when it is empty |
| Login.ValidateEmptyIff | src/pages/Login.jsx:24-37 | the form is submitted exactly when the e-mail matches and a password was typed |
| Login.SameEmailRuleWeakerPassword | src/pages/Login.jsx:24-30 | the login and registration forms judge an e-mail alike, but login takes a short password that registration refuses |
| Login.LoginPage.constructor | src/pages/Login.jsx:13-16 | empty form, no errors, not loading |
| Login.LoginPage.HandleChange | src/pages/Login.jsx:18-22 | the form becomes the edited form and the errors become the cleared errors |
| Login.LoginPage.HandleSubmit | src/pages/Login.jsx:32-49 | invalid: the messages are stored and the session is untouched. Valid: the e-mail becomes the session's user and the password its token, and the page navigates exactly when storage accepts, else "Invalid email or password". Loading ends |
| Login.LoginPage.HandleDemoLogin | src/pages/Login.jsx:51-57 | loading is raised and never lowered, the page navigates, and form and errors are unchanged |
| EditHabit.Form.Edited | src/dashboard/EditHabit.jsx:52-58 | the checkbox stores its checked state, every other input its text, and no other field changes |
| EditHabit.LoadForm | src/dashboard/EditHabit.jsx:31-40 | each text field keeps a non-empty stored value and otherwise takes its default: "" for name, description and reminder time, "daily", "completion" and the default purple for frequency, unit and colour. The target keeps a non-zero value and is 1 when missing or 0. The reminder is on only when stored as true |
| EditHabit.ReloadIsStable | src/dashboard/EditHabit.jsx:31-40 | saving a loaded form unchanged and loading it again gives the same form |
| EditHabit.LoadEmptyHabit | src/dashboard/EditHabit.jsx:12-40 | a habit with no values loads as the initial form |
| EditHabit.TargetRuleOnText | src/dashboard/EditHabit.jsx:71 | typed digits fail the target rule exactly when the number they spell does; an emptied input fails it and the word "abc" passes it |
| EditHabit.TargetRuleOnWord | src/dashboard/EditHabit.jsx:71-73 | any text whose trimmed form starts with a Latin letter other than `I` passes the target rule, since `NaN <= 0` is false |
| EditHabit.TargetRuleOnTinyLiteral | src/dashboard/EditHabit.jsx:71-73 | the positive literal "1e-400" converts to 0 and fails the target rule with its message |
| EditHabit.TargetError | src/dashboard/EditHabit.jsx:71-73 | the target message appears exactly when `target <= 0` holds in JavaScript |
| EditHabit.NameError | src/dashboard/EditHabit.jsx:67-69 | the name is missing exactly when it is blank, with the message "Habit name is required" |
| EditHabit.ReminderError | src/dashboard/EditHabit.jsx:75-77 | a reminder that is on needs a time |
| EditHabit.Validate | src/dashboard/EditHabit.jsx:64-80 | a key has an entry exactly when its rule fails, holding that rule's message |
| EditHabit.ValidateName | src/dashboard/EditHabit.jsx:67-69 | the name entry is present exactly for a blank name |
| EditHabit.ValidateTarget | src/dashboard/EditHabit.jsx:71-73 | the target entry is present exactly when `target <= 0` holds in JavaScript, a literal below the smallest double counting as 0 |
| EditHabit.ValidateReminder | src/dashboard/EditHabit.jsx:75-77 | the reminder entry is present exactly when the reminder is on and has no time |
| EditHabit.ValidateEmptyIff | src/dashboard/EditHabit.jsx:64-89 | the form is submitted exactly when all three rules pass |
| EditHabit.LoadedTargetRule | src/dashboard/EditHabit.jsx:36 | a freshly loaded target fails the rule only when the stored target is negative |
| EditHabit.EditHabitPage.constructor | src/dashboard/EditHabit.jsx:12-25 | the initial form with its defaults, no errors, loading |
| EditHabit.EditHabitPage.Load | src/dashboard/EditHabit.jsx:27-50 | a habit fills the form from its values and defaults; a failed request or no habit leaves the form and redirects; loading ends |
| EditHabit.EditHabitPage.HandleChange | src/dashboard/EditHabit.jsx:52-62 | the form becomes the edited form and the errors become the cleared errors |
| EditHabit.EditHabitPage.HandleSubmit | src/dashboard/EditHabit.jsx:82-102 | invalid: the messages are stored and nothing is sent. Valid: the form is sent, and the page navigates exactly when the update resolves, else the failure message is stored |
| Reports.LineIsJoin | src/dashboard/Reports.jsx:45 | a row is its four fields joined by commas |
| Reports.GenerateCsv | src/dashboard/Reports.jsx:42-48 | the loop builds the header followed by one line per log, in order, with no rows when `logs` is missing |
| Reports.CsvStartsWithHeader | src/dashboard/Reports.jsx:43 | every export begins with the header line |
| Reports.CsvOfNoLogs | src/dashboard/Reports.jsx:44 | missing or empty logs export the header alone |
| Reports.RowsAsJoin | src/dashboard/Reports.jsx:44-46 | the rows are the logs' lines joined by newlines, with a final newline |
| Reports.CsvAsJoin | src/dashboard/Reports.jsx:42-48 | the export is the header, the lines and an empty tail joined by newlines |
| Reports.CsvReadsBack | src/dashboard/Reports.jsx:42-48 | for logs without commas or newlines, splitting the export at newlines gives the header, one line per log in order, and an empty tail |
| Reports.LineReadsBack | src/dashboard/Reports.jsx:45 | splitting a clean row at commas gives its four fields back |
| Reports.ColumnCount | src/dashboard/Reports.jsx:45 | each comma inside a text field adds a column, since nothing is quoted |
| Reports.RowCount | src/dashboard/Reports.jsx:45 | each newline inside a text field adds a row: the export splits into the number of logs plus two, plus the newlines inside the fields |
| Reports.HandleExportData | src/dashboard/Reports.jsx:32-40 | an answer downloads its CSV as `habitflow-data.csv`; a rejected request or a `null` answer downloads nothing |
| Reports.StatusOf | src/dashboard/Reports.jsx:198-210 | Excellent from 80, Good from 50 below 80, Needs Improvement below 50 or without a rate |
| Reports.StatusMonotone | src/dashboard/Reports.jsx:198-210 | a higher rate never earns a lower status |
| Reports.Label | src/dashboard/Reports.jsx:206-210 | the label names the status |
| Reports.BadgeClasses | src/dashboard/Reports.jsx:198-204 | green, yellow and red go with the three labels, chosen by the same thresholds |
| Reports.Trend | src/dashboard/Reports.jsx:186-193 | only the exact trend "up" is green and upright; anything else, a missing trend included, is red and turned over |
| Reports.ViewOf | src/dashboard/Reports.jsx:62-72 | the spinner exactly while loading, then the empty state exactly when the analytics are missing or there are no habits, else the report, whose table rows are the analytics' `completionRates` |
| Reports.ReportsPage.constructor | src/dashboard/Reports.jsx:8-11 | no habits, period "week", loading, no analytics |
| Reports.ReportsPage.LoadData | src/dashboard/Reports.jsx:13-30 | a rejected habit request changes nothing and asks for no analytics. Otherwise the habits (`\|\| []`) are set and the selected period's analytics are requested, replacing the old ones when that call resolves. Loading ends |
| Reports.ReportsPage.SelectPeriod | src/dashboard/Reports.jsx:115-123 | only the period changes |
| Dashboard.TotalStreakIsSum | src/dashboard/Dashboard.jsx:55-57 | the reduce is the sum of the streaks, a missing or zero one counting 0, and no habits give 0 |
| Dashboard.StreakSumAppend | src/dashboard/Dashboard.jsx:55-57 | the total of two lists is the sum of their totals |
| Dashboard.StreakBoundsTotal | src/dashboard/Dashboard.jsx:55-57 | with no negative streaks, each habit's streak is between 0 and the total |
| Dashboard.CompletedOn | src/dashboard/Dashboard.jsx:62 | the filter keeps exactly the habits whose last completion is today, each as many times as it occurs in the list |
| Dashboard.CompletedTodayCons | src/dashboard/Dashboard.jsx:62 | no habits count 0, and the first habit adds one exactly when it was completed today |
| Dashboard.CompletedTodayAppend | src/dashboard/Dashboard.jsx:62 | today's count of two lists is the sum of their counts |
| Dashboard.CompletedToday | src/dashboard/Dashboard.jsx:62 | at most as many habits are completed as there are |
| Dashboard.CompletionRate | src/dashboard/Dashboard.jsx:60-63 | 0 with no habits, else the nearest integer to the completed percentage, halves up, always within 0..100 |
| Dashboard.CompletionRateAllDone | src/dashboard/Dashboard.jsx:60-63 | every habit done today gives 100 |
| Dashboard.CompletionRateNoneDone | src/dashboard/Dashboard.jsx:60-63 | no habit done today gives 0 |
| Dashboard.ProgressTextReadsBack | src/dashboard/Dashboard.jsx:88 | the progress text has one slash, with the completed count before it and the habit count after it |
| Dashboard.LogInputValue | src/dashboard/Dashboard.jsx:163 | never 0. NaN and 0 give 1, and any other parsed value, a negative one included, is kept |
| Dashboard.LogInputOfInteger | src/dashboard/Dashboard.jsx:163 | typing an integer logs it, except that 0 becomes 1 |
| Dashboard.ModalUnit | src/dashboard/Dashboard.jsx:166 | the unit shown is never empty and is the habit's own when it has one |
| Dashboard.DashboardPage.constructor | src/dashboard/Dashboard.jsx:10-14 | no habits, not loading, no selection, modal closed, value 1 |
| Dashboard.DashboardPage.FetchHabits | src/dashboard/Dashboard.jsx:20-30 | an answer replaces the list (`\|\| []`), a rejection keeps it, loading ends, nothing else changes |
| Dashboard.DashboardPage.OpenLogModal | src/dashboard/Dashboard.jsx:46-49 | the habit is selected and the modal is drawn |
| Dashboard.DashboardPage.CloseLogModal | src/dashboard/Dashboard.jsx:152 | the modal is closed and the selection stays |
| Dashboard.DashboardPage.ChangeLogValue | src/dashboard/Dashboard.jsx:163 | the value becomes that of the input rule, never 0 |
| Dashboard.DashboardPage.HandleLogHabit | src/dashboard/Dashboard.jsx:32-44 | no selection does nothing. Otherwise the selected habit's value is logged. On success the list is refetched, the modal closes, the selection clears and the value returns to 1. On failure nothing changes |
| HabitDetail.ClampedLogValue | src/dashboard/HabitDetail.jsx:158 | at least 1: a parsed value of 1 or more is kept, and NaN, 0 and negative values give 1 |
| HabitDetail.ClampOfDashboardInput | src/dashboard/HabitDetail.jsx:158 | the detail input is the dashboard input bounded below by 1, and they agree exactly when the dashboard value is at least 1 |
| HabitDetail.ClampOfInteger | src/dashboard/HabitDetail.jsx:158 | typing an integer gives it when it is at least 1, and 1 otherwise |
| HabitDetail.LastCompletedLabel | src/dashboard/HabitDetail.jsx:75 | "Never" exactly for a missing or empty date, otherwise that date |
| HabitDetail.DisplayOf | src/dashboard/HabitDetail.jsx:94-152 | each missing figure shows 0 and a present one shows itself, the completion rate with its fraction; units and colour are never empty |
| HabitDetail.UnitFallbacks | src/dashboard/HabitDetail.jsx:136-152 | without a unit, or with an empty one, the total card says "completions" and the input "completion"; with one both show it |
| HabitDetail.HistoryOf | src/dashboard/HabitDetail.jsx:177 | the history table is drawn exactly when the habit has a non-empty list of logs, and shows that list |
| HabitDetail.ViewOf | src/dashboard/HabitDetail.jsx:54-71 | the spinner exactly while loading, then "not found" exactly for a missing habit, else its details |
| HabitDetail.HabitDetailPage.constructor | src/dashboard/HabitDetail.jsx:13-16 | no habit, loading, value 1, no confirmation |
| HabitDetail.HabitDetailPage.FinishFetch | src/dashboard/HabitDetail.jsx:18-31 | an answer, `null` included, becomes the habit, a rejection keeps it, and loading ends |
| HabitDetail.HabitDetailPage.ChangeLogValue | src/dashboard/HabitDetail.jsx:158 | the value becomes the clamped input, never below 1 |
| HabitDetail.HabitDetailPage.HandleLogProgress | src/dashboard/HabitDetail.jsx:33-43 | this habit's value, at least 1, is logged; when the log and the refetch both succeed the habit is replaced and the value returns to 1, otherwise nothing changes |
| HabitDetail.HabitDetailPage.AskDelete | src/dashboard/HabitDetail.jsx:114 | the confirmation opens and nothing else changes |
| HabitDetail.HabitDetailPage.CancelDelete | src/dashboard/HabitDetail.jsx:215 | the confirmation closes and nothing else changes |
| HabitDetail.HabitDetailPage.HandleDelete | src/dashboard/HabitDetail.jsx:45-52 | this habit is deleted, and the page navigates exactly when the call resolves |

## Left out

- Rendering, styling, animation, icons and routing are left out. Navigation is a boolean out-parameter. The show-password toggles are left out because they only change what is drawn.
- The HTTP layer in `src/services/api.js` is left out: the axios client, its interceptors and the 401 redirect. Each request is a parameter: it was rejected, or it resolved with a possibly `null` body.
- React's batching of state updates, and requests that overlap one another, are not modelled. Each handler runs to completion with its awaited results given.
- `console.error` calls do not affect state and are left out.
- The file download of `downloadCSV` is left out: the Blob, the object URL and the temporary link. The export returns the file name and content instead.
- `new Date().toISOString()` for "today" is a parameter. `toLocaleDateString` formatting is not modelled; a present date is shown as the stored text.
- `Math.round((c / n) * 100)` is computed on exact rationals rather than IEEE doubles.
- `Number(string)` keeps a decimal literal's exact value instead of rounding it to the nearest double, and a literal beyond the largest double stays finite instead of becoming Infinity. Only underflow is modelled: a magnitude of at most 2^-1075 becomes 0. Neither omission changes a value's sign or makes it 0, and that is all `target <= 0` sees.
- Register.RegisterPage.HandleSubmit: posts the intended request `RequestOf(form)`. As written, the page posts only the name; `PostedBodyAsWritten` and the "## Findings" row model that call.
- AuthContext.RestoreFromStorage: `JSON.parse` is modelled on the texts `Encode` writes. Any other stored text counts as a parse failure, so `loading` stays on, even when it is valid JSON such as `null`, keys in another order, added white space or other escapes. `AuthContext.DecodeAcceptsExactlyEncoded` states this boundary.
- AuthContext.AuthSession.Init: inherits the same boundary, since its new state is the restore of the old one.
- `JSON.stringify` is modelled for the two user shapes the pages store: a string, and an object with `id`, `name` and `email`. Only `"` and `\` are escaped; control-character escapes and other user fields are left out.
- A `localStorage` write is all-or-nothing, through the `accepted` parameter. The case where the token write succeeds but the user write throws is not modelled.
- Reports: the progress bars, the summary cards (`overallStats`) and `trendValue` are display only and are left out. The `getHabits` answer is only counted, so its habits carry no fields.
- `Number.parseInt` in hexadecimal reads the digits of any length. Precision loss beyond 2^53 is not modelled.
- `src/dashboard/Settings.jsx`, the home page and the card components are not part of this model.

## Findings

| source | as written | input that shows it | evidently intended | confidence | as-written member | corrected member |
|---|---|---|---|---|---|---|
| src/pages/Register.jsx:78 | `api.register(formData.name, formData.email, formData.password)` passes three arguments, but `register(userData)` in src/services/api.js:39-41 declares one and posts it as the body, so only the name string is sent | `Form("Ann", "ann@mail.com", "secret1", "secret1")` and `Form("Ann", "x@y.io", "other22", "other22")` post the same body `"Ann"` | post one object holding the name, e-mail and password | not executed | Register.PostedBodyIgnoresCredentials | Register.RequestKeepsCredentials |
