# Diary store: a verified model

This project models the in-memory store behind the diary HTTP service in
`main.go`: a map from secret code to user, where each user holds an ordered
list of diary entries (one per date) and each entry an ordered list of logs.
Every handler, once its JSON decoding and status codes are taken away, is a
sequential operation on that store, and each one is modelled here:

- `register` files a fresh user under a randomly drawn secret code;
- `login` looks a user up;
- `addEntry` finds or creates today's entry and appends a log to it;
- `updateEntry` overwrites a log of today's entry by ID;
- `deleteEntry` cuts a log out of today's entry by ID;
- `showEntry` returns the logs of the entry with a given date;
- `showDiaryOfMonth` filters the entries down to the current month.

Files and modules:

- `options.dfy` (`Options`): an optional value.
- `decimal.dfy` (`Decimal`): decimal digits, and the shortest decimal form that
  `strconv.Itoa` gives the random ID and secret code, with its round trip.
- `date_layout.dfy` (`DateLayout`): the date layout `"2006-01-02"`, as the
  store prints today's date and as the month filter reads stored dates, with
  round trips in both directions. It follows Go's `time` package for this one
  layout: a four-digit year, month 01..12, and a day that exists in that month
  (leap years included). The `time` package itself is not part of this model.
- `diary.dfy` (`Diary`): the `Log`, `DiaryEntry` and `User` records, the
  handler outcome, and what each handler does to one user's entries, written
  as functions on values (`AddLog`, `UpdateLog`, `DeleteLog`, `LogsOn`,
  `EntriesInMonth`), with the lemmas that state what they change and keep.
- `store.dfy` (`DiaryServer`): the class `Store` holding
  `users: map<string, User>`. Its methods run the handlers' loops (a search
  with a `found` flag and `break`) and change the map in place, and each is
  proved equal to the functions of `Diary`. `ExampleSession` is a client that
  goes through a register, login, add, show, delete and delete-again sequence
  using the contracts alone.

Inputs the source takes from the clock or the random generator are
parameters: the two draws of `rand.Intn(1000000)` (`idNum`, `codeNum`), the
current date (`now`, printed with `DateLayout.Format` as `time.Now().Format`
does), and, for `addEntry`, the creation time text and the nanosecond IDs
(`Stamps`). `addEntry` reads the clock for an ID at three places, at most
twice per call: for the log before the search (main.go:186), then either again
for the log when it appends to an existing entry (main.go:193) or for a new
entry's ID when there is none (main.go:204). `Stamps` carries all three
readings, and each branch uses the ones it reads.

Handlers report an `Outcome` in place of an HTTP status: `Ok` (200 or 201),
`NotFound(NoSuchUser)` or `NotFound(NoSuchLog)` (404), and `ParseError` (500
from `showDiaryOfMonth`).

The object invariant `Store.Valid()` holds after the constructor and after
every method: each user is filed under its own secret code, its entries have
distinct dates, and every stored date is in the layout. So on a store built
only through these operations, `ShowDiaryOfMonth` never answers `ParseError`.

Three descriptions of the API differ from what the code does. The model
follows the code:

- `showEntry` is described as always answering 200. The code answers 404 for
  an unknown secret code (main.go:326-330).
- The log ID is described as stamped once by `addEntry`. The code gives the
  log a second nanosecond ID when today's entry already exists
  (main.go:193-194).
- Adding a log on date D is described as making `showEntry` for D return
  exactly that log. The code returns every log of that day with the new one
  last (`AddLogThenShow`), which is the one new log only when there was no
  entry for D before.

## Model

| member | source | states |
|---|---|---|
| `Decimal.DecimalString` | main.go:88-89 | the secret code and ID text is non-empty, all digits, with no leading zero unless the number is 0 |
| `Decimal.DecimalValueOfString` | main.go:88-89 | reading the printed code back as a number gives the drawn number |
| `Decimal.DecimalStringInjective` | main.go:88-89 | two different draws give two different secret codes; codes collide only when the draws do |
| `Decimal.DecimalStringWidth` | main.go:88-89 | a draw below 10^w prints in at most w digits, so codes and IDs have at most six |
| `DateLayout.DaysIn` | main.go:141 | a month has 28 to 31 days, and 29 exactly for February of a leap year |
| `DateLayout.Parse` | main.go:141 | a date the layout accepts has the layout's shape, a year 0..9999, a month 1..12 and a day the month has |
| `DateLayout.Format` | main.go:184 | today's date is printed in the shape of the layout: four digits, '-', two digits, '-', two digits (ParseOfFormat gives the round trip) |
| `DateLayout.ParseOfFormat` | main.go:184 | the date text addEntry stamps on a new entry reads back as the same date |
| `DateLayout.FormatOfParse` | main.go:141 | every text the layout accepts is exactly the printed form of the date it reads as |
| `Diary.IndexOfDate` | main.go:189-199 | the search for today's entry stops at the first entry with that date, and finds nothing only when no entry has that date |
| `Diary.IndexOfLog` | main.go:245-251 | the search for a log stops at the first log with that ID, and finds nothing only when no log has it |
| `Diary.LogsOn` | main.go:332-338 | showEntry's answer: no logs when no entry has the date, and otherwise the logs of the first entry that has it |
| `Diary.AddLog` | main.go:189-211 | addEntry on one user's entries: the list grows by at most one entry, afterwards some entry is dated today, and every entry with another date is unchanged (the lemmas below give each branch exactly) |
| `Diary.AddLogToTodaysEntry` | main.go:189-199 | when today's entry exists, only the first such entry changes: its ID and date stay, its old logs stay in place and the re-stamped log is added at the end; the number of entries and every other entry are unchanged |
| `Diary.AddLogNewEntry` | main.go:201-211 | when no entry is dated today, exactly one entry `{entryId, today, [log]}` is added at the end and the earlier entries are unchanged |
| `Diary.TotalLogsUpdate` | main.go:195 | replacing one entry changes the user's log total by the difference in that entry's log count |
| `Diary.TotalLogsAppend` | main.go:210 | appending an entry adds its logs to the user's log total |
| `Diary.AddLogTotal` | main.go:189-211 | addEntry adds exactly one log to the user, whichever branch it takes |
| `Diary.AddLogDateCount` | main.go:189-211 | after addEntry there is at least one entry for today, and at most one if there was at most one before; other dates keep their number of entries |
| `Diary.AddLogKeepsValidEntries` | main.go:184-211 | if today's date is in the layout, addEntry keeps the user's dates distinct and all in the layout |
| `Diary.AddLogThenShow` | main.go:189-211 | after addEntry, showEntry for today gives the earlier logs of today followed by the new log, and for any other date what it gave before |
| `Diary.UpdateLog` | main.go:241-259 | updateEntry on one user's entries: it succeeds exactly when the first entry dated today holds a log with the request's ID, otherwise the answer is not-found; the number of entries does not change |
| `Diary.UpdateLogEffect` | main.go:243-251 | the first log with the matching ID in the first entry dated today is replaced by the request log at the same index; list lengths, every other log and every other entry are unchanged |
| `Diary.UpdateLogKeeps` | main.go:247 | an update keeps the dates, the log total and the validity of the entries |
| `Diary.UpdateLogThenShow` | main.go:247 | after an update, showEntry for today gives the same logs with the matched one replaced in place |
| `Diary.DeleteLog` | main.go:287-305 | deleteEntry on one user's entries: it succeeds exactly when the first entry dated today holds a log with that ID, otherwise the answer is not-found; the number of entries does not change |
| `Diary.DeleteLogEffect` | main.go:289-300 | the deleted log is the first with that ID in the first entry dated today; that entry keeps its ID and date, and every other entry is unchanged |
| `Diary.DeleteLogKeepsOrder` | main.go:293 | today's entry loses exactly that one log: the logs before it stay where they were, the logs after it move up by one, and nothing else is lost |
| `Diary.DeleteLogKeeps` | main.go:293 | a delete keeps the dates and validity of the entries and lowers the log total by one |
| `Diary.DeleteLogTwice` | main.go:287-305 | when log IDs in today's entry are distinct, deleting the same ID a second time finds nothing |
| `Diary.EntriesInMonth` | main.go:139-149 | the month filter's result is no longer than the list; EntriesInMonthInOrder and EntriesInMonthCounts give its full contract |
| `Diary.EntriesInMonthInOrder` | main.go:140-148 | the month filter's result is a subsequence of the entries: it keeps their list order |
| `Diary.EntriesInMonthCounts` | main.go:146-147 | each entry of that month and year appears in the result as many times as in the list, and no other entry appears |
| `DiaryServer.Store.constructor` | main.go:35 | the store starts empty and valid |
| `DiaryServer.Store.Register` | main.go:87-100 | the secret code's entry becomes a fresh user with the given name, email and date of birth and no entries; a user already there is overwritten and every other code is unchanged |
| `DiaryServer.Store.Login` | main.go:53-57 | answers the user filed under the code, or not-found; the store is not modified; on a valid store the user carries that code |
| `DiaryServer.Store.ShowDiaryOfMonth` | main.go:127-149 | not-found for an unknown code; a parse error exactly when some stored date is not in the layout; otherwise the entries of the current month and year in list order; never a parse error on a valid store |
| `DiaryServer.Store.AddEntry` | main.go:178-211 | not-found and no change for an unknown code; otherwise the user's entries become `AddLog` of the old ones and nothing else in the store changes |
| `DiaryServer.Store.UpdateEntry` | main.go:234-259 | not-found and no change for an unknown code or a missing log; otherwise the user's entries become `UpdateLog` of the old ones and nothing else changes |
| `DiaryServer.Store.DeleteEntry` | main.go:280-305 | not-found and no change for an unknown code or a missing log; otherwise the user's entries become `DeleteLog` of the old ones and nothing else changes |
| `DiaryServer.Store.ShowEntry` | main.go:326-338 | not-found for an unknown code; otherwise the logs of the first entry with the requested date, or no logs; the store is not modified |

## Left out

- HTTP method checks, JSON decoding and encoding, and response writing
  (main.go:38-51, 60-67, 102-109, 151-158, 340-346). Only the outcome is
  modelled. `json.Marshal` of these plain records cannot fail, so the 500
  branches after it are omitted.
- A nil slice and an empty slice are both the empty sequence here, so the
  difference between `null` and `[]` in the JSON answer is not modelled.
- The random generator and the clock are parameters (main.go:88-89, 134-136,
  184-186, 193, 204, 241, 287). Neither ID uniqueness nor secret-code
  uniqueness is claimed, because the source does not guarantee them.
- Clock dates outside the years 0..9999 are excluded (`requires
  DateLayout.IsValid(now)`). For such years the layout does not print four
  digits.
- Go's `time.Parse` is modelled only for the layout `"2006-01-02"` and only
  as accept-or-reject. Its error messages are not modelled.
- Concurrency is not modelled. The handlers share `users` without locking,
  and the model assumes that calls run one at a time.
- The map holds `*User` pointers that handlers change in place. The model
  stores user values and replaces the map entry instead. Every registration
  allocates a new user, so no two codes share one, and the two views agree.
  Slices that share a backing array are not modelled either. The store never
  keeps two slices over one array.
- `main` and the server setup (main.go:349-361).
