# croncal's `buildEvents` in Dafny

croncal reads crontab text and draws it as a calendar. Its core is
`buildEvents` (main.go:96-138), which turns the crontab text into an ordered
list of events, each an `Event{Title, Start}`. It works in three steps:

- The text is split on `"\n"`. Lines beginning with `#` are dropped, and
  empty lines are skipped.
- Every other line is split on single spaces. The first five fields, joined
  by spaces, form the cron timing. The remaining fields, joined by spaces,
  form the command, which becomes the event title.
- The timing is parsed into a schedule. Then, from the window start and
  while the current time is before the window end, the current time is
  advanced to the schedule's next firing and an event with the command as
  title is appended.

The model has four modules:

- `GoStrings` (go_strings.dfy) holds `strings.Split` and `strings.Join` for
  a one-character separator. It proves that they undo each other and that
  splitting yields one more piece than there are separators.
- `Cron` (cron.dfy) models a parsed schedule only through its "next firing"
  operation on Unix seconds. `Schedule` is the type of functions `next` with
  `next(t) > t` for every `t`. `Occurrences` gives the times the expansion
  loop records for one line.
- `CronCal` (croncal.dfy) holds the `Event` record and the error results.
  It has the pure specification `Events`, built from the pieces `Specs`,
  `SplitSpec`, `LineEvents` and `ExpandAll`. `BuildEvents` is the imperative
  method, with the same loops as the Go code. It is proved equal to
  `Events`, and the properties of `buildEvents` are proved as lemmas about
  `Events`.
- `CronCalExample` (croncal_example.dfy) replays the scenario of
  main_test.go. The input is two comment lines and the weekly backup line
  `0 5 * * 1 tar -zcf /var/backups/home.tgz /home/`. The window runs from
  2021-01-31T00:00:00Z to 2021-02-07T00:00:00Z. The result is exactly two
  events: 2021-02-01T05:00:00Z and 2021-02-08T05:00:00Z.

Modelling decisions:

- The cron parser belongs to the library github.com/robfig/cron and is a
  parameter `parse: string -> ParseResult`. It returns `Parsed(schedule)` or
  `Invalid(message)`. A parse error ends the whole call with
  `Err(ParseFailed(message))` and no events.
- At main.go:113, a non-empty, non-comment line with fewer than five
  space-separated fields makes Go index past the end of the slice and panic.
  The model returns the distinct error `Err(FieldsMissing(line))` instead. It
  is not a precondition.
- The window is taken as two parameters `start` and `end` (Unix seconds), as
  main_test.go:20 calls `buildEvents(input, start, end)`. main.go:121-129
  instead reads the window from the clock through the `now` library.
- Event start times are Unix seconds (`int`). They are not RFC 3339 strings.

On these points the model follows the code, where a reader might expect
otherwise:

- Only a `#` in the first column makes a comment; indented `#` lines are
  not comments.
- Lines are split on single spaces, not on runs of whitespace, so two
  adjacent spaces make an empty field.
- Exactly five fields are accepted, and the title is then `""`.
- The last event of each line lies at or after the window end, because the
  loop tests before it advances.
- An empty or reversed window is not an error. It gives no events.

## Model

| member | source | states |
|---|---|---|
| CronCal.BuildEvents | main.go:96-138 | the method's result is exactly `Events(input, parse, start, end)`: the comment filter, then the per-line expansion, first error winning |
| CronCal.AppendFirings | main.go:131-134 | the walk from `start` appends to the events exactly one event per recorded firing, in order, each titled with the command |
| CronCal.Specs | main.go:97-103 | the comment filter never keeps more lines than it is given |
| CronCal.SpecsMembers | main.go:99-103 | a line is kept by the comment filter exactly when it is an input line that does not start with `#` |
| CronCal.SpecsAppend | main.go:99-103 | the filter distributes over concatenation, so kept lines stay in input order and each line's fate depends on that line alone |
| CronCal.SplitSpecRefuses | main.go:112-113 | a line is refused exactly when it has fewer than four spaces (five fields), and the error names the line |
| CronCal.SplitSpecTiming | main.go:112-113 | the timing of an accepted line is exactly five fields: it holds four spaces |
| CronCal.SplitSpecRejoins | main.go:112-114 | with exactly five fields, the timing is the whole line and the title is `""`; with more, timing + " " + title gives back the line |
| CronCal.LineEventsWindow | main.go:116-134 | the events of an expanded non-empty line: there are some iff `start < end`; all carry the line's command; the i-th is `next` applied i+1 times to `start`, strictly after `start`; they strictly increase; all but the last are before `end` and the last is at or after it |
| CronCal.ExpandAllWindow | main.go:108-135 | over all kept lines at once: every event lies strictly after the window start and carries the command of one of the non-empty lines, and a window with `start >= end` yields no event |
| CronCal.EventsWindow | main.go:96-138 | for the whole result of `buildEvents`: every event lies strictly after the window start and is titled with the command of a non-comment, non-empty input line that splits, and a window with `start >= end` yields `[]` |
| CronCal.ExpandAllAppend | main.go:108-135 | expanding two groups of lines gives the first group's error, else the second's, else the two event lists concatenated in order |
| CronCal.ExpandAllStep | main.go:108-135 | one turn of the outer loop extends the events of the lines so far by the current line's events, leaves them unchanged for a line that yields nothing, and an error so far is the error of the whole call |
| CronCal.FirstErrorWins | main.go:116-119 | the call fails with `e` iff some line fails with `e` and every line before it expands |
| CronCal.ErrorHasFirstLine | main.go:108-119 | when the call fails with `e`, some line fails with `e` and every line before it expands |
| CronCal.FirstLineGivesError | main.go:108-119 | a line failing with `e` after lines that all expand makes the whole call fail with `e`, whatever follows |
| CronCal.AllLinesExpand | main.go:108-137 | the call succeeds iff every kept line expands |
| CronCal.EmptyLineIgnored | main.go:109-111 | an empty line anywhere in the kept lines changes neither the events nor the error |
| CronCal.BlankLinesExpandToNothing | main.go:109-111 | lines that are all empty give no events and no error |
| CronCal.CommentsAndBlanksOnly | main.go:97-111 | input made only of comments and empty lines gives `Ok([])` |
| CronCal.EventsOfJoinedLines | main.go:97 | for text joined from lines without line breaks, the result is the expansion of those lines' non-comment ones |
| CronCal.IgnoredLineDropped | main.go:99-111 | removing a comment line or an empty line from the lines does not change the result |
| CronCal.UnbrokenWithout | main.go:97 | removing a line from a list of lines without line breaks leaves a list without line breaks |
| CronCal.IgnoredLineInserted | main.go:97-111 | inserting a comment line or an empty line anywhere in the input text does not change the result |
| CronCal.RunAppend | main.go:133 | titling a list of times distributes over concatenation |
| CronCal.RunAt | main.go:133 | the k-th event of a run carries the title and the k-th time |
| CronCal.RunLength | main.go:133 | a run has one event per time |
| Cron.Iterate | main.go:132 | applying `next` one or more times moves strictly past the starting time |
| Cron.Occurrences | main.go:131-133 | the walk records some time iff `curr < end`; it records no more than `end - curr` times; every time is after `curr`; the times strictly increase |
| Cron.OccurrencesStep | main.go:131-133 | one turn of the inner loop moves the next firing from the times still to come to the times recorded |
| Cron.OccurrencesAreIterates | main.go:131-133 | the k-th recorded time is `next` applied k+1 times to the window start |
| Cron.OccurrencesOvershoot | main.go:131-133 | every recorded time but the last is before `end`, and the last is at or after `end` |
| GoStrings.Split | main.go:97 | splitting always gives at least one piece |
| GoStrings.JoinCount | main.go:113-114 | joining parts free of the separator puts exactly one separator between neighbours: the result holds one fewer separator than there are parts |
| GoStrings.SplitCount | main.go:112 | there is one more piece than there are separators |
| GoStrings.SplitPiecesAvoid | main.go:112 | no piece holds the separator |
| GoStrings.JoinSplit | main.go:112-114 | joining the pieces with the separator restores the string |
| GoStrings.SplitJoin | main.go:112-114 | splitting undoes joining when no part holds the separator |
| GoStrings.SplitWithoutSeparator | main.go:112 | a string without the separator splits into itself alone |
| GoStrings.SplitAtFirstSeparator | main.go:112 | splitting stops at the first separator |
| GoStrings.JoinAppend | main.go:113-114 | joining a concatenation puts exactly one separator between the two joins |
| GoStrings.JoinCons | main.go:114 | joining a part in front of others puts one separator after it |
| CronCalExample.MondayAtFive | main_test.go:14 | the model of "0 5 * * 1" in UTC fires at most one week after `t`, strictly after `t`, on the weekly Monday-05:00 grid |
| CronCalExample.JoinFour | main_test.go:14 | four words joined by a separator |
| CronCalExample.JoinFive | main_test.go:11-15 | five words joined by a separator |
| CronCalExample.CommandJoin | main_test.go:14 | the command fields joined by spaces give the expected title |
| CronCalExample.TimingJoin | main_test.go:14 | the timing fields joined by spaces give "0 5 * * 1" |
| CronCalExample.BackupFieldsUnspaced | main_test.go:14 | no field of the backup line holds a space |
| CronCalExample.BackupSpec | main_test.go:14 | the backup line cuts into timing "0 5 * * 1" and title "tar -zcf /var/backups/home.tgz /home/" |
| CronCalExample.BackupIsNoComment | main_test.go:14 | the backup line is neither empty nor a comment |
| CronCalExample.Comment1Unbroken | main_test.go:12 | the first comment line holds no line break |
| CronCalExample.BackupUnbroken | main_test.go:14 | the backup line holds no line break |
| CronCalExample.NoLineBreaks | main_test.go:11-15 | no line of the test input holds a line break |
| CronCalExample.BackupFirings | main_test.go:17-18 | over the test window the walk records 2021-02-01T05:00Z and then overshoots to 2021-02-08T05:00Z |
| CronCalExample.FramedByBlanks | main_test.go:11-15 | a line between two empty lines expands like the line alone |
| CronCalExample.CommentsDropped | main_test.go:11-15 | the comment filter on the test's five lines keeps the two empty lines and the backup line |
| CronCalExample.TwoCommentsAndALine | main_test.go:11-15 | for text shaped like the test input, the comments and blank lines vanish and the remaining line alone decides the result |
| CronCalExample.TwoFirings | main_test.go:25-31 | a line whose walk records two times gives two events with its command as title |
| CronCalExample.BackupEvents | main_test.go:25-31 | the backup line yields the two expected events |
| CronCalExample.BuildEventsTest | main_test.go:9-35 | the test's input and window give exactly the two expected events, both titled "tar -zcf /var/backups/home.tgz /home/" |

## Left out

- `main`, `setFlags`, `msg` and the `duration` flag (main.go:28-71) are left out. They are command-line glue and process exit.
- `validateArgs` (main.go:73-94) is left out. It detects a terminal and reads standard input, which is I/O.
- `buildTemplate` (main.go:140-158) is left out. It reads `index.tmpl` from disk and runs `html/template`.
- The week and month window presets of github.com/jinzhu/now (main.go:121-129) read the clock. The window is a pair of parameters instead.
- The cron grammar and `Schedule.Next` of github.com/robfig/cron (main.go:106, 116, 132) are not part of this model. `parse` is a parameter. The only fact assumed of a schedule is that `next` moves strictly forward.
- robfig's `Next` returns the zero time when no firing exists within five years, which would make `next(t) < t`. The model does not capture this; a schedule always advances. For a timing that never fires (such as `0 0 30 2 *`), the zero time lies before the window end, so the loop at main.go:131-134 would never end and would keep appending events. This follows from library code that is not part of this model, and it has not been run. The model's `Schedule` type rules such schedules out, and that is what lets the walk terminate (`decreases end - curr`).
- `time.Format(time.RFC3339)` and time zones (main.go:133) are left out. Event start times stay Unix seconds.
- The model uses unbounded integers, so the overflow of 64-bit Unix seconds is not captured.
- The Go panic for a line with fewer than five fields (main.go:113) becomes the error result `FieldsMissing(line)`. The model does not capture that the panic ends the process.
