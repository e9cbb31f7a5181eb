# kilram reminders, modelled in Dafny

kilram is a Jabber chat bot. Users send it reminders in loose English,
such as `tea: in 5m`, `dentist: on thursday at 6pm` or
`party: on Feb 14 at 5pm req-ack`. The bot checks the timers whenever its
event loop is idle and messages their owners when they fall due. A timer
flagged `req-ack` keeps alerting, at most once every five minutes, until
the user sends `timer ack <name>`. Users can also keep named logs of
timestamped lines.

This project models the core of that behaviour and proves properties of
the model:

- `Timer.__init__`, the parser of timer expressions. It covers the six
  grammars, the six strptime clock formats, the weekday and month-name
  formats, and every error the parser raises.
- The timer's own queries: `remaining`, `done`, `remaining_str` and
  `target_str`.
- The user record: the timer and log tables and the `jid2user` cache.
- The log-line parser `LogEntry` and the `Logger` list of entries.
- The bot's timer sweep `check_timers`, the presence update, the `uptime`
  reply and the `timer` command.

Time is a natural number of whole seconds since 1970-01-01 00:00 local time.
Every operation that reads the clock takes the current time `now` as a
parameter.

The files are:

| file | module | what it holds |
|---|---|---|
| `text.dfy` | `Text` | Character classes, `Option`/`Result`, the tokenizer and numerals |
| `calendar.dfy` | `Calendar` | Proleptic Gregorian dates from 1970, day numbers and ISO weekdays |
| `clock.dfy` | `Clock` | The clock token and the six strptime clock formats |
| `timer.dfy` | `Timers` | The `Timer` value, the grammars, the anchors and the parser |
| `timer_expressions.dfy` | `TimerExpressions` | Timer expressions written out word by word, one space apart, and the timers the parser makes of them |
| `timer_queries.dfy` | `TimerQueries` | `remaining`, `done`, `remaining_str`, `target_str` and read-back functions |
| `logger.dfy` | `Logging` | `LogEntry` parsing and the `Logger` class |
| `user.dfy` | `Users` | The `User` and `Registry` classes |
| `kilram.dfy` | `Bot` | The sweep, `uptime` and the `timer` command, in the `Kilram` class |

How each part of the source is modelled:

- Pure, regex-driven code is modelled as functions. This covers grammar
  matching, strptime and the renderers.
- The source's loops become methods with loops, each proved equal to a
  specification function:
  - the loop over the grammars (`Timers.NewTimer`);
  - the loop over the clock formats (`Clock.ReadClock`);
  - the loops over the weekday and month formats;
  - the loop over the units of `remaining_str` and `uptime`
    (`TimerQueries.RenderUnits`);
  - the two nested loops of `check_timers`.
- Objects whose fields the source changes are classes: `User`, the
  class-level user cache (`Registry`), `Logger` and the bot itself.
- A `Timer` is a value stored in the user's table. Setting its
  `last_alert` replaces the table entry.

**Where the model follows the code rather than the design description:**

- A countdown with no units at all (`tea: in`) is accepted. It is due at
  once (`Timers.TimerBareIn`).
- `in N days at T` and `tomorrow at T` do not roll forward. `in 0d at T`
  with `T` already past gives a target in the past (`Timers.DayAnchors`).
- `on Feb 29 at T` fails with "Failed to parse day" unless this year is a
  leap year and that moment is still ahead. strptime refuses February 29
  of the next year (`Timers.LeapDayAnchor`).
- Upper-case `REQ-ACK` is accepted by the case-insensitive pattern.
  However, the flag test compares with lower-case `req-ack`, so the timer
  then does not require acknowledgement (`Timers.TimerRequireAck`).
- The source does not try the grammars in a fixed order: it walks a Python
  dict. The model tries them in written order. It proves that no two
  grammars accept the same tokens, so the order cannot change the result
  (`Timers.GrammarOrderIrrelevant`).
- Text that no grammar reads fails with "Unable to parse timer for '<args>'".
- The `timer` command tries `^ack +` before setting a timer, so
  `timer ack me: in 5m` acknowledges a timer named `me: in 5m` rather than
  setting one (`Bot.RouteAck`).

## Model

| member | source | states |
|---|---|---|
| `Text.TokensRoundTrip` | kilram/Timer.py:41-42 | Cutting the time specification at runs of spaces, as the patterns' ` +` and ` *` separators do, loses nothing but trailing spaces: the tokens and their gaps rebuild the text |
| `Text.ReadIntText` | kilram/Timer.py:142 | The decimal `%s` of an amount, negative or not, is read back as that amount when a unit letter follows it |
| `Calendar.DateOfDayNumber` | kilram/Timer.py:98-100 | A date's day number determines the date: converting the day number back gives the same year, month and day |
| `Calendar.WeekdayShift` | kilram/Timer.py:82-86 | `isoweekday` advances by one per day, cyclically, so adding seven days keeps the weekday |
| `Clock.ReadClock` | kilram/Timer.py:55-62 | The loop over `'%I:%M%p'`, `'%I.%M%p'`, `'%I%p'`, `'%H:%M'`, `'%H.%M'`, `'%H'` returns the reading of the first format that accepts the token, or nothing when all fail |
| `Clock.StrptimeOnToken` | kilram/Timer.py:57 | Each format, run as strptime runs it (alternatives tried left to right, and no text left over), reads a clock token exactly as described by its hour digits, separator, minutes and am/pm suffix |
| `Clock.ParseClockReading` | kilram/Timer.py:55-62 | The six formats together read `h[:mm]am/pm` with `h` from 1 to 12, and `h[:mm]` with `h` from 0 to 23. Minutes are two digits below 60, and `.` may replace `:`. Every other clock token is refused |
| `Clock.ClockExamplePm` | kilram/Timer.py:55-62 | `6pm` is 18:00 |
| `Clock.ClockExampleFivePm` | kilram/Timer.py:55-62 | `5pm` is 17:00 |
| `Clock.ClockExampleMidnight` | kilram/Timer.py:55-62 | `12am` is 00:00 |
| `Clock.ClockExampleNoon` | kilram/Timer.py:55-62 | `12pm` is 12:00 |
| `Clock.ClockExampleBareHour` | kilram/Timer.py:55-62 | A bare `6` is 06:00 |
| `Clock.ClockExampleMinutes` | kilram/Timer.py:55-62 | `3:30pm` is 15:30 |
| `Clock.ClockExampleTwentyFour` | kilram/Timer.py:55-62 | `18:30` is 18:30 |
| `Clock.ClockExampleDot` | kilram/Timer.py:55-62 | `18.30` is 18:30 too |
| `Clock.ClockExampleBadHour` | kilram/Timer.py:55-62 | `13pm` is refused by every format |
| `Clock.ClockExampleZeroAm` | kilram/Timer.py:55-62 | `0am` is refused by every format |
| `Clock.ClockExampleBadMinutes` | kilram/Timer.py:55-62 | `99:99` is refused by every format |
| `Timers.SplitHeader` | kilram/Timer.py:41 | The description is the non-empty text before the first colon and holds no colon |
| `Timers.CountdownAmounts` | kilram/Timer.py:20-24 | The countdown units come at most once each, in the order days, hours, minutes, seconds. Absent units count 0. `TimerExpressions.CountdownGroups` shows which amounts it reads |
| `Timers.NewTimer` | kilram/Timer.py:12-111 | The loop over the grammars builds exactly the timer or error that `TimerOf` defines |
| `Timers.ResolveSpec` | kilram/Timer.py:48-62 | A countdown adds its amounts to now. An anchored grammar first reads its clock token, and otherwise fails with "Failed to parse time '<token>'" |
| `Timers.ResolveAnchor` | kilram/Timer.py:64-108 | Once the clock time is known, each anchored grammar gives the target or the error of `AnchorTarget` |
| `Timers.ReadWeekday` | kilram/Timer.py:79-92 | The loop over `'%a %U'` and `'%A %U'` gives the target of the first weekday format that reads the name |
| `Timers.ReadMonthDay` | kilram/Timer.py:94-108 | The loop over `'%b %d %Y'` and `'%B %d %Y'` gives the target of the first month format that reads the date |
| `Timers.ReadMonthDayAs` | kilram/Timer.py:97-105 | One month format tries this year's date and, if that moment has passed, next year's. Either strptime failing makes the format fail |
| `Timers.TimerDescription` | kilram/Timer.py:41-44 | A parsed timer is named by the non-empty, colon-free text before the first colon. It is created now and has never alerted |
| `Timers.TimerRequireAck` | kilram/Timer.py:41-46 | `require_ack` is set exactly when the last token is `req-ack` in lower case |
| `Timers.HeaderFlag` | kilram/Timer.py:45-46 | The header's flag is `req-ack` exactly when the last token is `req-ack` in lower case |
| `Timers.TimerUnparsable` | kilram/Timer.py:110-111 | Text that has no description, or that no grammar reads, raises "Unable to parse timer for '<args>'" |
| `Timers.TimerCountdown` | kilram/Timer.py:48-53 | A countdown's target is now plus its days, hours, minutes and seconds, as the countdown grammar read them. `TimerExpressions.TimerOfCountdown` ties those to the digits written |
| `Timers.TimerBareIn` | kilram/Timer.py:20-24 | `in` with no units is a countdown of nothing: the target is now |
| `Timers.CountdownExample` | kilram/Timer.py:20-24 | `tea: in` parses to a timer named `tea`, due now, without acknowledgement |
| `Timers.TimerMatched` | kilram/Timer.py:40-47 | Whichever grammar reads the time specification decides the timer, whatever order the grammars are tried in |
| `Timers.BuildBadClock` | kilram/Timer.py:55-62 | An anchored grammar whose clock token no format reads fails with "Failed to parse time '<token>'" |
| `Timers.TimerAtToday` | kilram/Timer.py:72-77 | A whole `desc: at T` expression whose clock token reads is due at time of day T, after now, and no later than any other moment after now at T |
| `Timers.TimerInDays` | kilram/Timer.py:64-66 | A whole `desc: in N d at T` expression is due N days after today, at T, where N is what the grammar read. `TimerExpressions.TimerOfInDays` ties N to the digits written |
| `Timers.TimerTomorrow` | kilram/Timer.py:68-70 | A whole `desc: tomorrow at T` expression is due tomorrow at T, which is after now |
| `Timers.TimerOnWeekday` | kilram/Timer.py:79-92 | A whole `desc: on <weekday> at T` expression is due on the named weekday at T. It is after now, at most a week ahead, and the first such moment |
| `Timers.TimerBadWeekday` | kilram/Timer.py:90-91 | A weekday name that neither `%a` nor `%A` reads raises "Failed to parse weekday '<name>'" |
| `Timers.GrammarsDisjoint` | kilram/Timer.py:19-38 | No token sequence is read by two different grammars |
| `Timers.GrammarOrderIrrelevant` | kilram/Timer.py:40-43 | Trying the grammars in written order gives the result of any grammar that matches. No result means that no grammar matches |
| `Timers.TodayAnchor` | kilram/Timer.py:72-77 | `at T` is the first moment after now at time of day T: today if that moment is still ahead, else tomorrow |
| `Timers.DayAnchors` | kilram/Timer.py:64-70 | `in N d at T` is day N after today at T, and `tomorrow at T` is the next day at T. Neither rolls forward, so `in 0d at T` can lie in the past |
| `Timers.WeekdayAnchor` | kilram/Timer.py:82-92 | `on <weekday> at T` is the first moment after now on that weekday at T, at most a week ahead. A week is added only when the weekday is today's and T has passed |
| `Timers.MonthAnchor` | kilram/Timer.py:95-108 | When a month format reads the date, `on <month> <day> at T` is that date at T this year, or next year when this year's moment is not after now. The target is always after now |
| `Timers.MonthAccepted` | kilram/Timer.py:97-105 | A month format reads the date exactly when it knows the month name, the day exists in that month this year, and either this year's moment is ahead or the day exists in next year's month too. Each year must have at most four digits |
| `Timers.MonthFormats` | kilram/Timer.py:96-106 | The month anchor takes the target of `%b` if it reads the date, else that of `%B`. When neither does, it fails with "Failed to parse day '<month> <day>'" |
| `Timers.TimerOnMonth` | kilram/Timer.py:94-108 | A whole `desc: on <month> <day> at T` expression whose clock token reads is the timer built from the `%b` target, else the `%B` target, and otherwise raises "Failed to parse day '<month> <day>'" |
| `Timers.LeapDayAnchor` | kilram/Timer.py:94-107 | February 29 fails in every month format unless this year is a leap year whose February 29 at T is still ahead |
| `TimerExpressions.TimerOfCountdown` | kilram/Timer.py:20-53 | `desc: in` followed by unit groups, each unit at most once and in the order days, hours, minutes, seconds, is due at now plus the numbers written times their unit lengths. A unit that is left out counts 0. The flag is set exactly when `req-ack` is written |
| `TimerExpressions.CountdownGroups` | kilram/Timer.py:20-24 | The countdown grammar reads written unit groups as the numbers written, one slot per unit, and 0 for every unit left out |
| `TimerExpressions.AmountOfWritten` | kilram/Timer.py:49-53 | A unit that is written contributes `int` of the digits written for it |
| `TimerExpressions.AmountOfAbsent` | kilram/Timer.py:49-53 | A unit that is left out counts 0 (`or 0`) |
| `TimerExpressions.TimerOfInDays` | kilram/Timer.py:25-66 | `desc: in N <days unit> at T` is due on the day N days after today, where N is the number written, at time of day T. A clock token that no format reads raises "Failed to parse time '<token>'" |
| `TimerExpressions.TimerOfMonthDay` | kilram/Timer.py:31-108 | `desc: on <month> <day> at T` reads `<month> <day>` with `%b`, then with `%B`. When neither reads it, it raises "Failed to parse day '<month> <day>'". A clock token that no format reads raises "Failed to parse time '<token>'" |
| `TimerExpressions.CountdownAllUnits` | kilram/Timer.py:20-53 | `tea: in 1d 2h 3m 4s` is due one day, two hours, three minutes and four seconds from now |
| `TimerExpressions.CountdownFiveMinutes` | kilram/Timer.py:20-53 | `tea: in 5m` is due 300 seconds from now, without acknowledgement |
| `TimerExpressions.CountdownHourAndHalf` | kilram/Timer.py:20-53 | `tea: in 1h 30 min req-ack` is due 5400 seconds from now: no days, one hour, thirty minutes with the unit written apart, and the flag set |
| `TimerExpressions.InTwoDaysExample` | kilram/Timer.py:25-66 | `tea: in 2 days at 3:30pm` is due the day after tomorrow at 15:30 |
| `TimerExpressions.MonthDayExample` | kilram/Timer.py:94-108 | `cumple: on Feb 14 at 5pm` is due on February 14 at 17:00, this year or next, after now. This holds while the year is below 9999 |
| `TimerQueries.DoneIff` | kilram/Timer.py:117-122 | `done()`, computed from the normalised days and seconds of the remaining time, holds exactly when the target is not after now |
| `TimerQueries.Decompose` | kilram/Timer.py:136-139 | The day, hour, minute and second table of a duration is bounded (hours below 24, minutes and seconds below 60) and adds up to the duration |
| `TimerQueries.DecomposeTotal` | kilram/Timer.py:136-139 | The bounded table is unique: decomposing the total of a bounded table gives the table back |
| `TimerQueries.RenderUnits` | kilram/Timer.py:140-143 | The loop over `d`, `h`, `m`, `s` joins the nonzero units with `", "` |
| `TimerQueries.UnitsRoundTrip` | kilram/Timer.py:140-143 | Reading back the text of the nonzero units gives exactly the table it was made from, so omitting the zero units loses nothing |
| `TimerQueries.UnitsTextStartsWithDigit` | kilram/Timer.py:140-143 | The text of a nonzero duration begins with a digit, so it never starts like "in " |
| `TimerQueries.RenderRemaining` | kilram/Timer.py:130-143 | `remaining_str()` is "in <units>" for a target not yet passed and "<units> ago" for a past one, the units being those of the magnitude |
| `TimerQueries.RemainingRoundTrip` | kilram/Timer.py:130-143 | `remaining_str` determines the remaining time, sign included |
| `TimerQueries.Clock12RoundTrip` | kilram/Timer.py:126 | `%I:%M:%S%p` determines the time of day: twelve-hour clock from 12 to 11 and AM or PM |
| `TimerQueries.DayTextRoundTrip` | kilram/Timer.py:128 | `%a %d %b %Y` determines the day, and names its real weekday |
| `TimerQueries.TargetRoundTrip` | kilram/Timer.py:124-128 | `target_str` determines the target, given the day it is shown on |
| `TimerQueries.TargetForm` | kilram/Timer.py:124-128 | `target_str` begins "at " exactly when the target falls on today, otherwise "on " |
| `Logging.ParseLogEntry` | kilram/Logger.py:10-31 | A parsed entry's log name is non-empty and colon-free. Its text does not begin with a space |
| `Logging.UnparsableIff` | kilram/Logger.py:13-31 | "Couldn't parse log text." is raised exactly when the line has no colon or begins with one |
| `Logging.NameBeforeColon` | kilram/Logger.py:13-15 | The log name is the text before the first colon |
| `Logging.NoBracketIsNow` | kilram/Logger.py:26-27 | Without a bracket the entry is stamped now and the text is all that follows the colon and its spaces |
| `Logging.TimeOnlyIsToday` | kilram/Logger.py:19-25 | A bracket with only a time stamps the entry at that time on the current day |
| `Logging.BadTimeIsError` | kilram/Logger.py:20-29 | A time of the right shape past 23:59:59 raises "Failed to parse timestamp." |
| `Logging.BadDateIsError` | kilram/Logger.py:22-29 | A date of the right shape that is not a real date raises "Failed to parse timestamp." |
| `Logging.FormatRoundTrip` | kilram/Logger.py:12-23 | An entry written as `name: [YYYY-MM-DD HH:MM:SS] text` is read back unchanged: name, text, date and time |
| `Logging.Logger.constructor` | kilram/Logger.py:36-39 | A new log is empty, carries its name and records its creation time |
| `Logging.Logger.Log` | kilram/Logger.py:41-42 | An entry is appended last, and the earlier entries keep their order |
| `Users.KeyOrder` | kilram/User.py:47-48 | The keys of a table in some order: each key exactly once |
| `Users.Items` | kilram/User.py:47-48 | A snapshot of a table lists each entry once, in some order |
| `Users.SetTimerDuplicate` | kilram/User.py:50-54 | A parsed timer whose description is already in use raises "Timer already exists." and leaves the table unchanged |
| `Users.SetTimerParseError` | kilram/User.py:50-52 | A parse error is raised unchanged and the table is left alone |
| `Users.SetTimerAdds` | kilram/User.py:50-57 | A stored timer is filed under its description, which was free. The table grows by that one entry, and no other entry changes |
| `Users.User.constructor` | kilram/User.py:15-21 | A new user has the given Jabber id, no timers, no logs and no known presence |
| `Users.User.GetTimers` | kilram/User.py:47-48 | `get_timers()` lists every timer once, in some order |
| `Users.User.SetTimer` | kilram/User.py:50-57 | `set_timer` returns, and stores, what `SetTimerResult` and `TimersAfterSet` define. The logs and the presence are unchanged |
| `Users.User.DelTimer` | kilram/User.py:59-61 | `del_timer` removes that description only, and reports whether it existed (the source raises KeyError otherwise) |
| `Users.User.AddLogEntry` | kilram/User.py:71-77 | `log_entry` parses the line. On success it appends the entry to the log of that name, first opening an empty one, created now, if there is none. On error nothing changes. Every other log object is unchanged, an existing log keeps its creation time, and every log stays filed under its own name |
| `Users.User.GetLogs` | kilram/User.py:65-69 | `get_logs()` with no name lists every log. `get_logs(name)` gives the named log, or the KeyError of a missing one |
| `Users.User.DelLog` | kilram/User.py:79-81 | `del_log` removes that log only, and reports whether it existed |
| `Users.Registry.Jid2User` | kilram/User.py:24-30 | `jid2user` returns the user cached under the stripped id. On first sight it makes a new, empty one. Cached users are never replaced, and each stays under its own stripped id |
| `Bot.IdleTimerUntouched` | kilram/kilram.py:25 | A timer not yet due, or of an offline user, is left alone and nothing is sent |
| `Bot.OneShotFires` | kilram/kilram.py:26-28 | A due timer without acknowledgement sends "Timer '<desc>' done <target_str>" and is deleted |
| `Bot.AckTimerKept` | kilram/kilram.py:29-34 | The sweep never deletes a timer that asks for acknowledgement. It alerts exactly when the timer is due, its user online and the last alert more than five minutes old, and only then records the alert time |
| `Bot.AlertThrottled` | kilram/kilram.py:29-34 | After an alert, sweeps in the next five minutes stay silent. The first sweep after that with the user online alerts again |
| `Bot.SweptKeys` | kilram/kilram.py:23-34 | After a sweep exactly the due one-shot timers of an online user are gone. Every other timer stays, changed at most in its alert time |
| `Bot.MessagesPerTimer` | kilram/kilram.py:24-34 | A sweep sends at most one message per timer, all to the timer's owner, and none to an offline user |
| `Bot.Kilram.SweepTimer` | kilram/kilram.py:25-34 | One timer of the sweep: the table and the message sent are those of the step for that timer |
| `Bot.Kilram.SweepUser` | kilram/kilram.py:24-34 | The inner loop over a snapshot of a user's timers leaves the table `Swept` describes. It sends the messages of the snapshot's timers, in snapshot order |
| `Bot.Kilram.SweepUsers` | kilram/kilram.py:23-34 | The outer loop sweeps every cached user once, and changes nothing about a user but the timers |
| `Bot.Kilram.CheckTimers` | kilram/kilram.py:21-34 | `check_timers`: every cached user's timers are swept, in some order of the users and of each user's timers. The outbox gains exactly the messages of those sweeps, user by user |
| `Bot.Kilram.StatusChanged` | kilram/kilram.py:50-53 | The user the presence change concerns is cached, if it was not yet, and records the new presence. Its id, timers and logs are kept (a new user has none), and every other cached user is unchanged |
| `Bot.Kilram.Uptime` | kilram/kilram.py:68-77 | `uptime` is the time since start in nonzero days, hours, minutes and seconds |
| `Bot.RouteAck` | kilram/kilram.py:151-152 | `ack` in any case, followed by spaces, routes the rest of the argument to acknowledgement |
| `Bot.RouteSet` | kilram/kilram.py:151-159 | Any other non-empty argument is a timer to set |
| `Bot.AckReply` | kilram/kilram.py:152-158 | Acknowledging deletes that timer only and replies "Timer acknowledged.". A missing timer is reported with "Timer '<name>' not found." and changes nothing |
| `Bot.SetReply` | kilram/kilram.py:159-166 | Setting replies with the parse error or "Timer already exists.", or else with the new timer's description, `target_str` and `remaining_str` |
| `Bot.Kilram.TimerFor` | kilram/kilram.py:150-166 | The `timer` command from a known user gives the reply and the timer table that `TimerReply` and `TimersAfterCommand` define |
| `Bot.Kilram.TimerCommand` | kilram/kilram.py:145-166 | An empty argument gets the help text and changes nothing at all. Otherwise the sender is found or cached, gets the reply and the timer table defined from the timers it had before, and keeps its id, logs and presence. Every other cached user is unchanged |

## Left out

- Reading the clock: `datetime.now()` and `date.today()` are the parameter `now`. Each call reads the clock once. The source reads it several times per call, so a call that straddles midnight can mix two days; the model does not capture that.
- Microseconds: times are whole seconds. `done()` and the comparisons with now ignore fractions of a second.
- The `datetime` range: years and amounts are unbounded. An amount beyond the range of `timedelta` or `date` makes the source raise OverflowError (kilram/Timer.py:49-53, 65). That is not a TimerError, so it also escapes the `timer` command's `except (UserError, TimerError)` (kilram/kilram.py:161-162). The model instead returns a finite target. strptime's four-digit `%Y` and `date`'s year range appear only where the parser checks a year.
- Time zones and daylight saving: a day is always 86400 seconds of local time.
- Regular-expression newline rules: `.` and `$` treat a newline as an ordinary character.
- Locales: weekday and month names are the C-locale English names, compared ignoring ASCII case. The `%a %U` trick of the weekday formats is modelled only as reading the name.
- Saving to and loading from disk (`User._load`, `User.save`, pickle). These are file I/O; the tables are kept in memory only.
- The Jabber transport: sending appends to `outbox`. `callback_presence`, `idle_proc`, connecting and serving are not modelled, and a Jabber id is a bare id plus a resource.
- `cron_heartbeat`, and the `whoami`, `die`, `monitor`, `show` and `logger` commands. These are outside the reminder core. The log operations they call (`log_entry`, `get_logs` and `del_log`) are modelled.
- The help texts: `Timer.help()` is kept as a constant. `Logger.help()` is not modelled.
- Python 2 dict order: `dict.items()`, `dict.keys()` and `User.users.values()` yield an order the model leaves arbitrary (`Users.KeyOrder`). Every property holds for every order.
- `TimerExpressions.TimerOfCountdown`, `TimerExpressions.TimerOfInDays` and `TimerExpressions.TimerOfMonthDay` are stated for expressions written one space apart, with each unit joined to its number or one space after it. Other spacing reaches the same grammars; for it, `Timers.TimerCountdown`, `Timers.TimerInDays` and `Timers.TimerOnMonth` state the timer in terms of what the grammar read, and `TimerExpressions.CountdownGroups` reads the amounts from the words alone.
- `TimerExpressions.MonthDayExample`: states the February 14 timer only while the current year is below 9999. In year 9999 a date already past would need year 10000, which `%Y` cannot read, so the source raises the day error.
- The grammar dict's order: the grammars are tried in written order. `Timers.GrammarOrderIrrelevant` shows that any order gives the same timer.
- Concurrency: the sweep and the commands run one at a time. The source's single-threaded event loop gives the same.
- `Bot.Kilram.SweepUsers`: the messages sent to each user are returned per user. `Bot.Kilram.CheckTimers` appends them to the outbox after the loop, in the order the source sends them.
