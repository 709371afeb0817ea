# newznab Sphinx schedule fixer, modelled in Dafny

`fix.py` repairs the Sphinx search-index schedule of a newznab installation. It reads the
database connection settings out of newznab's PHP configuration file (`get_db_config`). For every
index whose next merge or next rebuild date has passed, it writes a fresh one:

- a daily merge at the configured `HHMM` (`next_merge_date_sql`);
- a weekly rebuild on the configured weekday at the configured `HHMM` (`next_rebuild_date`,
  with the weekday name looked up by `get_day`).

This project models those calculations and proves what they promise:

- `Calendar`: the part of Python's `datetime` the calculations rely on. It covers proleptic
  Gregorian dates in years 1..9999, CPython's day numbers (ordinals) and `weekday()`, adding whole
  days with the `OverflowError` past 9999-12-31, and the comparison of naive datetimes.
- `TimeParse`: `datetime.strptime(s, '%H%M')`. The format is the regular expression
  `(2[0-3]|[0-1]\d|\d)([0-5]\d|\d)`, matched with backtracking, and leftover characters are an
  error.
- `Schedule`: `get_day`, and the values the two calculators write. `now` and the stored settings
  are inputs; the writes themselves are left out.
- `IntParse`: Python 2's `int()` on a string, used for the port.
- `Digits`: the ASCII decimal digits that both `int()` and the `\d` of `strptime`'s pattern read.
- `DbConfig`: `get_db_config` over lines already split into shell tokens.
  - `GetDbConfig` is the loop as an imperative method, proved equal to the specification
    function `ConfigOf`.
  - The lemmas state what `ConfigOf` returns: all five keys, the last value before the stop
    line, the first error, or `InvalidConfig`.
- `Wrappers`: `Option` and `Result`.

Python's exceptions are modelled as failure values:

- `BadTimeFormat` is the `ValueError` from `strptime`.
- `DateOverflow` is the `OverflowError` from date arithmetic past 9999-12-31.
- `MissingValue` is the `IndexError` on `split[1]`.
- `BadPort` is the `ValueError` from `int`.
- `InvalidConfig` is the failed assertion at the end of `get_db_config`.

## Model

| member | source | states |
|---|---|---|
| Schedule.GetDay | fix.py:126-141 | a weekday is returned only for its own English name, compared exactly |
| Schedule.GetDayExactlyNames | fix.py:126-141 | `get_day` gives weekday `w` exactly when the string is `w`'s name; any other spelling, case or padding gives none |
| Schedule.DaysDistinct | fix.py:128-141 | the seven names give seven different weekdays, with seven different dateutil weekday numbers |
| Schedule.SlotOn | fix.py:162 | the configured time on `now`'s date is a valid datetime; see MergeTimeOfDay, MergeDate |
| Schedule.NextMergeDate | fix.py:156-170 | no contract of its own; see MergeTimeOfDay, MergeWithinNextDay, MergeDate, MergeFailures, MergeExamples |
| Schedule.DaysUntil | fix.py:120 | dateutil's jump is fewer than seven days; see JumpWithinWeek, JumpSkipsEarlierDays, WeekdayWithinWeek |
| Schedule.NextRebuildDate | fix.py:104-120 | no contract of its own; see RebuildDisabled, RebuildOffset, RebuildWeekdayAndTime, RebuildWithinWeek, RebuildIsFirstMatchingDay, RebuildCanPrecedeNow, RebuildFailures |
| Schedule.MergeTimeOfDay | fix.py:159-162 | the next merge is at the parsed hour and minute, second 0, microsecond 0 |
| Schedule.MergeWithinNextDay | fix.py:162-170 | the next merge is strictly after `now` (also when today's slot equals `now`) and at most one day after it |
| Schedule.MergeDate | fix.py:165-170 | the merge is on today's date exactly when today's slot is later than `now`; otherwise it is on the next calendar day |
| Schedule.MergeFailures | fix.py:159-170 | the calculation fails exactly when the time does not parse, or when the slot has passed on 9999-12-31 |
| Schedule.MergeExamples | fix.py:162-170 | a slot equal to `now` moves to the next day; one a second ahead stays today; 2024-02-29 rolls to 2024-03-01 |
| Schedule.RebuildDisabled | fix.py:104-107 | the early return with nothing written happens exactly when the day name is not recognised |
| Schedule.RebuildOffset | fix.py:113-120 | the rebuild lies dateutil's jump of `(7 - weekday + target) % 7` days after today, at the parsed hour and minute |
| Schedule.RebuildWeekdayAndTime | fix.py:113-120 | the rebuild falls on the configured weekday, at the parsed hour and minute, second 0 |
| Schedule.RebuildWithinWeek | fix.py:116-120 | the rebuild is today or within the next six days, and today exactly when today is the configured weekday |
| Schedule.RebuildIsFirstMatchingDay | fix.py:116-120 | no date from today up to the rebuild's date is the configured weekday |
| Schedule.JumpWithinWeek | fix.py:120 | a date that far after `d` is within the week and on the target weekday, and is `d` exactly when `d` already is |
| Schedule.JumpSkipsEarlierDays | fix.py:120 | no date from `d` up to that date is on the target weekday |
| Schedule.RebuildCanPrecedeNow | fix.py:116-120 | on the configured weekday the rebuild is today; it lies before `now` exactly when its time of day is earlier |
| Schedule.RebuildFailures | fix.py:113-120 | failure exactly when a recognised day comes with an unparsable time, or when the target date passes year 9999 |
| Schedule.RebuildExampleSameDay | fix.py:116-120 | Friday 2024-03-15 12:00 with "Friday"/"0330" gives 03:30 that morning, before `now` |
| Schedule.RebuildExampleLaterDay | fix.py:116-120 | Wednesday 2024-03-13 with "Friday"/"0330" gives Friday 2024-03-15 03:30 |
| Schedule.RebuildExampleWrongCase | fix.py:104-107 | "friday" disables the rebuild |
| TimeParse.ParseHourMinute | fix.py:113 | a successful parse yields an hour below 24 and a minute below 60 |
| TimeParse.ParseFormatted | fix.py:159 | every zero-padded "HHMM" of a real time parses back to that hour and minute |
| TimeParse.FourDigitParse | fix.py:159 | a four-digit string parses exactly when HH < 24 and MM < 60, and then to (HH, MM) |
| TimeParse.ParseShortForms | fix.py:113 | "12" is 01:02 and "330" is 03:30; "2400" and "" are errors |
| Calendar.Weekday | fix.py:120 | Monday is 0 and Sunday 6; see AddDaysWeekday, WeekdayWithinWeek |
| Calendar.AddDays | fix.py:120 | the result is a well-formed date; see AddDaysOrdinal, AddDaysWeekday |
| Calendar.Less | fix.py:165 | no contract of its own; see LessIsInstantOrder, DateOrderIsOrdinalOrder |
| Calendar.DaysInMonth | fix.py:170 | months have 28 to 31 days, and 29 exactly for February of a leap year |
| Calendar.NextDay | fix.py:170 | the day after a date is a valid date and comes later |
| Calendar.DaysBeforeNextYear | fix.py:170 | the day count before year `y + 1` is the count before `y` plus the length of `y` |
| Calendar.NextDayIsOrdinalSuccessor | fix.py:170 | the next calendar day has the next day number, across month, year and leap-day boundaries |
| Calendar.AddDaysOrdinal | fix.py:120 | adding `k` days adds `k` to the day number |
| Calendar.AddDaysWeekday | fix.py:120 | adding `k` days moves the weekday forward by `k` modulo 7 |
| Calendar.WeekdayWithinWeek | fix.py:120 | within a week after `d`, a date is on weekday `t` exactly when it lies `(7 - weekday(d) + t) % 7` days after `d` |
| Calendar.AddDaysToDateTime | fix.py:170 | the result is `t` with its date moved `k` days on and the same time of day; it is an overflow exactly when that date passes year 9999 |
| Calendar.ValidIsWithinMaxOrdinal | fix.py:170 | a date is in Python's range exactly when its day number is at most that of 9999-12-31 |
| Calendar.DateOrderIsOrdinalOrder | fix.py:165 | date comparison is comparison of day numbers, and different dates have different numbers |
| Calendar.OrdinalBetween | fix.py:120 | a date on or after `a` and before `b` has a day number between theirs |
| Calendar.LessIsInstantOrder | fix.py:165 | `datetime` comparison agrees with the order of instants on a single time line |
| IntParse.Decimal | fix.py:46 | the decimal form of a number is a non-empty digit string |
| IntParse.DecimalValue | fix.py:46 | reading a decimal form back gives the number |
| IntParse.ParseDecimal | fix.py:46 | `int(str(n)) == n`, also with a leading `-` or `+` |
| IntParse.ParseDigits | fix.py:46 | a digit string parses to its value |
| IntParse.ParseSigned | fix.py:46 | a sign followed by digits parses to the signed value |
| IntParse.ParseInt | fix.py:46 | no contract of its own; see ParseDecimal, ParseDigits, ParseSigned, ParseAcceptsSurroundingSpace, ParseAcceptsSpaceAfterSign and the ParseRejects lemmas |
| IntParse.TrimLeftSpaces | fix.py:46 | leading white space is dropped up to the first other character |
| IntParse.TrimRightSpaces | fix.py:46 | trailing white space is dropped back to the last other character |
| IntParse.TrimLeftSuffix | fix.py:46 | stripping the front removes a run of white space and nothing else |
| IntParse.TrimRightPrefix | fix.py:46 | stripping the back removes a run of white space and nothing else |
| IntParse.ParseAcceptsSurroundingSpace | fix.py:46 | any white space before and after a non-empty digit string is accepted, and the value is that of the digits |
| IntParse.ParseAcceptsSpaceAfterSign | fix.py:46 | any white space between a sign and a non-empty digit string is accepted too, around the whole as well, giving the signed value |
| IntParse.ParseRejectsBareSign | fix.py:46 | a sign with no digits after it is an error, whatever white space surrounds it |
| IntParse.ParseRejectsBlank | fix.py:46 | a string of white space alone, the empty string included, is an error |
| IntParse.ParseRejectsStrayCharacter | fix.py:46 | a character anywhere that is neither white space, a sign nor a digit makes the string an error |
| DbConfig.Classify | fix.py:43-52 | a selected key's marker occurs in the token; see ClassifyIsFirstMatch, ClassifyNone |
| DbConfig.Convert | fix.py:46-52 | only the port is converted to a number, and only the port can fail to convert; see StoreIsSecondTokenStripped, ConfigShape, and for the port ParseDecimal |
| DbConfig.LineEffect | fix.py:41-52 | no contract of its own; see StoreIsSecondTokenStripped, ConfigLineError |
| DbConfig.Scan | fix.py:39-55 | no contract of its own; see ScanSucceeds, ScanReachesPrefix, ScanInvalid, ScanFails, ScanIgnoresLaterLines |
| DbConfig.ConfigOf | fix.py:38-59 | no contract of its own; see ConfigSuccess, ConfigInvalid, ConfigLineError, ConfigShape, ConfigIgnoresLaterLines |
| DbConfig.GetDbConfig | fix.py:38-59 | the loop returns exactly `ConfigOf(lines)`, and a found configuration has all five keys |
| DbConfig.FiveKeysAreAll | fix.py:54-57 | a dictionary has five entries exactly when it has all five keys |
| DbConfig.ClassifyIsFirstMatch | fix.py:43-52 | a first token selects key `k` exactly when it contains `k`'s marker and no earlier marker in the chain |
| DbConfig.ClassifyNone | fix.py:43-52 | a first token selects nothing exactly when it contains none of the five markers |
| DbConfig.DropLastTwo | fix.py:44 | `s[:-2]` keeps all but the last two characters, as a prefix of `s` |
| DbConfig.DropLastTwoRestores | fix.py:44-52 | the value in `'value');` comes back after the two closing characters are dropped |
| DbConfig.StoreIsSecondTokenStripped | fix.py:43-52 | a line stores `v` under `k` exactly when it has a second token, its first token selects `k`, and `v` is the stripped second token (converted by `int` for the port) |
| DbConfig.LastWriteIsLastStore | fix.py:43-52 | the value kept for a key is the one stored by the last line that stores that key |
| DbConfig.WrittenAppend | fix.py:43-52 | reading one more line changes only the key that line stores |
| DbConfig.ScanSucceeds | fix.py:39-55 | a successful scan stops at the first line after which all keys are set, with no error before it |
| DbConfig.ScanReachesPrefix | fix.py:39-55 | error-free lines that first complete the keys at line `n` make the scan return the dictionary of those `n` lines |
| DbConfig.ScanInvalid | fix.py:39-57 | the scan ends in `InvalidConfig` exactly when no line raises and some key is never set |
| DbConfig.ScanFails | fix.py:43-52 | any other error is raised by a line met before the keys are complete, with no error before it |
| DbConfig.ScanIgnoresLaterLines | fix.py:54-55 | once the scan has succeeded, further lines change nothing |
| DbConfig.ConfigSuccess | fix.py:38-59 | `get_db_config` succeeds with `m` exactly when some line is the first to complete the five keys, no earlier line raises, and `m` holds the last value stored for each key up to it |
| DbConfig.ConfigInvalid | fix.py:57 | the "invalid config file" assertion fails exactly when no line raises and some key is never set |
| DbConfig.ConfigLineError | fix.py:44-52 | a missing second token or a non-integer port fails on the first such line before completion |
| DbConfig.ConfigShape | fix.py:44-52 | a result has exactly the keys host, port, user, passwd, db; the port is an integer and the others are strings |
| DbConfig.ConfigIgnoresLaterLines | fix.py:54-55 | lines after the completing one are never read |

## Left out

- Every database interaction: the `UPDATE` statements (fix.py:109, 123, 155, 172), `get_sphinx_rows`, `get_sphinx_config` and `get_mysql_now`. The calculators take `now` and the stored settings as inputs and return the value they would write.
- The `__main__` driver (fix.py:190-218): the argument check and exit code 2, the `oursql` connection, the ten retries with `time.sleep` on "server has gone away", and the comparisons with the local clock that decide which index is due.
- Reading the configuration file and the existence assertion (fix.py:34-36). The model starts from the file's lines.
- `shlex.split` tokenisation (fix.py:40). Each line arrives as its list of tokens; an empty list is a line `shlex` splits into nothing. A line `shlex` cannot split, such as one with an unbalanced quote, raises `ValueError` in the source; token-list input cannot express that case.
- The unused `sphinxmergefreq_count` setting (fix.py:75-76).
- `Calendar.AddDays` steps from one calendar day to the next and checks the year afterwards. CPython instead converts to a day number and back. `Calendar.AddDaysOrdinal` proves the two agree on the day number.
- Python 2 byte strings are modelled as sequences of characters.
