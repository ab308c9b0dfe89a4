# Bikeshare statistics, modelled in Dafny

The program answers descriptive-statistics queries over bike-share trips for
three cities (Chicago, New York City, Washington). A user picks a city, and
optionally a month and a day of the week. The program loads that city's trips,
keeps the ones matching the filters, and reports four groups of statistics:

- the most common month, day and start hour;
- the most common start station, end station and route;
- the total and mean trip duration;
- counts per user type and per gender, plus the earliest, latest and most
  common birth year.

This project models the program's logic as pure functions over a sequence of
trip records:

- `Choices` holds the fixed vocabularies and the validation of typed answers.
  It also maps month names to and from month numbers.
- `Loader` models `load_data`. A city is resolved to its file, and the file
  system is a map from file names to parsed tables. The month filter and the
  day filter are applied in turn.
- `Frequency` models pandas' `value_counts()`, `mode()[0]` and
  `value_counts().idxmax()`, with their tie-breaking stated explicitly.
- `Stats` models the four passes `time_stats`, `station_stats`,
  `trip_duration_stats` and `user_stats`.
- `Trips` holds the record (`Trip`) and the table with its schema flags
  (`Table`).
- `Text`, `Seqs`, `Orders` and `Wrappers` are support modules. They cover case
  mapping, string order, row selection, sums and extrema, total orders, and
  `Option`/`Result`.

Modelling choices:

- A trip's calendar fields (`month`, `dayOfWeek`, `hour`) are given values, as
  pandas derives them from `Start Time`. Durations are whole seconds.
- `userType`, `gender` and `birthYear` are `Option`s. A missing cell is `None`,
  the way pandas' NaN is dropped by `value_counts`, `min`, `max` and `mode`.
  Whether the file has a `Gender` or `Birth Year` column at all is a flag on
  the table.
- The program raises an exception in several places:
  - `KeyError` for an unknown city;
  - a read error for a missing file;
  - `ValueError` from `months.index` for an unknown month;
  - `mode()[0]` on an empty column;
  - `int(NaN)` when no birth year is present;
  - `IndexError` for a month number outside the list.

  The model returns a `Failure`, `None` or `NoBirthData` in each of those
  places. An empty selection therefore gives an explicit "nothing to report"
  from every pass (`Stats.EmptyTableReportsNothing`).
- For month, day, hour, start station and end station, mode tie-breaking
  follows the code: pandas' `mode()` lists the tied values in ascending order
  and `[0]` takes the least. The least value is the lexicographically smallest
  for strings, and the smallest number for month and hour. The most common
  birth year comes from `idxmax` instead (see `Frequency.FirstMode`). A
  first-encountered rule would pick a different value on ties; the model
  follows the code. The corrected route statistic breaks ties by its own order
  on pairs (see `Stats.StationStats` under Left out).
- The month filter follows what the rest of the program assumes: month number
  = position in the list + 1. The code as written uses the 0-based position
  (see Findings).
- The route statistic is modelled as a `(start, end)` pair. It is reported as
  one most common route. The code as written uses a joined string and
  `.mode([0])` (see Findings).

## Model

| member | source | states |
|---|---|---|
| `Choices.AskCity` | bikeshare_2.py:21-26 | The city prompt accepts a typed answer exactly when it spells one of the three cities in any mixture of case. It yields that lower-case city; any other answer is rejected (re-prompt). |
| `Choices.AskMonth` | bikeshare_2.py:28-33 | The month prompt accepts exactly `all` or one of `january`..`june`, case-insensitively, and yields it lower-cased. |
| `Choices.AskDay` | bikeshare_2.py:36-41 | The day prompt accepts exactly `all` or one of `monday`..`sunday`, case-insensitively, and yields it lower-cased. |
| `Text.LowerEqualsIffSameIgnoringCase` | bikeshare_2.py:22-23 | Lower-casing the input and comparing it with a lower-case literal is the same as comparing the two strings ignoring case. |
| `Choices.CityFile` | bikeshare_2.py:5-7 | `CITY_DATA[city]` is defined exactly for the three valid cities. |
| `Choices.CityFilesDistinct` | bikeshare_2.py:5-7 | Different cities are backed by different files. |
| `Choices.MonthNumber` | bikeshare_2.py:69-70 | A month name has a number exactly when it is in the month list; the number lies in 1..6. |
| `Choices.MonthName` | bikeshare_2.py:88-90 | `months[n - 1]` is defined exactly for the month numbers 1..6. |
| `Choices.MonthNameNumberRoundTrip` | bikeshare_2.py:88-90 | Name-to-number and number-to-name are inverse: `MonthNumber(name) == Some(n)` exactly when `MonthName(n) == Some(name)`. |
| `Choices.TitleOfDays` | bikeshare_2.py:76 | `day.title()` of every accepted day name equals the weekday name `dt.day_name()` produces. |
| `Seqs.IndexOf` | bikeshare_2.py:70 | `list.index` returns the position of the first occurrence. |
| `Loader.SelectRows` | bikeshare_2.py:67-78 | An unknown month name fails with `UnknownMonth`, and only that fails. Otherwise every returned row comes from the input and matches the month (1-based) and the title-cased day, and every input row that matches is returned. |
| `Loader.Load` | bikeshare_2.py:59-78 | A load succeeds exactly when the city is valid, its file exists and the month is valid. An unknown city fails with `UnknownCity`. A valid city whose file is missing fails with `MissingFile` for that file. A valid city with a file but an unknown month fails with `UnknownMonth`. The result keeps the file's optional columns and holds the selected rows. |
| `Loader.SelectRowsIsSubsequence` | bikeshare_2.py:67-78 | The selected rows are a subsequence of the table: nothing is added or altered, and the order is kept. |
| `Loader.SelectRowsCounts` | bikeshare_2.py:72-76 | Each matching row is kept as many times as it occurs; non-matching rows never appear. |
| `Loader.SelectAllIsIdentity` | bikeshare_2.py:68-78 | With month `all` and day `all` the table comes back unchanged. |
| `Loader.FiltersCommute` | bikeshare_2.py:68-76 | Applying the month filter then the day filter gives the same rows as the other order. |
| `Loader.SelectRowsIdempotent` | bikeshare_2.py:68-76 | Filtering the result again with the same query changes nothing. |
| `Loader.SelectMonthExact` | bikeshare_2.py:68-72 | Asking for the i-th month name keeps exactly the rows whose month number is i + 1 (and whose day matches). |
| `Loader.SelectRowsAsWritten` | bikeshare_2.py:68-72 | As written, a month filter keeps only rows whose month equals the 0-based position of the name. |
| `Loader.AsWrittenJanuaryIsEmpty` | bikeshare_2.py:69-72 | As written, `january` selects no rows from any table with calendar months (1..12). |
| `Loader.AsWrittenKeepsPreviousMonth` | bikeshare_2.py:69-72 | As written, every month after January selects the rows of the month before it. |
| `Frequency.Mode` | bikeshare_2.py:89 | `mode()[0]`: none exactly for an empty column. Otherwise the value occurs, no value occurs more often, and it is the least of the equally frequent values. |
| `Frequency.ModeIsUnique` | bikeshare_2.py:89 | The reported mode is the one value that meets that definition, so the tie-break is deterministic. |
| `Frequency.ModeIgnoresOrder` | bikeshare_2.py:89 | Two columns with the same values and counts, in any order, have the same mode. |
| `Frequency.AllModes` | bikeshare_2.py:120 | `Series.mode()` lists exactly the values of the column that no value outnumbers: every listed value has the highest count, and every value with the highest count is listed. The set is non-empty for a non-empty column. |
| `Frequency.ModeIsAmongAllModes` | bikeshare_2.py:89 | `mode()[0]` is one of the values `mode()` lists, and the least of them. |
| `Frequency.FirstMode` | bikeshare_2.py:167 | `value_counts().idxmax()`: a value that occurs, with no value more frequent, and whose first occurrence comes no later than that of any equally frequent value. |
| `Frequency.Tally` | bikeshare_2.py:152 | `value_counts()`: one entry per distinct value, every value of the column has an entry, and each count is the value's number of occurrences. |
| `Frequency.TallyTotal` | bikeshare_2.py:152-153 | The counts of a frequency table add up to the length of the column. |
| `Stats.TimeStats` | bikeshare_2.py:88-98 | Most common month, day and hour are the modes of their columns, and absent exactly when there are no rows. The month name is reported exactly for months 1..6 and maps back to the reported number. |
| `Stats.StationStats` | bikeshare_2.py:111-120 | Most common start station, end station and (start, end) route are the modes of their columns, and absent exactly when there are no rows. |
| `Stats.RouteCountIsExact` | bikeshare_2.py:120 | With the pair as key, a route's count equals the number of trips with exactly that start and end. |
| `Stats.JoinedRouteMergesRoutes` | bikeshare_2.py:120 | As written, the routes A _ B→C and A→B _ C get the same key, which is counted twice though each route occurs once. |
| `Stats.RouteModesAsWritten` | bikeshare_2.py:120 | As written, `.mode([0])` reports every joined key of highest count, and only those, rather than one route. The set is non-empty whenever there are rows. |
| `Stats.AsWrittenReportsEveryTiedRoute` | bikeshare_2.py:120 | On the two trips A→X and B→Y (`TwoRoutes`), the code as written reports both keys, while the corrected pass reports (A, X). |
| `Stats.StationStatsOfModes` | bikeshare_2.py:111-120 | The station pass reports exactly the values that are modes of the three columns. |
| `Stats.StationExample` | bikeshare_2.py:111-120 | Starts A, A, B and ends X, Y, X give start A, end X and route (A, X). |
| `Stats.DurationStats` | bikeshare_2.py:133-139 | The total in days is the total in seconds / 86400. The mean is absent exactly for no rows; otherwise mean × rows = total and the mean in minutes is mean / 60. |
| `Stats.TotalIsAdditive` | bikeshare_2.py:134 | The total duration of two tables together is the sum of their totals. |
| `Stats.OneTripTotal` | bikeshare_2.py:134 | The total duration of a single trip is that trip's duration. |
| `Stats.TotalAddsEachTrip` | bikeshare_2.py:134 | The total counts every trip's duration once: 0 for no trips, otherwise the first trip's duration plus the total of the others. |
| `Stats.MeanBetweenShortestAndLongest` | bikeshare_2.py:138 | The mean duration lies between the shortest and the longest trip. |
| `Stats.DurationExample` | bikeshare_2.py:134-139 | Durations 60, 120, 180, 240, 300 s give a total of 900 s (900/86400 days) and a mean of 3 minutes. |
| `Stats.BirthStats` | bikeshare_2.py:160-168 | No column: absent. Column without values: no data. Otherwise earliest and latest bound every year, the common year has maximal count, and earliest ≤ common ≤ latest, all three occurring. |
| `Seqs.PresentCount` | bikeshare_2.py:152 | Dropping missing cells before counting keeps each present value exactly as many times as it occurs in the column. |
| `Stats.UserStats` | bikeshare_2.py:152-168 | User-type counts have one entry per distinct present user type: no key repeats, every present value has an entry, every key occurs, and each count is that value's number of occurrences. Gender counts are reported exactly when the file has the column, with the same four properties over the present genders. Birth-year statistics come from the present years. |
| `Stats.UserTypeCountsAddUp` | bikeshare_2.py:152-153 | The user-type counts add up to the rows that have a user type, which is every row when none is missing. |
| `Stats.GenderCountsAddUp` | bikeshare_2.py:156-157 | The gender counts add up to the rows that have a gender, which is every row when none is missing. |
| `Stats.EmptyTableReportsNothing` | bikeshare_2.py:81-168 | On a selection with no rows, every pass reports absent values (and a total of 0) instead of failing. |

## Left out

- The prompt loops' `input()`/`print` and the restart loop in `main` (bikeshare_2.py:19-44, 174-186). These are console I/O; one round of validation is modelled by `Choices.AskCity`, `AskMonth` and `AskDay`.
- `pd.read_csv` and `pd.to_datetime` (bikeshare_2.py:59-61). These are file reading and timestamp parsing. The file system is a parameter mapping file names to already parsed tables, so a malformed timestamp is not modelled.
- Deriving month, weekday and hour from the start time (bikeshare_2.py:63-65, and the recomputation of `hour` at line 97). These are calendar library calls; the derived values are record fields.
- The `time.time()` elapsed-time reports. These read the wall clock.
- Floating-point durations, and the `.round(1)` / `.round(2)` at bikeshare_2.py:135 and 139. Durations are whole seconds, and the day and minute values are exact reals before rounding.
- Printed formatting, including the set literal printed at bikeshare_2.py:90.
- Case mapping covers ASCII letters only. Python's `lower()` and `title()` also map other Unicode letters.
- `Frequency.Tally`: the order of the entries is not stated. pandas sorts them by count, and the program only prints them.
- `Stats.StationStats`: route ties are broken by the order on (start, end) pairs: start station first, then end station. `.mode()[0]` on the joined key would break them by string order on the joined text. These can differ: for routes ("A", "X") and ("A B", "X"), taken once each, the model reports ("A", "X"). The joined keys sort "A B _ X" before "A _ X", because they first differ at the third character and 'B' < '_'.
- `Frequency.FirstMode`: how `idxmax` breaks a tie depends on the order in which pandas lists equal counts. The model fixes it as first occurrence in the column. The statement that min ≤ common ≤ max does not depend on this choice.
- `Choices.MonthName`: a month number of 0 or below is reported as absent. Python's negative indexing would pick a month from the end of the list, but calendar months are never below 1.

## Findings

| source | as written | input that shows it | evidently intended | confidence | as-written member | corrected member |
|---|---|---|---|---|---|---|
| bikeshare_2.py:70 | `months.index(month)` is 0-based but is compared with the 1-based `dt.month` | month `january`: no rows are kept; month `march`: the February rows are kept | keep the rows whose month number is the position + 1, as `months[common_month - 1]` at line 90 assumes | high (not executed) | `Loader.SelectRowsAsWritten`, with `Loader.AsWrittenJanuaryIsEmpty` and `Loader.AsWrittenKeepsPreviousMonth` | `Loader.SelectRows`, with `Loader.SelectMonthExact` |
| bikeshare_2.py:120 | the route key is the start and end names joined with `' _ '` | trips A _ B→C and A→B _ C share the key `A _ B _ C` | a composite (start, end) key | medium (not executed; needs a station name containing ` _ `) | `Stats.JoinedRoute`, with `Stats.JoinedRouteMergesRoutes` | `Stats.StationStats`, with `Stats.RouteCountIsExact` |
| bikeshare_2.py:120 | `.mode([0])` passes the list as `dropna` and reports the whole series of modes | trips A→X and B→Y: both keys are reported | `.mode()[0]`, one most common route | medium (not executed) | `Stats.RouteModesAsWritten`, with `Stats.AsWrittenReportsEveryTiedRoute` | `Stats.StationStats` |
