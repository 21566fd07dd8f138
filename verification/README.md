# Bikeshare trip statistics, modelled in Dafny

`bikeshare.py` answers questions about bikeshare trips in one of three
cities (chicago, new york city, washington). It loads the city's trip file,
derives each trip's month, weekday name and start hour, keeps the trips of a
requested month and weekday (or all of them for `"all"`), and reports four
groups of statistics over what is left:

- time of travel: the most common month (only when the month filter is
  `"all"`), weekday (only when the day filter is `"all"`) and start hour;
- stations: the most common start station, end station and
  `"<start> To <end>"` trip;
- trip duration: the total and the mean;
- users: counts per user type, and for chicago and new york city the counts
  per gender and the earliest, latest and most common birth year.

The model keeps this pipeline and drops the console around it. A trip file
is a sequence of `Trips.Trip` records whose derived fields are given; the
loader is a pure function of the city name, those records and the two filter
strings; each statistic group is a pure function returning a value instead of
printing it. The pandas operations the script relies on are modelled by
their documented meaning:

- `Series.mode()[0]` is the least of the most frequent values. Integers are
  ordered numerically and strings by Python's code-point order.
- `value_counts()` lists each distinct value with its count, most frequent
  first.
- `sum`, `min`, `max` and `mode` skip missing values.
- The mean is the exact quotient of the sum by the count.

Layout, one module per file:

- `wrappers.dfy` (`Wrappers`): `Option` and `Result`.
- `orders.dfy` (`Orders`): the tie-breaking orders, proved to be strict total orders.
- `frequencies.dfy` (`Frequencies`): mode, value counts, sum, mean, min, max and missing-value skipping over sequences.
- `calendar.dfy` (`Calendar`): the six-month table, `list.index`, month lookup both ways, and `str.title()`.
- `trips.dfy` (`Trips`): the trip record, the city catalogue, the columns, and row selection by a boolean mask.
- `loader.dfy` (`Loader`): `load_data`.
- `stats.dfy` (`Stats`): `time_stats`, `station_stats`, `trip_duration_stats` and `user_stats`.
- `scenarios.dfy` (`Scenarios`): concrete cases of tie-breaking, ranking, trip pairing and the empty record set.

Behaviour at the edges, as the code has it:

- On an empty record set `trip_duration_stats` prints a total of 0 and a NaN
  mean, modelled as `DurationStats(0, None)`. (`main` never reaches it on an
  empty frame, because `time_stats` already fails there.)
- An unknown day name is not rejected: the loader filters by its title case
  and keeps no rows.
- `value_counts` promises no order among equal counts (see Left out).

## Model

| member | source | states |
|---|---|---|
| Calendar.IndexOf | bikeshare.py:72 | `list.index`: None exactly when the value is absent, otherwise the first position holding it |
| Calendar.MonthNumber | bikeshare.py:8 | a month name has a number exactly when it is in the six-entry table; the number is in 1..6 and the table holds the name at that number minus one |
| Calendar.MonthName | bikeshare.py:87 | `months[k - 1]` for a month number k >= 1 succeeds exactly for k <= 6, giving a table entry, and fails (IndexError) for July to December |
| Calendar.MonthNameOfNumber | bikeshare.py:72 | name to number to name is the identity on the month table |
| Calendar.MonthNumberOfName | bikeshare.py:87 | number to name to number is the identity on 1..6: naming the month mode inverts the filter's name-to-number map |
| Calendar.TitleFrom | bikeshare.py:76 | `str.title()` keeps the length and each character up to case; a letter is upper case exactly when it does not follow a letter; non-letters are unchanged |
| Calendar.TitleIgnoresCase | bikeshare.py:76 | strings equal up to letter case have the same title case |
| Calendar.TitleIdempotent | bikeshare.py:76 | title-casing twice equals title-casing once |
| Calendar.TitleOfLowerWord | bikeshare.py:66-76 | a lower-case word such as "monday" title-cases to its capitalised form "Monday", the form `day_name()` produces |
| Orders.StrLessIsStrictTotalOrder | bikeshare.py:90 | the string order that breaks ties among most frequent names is irreflexive, transitive and total |
| Frequencies.MaxCountOver | bikeshare.py:149 | the highest count among the candidates: no candidate occurs more often, and some candidate occurs exactly that often |
| Frequencies.ModeSet | bikeshare.py:149 | `mode()` as a whole: exactly the values of the series whose count equals the highest count, and never empty for a non-empty series |
| Frequencies.SoleMode | bikeshare.py:149 | a value that outnumbers every other value is the only mode |
| Frequencies.Favourite | bikeshare.py:93 | the chosen candidate is a candidate; no candidate is more frequent; every other equally frequent candidate is greater in the order |
| Frequencies.Mode | bikeshare.py:93 | `mode()[0]` of a non-empty series is one of its most frequent values and the least of them |
| Frequencies.ModeUnique | bikeshare.py:93 | a value is the least most-frequent value if and only if it is the computed mode |
| Frequencies.ModeSetShape | bikeshare.py:149 | a non-empty series has at least one mode, and all its modes are equally frequent |
| Frequencies.Distinct | bikeshare.py:140 | the distinct values of a series: the same values, none repeated |
| Frequencies.TallyTotal | bikeshare.py:140 | counting each distinct value once accounts for every element of the series |
| Frequencies.SortPermutes | bikeshare.py:140 | ordering the counts is a permutation of them and keeps their total |
| Frequencies.SortKeepsOrder | bikeshare.py:140 | after ordering, counts are non-increasing and values still distinct |
| Frequencies.ValueCounts | bikeshare.py:140 | `value_counts()`: distinct values, each with its positive number of occurrences, every value of the series present, counts non-increasing and adding up to the series length |
| Frequencies.Present | bikeshare.py:145-149 | skipping missing values keeps, for every value, exactly its number of present occurrences, and nothing else |
| Frequencies.MinOf | bikeshare.py:147 | the minimum is one of the values and no value is smaller |
| Frequencies.MaxOf | bikeshare.py:148 | the maximum is one of the values and no value is larger |
| Frequencies.SumConcat | bikeshare.py:124 | the sum of a concatenation is the sum of the two sums |
| Frequencies.SumBounds | bikeshare.py:124 | values between lo and hi sum to between lo and hi times their number |
| Frequencies.Mean | bikeshare.py:127 | the mean times the count is the sum |
| Frequencies.MeanBetween | bikeshare.py:127 | the mean of a non-empty column lies between its minimum and its maximum |
| Trips.DemographicCities | bikeshare.py:143 | the cities that get gender and birth-year statistics are exactly the catalogued cities other than washington |
| Trips.SubsequenceTransitive | bikeshare.py:73-76 | a subsequence of a subsequence is a subsequence, so two successive masks keep an order-preserving subsequence |
| Trips.Select | bikeshare.py:73 | a boolean mask keeps an order-preserving subsequence whose rows all meet the criterion, each row that meets it as often as it occurs, and no other row |
| Trips.SelectKeepsAll | bikeshare.py:73 | a mask that every row meets keeps the frame unchanged |
| Trips.SelectIdempotent | bikeshare.py:76 | applying the same mask twice gives the same rows as applying it once |
| Trips.SelectCommutes | bikeshare.py:70-76 | the month mask and the day mask can be applied in either order |
| Loader.FilterMonth | bikeshare.py:70-73 | the month step fails exactly for a month that is neither "all" nor in the table; otherwise it keeps, in order, exactly the rows whose month number is the requested month's |
| Loader.FilterDay | bikeshare.py:75-76 | the day step keeps, in order, exactly the rows whose weekday is the title-cased request, or every row for "all" |
| Loader.LoadData | bikeshare.py:49-78 | fails with UnknownCity exactly for a city outside the catalogue and with UnknownMonth exactly for an unknown month; otherwise returns an order-preserving subsequence of the rows, all passing both filters, with every passing row kept as often as it occurs |
| Loader.LoadedMonthsInTable | bikeshare.py:70-73 | for a catalogued city and a month from the table the load succeeds, and every loaded row's month is in 1..6 and names back to the requested month |
| Loader.LoadAllIsIdentity | bikeshare.py:69-78 | with month and day both "all" the loader returns the rows unchanged |
| Loader.LoadIdempotent | bikeshare.py:69-78 | for a catalogued city and a valid month filter the load succeeds, and loading again with the same filters from the loaded set returns the same set |
| Loader.LoadDayIgnoresCase | bikeshare.py:75-76 | day requests that differ only in letter case load the same rows |
| Stats.TimeStatsOf | bikeshare.py:86-93 | fails with EmptyData exactly on no records; reports a month name exactly when the month filter is "all", and then the table entry whose number is the least most-common month; fails with MonthOutOfTable only when that month is after June; reports a weekday exactly when the day filter is "all", the least most-common one; always the least most-common hour |
| Stats.StationStatsOf | bikeshare.py:105-111 | fails with EmptyData exactly on no records; otherwise the least most-common start station, end station and per-record trip label |
| Stats.LabelCountCoversPair | bikeshare.py:110-111 | a trip label occurs at least as often as the station pair that makes it, and exactly as often when no other pair of the records joins to the same label |
| Stats.TripIsPositional | bikeshare.py:110-111 | the reported trip is the label of one record's own start and end stations, and it occurs at least as often as that exact pair |
| Stats.TripLabelsCanCollide | bikeshare.py:111 | two different station pairs can join to the same label |
| Stats.DurationStatsOf | bikeshare.py:123-127 | the total is the sum of the durations; the mean is missing exactly on no records, and otherwise times the count gives the total |
| Stats.MeanWithinDurations | bikeshare.py:127 | on a non-empty record set the mean trip lies between the shortest and the longest trip |
| Stats.TotalIsAdditive | bikeshare.py:124 | the total over two record sets together is the sum of their totals |
| Stats.UserStatsOf | bikeshare.py:139-149 | user-type counts are the value counts of the user types; demographics are present exactly for chicago and new york city, with gender value counts over the present genders, earliest and latest birth year present exactly when some year is present and then the least and greatest present year, and the common birth years exactly the most frequent present years |
| Scenarios.HourTieGoesToSmallest | bikeshare.py:93 | hours 5, 5, 9, 9 report hour 5, the smaller of the tied values |
| Scenarios.PairedTripExample | bikeshare.py:110-111 | trips A to B, A to C, A to B report the trip "A To B" |
| Scenarios.UserTypeCountsExample | bikeshare.py:140 | user types Subscriber, Customer, Subscriber count as Subscriber 2 followed by Customer 1 |
| Scenarios.EmptyRecordSet | bikeshare.py:105-140 | on no records the station statistics fail, the total is 0 with no mean, and the user-type counts are empty |

## Left out

- `get_filters` (bikeshare.py:11-46): an interactive prompt loop. Its validated strings are the loader's parameters.
- `main` (bikeshare.py:155-178): the restart loop and the raw-data paging loop. These are console control flow. The paging loop's condition compares a count with a method object.
- `pd.read_csv` and `pd.to_datetime` (bikeshare.py:61-63): file reading and timestamp parsing. Each record's month (1..12), weekday name and hour (0..23) are given, and an unreadable file or timestamp is not modelled.
- `time.time()` and all printing: timing and formatting only.
- Floating point: durations and birth years are integers. The mean is an exact rational, and a NaN result is `None`.
- User Type is taken to be always present. Its counts do not skip missing values.
- ValueCounts: the order among values with equal counts is not stated. pandas does not promise one. The model happens to keep first appearance.
- Calendar.TitleFrom: only ASCII letters count as cased. Python's `str.title()` also cases other Unicode letters.
- TripIsPositional: the reported trip's frequency is proved at least the count of its station pair, and equal to it only when no two different pairs share a label (Stats.LabelCountCoversPair). The label joins the two names with " To ", which is not one-to-one: Stats.TripLabelsCanCollide gives two pairs with the same label.
- Frequencies.ModeSet: the birth-year mode is a set. pandas prints the same values as an ascending list.
