/** The four statistic groups of bikeshare.py (lines 81-152) as values
    rather than printed lines: `time_stats`, `station_stats`,
    `trip_duration_stats` and `user_stats`. */
module Stats {
  import opened Wrappers
  import opened Orders
  import opened Frequencies
  import opened Calendar
  import opened Trips

  /** `mode()[0]` on an empty frame fails (EmptyData); `months[mode - 1]`
      fails for a most common month after June (MonthOutOfTable). */
  datatype StatsError = EmptyData | MonthOutOfTable

  /** The most common month name (only when the month filter was "all"),
      the most common weekday (only when the day filter was "all") and the
      most common start hour. */
  datatype TimeStats = TimeStats(commonMonth: Option<string>, commonDay: Option<string>, commonHour: int)

  function TimeStatsOf(trips: seq<Trip>, month: string, day: string): (r: Result<TimeStats, StatsError>)
    ensures r == Err(EmptyData) <==> |trips| == 0
    ensures r == Err(MonthOutOfTable) ==>
      month == "all" && forall m :: IsFirstMode(MonthColumn(trips), m, IntLess) ==> m > 6
    ensures r.Ok? ==> (r.value.commonMonth.Some? <==> month == "all")
    ensures r.Ok? && r.value.commonMonth.Some? ==>
      r.value.commonMonth.value in Months &&
      IsFirstMode(MonthColumn(trips), MonthNumber(r.value.commonMonth.value).value, IntLess)
    ensures r.Ok? ==> (r.value.commonDay.Some? <==> day == "all")
    ensures r.Ok? && r.value.commonDay.Some? ==> IsFirstMode(DayColumn(trips), r.value.commonDay.value, StrLess)
    ensures r.Ok? ==> IsFirstMode(HourColumn(trips), r.value.commonHour, IntLess)
  {
    if |trips| == 0 then
      Err(EmptyData)
    else
      IntLessIsStrictTotalOrder();
      StrLessIsStrictTotalOrder();
      var monthMode := Mode(MonthColumn(trips), IntLess);
      assert monthMode in MonthColumn(trips);
      var monthName := if month == "all" then MonthName(monthMode) else None;
      ModeUnique(MonthColumn(trips), IntLess);
      MonthNumberOfName(monthMode);
      if month == "all" && monthName.None? then
        Err(MonthOutOfTable)
      else
        var dayName := if day == "all" then Some(Mode(DayColumn(trips), StrLess)) else None;
        Ok(TimeStats(monthName, dayName, Mode(HourColumn(trips), IntLess)))
  }

  /** The most common start station, end station, and "start To end" trip. */
  datatype StationStats = StationStats(commonStart: string, commonEnd: string, commonTrip: string)

  function StationStatsOf(trips: seq<Trip>): (r: Result<StationStats, StatsError>)
    ensures r.Err? <==> |trips| == 0
    ensures r.Err? ==> r.error == EmptyData
    ensures r.Ok? ==> IsFirstMode(StartColumn(trips), r.value.commonStart, StrLess)
    ensures r.Ok? ==> IsFirstMode(EndColumn(trips), r.value.commonEnd, StrLess)
    ensures r.Ok? ==> IsFirstMode(TripColumn(trips), r.value.commonTrip, StrLess)
  {
    if |trips| == 0 then
      Err(EmptyData)
    else
      StrLessIsStrictTotalOrder();
      Ok(StationStats(
        Mode(StartColumn(trips), StrLess),
        Mode(EndColumn(trips), StrLess),
        Mode(TripColumn(trips), StrLess)))
  }

  /** How many rows run from station `a` to station `b`. */
  function PairCount(s: seq<Trip>, a: string, b: string): nat {
    if |s| == 0 then 0
    else (if s[0].startStation == a && s[0].endStation == b then 1 else 0) + PairCount(s[1..], a, b)
  }

  /** A trip label is counted once for every row that joins to it, so it
      occurs at least as often as the (start, end) pair it was made from,
      and exactly as often when no other pair of the rows joins to it. */
  lemma {:induction false} LabelCountCoversPair(s: seq<Trip>, a: string, b: string)
    ensures Occurrences(TripColumn(s), TripLabel(a, b)) >= PairCount(s, a, b)
    ensures (forall i :: 0 <= i < |s| && TripLabel(s[i].startStation, s[i].endStation) == TripLabel(a, b) ==>
               s[i].startStation == a && s[i].endStation == b) ==>
            Occurrences(TripColumn(s), TripLabel(a, b)) == PairCount(s, a, b)
  {
    if |s| > 0 {
      LabelCountCoversPair(s[1..], a, b);
      assert TripColumn(s) == [TripLabel(s[0].startStation, s[0].endStation)] + TripColumn(s[1..]);
    }
  }

  /** The reported trip is positional: it is the label of one row's own
      start and end stations, and it occurs at least as often as that row's
      exact pair of stations (exactly as often when labels do not collide). */
  lemma TripIsPositional(trips: seq<Trip>)
    requires |trips| > 0
    ensures exists i :: (0 <= i < |trips| &&
      StationStatsOf(trips).value.commonTrip == TripLabel(trips[i].startStation, trips[i].endStation) &&
      Occurrences(TripColumn(trips), StationStatsOf(trips).value.commonTrip) >=
        PairCount(trips, trips[i].startStation, trips[i].endStation))
  {
    var trip := StationStatsOf(trips).value.commonTrip;
    FirstModeOccurs(TripColumn(trips), trip, StrLess);
    var i := RowOfLabel(trips, trip);
    LabelCountCoversPair(trips, trips[i].startStation, trips[i].endStation);
  }

  /** A label in the trip column is the label of some row. */
  lemma RowOfLabel(trips: seq<Trip>, trip: string) returns (i: nat)
    requires trip in TripColumn(trips)
    ensures i < |trips| && trip == TripLabel(trips[i].startStation, trips[i].endStation)
  {
    var col := TripColumn(trips);
    i :| 0 <= i < |col| && col[i] == trip;
  }

  /** The join is not one-to-one: two different station pairs can share a
      label, and are then counted as one trip. */
  lemma TripLabelsCanCollide()
    ensures TripLabel("A", "B To C") == TripLabel("A To B", "C")
  {
  }

  /** The total of the durations, and their mean; pandas gives NaN for the
      mean of an empty frame, here None. */
  datatype DurationStats = DurationStats(total: int, mean: Option<real>)

  function DurationStatsOf(trips: seq<Trip>): (r: DurationStats)
    ensures r.total == Sum(DurationColumn(trips))
    ensures r.mean.Some? <==> |trips| > 0
    ensures r.mean.Some? ==> r.mean.value * |trips| as real == r.total as real
  {
    var durations := DurationColumn(trips);
    if |trips| == 0 then DurationStats(0, None) else DurationStats(Sum(durations), Some(Mean(durations)))
  }

  /** On a non-empty record set the mean trip lies between the shortest and
      the longest trip. */
  lemma MeanWithinDurations(trips: seq<Trip>)
    requires |trips| > 0
    ensures DurationStatsOf(trips).mean.Some?
    ensures MinOf(DurationColumn(trips)) as real <= DurationStatsOf(trips).mean.value
    ensures DurationStatsOf(trips).mean.value <= MaxOf(DurationColumn(trips)) as real
  {
    MeanBetween(DurationColumn(trips));
  }

  /** The total over two record sets together is the sum of their totals;
      in particular it does not depend on how the rows are split up. */
  lemma TotalIsAdditive(a: seq<Trip>, b: seq<Trip>)
    ensures DurationStatsOf(a + b).total == DurationStatsOf(a).total + DurationStatsOf(b).total
  {
    assert DurationColumn(a + b) == DurationColumn(a) + DurationColumn(b);
    SumConcat(DurationColumn(a), DurationColumn(b));
  }

  /** Gender counts and birth-year statistics, over the present values. */
  datatype Demographics = Demographics(
    genderCounts: seq<(string, nat)>,
    earliestBirthYear: Option<int>,
    latestBirthYear: Option<int>,
    commonBirthYears: set<int>)

  /** User type counts, and demographics for the cities that have them. */
  datatype UserStats = UserStats(userTypeCounts: seq<(string, nat)>, demographics: Option<Demographics>)

  /** `value_counts()`, as a whole: entries of distinct values, most frequent
      first, each with its number of occurrences, covering every value and
      adding up to the number of values counted. */
  predicate IsValueCounts<T(==,!new)>(s: seq<T>, r: seq<(T, nat)>) {
    NonIncreasing(r) && DistinctKeys(r) && CountsIn(s, r) && Covers(s, r) && SumCounts(r) == |s|
  }

  function UserStatsOf(trips: seq<Trip>, city: string): (r: UserStats)
    ensures IsValueCounts(UserTypeColumn(trips), r.userTypeCounts)
    ensures r.demographics.Some? <==> HasDemographics(city)
    ensures r.demographics.Some? ==>
      IsValueCounts(Present(GenderColumn(trips)), r.demographics.value.genderCounts)
    ensures r.demographics.Some? ==>
      var years := Present(BirthYearColumn(trips));
      var d := r.demographics.value;
      && (d.earliestBirthYear.Some? <==> |years| > 0)
      && (d.latestBirthYear.Some? <==> |years| > 0)
      && (d.earliestBirthYear.Some? ==>
            d.earliestBirthYear.value in years && forall y :: y in years ==> d.earliestBirthYear.value <= y)
      && (d.latestBirthYear.Some? ==>
            d.latestBirthYear.value in years && forall y :: y in years ==> y <= d.latestBirthYear.value)
      && (forall y :: y in d.commonBirthYears <==> IsMostFrequent(years, y))
  {
    var userTypes := ValueCounts(UserTypeColumn(trips));
    if !HasDemographics(city) then
      UserStats(userTypes, None)
    else
      var years := Present(BirthYearColumn(trips));
      var earliest := if |years| == 0 then None else Some(MinOf(years));
      var latest := if |years| == 0 then None else Some(MaxOf(years));
      UserStats(userTypes, Some(Demographics(ValueCounts(Present(GenderColumn(trips))), earliest, latest, ModeSet(years))))
  }
}
