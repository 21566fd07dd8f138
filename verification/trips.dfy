/** Trip records, the city catalogue, and the row selection the loader
    filters with (bikeshare.py lines 4-6 and 65-76). */
module Trips {
  import opened Wrappers
  import opened Frequencies

  /** `Timestamp.month` is a calendar month and `Timestamp.hour` an hour of
      the day; both are derived from a parsed start time. */
  type MonthNum = m: int | 1 <= m <= 12 witness 1
  type HourNum = h: int | 0 <= h <= 23 witness 0

  /** One row of a city file after loading: the derived `month`, `day`
      (a `day_name()` such as "Monday") and `hour`, and the columns the
      statistics read. Gender and birth year may be missing, and only the
      chicago and new york city files have them. */
  datatype Trip = Trip(
    month: MonthNum,
    day: string,
    hour: HourNum,
    startStation: string,
    endStation: string,
    duration: int,
    userType: string,
    gender: Option<string>,
    birthYear: Option<int>)

  /** `CITY_DATA`: the city names the program knows, with their files. */
  const CityData: map<string, string> :=
    map["chicago" := "chicago.csv", "new york city" := "new_york_city.csv", "washington" := "washington.csv"]

  /** The cities whose files carry the Gender and Birth Year columns. */
  predicate HasDemographics(city: string) {
    city == "chicago" || city == "new york city"
  }

  /** Exactly the catalogued cities other than washington have demographics. */
  lemma DemographicCities(city: string)
    ensures HasDemographics(city) <==> city in CityData && city != "washington"
  {
  }

  /** The string station_stats pairs a trip's two stations into. */
  function TripLabel(startStation: string, endStation: string): string {
    startStation + " To " + endStation
  }

  function MonthColumn(s: seq<Trip>): seq<int> {
    seq(|s|, i requires 0 <= i < |s| => s[i].month as int)
  }

  function DayColumn(s: seq<Trip>): seq<string> {
    seq(|s|, i requires 0 <= i < |s| => s[i].day)
  }

  function HourColumn(s: seq<Trip>): seq<int> {
    seq(|s|, i requires 0 <= i < |s| => s[i].hour as int)
  }

  function StartColumn(s: seq<Trip>): seq<string> {
    seq(|s|, i requires 0 <= i < |s| => s[i].startStation)
  }

  function EndColumn(s: seq<Trip>): seq<string> {
    seq(|s|, i requires 0 <= i < |s| => s[i].endStation)
  }

  /** `df['Start Station'] + " To " + df['End Station']`: element-wise, so
      each label joins the two stations of one record. */
  function TripColumn(s: seq<Trip>): seq<string> {
    seq(|s|, i requires 0 <= i < |s| => TripLabel(s[i].startStation, s[i].endStation))
  }

  function DurationColumn(s: seq<Trip>): seq<int> {
    seq(|s|, i requires 0 <= i < |s| => s[i].duration)
  }

  function UserTypeColumn(s: seq<Trip>): seq<string> {
    seq(|s|, i requires 0 <= i < |s| => s[i].userType)
  }

  function GenderColumn(s: seq<Trip>): seq<Option<string>> {
    seq(|s|, i requires 0 <= i < |s| => s[i].gender)
  }

  function BirthYearColumn(s: seq<Trip>): seq<Option<int>> {
    seq(|s|, i requires 0 <= i < |s| => s[i].birthYear)
  }

  /** A boolean mask the loader applies: a given month number, or a given
      weekday name. */
  datatype Criterion = MonthIs(month: int) | DayIs(day: string)

  predicate Meets(t: Trip, c: Criterion) {
    match c
    case MonthIs(m) => t.month == m
    case DayIs(d) => t.day == d
  }

  /** `a` is `b` with some rows left out, the rest in their original order. */
  predicate IsSubsequence(a: seq<Trip>, b: seq<Trip>) {
    |a| == 0 || (|b| > 0 && ((a[0] == b[0] && IsSubsequence(a[1..], b[1..])) || IsSubsequence(a, b[1..])))
  }

  lemma {:induction false} SubsequenceReflexive(a: seq<Trip>)
    ensures IsSubsequence(a, a)
  {
    if |a| > 0 {
      SubsequenceReflexive(a[1..]);
    }
  }

  lemma {:induction false} SubsequenceTransitive(a: seq<Trip>, b: seq<Trip>, c: seq<Trip>)
    requires IsSubsequence(a, b) && IsSubsequence(b, c)
    ensures IsSubsequence(a, c)
    decreases |a| + |b| + |c|
  {
    if |a| > 0 {
      if IsSubsequence(b, c[1..]) {
        SubsequenceTransitive(a, b, c[1..]);
      } else if a[0] == b[0] && IsSubsequence(a[1..], b[1..]) {
        SubsequenceTransitive(a[1..], b[1..], c[1..]);
      } else {
        SubsequenceTransitive(a, b[1..], c[1..]);
      }
    }
  }

  /** `df[mask]`: the rows meeting the criterion, in order; every row that
      meets it is kept as often as it occurs. */
  function Select(s: seq<Trip>, c: Criterion): (r: seq<Trip>)
    ensures IsSubsequence(r, s)
    ensures forall i :: 0 <= i < |r| ==> Meets(r[i], c)
    ensures forall t :: Occurrences(r, t) == if Meets(t, c) then Occurrences(s, t) else 0
  {
    if |s| == 0 then []
    else
      var rest := Select(s[1..], c);
      assert s == [s[0]] + s[1..];
      if Meets(s[0], c) then
        assert ([s[0]] + rest)[1..] == rest;
        [s[0]] + rest
      else
        rest
  }

  /** Selecting rows that all meet the criterion keeps all of them. */
  lemma {:induction false} SelectKeepsAll(s: seq<Trip>, c: Criterion)
    requires forall i :: 0 <= i < |s| ==> Meets(s[i], c)
    ensures Select(s, c) == s
  {
    if |s| > 0 {
      SelectKeepsAll(s[1..], c);
      SelectFirst(s, c);
      assert s == [s[0]] + s[1..];
    }
  }

  /** One step of `Select`: the first row is kept exactly when it meets the
      criterion. */
  lemma SelectFirst(s: seq<Trip>, c: Criterion)
    requires |s| > 0
    ensures Select(s, c) == if Meets(s[0], c) then [s[0]] + Select(s[1..], c) else Select(s[1..], c)
  {
  }

  /** Applying the same mask twice is applying it once. */
  lemma SelectIdempotent(s: seq<Trip>, c: Criterion)
    ensures Select(Select(s, c), c) == Select(s, c)
  {
    SelectKeepsAll(Select(s, c), c);
  }

  /** Two masks can be applied in either order. */
  lemma {:induction false} SelectCommutes(s: seq<Trip>, c: Criterion, d: Criterion)
    ensures Select(Select(s, c), d) == Select(Select(s, d), c)
  {
    if |s| > 0 {
      SelectCommutes(s[1..], c, d);
    }
  }
}
