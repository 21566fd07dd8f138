/** `load_data` (bikeshare.py lines 49-78): pick the city's rows and keep
    those of the requested month and weekday. Reading the CSV file and
    parsing the start times are not modelled: `rows` stands for the city's
    file, already carrying the derived month, day and hour. */
module Loader {
  import opened Wrappers
  import opened Frequencies
  import opened Calendar
  import opened Trips

  /** `CITY_DATA[city]` raises KeyError for an unknown city, and
      `months.index(month)` raises ValueError for a month outside the table. */
  datatype LoadError = UnknownCity | UnknownMonth

  /** A row passes the month filter: its month number is the requested
      month's place in the table; "all" lets every row through. */
  predicate MonthPasses(t: Trip, month: string) {
    month == "all" || MonthNumber(month) == Some(t.month as int)
  }

  /** A row passes the day filter: its weekday name is the title-cased
      request; "all" lets every row through. */
  predicate DayPasses(t: Trip, day: string) {
    day == "all" || t.day == Title(day)
  }

  predicate PassesFilters(t: Trip, month: string, day: string) {
    MonthPasses(t, month) && DayPasses(t, day)
  }

  /** The month step of `load_data`: fails where `months.index` raises. */
  function FilterMonth(rows: seq<Trip>, month: string): (r: Result<seq<Trip>, LoadError>)
    ensures r.Err? <==> month != "all" && month !in Months
    ensures r.Err? ==> r.error == UnknownMonth
    ensures r.Ok? ==> IsSubsequence(r.value, rows)
    ensures r.Ok? ==> forall i :: 0 <= i < |r.value| ==> MonthPasses(r.value[i], month)
    ensures r.Ok? ==> forall t :: Occurrences(r.value, t) == if MonthPasses(t, month) then Occurrences(rows, t) else 0
  {
    if month == "all" then
      SubsequenceReflexive(rows);
      Ok(rows)
    else
      match MonthNumber(month)
      case None => Err(UnknownMonth)
      case Some(k) => Ok(Select(rows, MonthIs(k)))
  }

  /** The day step of `load_data`. */
  function FilterDay(rows: seq<Trip>, day: string): (r: seq<Trip>)
    ensures IsSubsequence(r, rows)
    ensures forall i :: 0 <= i < |r| ==> DayPasses(r[i], day)
    ensures forall t :: Occurrences(r, t) == if DayPasses(t, day) then Occurrences(rows, t) else 0
  {
    if day == "all" then
      SubsequenceReflexive(rows);
      rows
    else
      Select(rows, DayIs(Title(day)))
  }

  /** `load_data(city, month, day)` over the city's rows: the rows that pass
      both filters, in file order, each as often as it occurs in the file. */
  function LoadData(city: string, rows: seq<Trip>, month: string, day: string): (r: Result<seq<Trip>, LoadError>)
    ensures r == Err(UnknownCity) <==> city !in CityData
    ensures r == Err(UnknownMonth) <==> city in CityData && month != "all" && month !in Months
    ensures r.Ok? ==> IsSubsequence(r.value, rows)
    ensures r.Ok? ==> forall i :: 0 <= i < |r.value| ==> PassesFilters(r.value[i], month, day)
    ensures r.Ok? ==> forall t :: Occurrences(r.value, t) == if PassesFilters(t, month, day) then Occurrences(rows, t) else 0
  {
    if city !in CityData then
      Err(UnknownCity)
    else
      match FilterMonth(rows, month)
      case Err(e) => Err(e)
      case Ok(kept) =>
        var r := FilterDay(kept, day);
        SubsequenceTransitive(r, kept, rows);
        forall i | 0 <= i < |r|
          ensures MonthPasses(r[i], month)
        {
          assert r[i] in multiset(r);
        }
        Ok(r)
  }

  /** A month filter keeps only rows of a selectable month (January to June),
      and the number maps back to the requested name. */
  lemma LoadedMonthsInTable(city: string, rows: seq<Trip>, month: string, day: string)
    requires city in CityData
    requires month in Months
    ensures LoadData(city, rows, month, day).Ok?
    ensures forall t :: t in LoadData(city, rows, month, day).value ==>
      1 <= t.month <= 6 && MonthName(t.month) == Some(month)
  {
    assert month != "all";
    var r := LoadData(city, rows, month, day).value;
    forall t | t in r
      ensures 1 <= t.month <= 6 && MonthName(t.month) == Some(month)
    {
      var i :| 0 <= i < |r| && r[i] == t;
      assert PassesFilters(r[i], month, day);
      MonthNameOfNumber(month);
    }
  }

  /** With both filters "all" the loader returns the city's rows unchanged. */
  lemma LoadAllIsIdentity(city: string, rows: seq<Trip>)
    requires city in CityData
    ensures LoadData(city, rows, "all", "all") == Ok(rows)
  {
  }

  /** Loading again with the same filters from an already loaded set
      changes nothing. */
  lemma LoadIdempotent(city: string, rows: seq<Trip>, month: string, day: string)
    requires city in CityData
    requires month == "all" || month in Months
    ensures LoadData(city, rows, month, day).Ok?
    ensures LoadData(city, LoadData(city, rows, month, day).value, month, day) == LoadData(city, rows, month, day)
  {
    var r := LoadData(city, rows, month, day).value;
    if month != "all" {
      var k := MonthNumber(month).value;
      SelectKeepsAll(r, MonthIs(k));
    }
    if day != "all" {
      SelectKeepsAll(r, DayIs(Title(day)));
    }
  }

  /** The day request is matched without regard to case: requests that
      differ only in the case of their letters load the same rows. */
  lemma LoadDayIgnoresCase(city: string, rows: seq<Trip>, month: string, day: string, day': string)
    requires day != "all" && day' != "all"
    requires |day| == |day'|
    requires forall i :: 0 <= i < |day| ==> Lower(day[i]) == Lower(day'[i])
    ensures LoadData(city, rows, month, day) == LoadData(city, rows, month, day')
  {
    TitleIgnoresCase(day, day', false);
  }
}
