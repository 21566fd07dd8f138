/** Concrete cases of the statistics: tie-breaking, ranking of value
    counts, positional trip pairing, and the empty record set. */
module Scenarios {
  import opened Wrappers
  import opened Orders
  import opened Frequencies
  import opened Trips
  import opened Stats

  /** Hours 5, 5, 9, 9: both are most frequent, and the smaller one, 5, is
      reported. */
  lemma HourTieGoesToSmallest()
    ensures Mode([5, 5, 9, 9], IntLess) == 5
  {
    var s := [5, 5, 9, 9];
    IntLessIsStrictTotalOrder();
    assert Occurrences(s, 5) == 2 && Occurrences(s, 9) == 2;
    assert forall x :: x in s ==> x == 5 || x == 9;
    assert IsMostFrequent(s, 5);
    ModeUnique(s, IntLess);
  }

  /** A trip with only the station columns of interest filled in. */
  function StationTrip(a: string, b: string): Trip {
    Trip(1, "Monday", 0, a, b, 0, "Subscriber", None, None)
  }

  /** Trips A to B, A to C, A to B: the most frequent trip is "A To B", the
      pair that actually occurs twice. */
  lemma PairedTripExample()
    ensures StationStatsOf([StationTrip("A", "B"), StationTrip("A", "C"), StationTrip("A", "B")]).value.commonTrip == "A To B"
  {
    var trips := [StationTrip("A", "B"), StationTrip("A", "C"), StationTrip("A", "B")];
    var labels := ["A To B", "A To C", "A To B"];
    assert TripLabel("A", "B") == "A To B" && TripLabel("A", "C") == "A To C";
    assert TripColumn(trips) == labels;
    assert Occurrences(labels, "A To B") == 2 && Occurrences(labels, "A To C") == 1;
    assert forall x :: x in labels ==> x == "A To B" || x == "A To C";
    SoleMode(labels, "A To B");
  }

  /** User types Subscriber, Customer, Subscriber count as Subscriber 2 then
      Customer 1. */
  lemma UserTypeCountsExample()
    ensures ValueCounts(["Subscriber", "Customer", "Subscriber"]) == [("Subscriber", 2), ("Customer", 1)]
  {
    var s := ["Subscriber", "Customer", "Subscriber"];
    assert s[..2][..1] == s[..1] && s[..1][..0] == [];
    assert Distinct(s[..1]) == ["Subscriber"];
    assert Distinct(s[..2]) == ["Subscriber", "Customer"];
    assert Distinct(s) == ["Subscriber", "Customer"];
    assert Occurrences(s, "Subscriber") == 2 && Occurrences(s, "Customer") == 1;
    var t := Tally(["Subscriber", "Customer"], s);
    assert t == [("Subscriber", 2), ("Customer", 1)];
    assert SortByCount(t[1..]) == [("Customer", 1)];
    assert SortByCount(t) == InsertByCount(("Subscriber", 2), [("Customer", 1)]);
  }

  /** Over no records the station statistics fail, the mean is missing and
      the user types count to an empty list. */
  lemma EmptyRecordSet(city: string)
    ensures StationStatsOf([]) == Err(EmptyData)
    ensures DurationStatsOf([]) == DurationStats(0, None)
    ensures UserStatsOf([], city).userTypeCounts == []
  {
  }
}
