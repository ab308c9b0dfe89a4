/** The four statistics passes: `time_stats`, `station_stats`,
    `trip_duration_stats` and `user_stats`. Each returns the values the program
    prints. Where the program would raise on a table with no rows, the pass
    reports that instead: None for `mode()[0]`, `NoBirthData` for `int(NaN)`. */
module Stats {
  import opened Wrappers
  import opened Orders
  import opened Text
  import opened Seqs
  import opened Frequency
  import opened Choices
  import opened Trips

  /** Most common month (as a number and as a name), day of the week and start hour. */
  datatype TravelTimes = TravelTimes(month: Option<int>, monthName: Option<string>, day: Option<string>, hour: Option<int>)

  /** `time_stats`. */
  function TimeStats(rows: seq<Trip>): (r: TravelTimes)
    ensures r.month.None? <==> |rows| == 0
    ensures r.day.None? <==> |rows| == 0
    ensures r.hour.None? <==> |rows| == 0
    ensures r.month.Some? ==> IsMode(MonthColumn(rows), IntLe, r.month.value)
    ensures r.day.Some? ==> IsMode(DayColumn(rows), StrLe, r.day.value)
    ensures r.hour.Some? ==> IsMode(HourColumn(rows), IntLe, r.hour.value)
    ensures r.monthName.Some? <==> r.month.Some? && 1 <= r.month.value <= |Months|
    ensures r.monthName.Some? ==> MonthNumber(r.monthName.value) == r.month
  {
    IntLeIsTotalOrder();
    StrLeIsTotalOrder();
    var month := Mode(MonthColumn(rows), IntLe);
    var name := if month.Some? then MonthName(month.value) else None;
    assert name.Some? ==> MonthNumber(name.value) == month by {
      if name.Some? {
        MonthNameNumberRoundTrip(name.value, month.value);
      }
    }
    TravelTimes(month, name, Mode(DayColumn(rows), StrLe), Mode(HourColumn(rows), IntLe))
  }

  /** Most common start station, end station and (start, end) trip. */
  datatype Stations = Stations(start: Option<string>, end: Option<string>, trip: Option<(string, string)>)

  /** `station_stats`, with the trip taken as a (start, end) pair and reported as
      a single most common pair. */
  function StationStats(rows: seq<Trip>): (r: Stations)
    ensures r.start.None? <==> |rows| == 0
    ensures r.end.None? <==> |rows| == 0
    ensures r.trip.None? <==> |rows| == 0
    ensures r.start.Some? ==> IsMode(StartColumn(rows), StrLe, r.start.value)
    ensures r.end.Some? ==> IsMode(EndColumn(rows), StrLe, r.end.value)
    ensures r.trip.Some? ==> IsMode(TripColumn(rows), PairLe, r.trip.value)
  {
    StrLeIsTotalOrder();
    PairLeIsTotalOrder();
    Stations(Mode(StartColumn(rows), StrLe), Mode(EndColumn(rows), StrLe), Mode(TripColumn(rows), PairLe))
  }

  /** The trip is on the route from `start` to `end`. */
  function OnRoute(start: string, end: string): Trip -> bool {
    (r: Trip) => r.startStation == start && r.endStation == end
  }

  /** With the pair as the key, a route's count is exactly the number of trips
      that start and end where it does. */
  lemma {:induction false} RouteCountIsExact(rows: seq<Trip>, start: string, end: string)
    ensures Count(TripColumn(rows), (start, end)) == |Keep(rows, OnRoute(start, end))|
  {
    if |rows| > 0 {
      RouteCountIsExact(rows[1..], start, end);
      assert TripColumn(rows) == [TripColumn(rows)[0]] + TripColumn(rows[1..]);
    }
  }

  /** `df['Start Station'] + ' _ ' + df['End Station']`: the route key as written. */
  function JoinedRoute(start: string, end: string): (k: string)
    ensures |k| == |start| + 3 + |end|
  {
    start + " _ " + end
  }

  function JoinedRouteColumn(rows: seq<Trip>): seq<string> {
    seq(|rows|, i requires 0 <= i < |rows| => JoinedRoute(rows[i].startStation, rows[i].endStation))
  }

  /** Two trips on different routes whose station names contain the separator. */
  const CollidingTrips: seq<Trip> := [
    Trip("A _ B", "C", 60, None, None, None, 1, "Monday", 8),
    Trip("A", "B _ C", 60, None, None, None, 1, "Monday", 8)
  ]

  /** As written, the two routes share the key "A _ B _ C", so the joined column
      counts a route seen twice although no route is taken more than once. */
  lemma JoinedRouteMergesRoutes()
    ensures JoinedRoute("A _ B", "C") == JoinedRoute("A", "B _ C")
    ensures Count(JoinedRouteColumn(CollidingTrips), JoinedRoute("A", "B _ C")) == 2
    ensures |Keep(CollidingTrips, OnRoute("A", "B _ C"))| == 1
  {
    assert JoinedRoute("A _ B", "C") == "A _ B _ C";
    assert JoinedRoute("A", "B _ C") == "A _ B _ C";
    assert JoinedRouteColumn(CollidingTrips) == ["A _ B _ C", "A _ B _ C"];
  }

  /** `(...).mode([0])` as written: the list lands in `dropna`, so the whole
      `Series` of most frequent keys is reported instead of one route. */
  function RouteModesAsWritten(rows: seq<Trip>): (r: set<string>)
    ensures |rows| > 0 ==> r != {}
    ensures forall k :: k in r ==> k in JoinedRouteColumn(rows)
    ensures forall k :: k in r <==>
      (k in JoinedRouteColumn(rows) &&
       forall y :: y in JoinedRouteColumn(rows) ==> Count(JoinedRouteColumn(rows), y) <= Count(JoinedRouteColumn(rows), k))
  {
    AllModes(JoinedRouteColumn(rows))
  }

  lemma TwoRoutesColumns()
    ensures JoinedRouteColumn(TwoRoutes) == ["A _ X", "B _ Y"]
    ensures StartColumn(TwoRoutes) == ["A", "B"]
    ensures EndColumn(TwoRoutes) == ["X", "Y"]
    ensures TripColumn(TwoRoutes) == [("A", "X"), ("B", "Y")]
  {
    assert JoinedRoute("A", "X") == "A _ X";
    assert JoinedRoute("B", "Y") == "B _ Y";
  }

  lemma TwoKeysBothModes()
    ensures AllModes(["A _ X", "B _ Y"]) == {"A _ X", "B _ Y"}
  {
    var col: seq<string> := ["A _ X", "B _ Y"];
    assert forall y :: y in col ==> y == "A _ X" || y == "B _ Y";
    assert Count(col, "A _ X") == 1 && Count(col, "B _ Y") == 1;
    assert "A _ X" in AllModes(col);
    assert "B _ Y" in AllModes(col);
  }

  lemma TwoRoutesStartMode()
    ensures IsMode(["A", "B"], StrLe, "A")
  {
    var starts: seq<string> := ["A", "B"];
    assert forall y :: y in starts ==> y == "A" || y == "B";
    assert Count(starts, "A") == 1 && Count(starts, "B") == 1;
    assert StrLe("A", "B") && StrLe("A", "A");
  }

  lemma TwoRoutesEndMode()
    ensures IsMode(["X", "Y"], StrLe, "X")
  {
    var ends: seq<string> := ["X", "Y"];
    assert forall y :: y in ends ==> y == "X" || y == "Y";
    assert Count(ends, "X") == 1 && Count(ends, "Y") == 1;
    assert StrLe("X", "Y") && StrLe("X", "X");
  }

  lemma TwoRoutesRouteMode()
    ensures IsMode([("A", "X"), ("B", "Y")], PairLe, ("A", "X"))
  {
    var routes: seq<(string, string)> := [("A", "X"), ("B", "Y")];
    assert forall y :: y in routes ==> y == ("A", "X") || y == ("B", "Y");
    assert Count(routes, ("A", "X")) == 1 && Count(routes, ("B", "Y")) == 1;
    assert StrLe("A", "B") && StrLe("X", "X");
    assert PairLe(("A", "X"), ("A", "X")) && PairLe(("A", "X"), ("B", "Y"));
  }

  /** The trips from A to X and from B to Y, each route taken once: the
      corrected pass reports the single route (A, X), the code as written
      reports both joined keys. */
  lemma AsWrittenReportsEveryTiedRoute()
    ensures |RouteModesAsWritten(TwoRoutes)| == 2
    ensures StationStats(TwoRoutes).trip == Some(("A", "X"))
  {
    TwoRoutesColumns();
    TwoKeysBothModes();
    TwoRoutesStartMode();
    TwoRoutesEndMode();
    TwoRoutesRouteMode();
    StationStatsOfModes(TwoRoutes, "A", "X", ("A", "X"));
  }

  const TwoRoutes: seq<Trip> := [
    Trip("A", "X", 60, None, None, None, 1, "Monday", 8),
    Trip("B", "Y", 60, None, None, None, 1, "Monday", 8)
  ]

  /** Total and mean trip duration in seconds, and in the units the program
      prints them in (days and minutes, before rounding). */
  datatype Durations = Durations(total: nat, totalDays: real, mean: Option<real>, meanMinutes: Option<real>)

  /** `trip_duration_stats`. */
  function DurationStats(rows: seq<Trip>): (r: Durations)
    ensures r.totalDays * 86400.0 == r.total as real
    ensures r.mean.None? <==> |rows| == 0
    ensures r.mean.Some? ==> r.mean.value * |rows| as real == r.total as real
    ensures r.meanMinutes.Some? <==> r.mean.Some?
    ensures r.meanMinutes.Some? ==> r.meanMinutes.value * 60.0 == r.mean.value
  {
    var total := Sum(DurationColumn(rows));
    var mean := if |rows| == 0 then None else Some(total as real / |rows| as real);
    Durations(total, total as real / 86400.0, mean, if mean.Some? then Some(mean.value / 60.0) else None)
  }

  /** The total is additive: the total of two tables together is the sum of their totals. */
  lemma TotalIsAdditive(a: seq<Trip>, b: seq<Trip>)
    ensures DurationStats(a + b).total == DurationStats(a).total + DurationStats(b).total
  {
    assert DurationColumn(a + b) == DurationColumn(a) + DurationColumn(b);
    SumConcat(DurationColumn(a), DurationColumn(b));
  }

  /** The total of a single trip is its duration. */
  lemma OneTripTotal(trip: Trip)
    ensures DurationStats([trip]).total == trip.duration
  {
    var col := DurationColumn([trip]);
    assert col == [trip.duration];
    assert Sum(col) == trip.duration + Sum(col[1..]);
    assert col[1..] == [];
    assert DurationStats([trip]).total == Sum(col);
  }

  /** The total counts every trip's duration once: nothing for no trips, and
      otherwise the first trip's duration plus the total of the rest. */
  lemma {:induction false} TotalAddsEachTrip(rows: seq<Trip>)
    ensures |rows| == 0 ==> DurationStats(rows).total == 0
    ensures |rows| > 0 ==> DurationStats(rows).total == rows[0].duration + DurationStats(rows[1..]).total
  {
    if |rows| > 0 {
      assert rows == [rows[0]] + rows[1..];
      TotalIsAdditive([rows[0]], rows[1..]);
      OneTripTotal(rows[0]);
    }
  }

  /** A mean lies between the least and the greatest element of the column. */
  lemma MeanOfColumnWithin(col: seq<nat>, mean: real)
    requires |col| > 0 && Scale(|col|, mean) == Sum(col) as real
    ensures Min(col) as real <= mean <= Max(col) as real
  {
    var n, lo, hi := |col|, Min(col), Max(col);
    SumBetweenMinAndMax(col);
    if mean < lo as real {
      ScaleIsMonotone(n, mean, lo as real);
    }
    if hi as real < mean {
      ScaleIsMonotone(n, hi as real, mean);
    }
  }

  /** The mean lies between the shortest and the longest trip. */
  lemma MeanBetweenShortestAndLongest(rows: seq<Trip>)
    requires |rows| > 0
    ensures Min(DurationColumn(rows)) as real <= DurationStats(rows).mean.value <= Max(DurationColumn(rows)) as real
  {
    var col := DurationColumn(rows);
    var d := DurationStats(rows);
    assert d.total == Sum(col);
    assert |col| == |rows|;
    var m := d.mean.value;
    ScaleIsProduct(|col|, m);
    MeanOfColumnWithin(col, m);
  }

  /** Earliest, most recent and most common birth year, when the file has the
      column and it holds at least one year. */
  datatype BirthYears = NoBirthColumn | NoBirthData | BirthYears(earliest: int, latest: int, common: int)

  /** Counts per user type, counts per gender when the file has that column, and
      the birth-year statistics. */
  datatype Users = Users(userTypes: seq<(string, nat)>, genders: Option<seq<(string, nat)>>, birth: BirthYears)

  /** Lines 160-168 of `user_stats`: `min`, `max` and `value_counts().idxmax()`
      over the non-missing birth years. */
  function BirthStats(hasColumn: bool, years: seq<int>): (r: BirthYears)
    ensures r.NoBirthColumn? <==> !hasColumn
    ensures r.NoBirthData? <==> hasColumn && |years| == 0
    ensures r.BirthYears? ==> r.earliest in years && r.latest in years && r.common in years
    ensures r.BirthYears? ==> forall y :: y in years ==> r.earliest <= y <= r.latest
    ensures r.BirthYears? ==> forall y :: y in years ==> Count(years, y) <= Count(years, r.common)
    ensures r.BirthYears? ==> r.earliest <= r.common <= r.latest
  {
    if !hasColumn then NoBirthColumn
    else if |years| == 0 then NoBirthData
    else BirthYears(Min(years), Max(years), FirstMode(years).value)
  }

  /** `user_stats`. */
  function UserStats(t: Table): (r: Users)
    ensures r.genders.Some? <==> t.hasGender
    ensures forall i :: 0 <= i < |r.userTypes| ==>
      r.userTypes[i].0 in Present(UserTypeColumn(t.rows)) &&
      r.userTypes[i].1 == Count(Present(UserTypeColumn(t.rows)), r.userTypes[i].0)
    ensures forall i :: 0 <= i < |Present(UserTypeColumn(t.rows))| ==>
      Present(UserTypeColumn(t.rows))[i] in Keys(r.userTypes)
    ensures Distinct(Keys(r.userTypes))
    ensures r.genders.Some? ==> forall i :: 0 <= i < |r.genders.value| ==>
      r.genders.value[i].0 in Present(GenderColumn(t.rows)) &&
      r.genders.value[i].1 == Count(Present(GenderColumn(t.rows)), r.genders.value[i].0)
    ensures r.genders.Some? ==> forall i :: 0 <= i < |Present(GenderColumn(t.rows))| ==>
      Present(GenderColumn(t.rows))[i] in Keys(r.genders.value)
    ensures r.genders.Some? ==> Distinct(Keys(r.genders.value))
    ensures r.birth == BirthStats(t.hasBirthYear, Present(BirthYearColumn(t.rows)))
  {
    Users(
      Tally(Present(UserTypeColumn(t.rows))),
      if t.hasGender then Some(Tally(Present(GenderColumn(t.rows)))) else None,
      BirthStats(t.hasBirthYear, Present(BirthYearColumn(t.rows))))
  }

  /** The user-type counts add up to the number of rows that have a user type,
      which is every row when none is missing. */
  lemma UserTypeCountsAddUp(t: Table)
    ensures SumCounts(UserStats(t).userTypes) == |Present(UserTypeColumn(t.rows))|
    ensures (forall i :: 0 <= i < |t.rows| ==> t.rows[i].userType.Some?) ==> SumCounts(UserStats(t).userTypes) == |t.rows|
  {
    TallyTotal(Present(UserTypeColumn(t.rows)));
    if forall i :: 0 <= i < |t.rows| ==> t.rows[i].userType.Some? {
      PresentOfFullColumn(UserTypeColumn(t.rows));
    }
  }

  /** The same for the gender counts, when the file has the column. */
  lemma GenderCountsAddUp(t: Table)
    requires t.hasGender
    ensures SumCounts(UserStats(t).genders.value) == |Present(GenderColumn(t.rows))|
    ensures (forall i :: 0 <= i < |t.rows| ==> t.rows[i].gender.Some?) ==> SumCounts(UserStats(t).genders.value) == |t.rows|
  {
    TallyTotal(Present(GenderColumn(t.rows)));
    if forall i :: 0 <= i < |t.rows| ==> t.rows[i].gender.Some? {
      PresentOfFullColumn(GenderColumn(t.rows));
    }
  }

  /** A query that selects no rows gets an explicit "nothing to report" from
      every pass rather than an error. */
  lemma EmptyTableReportsNothing(t: Table)
    requires |t.rows| == 0
    ensures TimeStats(t.rows) == TravelTimes(None, None, None, None)
    ensures StationStats(t.rows) == Stations(None, None, None)
    ensures DurationStats(t.rows).total == 0 && DurationStats(t.rows).mean.None?
    ensures UserStats(t).userTypes == []
    ensures !UserStats(t).birth.BirthYears?
  {
  }

  /** Five trips of 60 to 300 seconds: 900 seconds in total, a mean of 3 minutes. */
  lemma DurationExample()
    ensures DurationStats(FiveTrips).total == 900
    ensures DurationStats(FiveTrips).totalDays == 900.0 / 86400.0
    ensures DurationStats(FiveTrips).meanMinutes == Some(3.0)
  {
    assert DurationColumn(FiveTrips) == [60, 120, 180, 240, 300];
  }

  const FiveTrips: seq<Trip> := [
    Trip("A", "X", 60, None, None, None, 1, "Monday", 8),
    Trip("A", "X", 120, None, None, None, 1, "Monday", 8),
    Trip("A", "X", 180, None, None, None, 1, "Monday", 8),
    Trip("A", "X", 240, None, None, None, 1, "Monday", 8),
    Trip("A", "X", 300, None, None, None, 1, "Monday", 8)
  ]

  const ThreeTrips: seq<Trip> := [
    Trip("A", "X", 60, None, None, None, 1, "Monday", 8),
    Trip("A", "Y", 60, None, None, None, 1, "Monday", 8),
    Trip("B", "X", 60, None, None, None, 1, "Monday", 8)
  ]

  /** The station pass reports the three values that are modes in the sense of
      `IsMode`. */
  lemma StationStatsOfModes(rows: seq<Trip>, start: string, end: string, route: (string, string))
    requires IsMode(StartColumn(rows), StrLe, start)
    requires IsMode(EndColumn(rows), StrLe, end)
    requires IsMode(TripColumn(rows), PairLe, route)
    ensures StationStats(rows) == Stations(Some(start), Some(end), Some(route))
  {
    StrLeIsTotalOrder();
    PairLeIsTotalOrder();
    ModeIsUnique(StartColumn(rows), StrLe, start);
    ModeIsUnique(EndColumn(rows), StrLe, end);
    ModeIsUnique(TripColumn(rows), PairLe, route);
  }

  lemma ThreeTripsColumns()
    ensures StartColumn(ThreeTrips) == ["A", "A", "B"]
    ensures EndColumn(ThreeTrips) == ["X", "Y", "X"]
    ensures TripColumn(ThreeTrips) == [("A", "X"), ("A", "Y"), ("B", "X")]
  {
  }

  lemma StartModeExample()
    ensures IsMode(["A", "A", "B"], StrLe, "A")
  {
    var starts: seq<string> := ["A", "A", "B"];
    assert forall y :: y in starts ==> y == "A" || y == "B";
    assert Count(starts, "A") == 2 && Count(starts, "B") == 1;
  }

  lemma EndModeExample()
    ensures IsMode(["X", "Y", "X"], StrLe, "X")
  {
    var ends: seq<string> := ["X", "Y", "X"];
    assert forall y :: y in ends ==> y == "X" || y == "Y";
    assert Count(ends, "X") == 2 && Count(ends, "Y") == 1;
  }

  lemma RouteModeExample()
    ensures IsMode([("A", "X"), ("A", "Y"), ("B", "X")], PairLe, ("A", "X"))
  {
    var routes: seq<(string, string)> := [("A", "X"), ("A", "Y"), ("B", "X")];
    assert forall y :: y in routes ==> y == ("A", "X") || y == ("A", "Y") || y == ("B", "X");
    assert Count(routes, ("A", "X")) == 1 && Count(routes, ("A", "Y")) == 1 && Count(routes, ("B", "X")) == 1;
    assert StrLe("X", "Y") && StrLe("A", "B") && StrLe("A", "A") && StrLe("X", "X");
    assert PairLe(("A", "X"), ("A", "X")) && PairLe(("A", "X"), ("A", "Y")) && PairLe(("A", "X"), ("B", "X"));
  }

  /** Start stations A, A, B and end stations X, Y, X: the most common start is A,
      the most common end is X, and of the three routes taken once each the
      least, (A, X), is reported. */
  lemma StationExample()
    ensures StationStats(ThreeTrips) == Stations(Some("A"), Some("X"), Some(("A", "X")))
  {
    ThreeTripsColumns();
    StartModeExample();
    EndModeExample();
    RouteModeExample();
    StationStatsOfModes(ThreeTrips, "A", "X", ("A", "X"));
  }
}
