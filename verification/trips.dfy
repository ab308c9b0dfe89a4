/** The loaded table: one record per trip with the columns the statistics read
    and the calendar fields derived from the start time, plus the schema facts
    of which optional columns the city's file has. */
module Trips {
  import opened Wrappers
  import opened Choices

  /** One row. `userType`, `gender` and `birthYear` are None where the cell is
      empty; `month`, `dayOfWeek` and `hour` are the values pandas derives from
      `Start Time` (`dt.month`, `dt.day_name()`, `dt.hour`). */
  datatype Trip = Trip(
    startStation: string,
    endStation: string,
    duration: nat,
    userType: Option<string>,
    gender: Option<string>,
    birthYear: Option<int>,
    month: int,
    dayOfWeek: string,
    hour: int)

  /** A city's table. The flags say whether the file has a `Gender` and a
      `Birth Year` column; selecting rows never changes them. */
  datatype Table = Table(rows: seq<Trip>, hasGender: bool, hasBirthYear: bool)

  /** The derived fields are what a calendar can produce: month 1 to 12, a
      weekday name, hour 0 to 23. */
  predicate WellFormed(r: Trip) {
    1 <= r.month <= 12 && r.dayOfWeek in DayNames && 0 <= r.hour < 24
  }

  function MonthColumn(rows: seq<Trip>): seq<int> {
    seq(|rows|, i requires 0 <= i < |rows| => rows[i].month)
  }

  function DayColumn(rows: seq<Trip>): seq<string> {
    seq(|rows|, i requires 0 <= i < |rows| => rows[i].dayOfWeek)
  }

  function HourColumn(rows: seq<Trip>): seq<int> {
    seq(|rows|, i requires 0 <= i < |rows| => rows[i].hour)
  }

  function StartColumn(rows: seq<Trip>): seq<string> {
    seq(|rows|, i requires 0 <= i < |rows| => rows[i].startStation)
  }

  function EndColumn(rows: seq<Trip>): seq<string> {
    seq(|rows|, i requires 0 <= i < |rows| => rows[i].endStation)
  }

  /** The (start station, end station) pair of every trip. */
  function TripColumn(rows: seq<Trip>): seq<(string, string)> {
    seq(|rows|, i requires 0 <= i < |rows| => (rows[i].startStation, rows[i].endStation))
  }

  function DurationColumn(rows: seq<Trip>): seq<nat> {
    seq(|rows|, i requires 0 <= i < |rows| => rows[i].duration)
  }

  function UserTypeColumn(rows: seq<Trip>): seq<Option<string>> {
    seq(|rows|, i requires 0 <= i < |rows| => rows[i].userType)
  }

  function GenderColumn(rows: seq<Trip>): seq<Option<string>> {
    seq(|rows|, i requires 0 <= i < |rows| => rows[i].gender)
  }

  function BirthYearColumn(rows: seq<Trip>): seq<Option<int>> {
    seq(|rows|, i requires 0 <= i < |rows| => rows[i].birthYear)
  }
}
