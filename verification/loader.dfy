/** `load_data`: pick the city's table and keep the rows of the requested month
    and day of the week.

    The program turns a month name into a number with `months.index(month)`,
    which counts from 0, and compares it with `dt.month`, which counts from 1
    (January is 1, and the time statistics map a number back with
    `months[n - 1]`). `SelectRows` uses the 1-based number the rest of the
    program assumes; `SelectRowsAsWritten` keeps the 0-based comparison, and the
    lemmas after it show what that does. */
module Loader {
  import opened Wrappers
  import opened Text
  import opened Seqs
  import opened Choices
  import opened Trips

  /** Why a load is abandoned: an unknown city (`KeyError` on `CITY_DATA`), a
      city whose file cannot be read, or an unknown month name (`ValueError` from
      `months.index`). */
  datatype LoadError = UnknownCity(city: string) | MissingFile(file: string) | UnknownMonth(month: string)

  function MonthIs(n: int): Trip -> bool {
    (r: Trip) => r.month == n
  }

  function DayIs(name: string): Trip -> bool {
    (r: Trip) => r.dayOfWeek == name
  }

  /** `df[df['month'] == n]`. */
  function FilterMonth(rows: seq<Trip>, n: int): seq<Trip> {
    Keep(rows, MonthIs(n))
  }

  /** `df[df['day_of_week'] == name]`. */
  function FilterDay(rows: seq<Trip>, name: string): seq<Trip> {
    Keep(rows, DayIs(name))
  }

  /** The row passes the month filter (intended, 1-based) and the day filter. */
  predicate Selected(r: Trip, month: string, day: string) {
    && (month == "all" || MonthNumber(month) == Some(r.month))
    && (day == "all" || r.dayOfWeek == Title(day))
  }

  /** Lines 67-78 of `load_data`, with the month compared 1-based. */
  function SelectRows(rows: seq<Trip>, month: string, day: string): (r: Result<seq<Trip>, LoadError>)
    ensures r.Failure? <==> !ValidMonth(month)
    ensures r.Failure? ==> r.error == UnknownMonth(month)
    ensures r.Success? ==> forall i :: 0 <= i < |r.value| ==> r.value[i] in rows && Selected(r.value[i], month, day)
    ensures r.Success? ==> forall i :: 0 <= i < |rows| && Selected(rows[i], month, day) ==> rows[i] in r.value
  {
    if month != "all" && month !in Months then Failure(UnknownMonth(month))
    else
      var byMonth := if month == "all" then rows else FilterMonth(rows, MonthNumber(month).value);
      Success(if day == "all" then byMonth else FilterDay(byMonth, Title(day)))
  }

  /** `load_data(city, month, day)` over a file system given as a map from file
      names to the tables their contents parse to. */
  function Load(files: map<string, Table>, city: string, month: string, day: string): (r: Result<Table, LoadError>)
    ensures r.Success? <==> ValidCity(city) && CityData[city] in files && ValidMonth(month)
    ensures r.Failure? && !ValidCity(city) ==> r.error == UnknownCity(city)
    ensures ValidCity(city) && CityData[city] !in files ==> r == Failure(MissingFile(CityData[city]))
    ensures ValidCity(city) && CityData[city] in files && !ValidMonth(month) ==> r == Failure(UnknownMonth(month))
    ensures r.Success? ==> var source := files[CityData[city]];
      && r.value.hasGender == source.hasGender
      && r.value.hasBirthYear == source.hasBirthYear
      && SelectRows(source.rows, month, day) == Success(r.value.rows)
  {
    match CityFile(city)
    case None => Failure(UnknownCity(city))
    case Some(file) =>
      if file !in files then Failure(MissingFile(file))
      else
        var source := files[file];
        match SelectRows(source.rows, month, day)
        case Failure(e) => Failure(e)
        case Success(rows) => Success(Table(rows, source.hasGender, source.hasBirthYear))
  }

  /** Loading never adds or alters rows and keeps them in their original order. */
  lemma SelectRowsIsSubsequence(rows: seq<Trip>, month: string, day: string)
    requires ValidMonth(month)
    ensures IsSubsequence(SelectRows(rows, month, day).value, rows)
  {
    if month == "all" {
      if day != "all" {
        KeepIsSubsequence(rows, DayIs(Title(day)));
      } else {
        SubsequenceReflexive(rows);
      }
    } else {
      var n := MonthNumber(month).value;
      if day == "all" {
        KeepIsSubsequence(rows, MonthIs(n));
      } else {
        KeepIsSubsequence(rows, MonthIs(n));
        KeepIsSubsequence(FilterMonth(rows, n), DayIs(Title(day)));
        SubsequenceTransitive(FilterDay(FilterMonth(rows, n), Title(day)), FilterMonth(rows, n), rows);
      }
    }
  }

  /** Every occurrence of a selected row is kept and no occurrence of another. */
  lemma SelectRowsCounts(rows: seq<Trip>, month: string, day: string, x: Trip)
    requires ValidMonth(month)
    ensures multiset(SelectRows(rows, month, day).value)[x] == if Selected(x, month, day) then multiset(rows)[x] else 0
  {
    if month == "all" {
      if day != "all" {
        KeepCount(rows, DayIs(Title(day)), x);
      }
    } else {
      var n := MonthNumber(month).value;
      KeepCount(rows, MonthIs(n), x);
      if day != "all" {
        KeepCount(FilterMonth(rows, n), DayIs(Title(day)), x);
      }
    }
  }

  /** With month and day both `all` the table comes back unchanged. */
  lemma SelectAllIsIdentity(rows: seq<Trip>)
    ensures SelectRows(rows, "all", "all") == Success(rows)
  {
  }

  /** The month and day filters can be applied in either order. */
  lemma FiltersCommute(rows: seq<Trip>, n: int, name: string)
    ensures FilterDay(FilterMonth(rows, n), name) == FilterMonth(FilterDay(rows, name), n)
  {
    KeepCommutes(rows, MonthIs(n), DayIs(name));
  }

  /** Filtering an already filtered table again with the same query changes nothing. */
  lemma SelectRowsIdempotent(rows: seq<Trip>, month: string, day: string)
    requires ValidMonth(month)
    ensures SelectRows(SelectRows(rows, month, day).value, month, day) == SelectRows(rows, month, day)
  {
    if month != "all" {
      var n := MonthNumber(month).value;
      KeepIdempotent(rows, MonthIs(n));
      if day != "all" {
        var d := Title(day);
        var once := FilterDay(FilterMonth(rows, n), d);
        FiltersCommute(FilterMonth(rows, n), n, d);
        KeepIdempotent(FilterMonth(rows, n), MonthIs(n));
        KeepIdempotent(FilterMonth(rows, n), DayIs(d));
        assert FilterMonth(once, n) == FilterDay(FilterMonth(FilterMonth(rows, n), n), d);
      }
    } else if day != "all" {
      KeepIdempotent(rows, DayIs(Title(day)));
    }
  }

  /** Lines 67-78 of `load_data` as written: the month name is turned into its
      0-based position and compared with the 1-based `dt.month`. */
  function SelectRowsAsWritten(rows: seq<Trip>, month: string, day: string): (r: Result<seq<Trip>, LoadError>)
    ensures r.Failure? <==> !ValidMonth(month)
    ensures r.Success? && month != "all" ==> forall i :: 0 <= i < |r.value| ==> r.value[i].month == IndexOf(Months, month)
  {
    if month != "all" && month !in Months then Failure(UnknownMonth(month))
    else
      var byMonth := if month == "all" then rows else FilterMonth(rows, IndexOf(Months, month));
      Success(if day == "all" then byMonth else FilterDay(byMonth, Title(day)))
  }

  /** As written, asking for January returns no rows at all from any table whose
      months come from a calendar. */
  lemma AsWrittenJanuaryIsEmpty(rows: seq<Trip>, day: string)
    requires forall i :: 0 <= i < |rows| ==> WellFormed(rows[i])
    ensures SelectRowsAsWritten(rows, "january", day) == Success([])
  {
  }

  /** As written, asking for any later month returns the rows of the month
      before it. */
  lemma AsWrittenKeepsPreviousMonth(rows: seq<Trip>, i: int, day: string)
    requires 1 <= i < |Months|
    ensures SelectRowsAsWritten(rows, Months[i], day) == SelectRows(rows, Months[i - 1], day)
  {
    MonthNameNumberRoundTrip(Months[i - 1], i);
    assert IndexOf(Months, Months[i]) == i;
  }

  /** The corrected filter keeps exactly the rows of the named month. */
  lemma SelectMonthExact(rows: seq<Trip>, i: int, day: string)
    requires 0 <= i < |Months|
    ensures forall k :: 0 <= k < |SelectRows(rows, Months[i], day).value| ==> SelectRows(rows, Months[i], day).value[k].month == i + 1
    ensures forall k :: 0 <= k < |rows| && rows[k].month == i + 1 && (day == "all" || rows[k].dayOfWeek == Title(day))
              ==> rows[k] in SelectRows(rows, Months[i], day).value
  {
    MonthNameNumberRoundTrip(Months[i], i + 1);
  }
}
