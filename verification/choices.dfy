/** The fixed vocabularies of a query (cities, month names, day names), the
    validation of what the user types, and the mapping between month names and
    month numbers that the loader and the time statistics share. */
module Choices {
  import opened Wrappers
  import opened Text
  import opened Seqs

  const Cities: seq<string> := ["chicago", "new york city", "washington"]

  /** The months the data covers; month number `n` is `Months[n - 1]`. */
  const Months: seq<string> := ["january", "february", "march", "april", "may", "june"]

  const Days: seq<string> := ["monday", "tuesday", "wednesday", "thursday", "friday", "saturday", "sunday"]

  /** Weekday names as pandas `day_name()` spells them. */
  const DayNames: seq<string> := ["Monday", "Tuesday", "Wednesday", "Thursday", "Friday", "Saturday", "Sunday"]

  /** `CITY_DATA`: the file that backs each city. */
  const CityData: map<string, string> :=
    map["chicago" := "chicago.csv", "new york city" := "new_york_city.csv", "washington" := "washington.csv"]

  predicate ValidCity(city: string) {
    city in Cities
  }

  /** A month answer is accepted when it is `all` or one of the six month names. */
  predicate ValidMonth(month: string) {
    month == "all" || month in Months
  }

  /** A day answer is accepted when it is `all` or one of the seven day names. */
  predicate ValidDay(day: string) {
    day == "all" || day in Days
  }

  lemma ChoicesHaveNoUpper()
    ensures forall c :: ValidCity(c) ==> HasNoUpper(c)
    ensures forall m :: ValidMonth(m) ==> HasNoUpper(m)
    ensures forall d :: ValidDay(d) ==> HasNoUpper(d)
  {
  }

  /** One round of a prompt loop: the lower-cased answer when `valid` accepts it,
      None when the program would ask again. */
  function Ask(raw: string, valid: string -> bool): Option<string> {
    var answer := Lower(raw);
    if valid(answer) then Some(answer) else None
  }

  /** The city prompt accepts exactly the inputs that spell one of the three
      cities in some mixture of cases, and yields that city. */
  function AskCity(raw: string): (r: Option<string>)
    ensures forall c :: r == Some(c) <==> ValidCity(c) && SameIgnoringCase(raw, c)
  {
    ChoicesHaveNoUpper();
    forall c | ValidCity(c) {
      LowerEqualsIffSameIgnoringCase(raw, c);
    }
    Ask(raw, ValidCity)
  }

  /** The month prompt accepts exactly `all` or a month name, in any case. */
  function AskMonth(raw: string): (r: Option<string>)
    ensures forall m :: r == Some(m) <==> ValidMonth(m) && SameIgnoringCase(raw, m)
  {
    ChoicesHaveNoUpper();
    forall m | ValidMonth(m) {
      LowerEqualsIffSameIgnoringCase(raw, m);
    }
    Ask(raw, ValidMonth)
  }

  /** The day prompt accepts exactly `all` or a day name, in any case. */
  function AskDay(raw: string): (r: Option<string>)
    ensures forall d :: r == Some(d) <==> ValidDay(d) && SameIgnoringCase(raw, d)
  {
    ChoicesHaveNoUpper();
    forall d | ValidDay(d) {
      LowerEqualsIffSameIgnoringCase(raw, d);
    }
    Ask(raw, ValidDay)
  }

  /** `CITY_DATA[city]`; None where the program raises `KeyError`. */
  function CityFile(city: string): (r: Option<string>)
    ensures r.Some? <==> ValidCity(city)
  {
    if city in CityData then Some(CityData[city]) else None
  }

  /** No two cities share a backing file. */
  lemma CityFilesDistinct(a: string, b: string)
    requires ValidCity(a) && ValidCity(b) && a != b
    ensures CityFile(a) != CityFile(b)
  {
  }

  /** The calendar number of a month name: its 1-based position in `Months`.
      None for a name outside the list, where `months.index` raises `ValueError`. */
  function MonthNumber(name: string): (r: Option<int>)
    ensures r.Some? <==> name in Months
    ensures r.Some? ==> 1 <= r.value <= |Months|
  {
    if name in Months then Some(IndexOf(Months, name) + 1) else None
  }

  /** `months[n - 1]` for a month number; None for a month the list does not
      cover, where the program raises `IndexError`. */
  function MonthName(n: int): (r: Option<string>)
    ensures r.Some? <==> 1 <= n <= |Months|
  {
    if 1 <= n <= |Months| then Some(Months[n - 1]) else None
  }

  /** Month names and month numbers are in one-to-one correspondence. */
  lemma MonthNameNumberRoundTrip(name: string, n: int)
    ensures MonthNumber(name) == Some(n) <==> MonthName(n) == Some(name)
  {
    if MonthName(n) == Some(name) {
      var i := IndexOf(Months, name);
      assert Months[i] == Months[n - 1];
    }
  }

  /** Title-casing a day name gives the weekday name pandas produces for it. */
  lemma TitleOfDays()
    ensures forall i :: 0 <= i < |Days| ==> Title(Days[i]) == DayNames[i]
  {
    forall i | 0 <= i < |Days|
      ensures Title(Days[i]) == DayNames[i]
    {
      TitleOfLowerWord(Days[i]);
    }
  }
}
