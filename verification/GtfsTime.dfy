/** GTFS times and service days, after the Field Types section of the GTFS Schedule Reference. */
module GtfsTime {
  import opened Wrappers
  import opened Text

  const HOUR := 3600
  const MAXIMUM_OFFSET := 99 * HOUR + 59 * 60 + 59

  /** ParseGTFSTime without the service day: the seconds after noon minus twelve hours. */
  function ParseOffset(value: string): (r: Option<int>)
    ensures r.Some? ==> 0 <= r.value <= MAXIMUM_OFFSET
  {
    var parts := Split(value, ':');
    if |parts| != 3 then None
    else
      var h, m, s := Atoi(parts[0]), Atoi(parts[1]), Atoi(parts[2]);
      if h == None || m == None || s == None then None
      else if h.value < 0 || h.value > 99 || m.value < 0 || m.value > 59 || s.value < 0 || s.value > 59 then None
      else Some(h.value * 3600 + m.value * 60 + s.value)
  }

  /** ParseGTFSTime, with the zero instant of the service day. */
  function ParseGTFSTime(value: string, zero: int): Option<int> {
    match ParseOffset(value)
    case None => None
    case Some(offset) => Some(zero + offset)
  }

  function TwoDigits(n: nat): string
    requires n < 100
  {
    [Digit(n / 10), Digit(n % 10)]
  }

  lemma ReadTwoDigits(n: nat)
    requires n < 100
    ensures Atoi(TwoDigits(n)) == Some(n)
    ensures ':' !in TwoDigits(n)
  {
    var s := TwoDigits(n);
    assert s[..1] == [Digit(n / 10)] && s[..1][..0] == [];
    assert ReadDigits([]) == 0;
    assert ReadDigits(s[..1]) == n / 10;
  }

  function FormatOffset(h: nat, m: nat, s: nat): string
    requires h < 100 && m < 60 && s < 60
  {
    TwoDigits(h) + [':'] + (TwoDigits(m) + [':'] + TwoDigits(s))
  }

  lemma SplitThree(a: string, b: string, c: string)
    requires ':' !in a && ':' !in b && ':' !in c
    ensures Split(a + [':'] + (b + [':'] + c), ':') == [a, b, c]
  {
    SplitFirst(a, ':', b + [':'] + c);
    SplitFirst(b, ':', c);
    SplitOne(c, ':');
  }

  lemma ParseThree(a: string, b: string, c: string, h: nat, m: nat, s: nat)
    requires ':' !in a && ':' !in b && ':' !in c
    requires h < 100 && m < 60 && s < 60
    requires Atoi(a) == Some(h) && Atoi(b) == Some(m) && Atoi(c) == Some(s)
    ensures ParseOffset(a + [':'] + (b + [':'] + c)) == Some(h * 3600 + m * 60 + s)
  {
    SplitThree(a, b, c);
  }

  /** Every HH:MM:SS text up to 99:59:59 is read as its number of seconds. */
  lemma ParseFormatted(h: nat, m: nat, s: nat)
    requires h < 100 && m < 60 && s < 60
    ensures ParseOffset(FormatOffset(h, m, s)) == Some(h * 3600 + m * 60 + s)
  {
    ReadTwoDigits(h);
    ReadTwoDigits(m);
    ReadTwoDigits(s);
    ParseThree(TwoDigits(h), TwoDigits(m), TwoDigits(s), h, m, s);
  }

  // ----- service days -----

  /**
   Service days are numbered.  `zero` is noon minus twelve hours of each day, `key` its
   date as eight digits, `weekday` counts from Monday.
   */
  datatype Days = Days(zero: int -> int, key: int -> string, weekday: int -> int)

  ghost predicate DayLength(days: Days, day: int) {
    23 * HOUR <= days.zero(day + 1) - days.zero(day) <= 25 * HOUR
  }

  /** Clocks change by at most an hour a day, and never between noon and midnight. */
  ghost predicate CivilClock(days: Days) {
    forall day :: DayLength(days, day)
  }

  /** Midnight that ends a day, which noon always precedes by twelve hours. */
  function Midnight(days: Days, day: int): int {
    days.zero(day) + 24 * HOUR
  }

  /** `day` is the civil date of the instant `at`. */
  predicate OnDay(days: Days, day: int, at: int) {
    Midnight(days, day - 1) <= at < Midnight(days, day)
  }

  lemma {:induction false} ZerosApart(days: Days, day: int, n: nat)
    requires CivilClock(days)
    ensures n * 23 * HOUR <= days.zero(day + n) - days.zero(day) <= n * 25 * HOUR
  {
    if n > 0 {
      ZerosApart(days, day, n - 1);
      assert DayLength(days, day + n - 1);
    }
  }

  /** Every instant has exactly one civil date. */
  lemma CivilDateIsUnique(days: Days, at: int, d: int, e: int)
    requires CivilClock(days) && OnDay(days, d, at) && OnDay(days, e, at)
    ensures d == e
  {
    if d < e {
      ZerosApart(days, d, e - 1 - d);
    } else if e < d {
      ZerosApart(days, e, d - 1 - e);
    }
  }

  lemma CivilDateExists(days: Days, at: int) returns (day: int)
    requires CivilClock(days)
    ensures OnDay(days, day, at)
  {
    day := 0;
    while at >= Midnight(days, day)
      decreases at - Midnight(days, day)
    {
      assert DayLength(days, day);
      day := day + 1;
    }
    while at < Midnight(days, day - 1)
      invariant at < Midnight(days, day)
      decreases Midnight(days, day - 1) - at
    {
      assert DayLength(days, day - 2);
      day := day - 1;
    }
  }
}
