/**
 * Instants of the proleptic Gregorian calendar, counted in seconds from the
 * spreadsheet epoch 1899-12-30 00:00:00 (the day Excel's serial day 0 names).
 * Civil dates are converted with the days-from-civil algorithm over 400-year eras.
 */
module Calendar {
  import opened Text

  const SecondsPerDay: int := 86400

  /** Days from 1899-12-30 to 1970-01-01. */
  const UnixEpochSerial: int := 25569

  /** The day count (from 1899-12-30) of year y, month m (1..12), day d of the proleptic Gregorian calendar. */
  function DaysFromCivil(y: int, m: int, d: int): int {
    var y' := if m <= 2 then y - 1 else y;
    var era := y' / 400;
    var yoe := y' - era * 400;
    var doy := (153 * (if m > 2 then m - 3 else m + 9) + 2) / 5 + d - 1;
    var doe := yoe * 365 + yoe / 4 - yoe / 100 + doy;
    era * 146097 + doe - 719468 + UnixEpochSerial
  }

  /** The year within a 400-year era of the day `doe` of that era (the era starts on a 1 March). */
  function YearOfEra(doe: int): int {
    (doe - doe / 1460 + doe / 36524 - doe / 146096) / 365
  }

  /** The first 365 days of an era belong to its year 0. */
  lemma FirstYearOfEra(doe: int)
    requires 0 <= doe < 365
    ensures YearOfEra(doe) == 0
  {
    assert doe / 1460 == 0 && doe / 36524 == 0 && doe / 146096 == 0;
  }

  /** The (year, month, day) that a day count from 1899-12-30 names. */
  function CivilFromDays(serial: int): (int, int, int) {
    var z := serial - UnixEpochSerial + 719468;
    var era := z / 146097;
    CivilOfEraDay(era, z - era * 146097)
  }

  /** The (year, month, day) of day `doe` of 400-year era `era` (each era starts on a 1 March). */
  function CivilOfEraDay(era: int, doe: int): (int, int, int) {
    var yoe := YearOfEra(doe);
    var y := yoe + era * 400;
    var doy := doe - (365 * yoe + yoe / 4 - yoe / 100);
    var mp := (5 * doy + 2) / 153;
    var d := doy - (153 * mp + 2) / 5 + 1;
    var m := if mp < 10 then mp + 3 else mp - 9;
    (if m <= 2 then y + 1 else y, m, d)
  }

  /** The calendar day of an instant. */
  function DayOf(t: int): int {
    t / SecondsPerDay
  }

  function Two(n: int): string {
    ZeroPad(IntText(n), 2)
  }

  /** str(pd.Timestamp): "YYYY-MM-DD HH:MM:SS". */
  function TimestampText(t: int): string {
    var (y, m, d) := CivilFromDays(DayOf(t));
    var s := t % SecondsPerDay;
    ZeroPad(IntText(y), 4) + "-" + Two(m) + "-" + Two(d) + " "
      + Two(s / 3600) + ":" + Two(s / 60 % 60) + ":" + Two(s % 60)
  }

  /** datetime.strftime("%d/%m/%Y %H:%M"). */
  function ReportStamp(t: int): (r: string)
    ensures '\n' !in r
  {
    var (y, m, d) := CivilFromDays(DayOf(t));
    var s := t % SecondsPerDay;
    Two(d) + "/" + Two(m) + "/" + ZeroPad(IntText(y), 4) + " " + Two(s / 3600) + ":" + Two(s / 60 % 60)
  }

  /** Serial day 44197 is 2021-01-01. */
  lemma Serial44197()
    ensures CivilFromDays(44197) == (2021, 1, 1)
  {
    assert 738096 / 146097 == 5;
    assert CivilFromDays(44197) == CivilOfEraDay(5, 7611);
    assert YearOfEra(7611) == 20 by {
      assert 7611 / 1460 == 5 && 7611 / 36524 == 0 && 7611 / 146096 == 0 && 7606 / 365 == 20;
    }
    assert 1532 / 153 == 10 && 1532 / 5 == 306;
  }

  /** 2021-01-01 is serial day 44197: the conversion agrees in the other direction. */
  lemma Civil20210101()
    ensures DaysFromCivil(2021, 1, 1) == 44197
  {
    assert 2020 / 400 == 5 && 20 / 4 == 5 && 20 / 100 == 0 && 1532 / 5 == 306;
  }

  /** Serial day 0 is the epoch itself, 1899-12-30. */
  lemma EpochDay()
    ensures CivilFromDays(0) == (1899, 12, 30)
  {
    assert 693899 / 146097 == 4 && 109511 / 1460 == 75 && 109511 / 36524 == 2 && 109511 / 146096 == 0;
    assert 109438 / 365 == 299 && 299 / 4 == 74 && 299 / 100 == 2 && 1522 / 153 == 9 && 1379 / 5 == 275;
  }

  /** 1970-01-01 is serial day 25569. */
  lemma UnixEpochDay()
    ensures CivilFromDays(UnixEpochSerial) == (1970, 1, 1)
  {
    assert 719468 / 146097 == 4 && 135080 / 1460 == 92 && 135080 / 36524 == 3 && 135080 / 146096 == 0;
    assert 134991 / 365 == 369 && 369 / 4 == 92 && 369 / 100 == 3 && 1532 / 153 == 10 && 1532 / 5 == 306;
  }

  /** The first day Python's datetime can hold is 0001-01-01. */
  lemma DatetimeFirstDay()
    ensures CivilFromDays(-693593) == (1, 1, 1)
  {
    assert 306 / 146097 == 0;
    assert CivilFromDays(-693593) == CivilOfEraDay(0, 306);
    FirstYearOfEra(306);
    assert 1532 / 153 == 10 && 1532 / 5 == 306;
  }

  /** The day before it is 0000-12-31 of the proleptic calendar. */
  lemma DayBeforeDatetimeFirstDay()
    ensures CivilFromDays(-693594) == (0, 12, 31)
  {
    assert 305 / 146097 == 0;
    assert CivilFromDays(-693594) == CivilOfEraDay(0, 305);
    FirstYearOfEra(305);
    assert 1527 / 153 == 9 && 1379 / 5 == 275;
  }

  /** The last day Python's datetime can hold is 9999-12-31. */
  lemma DatetimeLastDay()
    ensures CivilFromDays(2958465) == (9999, 12, 31)
  {
    assert 3652364 / 146097 == 24 && 146036 / 1460 == 100 && 146036 / 36524 == 3 && 146036 / 146096 == 0;
    assert 145939 / 365 == 399 && 399 / 4 == 99 && 399 / 100 == 3 && 1527 / 153 == 9 && 1379 / 5 == 275;
  }

  /** The day after it is 10000-01-01. */
  lemma DayAfterDatetimeLastDay()
    ensures CivilFromDays(2958466) == (10000, 1, 1)
  {
    assert 3652365 / 146097 == 24 && 146037 / 1460 == 100 && 146037 / 36524 == 3 && 146037 / 146096 == 0;
    assert 145940 / 365 == 399 && 1532 / 153 == 10 && 1532 / 5 == 306;
  }
}
