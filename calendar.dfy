// The Modified Julian Date conversion of ETSI EN 300 468 Annex C, as
// parseMJD computes it, and the calendar arithmetic of timegm that turns
// the broken-down start and stop times of an event into epoch seconds.
module Calendar {
  import opened Wire

  /** A C cast of a quotient to int: truncation toward zero. */
  function TruncDiv(a: int, b: int): (q: int)
    requires b > 0
    ensures a >= 0 ==> q * b <= a < q * b + b
    ensures a < 0 ==> q * b - b < a <= q * b
  {
    if a >= 0 then a / b else -((-a) / b)
  }

  /** The fields of a struct tm that parseMJD and parseEIT set: year counts
      from 1900 and mon is 0-based. */
  datatype Tm = Tm(year: int, mon: int, mday: int, hour: int, min: int, sec: int)

  /** Year, month and day of Annex C before the January/February correction:
      months run from 4 (March) to 15 (February of the next year). */
  datatype RawDate = RawDate(year: int, month: int, day: int)

  /** The three truncated quotients of Annex C. The floating-point constants
      are exact rationals here: (mjd - 15078.2) / 365.25 is
      (20 mjd - 301564) / 7305, (x - 14956.1) / 30.6001 is
      (10000 x - 149561000) / 306001, and year * 365.25 is 1461 year / 4. */
  function RawMjd(mjd: int): RawDate
  {
    var year := TruncDiv(20 * mjd - 301564, 7305);
    var y := TruncDiv(1461 * year, 4);
    var month := TruncDiv(10000 * (mjd - y) - 149561000, 306001);
    RawDate(year, month, mjd - 14956 - y - TruncDiv(306001 * month, 10000))
  }

  /** parseMJD: months 14 and 15 belong to the next year, as January and February. */
  function ParseMjd(mjd: int): (r: Tm)
    ensures r.hour == 0 && r.min == 0 && r.sec == 0 && r.mday == RawMjd(mjd).day
    ensures 12 * r.year + r.mon + 2 == 12 * RawMjd(mjd).year + RawMjd(mjd).month
    ensures r.year == RawMjd(mjd).year + 1 <==> RawMjd(mjd).month == 14 || RawMjd(mjd).month == 15
  {
    var raw := RawMjd(mjd);
    var i := if raw.month == 14 || raw.month == 15 then 1 else 0;
    Tm(raw.year + i, raw.month - 2 - i * 12, raw.day, 0, 0, 0)
  }

  /** Between 1900-03-01 (MJD 15079) and 2100-02-28 (MJD 88127) the routine
      yields a real calendar date: the raw month is 4..15, the 0-based month
      0..11, the day 1..31, and the month 14/15 correction fires exactly for
      January and February, adding one to the year. */
  lemma ParseMjdRange(mjd: int)
    requires 15079 <= mjd <= 88127
    ensures var raw := RawMjd(mjd); var t := ParseMjd(mjd);
      4 <= raw.month <= 15 && 0 <= t.mon <= 11 && 1 <= t.mday <= 31 && 0 <= t.year <= 200 &&
      (t.mon <= 1 <==> raw.month >= 14) &&
      (raw.month >= 14 ==> t.year == raw.year + 1 && t.mon == raw.month - 14) &&
      (raw.month < 14 ==> t.year == raw.year && t.mon == raw.month - 2)
  {
    var year := TruncDiv(20 * mjd - 301564, 7305);
    assert 7305 * year <= 20 * mjd - 301564 < 7305 * year + 7305;
    assert 0 <= year <= 200;
    var y := TruncDiv(1461 * year, 4);
    assert 4 * y <= 1461 * year < 4 * y + 4;
    assert 15079 <= mjd - y <= 15444;
    var month := TruncDiv(10000 * (mjd - y) - 149561000, 306001);
    assert 306001 * month <= 10000 * (mjd - y) - 149561000 < 306001 * month + 306001;
    assert 4 <= month <= 15;
    var f := TruncDiv(306001 * month, 10000);
    assert 10000 * f <= 306001 * month < 10000 * f + 10000;
    assert RawMjd(mjd) == RawDate(year, month, mjd - 14956 - y - f);
  }

  /** The worked example of Annex C and the epoch. */
  lemma ParseMjdExamples()
    ensures ParseMjd(45218) == Tm(82, 8, 6, 0, 0, 0)
    ensures ParseMjd(40587) == Tm(70, 0, 1, 0, 0, 0)
    ensures ParseMjd(51603) == Tm(100, 1, 29, 0, 0, 0)
  {
    assert RawMjd(45218) == RawDate(82, 10, 6);
    assert RawMjd(40587) == RawDate(69, 14, 1);
    assert RawMjd(51603) == RawDate(99, 15, 29);
  }

  /** Days from 1970-01-01 to a proleptic Gregorian date (month 1..12). */
  function DaysFromCivil(year: int, month: int, day: int): int
    requires 1 <= month <= 12
  {
    var y := if month <= 2 then year - 1 else year;
    var era := y / 400;
    var yoe := y - era * 400;
    var mp := if month > 2 then month - 3 else month + 9;
    var doy := (153 * mp + 2) / 5 + day - 1;
    var doe := yoe * 365 + yoe / 4 - yoe / 100 + doy;
    era * 146097 + doe - 719468
  }

  /** timegm: months outside 0..11 carry into the year, and days, hours,
      minutes and seconds are added linearly, as the C library normalises them. */
  function Timegm(t: Tm): (r: int)
    ensures r % 86400 == (t.hour * 3600 + t.min * 60 + t.sec) % 86400
  {
    var days := DaysFromCivil(1900 + t.year + t.mon / 12, t.mon % 12 + 1, 1) + t.mday - 1;
    days * 86400 + t.hour * 3600 + t.min * 60 + t.sec
  }

  /** Adding a duration to the hour, minute and second fields moves timegm by exactly that many seconds. */
  lemma TimegmAddsDuration(t: Tm, h: int, m: int, s: int)
    ensures Timegm(t.(hour := t.hour + h, min := t.min + m, sec := t.sec + s)) == Timegm(t) + 3600 * h + 60 * m + s
  {
  }

  /** At midnight the calendar date of Annex C and MjdToEpochTime agree:
      at the epoch, on the Annex C example, on a leap day and in 2023. */
  lemma MjdAgreesWithEpoch()
    ensures Timegm(ParseMjd(40587)) == MjdToEpochTime(40587) == 0
    ensures Timegm(ParseMjd(45218)) == MjdToEpochTime(45218)
    ensures Timegm(ParseMjd(51603)) == MjdToEpochTime(51603)
    ensures Timegm(ParseMjd(60000)) == MjdToEpochTime(60000)
  {
    EpochDay();
    AnnexCDay();
    LeapDay();
    Day60000();
    MjdToEpochTimeExact(40587);
    MjdToEpochTimeExact(45218);
    MjdToEpochTimeExact(51603);
    MjdToEpochTimeExact(60000);
  }

  lemma EpochDay() ensures Timegm(ParseMjd(40587)) == 0
  {
    assert TruncDiv(510176, 7305) == 69;
    assert TruncDiv(100809, 4) == 25202;
    assert TruncDiv(4289000, 306001) == 14;
    assert TruncDiv(4284014, 10000) == 428;
    assert RawMjd(40587) == RawDate(69, 14, 1);
    assert ParseMjd(40587) == Tm(70, 0, 1, 0, 0, 0);
    assert DaysFromCivil(1970, 1, 1) == 0;
  }

  lemma AnnexCDay() ensures Timegm(ParseMjd(45218)) == 4631 * 86400
  {
    assert TruncDiv(602796, 7305) == 82;
    assert TruncDiv(119802, 4) == 29950;
    assert TruncDiv(3119000, 306001) == 10;
    assert TruncDiv(3060010, 10000) == 306;
    assert RawMjd(45218) == RawDate(82, 10, 6);
    assert ParseMjd(45218) == Tm(82, 8, 6, 0, 0, 0);
    assert DaysFromCivil(1982, 9, 1) == 4626;
  }

  lemma LeapDay() ensures Timegm(ParseMjd(51603)) == 11016 * 86400
  {
    assert TruncDiv(730496, 7305) == 99;
    assert TruncDiv(144639, 4) == 36159;
    assert TruncDiv(4879000, 306001) == 15;
    assert TruncDiv(4590015, 10000) == 459;
    assert RawMjd(51603) == RawDate(99, 15, 29);
    assert ParseMjd(51603) == Tm(100, 1, 29, 0, 0, 0);
    assert DaysFromCivil(2000, 2, 1) == 10988;
  }

  lemma Day60000() ensures Timegm(ParseMjd(60000)) == 19413 * 86400
  {
    assert TruncDiv(898436, 7305) == 122;
    assert TruncDiv(178242, 4) == 44560;
    assert TruncDiv(4839000, 306001) == 15;
    assert TruncDiv(4590015, 10000) == 459;
    assert RawMjd(60000) == RawDate(122, 15, 25);
    assert ParseMjd(60000) == Tm(123, 1, 25, 0, 0, 0);
    assert DaysFromCivil(2023, 2, 1) == 19389;
  }
}
