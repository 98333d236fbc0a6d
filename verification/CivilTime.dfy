/** What a timestamp text says: the civil calendar by table and closed formula, and the text read digit by
    digit, independently of how it is written and parsed. */
module CivilTime {
  import opened Wrappers
  import opened Events
  import opened Decimal
  import opened Calendar
  import opened Timestamps

  // ---- the calendar ----

  /** The days of a month. */
  function MonthDays(y: int, m: nat): nat
    requires 1 <= m <= 12
  {
    if m == 2 && y % 4 == 0 && (y % 100 != 0 || y % 400 == 0) then 29
    else [31, 28, 31, 30, 31, 30, 31, 31, 30, 31, 30, 31][m - 1]
  }

  /** Days since 0000-01-01, in closed form: years are counted from March, whose start is day 60 of year 0. */
  function DaysFromCivil(y: int, m: nat, d: nat): int {
    var marchYear := if m <= 2 then y - 1 else y;
    var month := (m + 9) % 12;
    365 * marchYear + marchYear / 4 - marchYear / 100 + marchYear / 400 + (153 * month + 2) / 5 + d - 1 + 60
  }

  /** A date is valid exactly if its day is in the month's table. */
  lemma ValidByTable(y: int, m: nat, d: nat)
    ensures ValidDate(Date(y, m, d)) <==> 1 <= m <= 12 && 1 <= d <= MonthDays(y, m)
  {
  }

  /** 1 in a leap year. */
  function LeapDay(y: int): nat {
    if y % 4 == 0 && (y % 100 != 0 || y % 400 == 0) then 1 else 0
  }

  lemma DaysBefore(y: int)
    ensures DaysBeforeMonth(y, 1) == 0 && DaysBeforeMonth(y, 2) == 31 && DaysBeforeMonth(y, 3) == 59 + LeapDay(y)
    ensures DaysBeforeMonth(y, 4) == 90 + LeapDay(y) && DaysBeforeMonth(y, 5) == 120 + LeapDay(y)
    ensures DaysBeforeMonth(y, 6) == 151 + LeapDay(y) && DaysBeforeMonth(y, 7) == 181 + LeapDay(y)
    ensures DaysBeforeMonth(y, 8) == 212 + LeapDay(y) && DaysBeforeMonth(y, 9) == 243 + LeapDay(y)
    ensures DaysBeforeMonth(y, 10) == 273 + LeapDay(y) && DaysBeforeMonth(y, 11) == 304 + LeapDay(y)
    ensures DaysBeforeMonth(y, 12) == 334 + LeapDay(y)
  {
    assert DaysBeforeMonth(y, 2) == 31;
    assert DaysBeforeMonth(y, 3) == 59 + LeapDay(y);
    assert DaysBeforeMonth(y, 4) == 90 + LeapDay(y);
    assert DaysBeforeMonth(y, 5) == 120 + LeapDay(y);
    assert DaysBeforeMonth(y, 6) == 151 + LeapDay(y);
    assert DaysBeforeMonth(y, 7) == 181 + LeapDay(y);
    assert DaysBeforeMonth(y, 8) == 212 + LeapDay(y);
    assert DaysBeforeMonth(y, 9) == 243 + LeapDay(y);
    assert DaysBeforeMonth(y, 10) == 273 + LeapDay(y);
    assert DaysBeforeMonth(y, 11) == 304 + LeapDay(y);
  }

  /** The months from March on, in closed form. */
  lemma MonthsFromMarch(y: int, m: nat)
    requires 3 <= m <= 12
    ensures DaysBeforeMonth(y, m) == 59 + LeapDay(y) + (153 * (m - 3) + 2) / 5
  {
    DaysBefore(y);
  }

  lemma YearFromMarch(y: int)
    ensures DaysBeforeYear(y) + LeapDay(y) == 365 * y + y / 4 - y / 100 + y / 400 + 1
  {
    YearLength(y);
    ShiftedYear(y + 1);
  }

  lemma ShiftedYear(y: int)
    ensures DaysBeforeYear(y) == 365 * (y - 1) + (y - 1) / 4 - (y - 1) / 100 + (y - 1) / 400 + 366
  {
    var x := y - 1;
    assert (x + 4) / 4 == x / 4 + 1;
    assert (x + 100) / 100 == x / 100 + 1;
    assert (x + 400) / 400 == x / 400 + 1;
  }

  lemma EarlyMonth(y: int, m: nat, d: nat)
    requires 1 <= m <= 2
    ensures DayNumber(Date(y, m, d)) == DaysFromCivil(y, m, d)
  {
    DaysBefore(y);
    ShiftedYear(y);
    assert (m + 9) % 12 == m + 9;
    assert (153 * (m + 9) + 2) / 5 == if m == 1 then 306 else 337;
  }

  lemma LateMonth(y: int, m: nat, d: nat)
    requires 3 <= m <= 12
    ensures DayNumber(Date(y, m, d)) == DaysFromCivil(y, m, d)
  {
    MonthsFromMarch(y, m);
    YearFromMarch(y);
    assert (m + 9) % 12 == m - 3;
  }

  /** The day number of a date is the closed formula's. */
  lemma DayNumberIsCivil(y: int, m: nat, d: nat)
    requires 1 <= m <= 12
    ensures DayNumber(Date(y, m, d)) == DaysFromCivil(y, m, d)
  {
    if m <= 2 {
      EarlyMonth(y, m, d);
    } else {
      LateMonth(y, m, d);
    }
  }

  // ---- the text ----

  /** The value of two digits, and of four. */
  function Two(s: string, i: nat): int
    requires i + 2 <= |s|
  {
    10 * (s[i] as int - 48) + (s[i + 1] as int - 48)
  }

  function Four(s: string): int
    requires 4 <= |s|
  {
    1000 * (s[0] as int - 48) + 100 * (s[1] as int - 48) + Two(s, 2)
  }

  predicate Digital(c: char) {
    '0' <= c <= '9'
  }

  /** YYYY-MM-DDThh:mm:ss */
  predicate Shaped(s: string) {
    && |s| == 19 && s[4] == '-' && s[7] == '-' && s[10] == 'T' && s[13] == ':' && s[16] == ':'
    && Digital(s[0]) && Digital(s[1]) && Digital(s[2]) && Digital(s[3]) && Digital(s[5]) && Digital(s[6])
    && Digital(s[8]) && Digital(s[9]) && Digital(s[11]) && Digital(s[12]) && Digital(s[14]) && Digital(s[15])
    && Digital(s[17]) && Digital(s[18])
  }

  predicate ProperDate(s: string)
    requires Shaped(s)
  {
    1 <= Two(s, 5) <= 12 && 1 <= Two(s, 8) <= MonthDays(Four(s), Two(s, 5))
  }

  predicate ProperClock(s: string)
    requires Shaped(s)
  {
    Two(s, 11) < 24 && Two(s, 14) < 60 && Two(s, 17) < 60
  }

  function DateIn(s: string): Date
    requires Shaped(s)
  {
    Date(Four(s), Two(s, 5), Two(s, 8))
  }

  function ClockIn(s: string): int
    requires Shaped(s)
  {
    Two(s, 11) * 3600 + Two(s, 14) * 60 + Two(s, 17)
  }

  /** Its fields are those of a day and a time of day. */
  predicate Proper(s: string)
    requires Shaped(s)
  {
    ProperDate(s) && ProperClock(s)
  }

  /** Seconds since 0000-01-01T00:00:00. */
  function SecondsOf(s: string): int
    requires Shaped(s)
  {
    DaysFromCivil(Four(s), Two(s, 5), Two(s, 8)) * 86400 + ClockIn(s)
  }

  /** The nanoseconds one fraction digit is worth, from the first on; later ones are worth nothing. */
  function Place(i: nat): int {
    if i < 9 then [100_000_000, 10_000_000, 1_000_000, 100_000, 10_000, 1_000, 100, 10, 1][i] else 0
  }

  function FractionValue(ds: string): int {
    if ds == "" then 0
    else FractionValue(ds[..|ds| - 1]) + (ds[|ds| - 1] as int - 48) * Place(|ds| - 1)
  }

  /** A point or a comma, and digits; or nothing. */
  predicate IsFraction(f: string) {
    f == "" || (|f| >= 2 && (f[0] == '.' || f[0] == ',') && forall i :: 1 <= i < |f| ==> Digital(f[i]))
  }

  function NanosOf(f: string): int
    requires IsFraction(f)
  {
    if f == "" then 0 else FractionValue(f[1..])
  }

  /** "Z", or a sign and hh:mm. */
  predicate IsZone(z: string) {
    z == "Z" ||
    (|z| == 6 && (z[0] == '+' || z[0] == '-') && z[3] == ':' && Digital(z[1]) && Digital(z[2]) && Digital(z[4])
      && Digital(z[5]))
  }

  predicate ProperZone(z: string)
    requires IsZone(z)
  {
    z == "Z" || (Two(z, 1) <= 24 && Two(z, 4) <= 60)
  }

  /** Seconds east of Greenwich. */
  function OffsetOf(z: string): int
    requires IsZone(z)
  {
    if z == "Z" then 0
    else if z[0] == '-' then -(Two(z, 1) * 3600 + Two(z, 4) * 60)
    else Two(z, 1) * 3600 + Two(z, 4) * 60
  }

  /** The instant in nanoseconds since 0000-01-01T00:00:00Z. */
  function InstantIn(s: string, f: string, z: string): Instant
    requires Shaped(s) && IsFraction(f) && IsZone(z)
  {
    (SecondsOf(s) - OffsetOf(z)) * 1_000_000_000 + NanosOf(f)
  }

  // ---- reading it ----

  lemma TwoIsNumber(s: string, i: nat)
    requires i + 2 <= |s| && Digital(s[i]) && Digital(s[i + 1])
    ensures AllDigits(s[i..i + 2]) && Number(s[i..i + 2]) == Two(s, i)
  {
    var t := s[i..i + 2];
    assert t[..1] == [s[i]] && [s[i]][..0] == [];
    assert Number([s[i]]) == 10 * Number([]) + DigitValue(s[i]);
  }

  lemma FourIsNumber(s: string)
    requires |s| >= 4 && Digital(s[0]) && Digital(s[1]) && Digital(s[2]) && Digital(s[3])
    ensures AllDigits(s[..4]) && Number(s[..4]) == Four(s)
  {
    var t := s[..4];
    TwoIsNumber(s, 0);
    assert t[..3] == s[..3] && s[..3][..2] == s[0..2];
    assert Number(s[..3]) == 10 * Number(s[0..2]) + DigitValue(s[2]);
  }

  lemma DateOfText(s: string, tail: string)
    requires Shaped(s)
    ensures TakeDate(s + tail) ==
      if 1 <= Two(s, 5) <= 12 && 1 <= Two(s, 8) <= MonthDays(Four(s), Two(s, 5))
      then Some((Date(Four(s), Two(s, 5), Two(s, 8)), s[10..] + tail)) else None
  {
    var text := s + tail;
    FourIsNumber(s);
    TwoIsNumber(s, 5);
    TwoIsNumber(s, 8);
    assert text[..4] == s[..4];
    var r1 := text[4..];
    assert Expect(r1, '-') == Some(text[5..]);
    var r2 := text[5..];
    assert r2[..2] == s[5..7] && r2[2..] == text[7..];
    var r3 := text[8..];
    assert text[7..][1..] == r3;
    assert r3[..2] == s[8..10] && r3[2..] == s[10..] + tail;
    ValidByTable(Four(s), Two(s, 5), Two(s, 8));
  }

  lemma ClockOfText(s: string, tail: string)
    requires Shaped(s)
    ensures TakeClock(s[11..] + tail) ==
      if Two(s, 11) < 24 && Two(s, 14) < 60 && Two(s, 17) < 60
      then Some((Two(s, 11) * 3600 + Two(s, 14) * 60 + Two(s, 17), tail)) else None
  {
    var text := s[11..] + tail;
    TwoIsNumber(s, 11);
    TwoIsNumber(s, 14);
    TwoIsNumber(s, 17);
    assert text[..2] == s[11..13];
    assert text[2..][0] == ':' && text[2..][1..] == text[3..];
    var r2 := text[3..];
    assert r2[..2] == s[14..16] && r2[2..] == text[5..];
    assert text[5..][0] == ':' && text[5..][1..] == text[6..];
    var r3 := text[6..];
    assert r3[..2] == s[17..19] && r3[2..] == tail;
  }

  lemma {:induction false} ScaledIsProduct(n: int, k: nat)
    ensures Scaled(n, k) == n * Pow10(k)
    decreases k
  {
    if k > 0 {
      ScaledIsProduct(10 * n, k - 1);
      assert 10 * n * Pow10(k - 1) == n * (10 * Pow10(k - 1));
    }
  }

  lemma PlaceIsPower(i: nat)
    requires i < 9
    ensures Place(i) == Pow10(8 - i)
  {
    assert Pow10(0) == 1 && Pow10(1) == 10 && Pow10(2) == 100 && Pow10(3) == 1000;
    assert Pow10(4) == 10000;
    assert Pow10(5) == 100000;
    assert Pow10(6) == 1000000;
    assert Pow10(7) == 10000000;
    assert Pow10(8) == 100000000;
  }

  lemma {:induction false} FractionOfDigits(ds: string)
    requires AllDigits(ds) && |ds| <= 9
    ensures FractionValue(ds) == Scaled(Number(ds), 9 - |ds|)
  {
    if ds == "" {
      ScaledIsProduct(0, 9);
    } else {
      var n := |ds| - 1;
      var front, last := ds[..n], DigitValue(ds[n]);
      FractionOfDigits(front);
      PlaceIsPower(n);
      ScaledIsProduct(Number(ds), 8 - n);
      ScaledIsProduct(10 * Number(front), 8 - n);
      assert (10 * Number(front) + last) * Pow10(8 - n) == 10 * Number(front) * Pow10(8 - n) + last * Pow10(8 - n);
    }
  }

  lemma {:induction false} FractionIsNanos(ds: string)
    requires AllDigits(ds)
    ensures FractionValue(ds) == Nanos(ds)
  {
    if |ds| <= 9 {
      FractionOfDigits(ds);
      assert |ds| == 9 ==> ds[..9] == ds;
    } else {
      var front := ds[..|ds| - 1];
      FractionIsNanos(front);
      assert front[..9] == ds[..9];
    }
  }

  lemma FractionOfText(f: string, z: string)
    requires IsFraction(f) && IsZone(z)
    ensures TakeFraction(f + z) == (NanosOf(f), z)
  {
    if f == "" {
      assert f + z == z;
    } else {
      var ds := f[1..];
      assert forall i :: 0 <= i < |ds| ==> ds[i] == f[i + 1];
      assert (f + z)[1..] == ds + z;
      DigitRunStops(ds, z);
      assert (ds + z)[..|ds|] == ds && (ds + z)[|ds|..] == z;
      FractionIsNanos(ds);
    }
  }

  lemma ZoneOfText(z: string)
    requires IsZone(z)
    ensures TakeZone(z) == if ProperZone(z) then Some(OffsetOf(z)) else None
  {
    if z != "Z" {
      TwoIsNumber(z, 1);
      TwoIsNumber(z, 4);
      var r1 := z[1..];
      assert r1[..2] == z[1..3] && r1[2..] == z[3..];
      assert z[3..][1..] == z[4..];
      assert z[4..][..2] == z[4..6] && z[4..][2..] == "";
    }
  }

  lemma TimeParts(d: Date, rest: string, seconds: int, tail: string, nanos: int, z: string, offset: int)
    requires TakeClock(rest) == Some((seconds, tail)) && TakeFraction(tail) == (nanos, z) && TakeZone(z) == Some(offset)
    ensures ParseTime(d, rest) == Some(Combine(DayNumber(d), seconds - offset, nanos))
  {
  }

  lemma NoTime(d: Date, rest: string, seconds: int, tail: string, nanos: int, z: string)
    requires TakeClock(rest).None?
      || (TakeClock(rest) == Some((seconds, tail)) && TakeFraction(tail) == (nanos, z) && TakeZone(z).None?)
    ensures ParseTime(d, rest).None?
  {
  }

  lemma TimeStarts(text: string, d: Date, rest: string)
    requires TakeDate(text) == Some((d, ['T'] + rest))
    ensures Parse(text) == ParseTime(d, rest)
  {
    assert (['T'] + rest)[1..] == rest;
  }

  lemma NoDate(text: string)
    requires TakeDate(text).None?
    ensures Parse(text).None?
  {
  }

  lemma CombineIsSum(day: int, seconds: int, offset: int, nanos: int)
    ensures Combine(day, seconds - offset, nanos) == (day * 86400 + seconds - offset) * 1_000_000_000 + nanos
  {
  }

  /** A timestamp text means what its digits say: the civil date's day by the closed formula, the time of day,
      the fraction to the nanosecond, and the offset taken off. */
  lemma ParseReads(s: string, f: string, z: string)
    requires Shaped(s) && IsFraction(f) && IsZone(z) && Proper(s) && ProperZone(z)
    ensures Parse(s + (f + z)) == Some(InstantIn(s, f, z))
  {
    ProperReads(s, f, z);
    InstantParsed(s, f, z);
  }

  lemma InstantParsed(s: string, f: string, z: string)
    requires Shaped(s) && IsFraction(f) && IsZone(z) && ProperDate(s)
    ensures ParsedTime(DateIn(s), s, f, z) == InstantIn(s, f, z)
  {
    InstantOf(s, OffsetOf(z), NanosOf(f));
  }

  lemma ProperReads(s: string, f: string, z: string)
    requires Shaped(s) && IsFraction(f) && IsZone(z) && Proper(s) && ProperZone(z)
    ensures Parse(s + (f + z)) == Some(ParsedTime(DateIn(s), s, f, z))
  {
    DateTaken(s, f + z);
    TimeStarts(s + (f + z), DateIn(s), s[11..] + (f + z));
    ProperTime(DateIn(s), s, f, z);
  }

  /** What the parser combines. */
  function ParsedTime(d: Date, s: string, f: string, z: string): Instant
    requires Shaped(s) && IsFraction(f) && IsZone(z)
  {
    Combine(DayNumber(d), ClockIn(s) - OffsetOf(z), NanosOf(f))
  }

  lemma ProperTime(d: Date, s: string, f: string, z: string)
    requires Shaped(s) && IsFraction(f) && IsZone(z) && ProperClock(s) && ProperZone(z)
    ensures ParseTime(d, s[11..] + (f + z)) == Some(ParsedTime(d, s, f, z))
  {
    TailReads(f, z);
    ClockTaken(s, f + z);
    TimeTaken(d, s, f, z, s[11..] + (f + z), f + z);
  }

  lemma TimeTaken(d: Date, s: string, f: string, z: string, rest: string, tail: string)
    requires Shaped(s) && IsFraction(f) && IsZone(z)
    requires TakeClock(rest) == Some((ClockIn(s), tail))
    requires TakeFraction(tail) == (NanosOf(f), z) && TakeZone(z) == Some(OffsetOf(z))
    ensures ParseTime(d, rest) == Some(ParsedTime(d, s, f, z))
  {
    TimeParts(d, rest, ClockIn(s), tail, NanosOf(f), z, OffsetOf(z));
  }

  lemma TailReads(f: string, z: string)
    requires IsFraction(f) && IsZone(z) && ProperZone(z)
    ensures TakeFraction(f + z) == (NanosOf(f), z) && TakeZone(z) == Some(OffsetOf(z))
  {
    FractionOfText(f, z);
    ZoneOfText(z);
  }

  /** ... and it is refused if a field is out of range. */
  lemma ParseRefuses(s: string, f: string, z: string)
    requires Shaped(s) && IsFraction(f) && IsZone(z) && !(Proper(s) && ProperZone(z))
    ensures Parse(s + (f + z)).None?
  {
    DateTaken(s, f + z);
    if ProperDate(s) {
      TimeStarts(s + (f + z), DateIn(s), s[11..] + (f + z));
      ImproperTime(DateIn(s), s, f, z);
    } else {
      NoDate(s + (f + z));
    }
  }

  lemma ImproperTime(d: Date, s: string, f: string, z: string)
    requires Shaped(s) && IsFraction(f) && IsZone(z) && !(ProperClock(s) && ProperZone(z))
    ensures ParseTime(d, s[11..] + (f + z)).None?
  {
    ClockTaken(s, f + z);
    FractionOfText(f, z);
    ZoneOfText(z);
    NoTime(d, s[11..] + (f + z), ClockIn(s), f + z, NanosOf(f), z);
  }

  lemma InstantOf(s: string, offset: int, nanos: int)
    requires Shaped(s) && ProperDate(s)
    ensures Combine(DayNumber(DateIn(s)), ClockIn(s) - offset, nanos) == (SecondsOf(s) - offset) * 1_000_000_000 + nanos
  {
    DayNumberIsCivil(Four(s), Two(s, 5), Two(s, 8));
    CombineIsSum(DayNumber(DateIn(s)), ClockIn(s), offset, nanos);
  }

  lemma DateTaken(s: string, tail: string)
    requires Shaped(s)
    ensures TakeDate(s + tail) == if ProperDate(s) then Some((DateIn(s), ['T'] + (s[11..] + tail))) else None
  {
    DateOfText(s, tail);
    assert s[10..] + tail == ['T'] + (s[11..] + tail);
  }

  lemma ClockTaken(s: string, tail: string)
    requires Shaped(s)
    ensures TakeClock(s[11..] + tail) == if ProperClock(s) then Some((ClockIn(s), tail)) else None
  {
    ClockOfText(s, tail);
  }

  lemma UtcReads(s: string)
    requires Shaped(s) && Proper(s)
    ensures Parse(s + "Z") == Some(SecondsOf(s) * 1_000_000_000)
  {
    Utc("", "Z");
    ParseReads(s, "", "Z");
    assert InstantIn(s, "", "Z") == SecondsOf(s) * 1_000_000_000;
  }

  lemma Utc(f: string, z: string)
    requires f == "" && z == "Z"
    ensures IsFraction(f) && NanosOf(f) == 0 && IsZone(z) && ProperZone(z) && OffsetOf(z) == 0 && f + z == z
  {
  }

  /** Go's zero time and the end of the format, as texts. */
  lemma Landmarks()
    ensures Parse("0001-01-01T00:00:00" + "Z") == Some(ZERO_TIME)
    ensures Parse("9999-12-31T23:59:59" + "Z") == Some(END_OF_TIME - 1_000_000_000)
  {
    ZeroTimeText("0001-01-01T00:00:00");
    LastSecondText("9999-12-31T23:59:59");
  }

  lemma FieldsSum(s: string, y: int, m: nat, d: nat, hour: int, minute: int, second: int)
    requires Shaped(s) && Proper(s)
    requires Four(s) == y && Two(s, 5) == m && Two(s, 8) == d
    requires Two(s, 11) == hour && Two(s, 14) == minute && Two(s, 17) == second
    ensures SecondsOf(s) == DaysFromCivil(y, m, d) * 86400 + hour * 3600 + minute * 60 + second
  {
  }

  lemma ZeroTimeText(s: string)
    requires s == "0001-01-01T00:00:00"
    ensures Parse(s + "Z") == Some(ZERO_TIME)
  {
    assert DaysFromCivil(1, 1, 1) == 366;
    FieldsSum(s, 1, 1, 1, 0, 0, 0);
    UtcReads(s);
  }

  lemma LastSecondText(s: string)
    requires s == "9999-12-31T23:59:59"
    ensures Parse(s + "Z") == Some(END_OF_TIME - 1_000_000_000)
  {
    assert DaysFromCivil(9999, 12, 31) == 3_652_424;
    FieldsSum(s, 9999, 12, 31, 23, 59, 59);
    UtcReads(s);
  }

  // ---- nothing else parses ----

  lemma DateSplits(s: string)
    requires TakeDate(s).Some? && TakeDate(s).value.1 != "" && TakeDate(s).value.1[0] == 'T'
    ensures |s| >= 11 && TakeDate(s).value.1 == s[10..]
    ensures s[4] == '-' && s[7] == '-' && s[10] == 'T'
    ensures Digital(s[0]) && Digital(s[1]) && Digital(s[2]) && Digital(s[3])
    ensures Digital(s[5]) && Digital(s[6]) && Digital(s[8]) && Digital(s[9])
  {
    var year := s[..4];
    assert AllDigits(year) && year[0] == s[0] && year[1] == s[1] && year[2] == s[2] && year[3] == s[3];
    var r1 := s[5..];
    assert s[4..][0] == '-' && s[4..][1..] == r1;
    var month := r1[..2];
    assert AllDigits(month) && month[0] == s[5] && month[1] == s[6];
    assert r1[2..][0] == s[7] && r1[2..][1..] == s[8..];
    var day := s[8..][..2];
    assert AllDigits(day) && day[0] == s[8] && day[1] == s[9];
    assert s[8..][2..] == s[10..];
  }

  lemma ClockSplit(s: string)
    requires TakeClock(s).Some?
    ensures |s| >= 8 && TakeClock(s).value.1 == s[8..] && s[2] == ':' && s[5] == ':'
    ensures Digital(s[0]) && Digital(s[1]) && Digital(s[3]) && Digital(s[4]) && Digital(s[6]) && Digital(s[7])
  {
    var hour := s[..2];
    assert AllDigits(hour) && hour[0] == s[0] && hour[1] == s[1];
    assert s[2..][0] == s[2] && s[2..][1..] == s[3..];
    var minute := s[3..][..2];
    assert AllDigits(minute) && minute[0] == s[3] && minute[1] == s[4];
    assert s[3..][2..][0] == s[5] && s[3..][2..][1..] == s[6..];
    var second := s[6..][..2];
    assert AllDigits(second) && second[0] == s[6] && second[1] == s[7];
    assert s[6..][2..] == s[8..];
  }

  lemma TailSplits(tail: string) returns (f: string, z: string)
    requires TakeZone(TakeFraction(tail).1).Some?
    ensures IsFraction(f) && IsZone(z) && tail == f + z
  {
    z := TakeFraction(tail).1;
    if |tail| >= 2 && (tail[0] == '.' || tail[0] == ',') && IsDigit(tail[1]) {
      var k := DigitRun(tail[1..]);
      f := tail[..1 + k];
      assert AllDigits(tail[1..][..k]);
      assert forall i :: 1 <= i < |f| ==> f[i] == tail[1..][..k][i - 1];
      assert z == tail[1 + k..];
    } else {
      f := "";
    }
    ZoneShaped(z);
  }

  lemma ZoneShaped(z: string)
    requires TakeZone(z).Some?
    ensures IsZone(z)
  {
    if z != "Z" {
      var hours := z[1..][..2];
      assert AllDigits(hours) && hours[0] == z[1] && hours[1] == z[2];
      assert z[1..][2..][0] == z[3] && z[1..][2..][1..] == z[4..];
      var minutes := z[4..][..2];
      assert AllDigits(minutes) && minutes[0] == z[4] && minutes[1] == z[5];
      assert z[4..][2..] == z[6..];
    }
  }

  /** Whatever parses is a date and time of that shape, a fraction and a zone. */
  lemma OnlyTimestampsParse(text: string) returns (s: string, f: string, z: string)
    requires Parse(text).Some?
    ensures Shaped(s) && IsFraction(f) && IsZone(z) && text == s + (f + z) && Proper(s) && ProperZone(z)
  {
    DateSplits(text);
    var rest := text[11..];
    assert text[10..][1..] == rest;
    ClockSplit(rest);
    s := text[..19];
    assert forall i :: 11 <= i < 19 ==> s[i] == rest[i - 11];
    assert rest[8..] == text[19..];
    f, z := TailSplits(text[19..]);
    assert text == s + (f + z);
    if !(Proper(s) && ProperZone(z)) {
      ParseRefuses(s, f, z);
      assert false;
    }
  }

  // ---- writing it ----

  lemma HeadShaped(d: Date, seconds: nat)
    requires ValidDate(d) && 0 <= d.year <= 9999
    ensures Shaped(Head(d, seconds))
  {
    var clock := ClockText(seconds, "");
    assert |clock| == 8 && clock[2] == ':' && clock[5] == ':';
    assert IsDigit(clock[0]) && IsDigit(clock[1]) && IsDigit(clock[3]) && IsDigit(clock[4]);
    assert IsDigit(clock[6]) && IsDigit(clock[7]);
    var s := Head(d, seconds);
    assert s[10] == 'T' && s[11..] == clock;
    assert forall i :: 11 <= i < 19 ==> s[i] == clock[i - 11];
  }

  /** What a text of a time in UTC says of it: its second in the first nineteen characters, then its fraction,
      if any, to the last digit that is not zero. */
  predicate Writes(s: string, second: int, nanos: int) {
    && |s| >= 20 && Shaped(s[..19]) && Proper(s[..19]) && SecondsOf(s[..19]) == second
    && (nanos == 0 ==> s[19..] == "Z")
    && (nanos != 0 ==> WritesFraction(s[19..], nanos))
  }

  predicate WritesFraction(tail: string, nanos: int) {
    && 3 <= |tail| <= 11 && tail[|tail| - 1] == 'Z'
    && var f := tail[..|tail| - 1];
       IsFraction(f) && f[0] == '.' && f[|f| - 1] != '0' && NanosOf(f) == nanos
  }

  /** A time is written with the digits of its civil date and time of day, and its trimmed fraction. */
  lemma FormatWrites(t: Instant)
    requires 0 <= t < END_OF_TIME
    ensures Writes(Format(t), t / 1_000_000_000, t % 1_000_000_000)
  {
    var second, nanos := t / 1_000_000_000, t % 1_000_000_000;
    CivilDateOfDay(DayOf(t));
    YearInRange(t);
    WithinSecond(second, nanos);
    PartsWritten(CivilDate(DayOf(t)), SecondOf(t), NanoOf(t));
  }

  lemma PartsWritten(d: Date, seconds: nat, nanos: nat)
    requires ValidDate(d) && 0 <= d.year <= 9999 && seconds < 86400 && nanos < 1_000_000_000
    ensures Writes(PartsText(d, seconds, nanos), DayNumber(d) * 86400 + seconds, nanos)
  {
    var head, tail := Head(d, seconds), Fraction(nanos) + "Z";
    TextSplits(d, seconds, nanos);
    HeadReads(d, seconds);
    var s := PartsText(d, seconds, nanos);
    assert s[..19] == head && s[19..] == tail;
    if nanos != 0 {
      TrimmedFraction(nanos);
      assert tail[..|tail| - 1] == Fraction(nanos);
    }
  }

  lemma HeadParses(d: Date, seconds: nat)
    requires ValidDate(d) && 0 <= d.year <= 9999 && seconds < 86400
    ensures Parse(Head(d, seconds) + "Z") == Some(Combine(DayNumber(d), seconds, 0))
  {
    PartsRead(d, seconds, 0);
    TextSplits(d, seconds, 0);
    assert Fraction(0) + "Z" == "Z";
  }

  /** A text that parses has its fields in range. */
  lemma UtcIsProper(s: string)
    requires Shaped(s) && Parse(s + "Z").Some?
    ensures Proper(s)
  {
    Utc("", "Z");
    if !Proper(s) {
      ParseRefuses(s, "", "Z");
      assert false;
    }
  }

  lemma HeadReads(d: Date, seconds: nat)
    requires ValidDate(d) && 0 <= d.year <= 9999 && seconds < 86400
    ensures var s := Head(d, seconds); Shaped(s) && Proper(s) && SecondsOf(s) == DayNumber(d) * 86400 + seconds
  {
    HeadShaped(d, seconds);
    HeadParses(d, seconds);
    TextReads(Head(d, seconds), DayNumber(d), seconds);
  }

  lemma TextReads(s: string, day: int, seconds: int)
    requires Shaped(s) && Parse(s + "Z") == Some(Combine(day, seconds, 0))
    ensures Proper(s) && SecondsOf(s) == day * 86400 + seconds
  {
    UtcIsProper(s);
    UtcReads(s);
    CombineIsSum(day, seconds, 0, 0);
  }

  lemma TrimmedFraction(nanos: nat)
    requires 0 < nanos < 1_000_000_000
    ensures var f := Fraction(nanos);
      IsFraction(f) && 2 <= |f| <= 10 && f[0] == '.' && f[|f| - 1] != '0' && NanosOf(f) == nanos
  {
    PlaceIsPower(0);
    assert Pow10(9) == 1_000_000_000;
    FractionDigitsRead(nanos, 9);
    var ds := FractionDigits(nanos, 9);
    LastDigitCounts(nanos, 9);
    FractionOfDigits(ds);
    var f := Fraction(nanos);
    assert f[1..] == ds;
    assert forall i :: 1 <= i < |f| ==> f[i] == ds[i - 1];
  }

  lemma {:induction false} LastDigitCounts(n: nat, k: nat)
    requires 0 < n < Pow10(k)
    ensures var ds := FractionDigits(n, k); ds != "" && ds[|ds| - 1] != '0'
    decreases k
  {
    if n % 10 == 0 {
      LastDigitCounts(n / 10, k - 1);
    }
  }
}
