/** time.RFC3339Nano text: formatting a UTC instant and parsing section 5.6 of RFC 3339. */
module Timestamps {
  import opened Wrappers
  import opened Events
  import opened Decimal
  import opened Calendar

  /** The end of year 9999, the last the format can express. */
  const END_OF_TIME: Instant := 3_652_425 * 86_400_000_000_000

  function DayOf(t: Instant): int { t / 86_400_000_000_000 }
  function SecondOf(t: Instant): nat { t % 86_400_000_000_000 / 1_000_000_000 }
  function NanoOf(t: Instant): nat { t % 86_400_000_000_000 % 1_000_000_000 }

  function Combine(day: int, seconds: int, nanos: int): Instant {
    day * 86_400_000_000_000 + seconds * 1_000_000_000 + nanos
  }

  // ---- formatting ----

  function Width(n: nat): nat {
    if n < 10 then 1 else 1 + Width(n / 10)
  }

  /** At least four digits, more for later years, and a sign before year 0. */
  function YearText(y: int): string {
    if y < 0 then "-" + Digits(-y, if Width(-y) < 4 then 4 else Width(-y))
    else if y <= 9999 then Digits(y, 4)
    else Digits(y, Width(y))
  }

  /** The fraction with trailing zeros trimmed: `n` in units of 10^-k seconds. */
  function FractionDigits(n: nat, k: nat): string
    decreases k
  {
    if k > 0 && n % 10 == 0 then FractionDigits(n / 10, k - 1) else Digits(n, k)
  }

  function Fraction(nanos: nat): string {
    if nanos == 0 then "" else "." + FractionDigits(nanos, 9)
  }

  function Format(t: Instant): string {
    PartsText(CivilDate(DayOf(t)), SecondOf(t), NanoOf(t))
  }

  function PartsText(date: Date, seconds: nat, nanos: nat): string {
    YearText(date.year) + ("-" + (Digits(date.month, 2) + ("-" + (Digits(date.day, 2) + ("T" +
      ClockText(seconds, Fraction(nanos) + "Z"))))))
  }

  function ClockText(seconds: nat, rest: string): string {
    Digits(seconds / 60 / 60, 2) + (":" + (Digits(seconds / 60 % 60, 2) + (":" + (Digits(seconds % 60, 2) + rest))))
  }

  // ---- parsing ----

  function Expect(s: string, c: char): Option<string> {
    if s != "" && s[0] == c then Some(s[1..]) else None
  }

  function TakeDate(s: string): Option<(Date, string)> {
    var (year, s) :- TakeDigits(s, 4);
    var s :- Expect(s, '-');
    var (month, s) :- TakeDigits(s, 2);
    var s :- Expect(s, '-');
    var (day, s) :- TakeDigits(s, 2);
    if ValidDate(Date(year, month, day)) then Some((Date(year, month, day), s)) else None
  }

  /** Seconds since midnight; leap seconds are refused. */
  function TakeClock(s: string): Option<(int, string)> {
    var (hour, s) :- TakeDigits(s, 2);
    var s :- Expect(s, ':');
    var (minute, s) :- TakeDigits(s, 2);
    var s :- Expect(s, ':');
    var (second, s) :- TakeDigits(s, 2);
    if hour < 24 && minute < 60 && second < 60 then Some((hour * 3600 + minute * 60 + second, s)) else None
  }

  /** `n` shifted left by `k` decimal places. */
  function Scaled(n: int, k: nat): int
    decreases k
  {
    if k == 0 then n else Scaled(10 * n, k - 1)
  }

  /** Nanoseconds from fraction digits; digits past the ninth are dropped. */
  function Nanos(ds: string): int {
    if |ds| >= 9 then Number(ds[..9]) else Scaled(Number(ds), 9 - |ds|)
  }

  /** An optional fraction after '.' or ','. */
  function TakeFraction(s: string): (int, string) {
    if |s| >= 2 && (s[0] == '.' || s[0] == ',') && IsDigit(s[1]) then
      var k := DigitRun(s[1..]);
      (Nanos(s[1..][..k]), s[1..][k..])
    else (0, s)
  }

  /** "Z" or a numeric offset, and nothing after it; the offset in seconds. */
  function TakeZone(s: string): Option<int> {
    if s == "Z" then Some(0)
    else if s != "" && (s[0] == '+' || s[0] == '-') then
      var (hours, rest) :- TakeDigits(s[1..], 2);
      var rest :- Expect(rest, ':');
      var (minutes, rest) :- TakeDigits(rest, 2);
      if rest == "" && hours <= 24 && minutes <= 60 then
        Some((if s[0] == '-' then -1 else 1) * (hours * 3600 + minutes * 60))
      else None
    else None
  }

  function Parse(s: string): Option<Instant> {
    var (date, s) :- TakeDate(s);
    var s :- Expect(s, 'T');
    ParseTime(date, s)
  }

  function ParseTime(date: Date, s: string): Option<Instant> {
    var (seconds, s) :- TakeClock(s);
    var (nanos, s) := TakeFraction(s);
    var offset :- TakeZone(s);
    Some(Combine(DayNumber(date), seconds - offset, nanos))
  }

  // ---- round trip ----

  lemma {:induction false} FractionDigitsRead(n: nat, k: nat)
    requires 0 < n < Pow10(k) && k <= 9
    ensures var ds := FractionDigits(n, k);
      0 < |ds| <= k && AllDigits(ds) && Scaled(Number(ds), 9 - |ds|) == Scaled(n, 9 - k)
    decreases k
  {
    if n % 10 == 0 {
      FractionDigitsRead(n / 10, k - 1);
    } else {
      NumberOfDigits(n, k);
    }
  }

  lemma FractionReads(nanos: nat)
    requires nanos < 1_000_000_000
    ensures TakeFraction(Fraction(nanos) + "Z") == (nanos, "Z")
  {
    assert Pow10(9) == 1_000_000_000 by {
      assert Pow10(5) == 100_000;
    }
    if nanos > 0 {
      FractionDigitsRead(nanos, 9);
      var ds := FractionDigits(nanos, 9);
      var s := Fraction(nanos) + "Z";
      var tail := s[1..];
      assert tail == ds + "Z";
      DigitRunStops(ds, "Z");
      assert DigitRun(tail) == |ds|;
      assert tail[..|ds|] == ds && tail[|ds|..] == "Z";
      assert |ds| == 9 ==> ds[..9] == ds;
      assert s[1] == ds[0] && s[0] == '.';
      assert Nanos(ds) == nanos;
    } else {
      assert Fraction(nanos) + "Z" == "Z";
    }
  }

  lemma ExpectWritten(c: char, rest: string)
    ensures Expect([c] + rest, c) == Some(rest)
  {
  }

  lemma ClockParts(seconds: nat)
    requires seconds < 86400
    ensures var h, m, s := seconds / 3600, seconds / 60 % 60, seconds % 60;
      h < 24 && m < 60 && s < 60 && h * 3600 + m * 60 + s == seconds
  {
    assert seconds / 60 / 60 == seconds / 3600;
  }

  lemma ClockReads(seconds: nat, rest: string)
    requires seconds < 86400
    ensures TakeClock(ClockText(seconds, rest)) == Some((seconds, rest))
  {
    var h, m, s := seconds / 3600, seconds / 60 % 60, seconds % 60;
    assert Pow10(2) == 100;
    var r3 := Digits(s, 2) + rest;
    var r2 := Digits(m, 2) + (":" + r3);
    TakeWritten(h, 2, ":" + r2);
    ExpectWritten(':', r2);
    TakeWritten(m, 2, ":" + r3);
    ExpectWritten(':', r3);
    TakeWritten(s, 2, rest);
    ClockParts(seconds);
  }

  lemma DateReads(d: Date, rest: string)
    requires ValidDate(d) && 0 <= d.year <= 9999
    ensures TakeDate(Digits(d.year, 4) + ("-" + (Digits(d.month, 2) + ("-" + (Digits(d.day, 2) + rest)))))
      == Some((d, rest))
  {
    assert Pow10(2) == 100;
    assert Pow10(4) == 10000;
    var r3 := Digits(d.day, 2) + rest;
    var r2 := Digits(d.month, 2) + ("-" + r3);
    TakeWritten(d.year, 4, "-" + r2);
    ExpectWritten('-', r2);
    TakeWritten(d.month, 2, "-" + r3);
    ExpectWritten('-', r3);
    TakeWritten(d.day, 2, rest);
  }

  lemma DayQuotient(day: int, rest: int)
    requires 0 <= rest < 86_400_000_000_000
    ensures (day * 86_400_000_000_000 + rest) / 86_400_000_000_000 == day
    ensures (day * 86_400_000_000_000 + rest) % 86_400_000_000_000 == rest
  {
  }

  lemma SecondQuotient(second: int, rest: int)
    requires 0 <= rest < 1_000_000_000
    ensures (second * 1_000_000_000 + rest) / 1_000_000_000 == second
    ensures (second * 1_000_000_000 + rest) % 1_000_000_000 == rest
  {
  }

  /** The parts of an instant from its second count. */
  lemma WithinSecond(second: int, n: nat)
    requires n < 1_000_000_000
    ensures var t := second * 1_000_000_000 + n;
      DayOf(t) == second / 86400 && SecondOf(t) == second % 86400 && NanoOf(t) == n
  {
    var day, left := second / 86400, second % 86400;
    var rest := left * 1_000_000_000 + n;
    assert second * 1_000_000_000 + n == day * 86_400_000_000_000 + rest;
    DayQuotient(day, rest);
    SecondQuotient(left, n);
    SecondQuotient(second, n);
  }

  lemma InstantParts(t: Instant)
    ensures SecondOf(t) < 86400 && NanoOf(t) < 1_000_000_000 && t == Combine(DayOf(t), SecondOf(t), NanoOf(t))
  {
    WithinSecond(t / 1_000_000_000, t % 1_000_000_000);
  }

  lemma {:induction false} YearsAscend(a: int, b: int)
    requires a <= b
    ensures DaysBeforeYear(a) <= DaysBeforeYear(b)
    decreases b - a
  {
    if a < b {
      YearLength(a);
      YearsAscend(a + 1, b);
    }
  }

  lemma DayInRange(t: Instant)
    ensures 0 <= DayOf(t) < 3_652_425 <==> 0 <= t < END_OF_TIME
  {
    InstantParts(t);
  }

  /** The years the four-digit format covers. */
  lemma YearInRange(t: Instant)
    ensures 0 <= YearOf(DayOf(t)).0 <= 9999 <==> 0 <= t < END_OF_TIME
  {
    DayInRange(t);
    YearOfDayInRange(DayOf(t));
  }

  lemma YearOfDayInRange(day: int)
    ensures 0 <= YearOf(day).0 <= 9999 <==> 0 <= day < 3_652_425
  {
    var y := YearOf(day).0;
    YearHolds(day);
    YearLength(y);
    assert DaysBeforeYear(0) == 0 && DaysBeforeYear(10000) == 3_652_425;
    if y < 0 {
      YearsAscend(y + 1, 0);
    } else {
      YearsAscend(0, y);
    }
    if y <= 9999 {
      YearsAscend(y + 1, 10000);
    } else {
      YearsAscend(10000, y);
    }
  }

  lemma PartsRead(date: Date, seconds: nat, nanos: nat)
    requires ValidDate(date) && 0 <= date.year <= 9999 && seconds < 86400 && nanos < 1_000_000_000
    ensures Parse(PartsText(date, seconds, nanos)) == Some(Combine(DayNumber(date), seconds, nanos))
  {
    var clock := ClockText(seconds, Fraction(nanos) + "Z");
    DateReads(date, "T" + clock);
    ExpectWritten('T', clock);
    TimeReads(date, seconds, nanos);
  }

  lemma TimeReads(date: Date, seconds: nat, nanos: nat)
    requires seconds < 86400 && nanos < 1_000_000_000
    ensures ParseTime(date, ClockText(seconds, Fraction(nanos) + "Z"))
      == Some(Combine(DayNumber(date), seconds, nanos))
  {
    ClockReads(seconds, Fraction(nanos) + "Z");
    FractionReads(nanos);
  }

  /** Formatting then parsing gives the instant back. */
  lemma FormatParses(t: Instant)
    requires 0 <= t < END_OF_TIME
    ensures Parse(Format(t)) == Some(t)
  {
    YearInRange(t);
    InstantParts(t);
    CivilDateOfDay(DayOf(t));
    PartsRead(CivilDate(DayOf(t)), SecondOf(t), NanoOf(t));
  }

  /** Outside years 0 to 9999 the text does not parse at all. */
  lemma FormatFailsOutside(t: Instant)
    requires !(0 <= t < END_OF_TIME)
    ensures Parse(Format(t)) == None
  {
    YearInRange(t);
    CivilDateOfDay(DayOf(t));
    var y := YearOf(DayOf(t)).0;
    var text := YearText(y);
    var s := Format(t);
    if y < 0 {
      assert s[0] == '-' && !IsDigit(s[..4][0]);
    } else {
      assert |text| > 4 by { WidthOfBig(y); }
      assert s[4] == text[4] && IsDigit(text[4]);
      assert s[4..][0] == s[4];
    }
  }

  lemma WidthOfBig(y: int)
    requires y >= 10000
    ensures Width(y) > 4
  {
    assert Width(y / 10 / 10) == 1 + Width(y / 10 / 10 / 10);
    assert Width(y / 10 / 10 / 10) == 1 + Width(y / 10 / 10 / 10 / 10);
  }

  /** A timestamp survives the trip through its text exactly when its year has four digits. */
  lemma TextRoundTrip(t: Instant)
    ensures Parse(Format(t)) == Some(t) <==> 0 <= t < END_OF_TIME
    ensures Parse(Format(t)).None? <==> !(0 <= t < END_OF_TIME)
  {
    if 0 <= t < END_OF_TIME {
      FormatParses(t);
    } else {
      FormatFailsOutside(t);
    }
  }

  lemma FormatNotEmpty(t: Instant)
    ensures Format(t) != ""
  {
  }

  /** Everything before the fraction. */
  function Head(date: Date, seconds: nat): string {
    YearText(date.year) + ("-" + (Digits(date.month, 2)
      + ("-" + (Digits(date.day, 2) + ("T" + ClockText(seconds, ""))))))
  }

  lemma ClockSplits(seconds: nat, rest: string)
    ensures ClockText(seconds, rest) == ClockText(seconds, "") + rest
  {
  }

  lemma TextSplits(date: Date, seconds: nat, nanos: nat)
    ensures PartsText(date, seconds, nanos) == Head(date, seconds) + (Fraction(nanos) + "Z")
  {
    ClockSplits(seconds, Fraction(nanos) + "Z");
  }

  /** `a` comes strictly before `b` in character order, at a position both have. */
  predicate TextBefore(a: string, b: string) {
    exists k :: 0 <= k < |a| && k < |b| && a[..k] == b[..k] && a[k] < b[k]
  }

  lemma SplitBefore(head: string, a: string, b: string)
    requires a != "" && b != "" && a[0] < b[0]
    ensures TextBefore(head + a, head + b)
  {
    var k := |head|;
    assert (head + a)[..k] == (head + b)[..k];
    assert (head + a)[k] == a[0] && (head + b)[k] == b[0];
  }

  lemma SameSecond(t: Instant, n: nat)
    requires NanoOf(t) == 0 && n < 1_000_000_000
    ensures DayOf(t + n) == DayOf(t) && SecondOf(t + n) == SecondOf(t) && NanoOf(t + n) == n
  {
    var second := t / 1_000_000_000;
    WithinSecond(second, 0);
    WithinSecond(second, n);
  }

  /** Text order is not time order: a later time within the same second has the earlier text, '.' sorting
      before 'Z'. So the cursor must, and does, compare parsed instants. */
  lemma TextOrderDisagrees(t: Instant, n: nat)
    requires NanoOf(t) == 0 && 0 < n < 1_000_000_000
    ensures t < t + n && TextBefore(Format(t + n), Format(t))
  {
    SameSecond(t, n);
    var date, seconds := CivilDate(DayOf(t)), SecondOf(t);
    TextSplits(date, seconds, 0);
    TextSplits(date, seconds, n);
    SplitBefore(Head(date, seconds), Fraction(n) + "Z", Fraction(0) + "Z");
  }
}
