/** Timestamps of the account service (src/auth-client.cpp): days of the Gregorian calendar, and the ISO 8601 text read
    into seconds since 1970. */
module CivilDate {
  import opened Words

  datatype Civil = Civil(year: int, month: int, day: int)
  datatype Stamp = Stamp(date: Civil, hour: int, minute: int, second: int)

  predicate Leap(year: int) { year % 4 == 0 && (year % 100 != 0 || year % 400 == 0) }

  function DaysIn(year: int, month: int): int {
    if month == 2 then (if Leap(year) then 29 else 28)
    else if month == 4 || month == 6 || month == 9 || month == 11 then 30
    else 31
  }

  predicate Date(c: Civil) { 1 <= c.month <= 12 && 1 <= c.day <= DaysIn(c.year, c.month) }

  function NextDay(c: Civil): Civil {
    if c.day < DaysIn(c.year, c.month) then c.(day := c.day + 1)
    else if c.month < 12 then Civil(c.year, c.month + 1, 1)
    else Civil(c.year + 1, 1, 1)
  }

  /** C++ division, towards zero. */
  function Truncated(a: int, b: int): int
    requires b > 0
  {
    if a >= 0 then a / b else -((-a) / b)
  }

  /** Days since 1970-01-01, as the program computes them: eras of 400 years that begin in March. */
  method DaysFromCivil(y: int, m: nat, d: nat) returns (days: int)
    requires 1 <= m <= 12 && 1 <= d
    ensures days == Days(Civil(y, m, d))
  {
    var year := if m <= 2 then y - 1 else y;
    var era := Truncated(if year >= 0 then year else year - 399, 400);
    EraIsFloor(year);
    var yoe := year - era * 400;
    var mp := if m > 2 then m - 3 else m + 9;
    var doy := (153 * mp + 2) / 5 + d - 1;
    var doe := yoe * 365 + yoe / 4 - yoe / 100 + doy;
    EraSums(year);
    days := era * 146097 + doe - 719468;
  }

  lemma EraIsFloor(year: int)
    ensures Truncated(if year >= 0 then year else year - 399, 400) == year / 400
  {
  }

  /** The same, from the rule for leap years alone. */
  function Days(c: Civil): int { MarchDays(MarchYear(c)) + DayOfYear(c.month, c.day) }

  /** The year, counted from March. */
  function MarchYear(c: Civil): int { if c.month <= 2 then c.year - 1 else c.year }

  /** Days from the epoch to 1 March of a year. */
  function MarchDays(year: int): int { year * 365 + year / 4 - year / 100 + year / 400 - 719468 }

  /** Months, counted from March. */
  function MarchMonth(month: int): int { if month > 2 then month - 3 else month + 9 }

  function DayOfYear(month: int, day: int): int { (153 * MarchMonth(month) + 2) / 5 + day - 1 }

  lemma EraSums(year: int)
    ensures var era, yoe := year / 400, year - year / 400 * 400;
            era * 146097 + yoe * 365 + yoe / 4 - yoe / 100 - 719468 == MarchDays(year)
  {
    var era, yoe := year / 400, year - year / 400 * 400;
    assert 0 <= yoe < 400 && year == era * 400 + yoe;
    assert year / 4 == era * 100 + yoe / 4;
    assert year / 100 == era * 4 + yoe / 100;
  }

  /** One March year is 365 days, or 366 when the February that ends it has 29. */
  lemma MarchYearLength(year: int)
    ensures MarchDays(year + 1) - MarchDays(year) == if Leap(year + 1) then 366 else 365
  {
    QuotientSteps(year, 4);
    QuotientSteps(year, 100);
    QuotientSteps(year, 400);
  }

  lemma QuotientSteps(year: int, n: int)
    requires n == 4 || n == 100 || n == 400
    ensures (year + 1) / n - year / n == if (year + 1) % n == 0 then 1 else 0
  {
  }

  /** The formula for days before a month is right for every month. */
  lemma MonthStarts(month: int, year: int)
    requires 1 <= month <= 12 && month != 2
    ensures DayOfYear(if month == 12 then 1 else month + 1, 1) == DayOfYear(month, DaysIn(year, month)) + 1
    ensures DayOfYear(3, 1) == 0 && DayOfYear(2, 28) == 364
  {
  }

  lemma EpochIsZero()
    ensures Days(Civil(1970, 1, 1)) == 0
  {
  }

  /** From every date to the next is one day, in all years. */
  lemma NextDayIsOneMore(c: Civil)
    requires Date(c)
    ensures Date(NextDay(c)) && Days(NextDay(c)) == Days(c) + 1
  {
    if c.day < DaysIn(c.year, c.month) {
    } else if c.month == 2 {
      MarchYearLength(c.year - 1);
      MonthStarts(1, c.year);
    } else {
      MonthStarts(c.month, c.year);
      hide DayOfYear, MarchDays;
      assert MarchYear(NextDay(c)) == MarchYear(c);
    }
  }

  predicate Before(a: Civil, b: Civil) {
    a.year < b.year || (a.year == b.year && (a.month < b.month || (a.month == b.month && a.day < b.day)))
  }

  lemma {:induction false} MarchDaysGrow(year: int, later: int)
    requires year < later
    ensures MarchDays(later) >= MarchDays(year + 1) && MarchDays(year + 1) >= MarchDays(year) + 365
    decreases later - year
  {
    MarchYearLength(year);
    if year + 1 < later {
      MarchDaysGrow(year + 1, later);
    }
  }

  lemma DayOfYearGrows(month: int, day: int, month': int, day': int, year: int)
    requires 1 <= month <= 12 && 1 <= month' <= 12 && 1 <= day <= DaysIn(year, month) && 1 <= day'
    requires MarchMonth(month) < MarchMonth(month') || (month == month' && day < day')
    ensures DayOfYear(month, day) < DayOfYear(month', day')
  {
  }

  /** No day of a March year reaches into the next. */
  lemma DayInMarchYear(c: Civil)
    requires Date(c)
    ensures 0 <= DayOfYear(c.month, c.day)
    ensures MarchDays(MarchYear(c)) + DayOfYear(c.month, c.day) < MarchDays(MarchYear(c) + 1)
  {
    MarchYearLength(MarchYear(c));
    hide MarchDays;
  }

  /** Later in the calendar is later in days. */
  lemma DaysGrow(a: Civil, b: Civil)
    requires Date(a) && Date(b) && Before(a, b)
    ensures Days(a) < Days(b)
  {
    DayInMarchYear(a);
    DayInMarchYear(b);
    hide DayOfYear, MarchDays;
    if MarchYear(a) < MarchYear(b) {
      MarchDaysGrow(MarchYear(a), MarchYear(b));
    } else {
      DayOfYearGrows(a.month, a.day, b.month, b.day, a.year);
    }
  }

  // --- Reading a timestamp ---

  predicate Digit(c: char) { '0' <= c <= '9' }

  function Value(s: string): (v: nat)
    requires forall i :: 0 <= i < |s| ==> Digit(s[i])
    decreases |s|
  {
    if s == [] then 0
    else
      assert Digit(s[|s| - 1]);
      Value(s[..|s| - 1]) * 10 + (s[|s| - 1] - '0') as nat
  }

  /** len digits from pos on. */
  function Field(s: string, pos: nat, len: nat): Option<nat> {
    if pos + len <= |s| && forall i :: pos <= i < pos + len ==> Digit(s[i]) then Some(Value(s[pos..pos + len])) else None
  }

  method Num(s: string, pos: nat, len: nat) returns (out: Option<nat>)
    ensures out == Field(s, pos, len)
  {
    if pos + len > |s| {
      return None;
    }
    var n, i := 0, pos;
    while i < pos + len
      invariant pos <= i <= pos + len
      invariant forall k :: pos <= k < i ==> Digit(s[k])
      invariant n == Value(s[pos..i])
    {
      if !Digit(s[i]) {
        return None;
      }
      assert s[pos..i + 1][..i - pos] == s[pos..i];
      n := n * 10 + (s[i] - '0') as nat;
      i := i + 1;
    }
    out := Some(n);
  }

  /** Where the digits of a fraction end. */
  function AfterDigits(s: string, i: nat): (j: nat)
    requires i <= |s|
    ensures i <= j <= |s|
    decreases |s| - i
  {
    if i < |s| && Digit(s[i]) then AfterDigits(s, i + 1) else i
  }

  predicate Utc(zone: string) { zone == "Z" || zone == "z" || zone == "+00:00" || zone == "-00:00" || zone == "" }

  function Seconds(t: Stamp): int { Days(t.date) * 86400 + t.hour * 3600 + t.minute * 60 + t.second }

  /** What is checked of the fields: that no month has more than 31 days, and a minute may have 61 seconds. */
  predicate Accepted(t: Stamp) {
    1 <= t.date.month <= 12 && 1 <= t.date.day <= 31 && t.hour <= 23 && t.minute <= 59 && t.second <= 60
  }

  predicate Separated(s: string) {
    |s| >= 19 && s[4] == '-' && s[7] == '-' && (s[10] == 'T' || s[10] == 't' || s[10] == ' ') && s[13] == ':' && s[16] == ':'
  }

  function Fields(s: string): Option<Stamp> {
    var year, month, day := Field(s, 0, 4), Field(s, 5, 2), Field(s, 8, 2);
    var hour, minute, second := Field(s, 11, 2), Field(s, 14, 2), Field(s, 17, 2);
    if !Separated(s) || year.None? || month.None? || day.None? || hour.None? || minute.None? || second.None? then None
    else Some(Stamp(Civil(year.value, month.value, day.value), hour.value, minute.value, second.value))
  }

  function ZoneOf(s: string): string
    requires |s| >= 19
  {
    if |s| > 19 && s[19] == '.' then s[AfterDigits(s, 20)..] else s[19..]
  }

  function Parsed(s: string): Option<int> {
    var t := Fields(s);
    if t.None? || !Accepted(t.value) || !Utc(ZoneOf(s)) then None else Some(Seconds(t.value))
  }

  method ParseIsoUtc(s: string) returns (time: Option<int>)
    ensures time == Parsed(s)
  {
    hide Field, Days;
    var year := Num(s, 0, 4);
    var month := Num(s, 5, 2);
    var day := Num(s, 8, 2);
    var hour := Num(s, 11, 2);
    var minute := Num(s, 14, 2);
    var second := Num(s, 17, 2);
    if year.None? || |s| < 19 || s[4] != '-' || month.None? || s[7] != '-' || day.None?
       || (s[10] != 'T' && s[10] != 't' && s[10] != ' ') || hour.None? || s[13] != ':' || minute.None? || s[16] != ':'
       || second.None? {
      return None;
    }
    if month.value < 1 || month.value > 12 || day.value < 1 || day.value > 31 || hour.value > 23 || minute.value > 59
       || second.value > 60 {
      return None;
    }
    var i := 19;
    if i < |s| && s[i] == '.' {
      i := i + 1;
      while i < |s| && Digit(s[i])
        invariant 20 <= i <= |s|
        invariant AfterDigits(s, i) == AfterDigits(s, 20)
      {
        i := i + 1;
      }
    }
    var zone := s[i..];
    assert zone == ZoneOf(s);
    if zone != "Z" && zone != "z" && zone != "+00:00" && zone != "-00:00" && zone != "" {
      return None;
    }
    var days := DaysFromCivil(year.value, month.value, day.value);
    time := Some(days * 86400 + hour.value * 3600 + minute.value * 60 + second.value);
  }

  /** A time that exists: a real date, and a minute of sixty seconds. */
  predicate Time(t: Stamp) { Date(t.date) && 0 <= t.hour <= 23 && 0 <= t.minute <= 59 && 0 <= t.second <= 59 }

  predicate Earlier(a: Stamp, b: Stamp) {
    Before(a.date, b.date)
    || (a.date == b.date
        && (a.hour < b.hour || (a.hour == b.hour && (a.minute < b.minute || (a.minute == b.minute && a.second < b.second)))))
  }

  lemma SecondsGrow(a: Stamp, b: Stamp)
    requires Time(a) && Time(b) && Earlier(a, b)
    ensures Seconds(a) < Seconds(b)
  {
    if Before(a.date, b.date) {
      DaysGrow(a.date, b.date);
    }
    hide Days;
  }

  /** Of two texts that both read as existing times, the later one gets the larger number. */
  lemma LaterReadsLarger(s: string, s': string)
    requires Parsed(s).Some? && Parsed(s').Some? && Time(Fields(s).value) && Time(Fields(s').value)
    ensures Parsed(s).value < Parsed(s').value <==> Earlier(Fields(s).value, Fields(s').value)
    ensures Parsed(s) == Parsed(s') <==> Fields(s) == Fields(s')
  {
    var a, b := Fields(s).value, Fields(s').value;
    hide Fields, Utc, ZoneOf, Seconds;
    if Earlier(a, b) {
      SecondsGrow(a, b);
    } else if Earlier(b, a) {
      SecondsGrow(b, a);
    }
  }

  // --- Times that do not exist ---

  /** The date that many days into a month, which may have fewer. */
  function RealDate(c: Civil): Civil {
    if c.day <= DaysIn(c.year, c.month) then c else Civil(c.year, c.month + 1, c.day - DaysIn(c.year, c.month))
  }

  /** Second 60 is the first of the next minute. */
  function Carried(t: Stamp): Stamp {
    if t.second < 60 then t
    else if t.minute < 59 then t.(minute := t.minute + 1, second := 0)
    else if t.hour < 23 then t.(hour := t.hour + 1, minute := 0, second := 0)
    else Stamp(NextDay(t.date), 0, 0, 0)
  }

  /** The existing time an accepted one is taken for. */
  function TakenFor(t: Stamp): Stamp { Carried(t.(date := RealDate(t.date))) }

  lemma RealDateIs(c: Civil)
    requires 1 <= c.month <= 12 && 1 <= c.day <= 31
    ensures Date(RealDate(c)) && Days(RealDate(c)) == Days(c)
  {
    if c.day > DaysIn(c.year, c.month) {
      NextDayIsOneMore(Civil(c.year, c.month, DaysIn(c.year, c.month)));
    }
  }

  lemma CarriedIs(t: Stamp)
    requires Date(t.date) && 0 <= t.hour <= 23 && 0 <= t.minute <= 59 && 0 <= t.second <= 60
    ensures Time(Carried(t)) && Seconds(Carried(t)) == Seconds(t)
  {
    NextDayIsOneMore(t.date);
    hide Days, NextDay;
  }

  lemma SameSeconds(a: Stamp, b: Stamp)
    requires Time(a) && Time(b) && Seconds(a) == Seconds(b)
    ensures a == b
  {
    hide Seconds;
    if Earlier(a, b) {
      SecondsGrow(a, b);
    } else if Earlier(b, a) {
      SecondsGrow(b, a);
    }
  }

  lemma TakenForIs(t: Stamp)
    requires Accepted(t) && 0 <= t.hour && 0 <= t.minute && 0 <= t.second
    ensures Time(TakenFor(t)) && Seconds(TakenFor(t)) == Seconds(t)
    ensures TakenFor(t) == t <==> Time(t)
  {
    RealDateIs(t.date);
    CarriedIs(t.(date := RealDate(t.date)));
    hide Days, NextDay;
  }

  /** Every text that is read reads as an existing time, and as another than it says if and only if what it says does
      not exist. */
  lemma CollidesIffImpossible(s: string)
    requires Parsed(s).Some?
    ensures Time(TakenFor(Fields(s).value)) && Seconds(TakenFor(Fields(s).value)) == Parsed(s).value
    ensures (exists t :: Time(t) && t != Fields(s).value && Seconds(t) == Parsed(s).value) <==> !Time(Fields(s).value)
  {
    var said := Fields(s).value;
    TakenForIs(said);
    hide Fields, Utc, ZoneOf, Time, Seconds, TakenFor;
    if Time(said) {
      forall t | Time(t) && Seconds(t) == Parsed(s).value
        ensures t == said
      {
        SameSeconds(t, said);
      }
    } else {
      var t := TakenFor(said);
      assert Time(t) && t != said && Seconds(t) == Parsed(s).value;
    }
  }

  function Unit(c: char): nat { if Digit(c) then (c - '0') as nat else 0 }

  function Two(s: string, pos: nat): nat
    requires pos + 2 <= |s|
  {
    Unit(s[pos]) * 10 + Unit(s[pos + 1])
  }

  lemma TwoDigits(s: string, pos: nat)
    requires pos + 2 <= |s| && Digit(s[pos]) && Digit(s[pos + 1])
    ensures Field(s, pos, 2) == Some(Two(s, pos))
  {
    var t := s[pos..pos + 2];
    assert t[..1][..0] == [] && t[..1] == [s[pos]];
    assert Value(t[..1]) == Unit(s[pos]);
  }

  lemma FourDigits(s: string)
    requires 4 <= |s| && forall k :: 0 <= k < 4 ==> Digit(s[k])
    ensures Field(s, 0, 4) == Some(Two(s, 0) * 100 + Two(s, 2))
  {
    TwoDigits(s, 0);
    var t := s[0..4];
    assert t[..3][..2] == s[0..2] && t[..3][2] == s[2] && t[3] == s[3];
    assert Value(t[..3]) == Value(s[0..2]) * 10 + Unit(s[2]);
  }

  /** s spells t, in UTC. */
  predicate Spells(s: string, t: Stamp) {
    && |s| == 20 && s[19] == 'Z' && Separated(s)
    && (forall k :: 0 <= k < 19 && k != 4 && k != 7 && k != 10 && k != 13 && k != 16 ==> Digit(s[k]))
    && t == Stamp(Civil(Two(s, 0) * 100 + Two(s, 2), Two(s, 5), Two(s, 8)), Two(s, 11), Two(s, 14), Two(s, 17))
  }

  lemma ReadText(s: string, t: Stamp)
    requires Spells(s, t) && Accepted(t)
    ensures Parsed(s) == Some(Seconds(t))
  {
    FourDigits(s);
    TwoDigits(s, 5);
    TwoDigits(s, 8);
    TwoDigits(s, 11);
    TwoDigits(s, 14);
    TwoDigits(s, 17);
    hide Field, Two, Seconds;
    assert ZoneOf(s) == "Z";
  }

  lemma FebruaryText()
    ensures Parsed("2024-02-30T00:00:00Z") == Some(1709251200)
  {
    var t := Stamp(Civil(2024, 2, 30), 0, 0, 0);
    assert Spells("2024-02-30T00:00:00Z", t) by { hide Seconds, Parsed; }
    hide Spells, Parsed;
    ReadText("2024-02-30T00:00:00Z", t);
    assert Seconds(t) == 1709251200;
  }

  lemma MarchText()
    ensures Parsed("2024-03-01T00:00:00Z") == Some(1709251200)
  {
    var t := Stamp(Civil(2024, 3, 1), 0, 0, 0);
    assert Spells("2024-03-01T00:00:00Z", t) by { hide Seconds, Parsed; }
    hide Spells, Parsed;
    ReadText("2024-03-01T00:00:00Z", t);
    assert Seconds(t) == 1709251200;
  }

  lemma LeapSecondText()
    ensures Parsed("2024-06-30T23:59:60Z") == Some(1719792000)
  {
    var t := Stamp(Civil(2024, 6, 30), 23, 59, 60);
    assert Spells("2024-06-30T23:59:60Z", t) by { hide Seconds, Parsed; }
    hide Spells, Parsed;
    ReadText("2024-06-30T23:59:60Z", t);
    assert Seconds(t) == 1719792000;
  }

  lemma JulyText()
    ensures Parsed("2024-07-01T00:00:00Z") == Some(1719792000)
  {
    var t := Stamp(Civil(2024, 7, 1), 0, 0, 0);
    assert Spells("2024-07-01T00:00:00Z", t) by { hide Seconds, Parsed; }
    hide Spells, Parsed;
    ReadText("2024-07-01T00:00:00Z", t);
    assert Seconds(t) == 1719792000;
  }

  /** 30 February is read as 1 March, and a leap second as the first second of the next day. */
  lemma ImpossibleDatesCollide()
    ensures Parsed("2024-02-30T00:00:00Z") == Parsed("2024-03-01T00:00:00Z") == Some(1709251200)
    ensures Parsed("2024-06-30T23:59:60Z") == Parsed("2024-07-01T00:00:00Z") == Some(1719792000)
  {
    hide Parsed;
    FebruaryText();
    MarchText();
    LeapSecondText();
    JulyText();
  }
}
