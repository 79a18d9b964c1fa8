/**
 RFC 3339 timestamps of UTC to epoch milliseconds, checked against the calendar of the standard:
 years and months counted one by one from 1970.
 */
module Timestamps {
  import opened Options
  import opened Text

  // ---- The conversion ----

  const I64_END := 0x8000_0000_0000_0000

  /** `str::parse::<i64>`: a sign or none, digits, and a value that fits. */
  function ParseI64(text: string): Option<int> {
    var signed := text != "" && (text[0] == '+' || text[0] == '-');
    var digits := if signed then text[1..] else text;
    if digits == "" || !AllDigits(digits) then None
    else
      var magnitude: int := Value(digits);
      var value := if signed && text[0] == '-' then -magnitude else magnitude;
      if -I64_END <= value < I64_END then Some(value) else None
  }

  /** The first three pieces as numbers; whatever follows them is not looked at. */
  function Three(text: string, sep: char): Option<(int, int, int)> {
    var pieces := Split(text, sep);
    if |pieces| < 3 then None
    else
      match (ParseI64(pieces[0]), ParseI64(pieces[1]), ParseI64(pieces[2]))
      case (Some(a), Some(b), Some(c)) => Some((a, b, c))
      case _ => None
  }

  predicate EndsWith(text: string, end: string) {
    |text| >= |end| && text[|text| - |end|..] == end
  }

  function WithoutZone(text: string): Option<string> {
    if EndsWith(text, "Z") then Some(text[..|text| - 1])
    else if EndsWith(text, "+00:00") || EndsWith(text, "-00:00") then Some(text[..|text| - 6])
    else None
  }

  /** The first three digits of the fraction, filled up with zeros. */
  function Millis(fraction: string): Option<int> {
    if fraction == "" then Some(0)
    else
      var digits := if |fraction| > 3 then fraction[..3] else fraction;
      if !AllDigits(digits) then None
      else if |digits| == 1 then Some(Value(digits) * 100)
      else if |digits| == 2 then Some(Value(digits) * 10)
      else Some(Value(digits))
  }

  /** Days from 1970 by the closed form over 400-year eras that begin in March. */
  function DaysFromCivil(year: int, month: int, day: int): int {
    var (y, m) := if month <= 2 then (year - 1, month + 9) else (year, month - 3);
    var era := y / 400;
    var yoe := y - era * 400;
    var doy := (153 * m + 2) / 5 + day - 1;
    var doe := yoe * 365 + yoe / 4 - yoe / 100 + doy;
    era * 146_097 + doe - 719_468
  }

  function IsoToMs(text: string): Option<int> {
    match WithoutZone(text)
    case None => None
    case Some(plain) =>
      var t := IndexOf(plain, 'T');
      if t == |plain| then None else Combined(Three(plain[..t], '-'), TimeOf(plain[t + 1..]))
  }

  /** Hour, minute and second, and the milliseconds. */
  function TimeOf(time: string): Option<((int, int, int), int)> {
    var dot := IndexOf(time, '.');
    match (Three(time[..dot], ':'), Millis(if dot == |time| then "" else time[dot + 1..]))
    case (Some(clock), Some(millis)) => Some((clock, millis))
    case _ => None
  }

  function Combined(date: Option<(int, int, int)>, time: Option<((int, int, int), int)>): Option<int> {
    match (date, time)
    case (Some((year, month, day)), Some(((hour, minute, second), millis))) =>
      Some((((DaysFromCivil(year, month, day) * 24 + hour) * 60 + minute) * 60 + second) * 1000 + millis)
    case _ => None
  }

  // ---- The calendar ----

  predicate IsLeap(year: int) {
    year % 4 == 0 && (year % 100 != 0 || year % 400 == 0)
  }

  function YearLength(year: int): nat {
    if IsLeap(year) then 366 else 365
  }

  function MonthLength(year: int, month: int): nat {
    if month == 2 then (if IsLeap(year) then 29 else 28)
    else if month == 4 || month == 6 || month == 9 || month == 11 then 30
    else 31
  }

  function DaysToYear(year: int): int
    decreases if year < 1970 then 1970 - year else year - 1970
  {
    if year == 1970 then 0
    else if year > 1970 then DaysToYear(year - 1) + YearLength(year - 1)
    else DaysToYear(year + 1) - YearLength(year)
  }

  function DaysToMonth(year: int, month: int): nat
    requires 1 <= month <= 12
  {
    if month == 1 then 0 else DaysToMonth(year, month - 1) + MonthLength(year, month - 1)
  }

  datatype Date = Date(year: int, month: int, day: int)

  predicate IsDate(d: Date) {
    1 <= d.month <= 12 && 1 <= d.day <= MonthLength(d.year, d.month)
  }

  /** Days from the first of January 1970. */
  function DayNumber(d: Date): int
    requires IsDate(d)
  {
    DaysToYear(d.year) + DaysToMonth(d.year, d.month) + d.day - 1
  }

  // ---- The closed form counts days ----

  /** Leap days and all, up to the end of February of `y + 1`. */
  function Elapsed(y: int): int {
    365 * y + y / 4 - y / 100 + y / 400
  }

  lemma EraForm(y: int)
    ensures var era := y / 400;
            var yoe := y - era * 400;
            era * 146_097 + (yoe * 365 + yoe / 4 - yoe / 100) == Elapsed(y)
  {
    var era := y / 400;
    var yoe := y - era * 400;
    assert 0 <= yoe < 400;
    assert y / 4 == 100 * era + yoe / 4;
    assert y / 100 == 4 * era + yoe / 100;
  }

  lemma CivilForm(year: int, month: int, day: int)
    ensures DaysFromCivil(year, month, day) ==
            (if month <= 2 then Elapsed(year - 1) + (153 * (month + 9) + 2) / 5 else Elapsed(year) + (153 * (month - 3) + 2) / 5)
            + day - 1 - 719_468
  {
    EraForm(if month <= 2 then year - 1 else year);
  }

  lemma FloorSteps(y: int, n: int)
    requires n > 0
    ensures y / n - (y - 1) / n == if y % n == 0 then 1 else 0
  {
    var q, r := y / n, y % n;
    assert y == q * n + r && 0 <= r < n;
    if r == 0 {
      assert y - 1 == (q - 1) * n + (n - 1);
      DivideUnique(y - 1, n, q - 1, n - 1);
    } else {
      assert y - 1 == q * n + (r - 1);
      DivideUnique(y - 1, n, q, r - 1);
    }
  }

  lemma DivideUnique(x: int, n: int, q: int, r: int)
    requires n > 0 && x == q * n + r && 0 <= r < n
    ensures x / n == q
  {
    var d := x / n - q;
    assert x == (x / n) * n + x % n;
    assert d * n == r - x % n;
    assert d >= 1 ==> d * n >= n;
    assert d <= -1 ==> d * n <= -n;
  }

  lemma ElapsedSteps(y: int)
    ensures Elapsed(y) - Elapsed(y - 1) == YearLength(y)
  {
    FloorSteps(y, 4);
    FloorSteps(y, 100);
    FloorSteps(y, 400);
    LeapCycles(y);
  }

  lemma LeapCycles(y: int)
    ensures y % 400 == 0 ==> y % 100 == 0
    ensures y % 100 == 0 ==> y % 4 == 0
  {
  }

  lemma {:induction false} YearsAgree(year: int)
    ensures DaysToYear(year) == DaysFromCivil(year, 1, 1)
    decreases if year < 1970 then 1970 - year else year - 1970
  {
    hide Elapsed, DaysFromCivil, YearLength;
    CivilForm(year, 1, 1);
    StartOfDays();
    if year > 1970 {
      YearsAgree(year - 1);
      CivilForm(year - 1, 1, 1);
      ElapsedSteps(year - 1);
    } else if year < 1970 {
      YearsAgree(year + 1);
      CivilForm(year + 1, 1, 1);
      ElapsedSteps(year);
    }
  }

  lemma StartOfDays()
    ensures DaysFromCivil(1970, 1, 1) == 0
  {
  }

  lemma MonthSteps(year: int, month: int)
    requires 1 <= month < 12
    ensures DaysFromCivil(year, month + 1, 1) == DaysFromCivil(year, month, 1) + MonthLength(year, month)
  {
    hide Elapsed, DaysFromCivil, IsLeap;
    CivilForm(year, month, 1);
    CivilForm(year, month + 1, 1);
    if month == 2 {
      ElapsedSteps(year);
    }
  }

  lemma {:induction false} MonthsAgree(year: int, month: int)
    requires 1 <= month <= 12
    ensures DaysToYear(year) + DaysToMonth(year, month) == DaysFromCivil(year, month, 1)
    decreases month
  {
    if month == 1 {
      YearsAgree(year);
    } else {
      MonthsAgree(year, month - 1);
      MonthSteps(year, month - 1);
    }
  }

  /** For every date of every year the closed form is the count of days, month by month and year by year. */
  lemma CivilCountsDays(d: Date)
    requires IsDate(d)
    ensures DaysFromCivil(d.year, d.month, d.day) == DayNumber(d)
  {
    MonthsAgree(d.year, d.month);
    CivilForm(d.year, d.month, d.day);
    CivilForm(d.year, d.month, 1);
  }

  // ---- Printed timestamps ----

  function Pow10(n: nat): (p: nat)
    ensures p > 0
  {
    if n == 0 then 1 else 10 * Pow10(n - 1)
  }

  function Digits(n: nat, width: nat): (text: string)
    ensures |text| == width && AllDigits(text)
  {
    if width == 0 then "" else Digits(n / 10, width - 1) + [DigitOf(n % 10)]
  }

  lemma {:induction false} DigitsValue(n: nat, width: nat)
    requires n < Pow10(width)
    ensures Value(Digits(n, width)) == n
    decreases width
  {
    if width > 0 {
      DigitsValue(n / 10, width - 1);
      var text := Digits(n, width);
      assert text[..|text| - 1] == Digits(n / 10, width - 1);
    }
  }

  lemma DigitsRead(n: nat, width: nat, sep: char)
    requires n < Pow10(width) && 0 < width && n < I64_END && !IsDigit(sep)
    ensures ParseI64(Digits(n, width)) == Some(n) && Free(Digits(n, width), sep)
  {
    DigitsValue(n, width);
    assert IsDigit(Digits(n, width)[0]);
  }

  datatype Zone = Zulu | Plus | Minus

  datatype Stamp = Stamp(date: Date, hour: nat, minute: nat, second: nat, fraction: string, zone: Zone)

  /** A UTC timestamp of section 5.6, with a second up to 59. */
  ghost predicate IsStamp(s: Stamp) {
    && IsDate(s.date) && 0 <= s.date.year <= 9999
    && s.hour < 24 && s.minute < 60 && s.second < 60 && AllDigits(s.fraction)
  }

  /** Its text; `t` and `z` are the letters it is written with. */
  function Printed(s: Stamp, t: char, z: char): string
    requires IsDate(s.date) && s.date.year >= 0
  {
    DatePart(s.date) + [t] + TimePart(s) + match s.zone
                                           case Zulu => [z]
                                           case Plus => "+00:00"
                                           case Minus => "-00:00"
  }

  function DatePart(d: Date): string
    requires IsDate(d) && d.year >= 0
  {
    Digits(d.year, 4) + "-" + (Digits(d.month, 2) + "-" + Digits(d.day, 2))
  }

  function ClockPart(s: Stamp): string {
    Digits(s.hour, 2) + ":" + (Digits(s.minute, 2) + ":" + Digits(s.second, 2))
  }

  function TimePart(s: Stamp): string {
    ClockPart(s) + if s.fraction == "" then "" else "." + s.fraction
  }

  /** The fraction of a second, cut to whole milliseconds. */
  function Cut(fraction: string): nat
    requires AllDigits(fraction)
  {
    Quotient(Value(fraction) * 1000, Pow10(|fraction|))
  }

  function Quotient(a: nat, b: nat): nat
    requires b > 0
  {
    a / b
  }

  /** Milliseconds from 1970: whole days, and the time of day. */
  ghost function Milliseconds(s: Stamp): int
    requires IsStamp(s)
  {
    DayNumber(s.date) * 86_400_000 + s.hour * 3_600_000 + s.minute * 60_000 + s.second * 1000 + Cut(s.fraction)
  }

  lemma {:induction false} ValueBound(text: string)
    requires AllDigits(text)
    ensures Value(text) < Pow10(|text|)
    decreases |text|
  {
    if text != "" {
      ValueBound(text[..|text| - 1]);
    }
  }

  lemma {:induction false} ValueSplits(text: string, k: nat)
    requires AllDigits(text) && k <= |text|
    ensures Value(text) == Value(text[..k]) * Pow10(|text| - k) + Value(text[k..])
    decreases |text|
  {
    if k == |text| {
      assert text[..k] == text && text[k..] == "";
    } else {
      var n := |text| - 1;
      var front := text[..n];
      ValueSplits(front, k);
      assert front[..k] == text[..k];
      assert text[k..][..n - k] == front[k..] && text[k..][n - k] == text[n];
      TenTimes(Value(text[..k]), Pow10(n - k), Value(front[k..]));
    }
  }

  lemma TenTimes(v: nat, p: nat, w: nat)
    ensures 10 * (v * p + w) == v * (10 * p) + 10 * w
  {
  }

  lemma MillisCuts(fraction: string)
    requires AllDigits(fraction)
    ensures Millis(fraction) == Some(Cut(fraction))
  {
    assert Pow10(1) == 10 && Pow10(2) == 100 && Pow10(3) == 1000;
    if |fraction| > 3 {
      var p, v, w := Pow10(|fraction| - 3), Value(fraction[..3]), Value(fraction[3..]);
      ValueSplits(fraction, 3);
      ValueBound(fraction[3..]);
      PowSplits(|fraction| - 3);
      CutsAt(v, w, p);
    }
  }

  lemma PowSplits(n: nat)
    ensures Pow10(n + 3) == 1000 * Pow10(n)
  {
    assert Pow10(n + 3) == 10 * Pow10(n + 2) && Pow10(n + 2) == 10 * Pow10(n + 1);
  }

  lemma CutsAt(v: nat, w: nat, p: nat)
    requires w < p
    ensures (v * p + w) * 1000 / (1000 * p) == v
  {
    assert (v * p + w) * 1000 == v * (1000 * p) + 1000 * w;
    DivideUnique((v * p + w) * 1000, 1000 * p, v, 1000 * w);
  }

  lemma ThreeReads(a: string, b: string, c: string, sep: char)
    requires Free(a, sep) && Free(b, sep) && Free(c, sep)
    ensures Split(a + [sep] + (b + [sep] + c), sep) == [a, b, c]
  {
    SplitFirst(a, sep, b + [sep] + c);
    SplitFirst(b, sep, c);
    IndexOfNone(c, sep);
    assert [a] + ([b] + [c]) == [a, b, c];
  }

  lemma DateReads(d: Date)
    requires IsDate(d) && 0 <= d.year <= 9999
    ensures Three(DatePart(d), '-') == Some((d.year, d.month, d.day)) && Free(DatePart(d), 'T')
  {
    assert Pow10(2) == 100 && Pow10(4) == 10000;
    hide Digits, Split, ParseI64, Pow10;
    DigitsRead(d.year, 4, '-');
    DigitsRead(d.month, 2, '-');
    DigitsRead(d.day, 2, '-');
    ThreeReads(Digits(d.year, 4), Digits(d.month, 2), Digits(d.day, 2), '-');
  }

  lemma ClockReads(s: Stamp)
    requires IsStamp(s)
    ensures Three(ClockPart(s), ':') == Some((s.hour, s.minute, s.second)) && Free(ClockPart(s), '.')
  {
    assert Pow10(2) == 100;
    DigitsRead(s.hour, 2, ':');
    DigitsRead(s.minute, 2, ':');
    DigitsRead(s.second, 2, ':');
    ThreeReads(Digits(s.hour, 2), Digits(s.minute, 2), Digits(s.second, 2), ':');
  }

  lemma TimeReads(s: Stamp)
    requires IsStamp(s)
    ensures TimeOf(TimePart(s)) == Some(((s.hour as int, s.minute as int, s.second as int), Cut(s.fraction) as int))
  {
    ClockReads(s);
    MillisCuts(s.fraction);
    var time := TimePart(s);
    var dot := IndexOf(time, '.');
    if s.fraction == "" {
      assert time == ClockPart(s);
      IndexOfNone(ClockPart(s), '.');
    } else {
      assert time == ClockPart(s) + ['.'] + s.fraction;
      IndexOfFirst(ClockPart(s), '.', s.fraction);
    }
    assert time[..dot] == ClockPart(s);
    assert (if dot == |time| then "" else time[dot + 1..]) == s.fraction;
  }

  lemma ZoneReads(s: Stamp, t: char)
    requires IsStamp(s)
    ensures WithoutZone(Printed(s, t, 'Z')) == Some(DatePart(s.date) + [t] + TimePart(s))
  {
    var text := Printed(s, t, 'Z');
    var plain := DatePart(s.date) + [t] + TimePart(s);
    match s.zone
    case Zulu => assert text == plain + "Z" && text[|plain|..] == "Z" && text[..|plain|] == plain;
    case Plus => assert text == plain + "+00:00" && text[|plain|..] == "+00:00" && text[..|plain|] == plain;
      assert text[|text| - 1] == '0';
    case Minus => assert text == plain + "-00:00" && text[|plain|..] == "-00:00" && text[..|plain|] == plain;
      assert text[|text| - 1] == '0';
  }

  /** Every UTC timestamp written with `T` and `Z` reads as its milliseconds by the calendar. */
  lemma IsoToMsByCalendar(s: Stamp)
    requires IsStamp(s)
    ensures IsoToMs(Printed(s, 'T', 'Z')) == Some(Milliseconds(s))
  {
    ZoneReads(s, 'T');
    DateReads(s.date);
    IndexOfFirst(DatePart(s.date), 'T', TimePart(s));
    TimeReads(s);
    CombinedIsSum(s);
  }

  lemma CombinedIsSum(s: Stamp)
    requires IsStamp(s)
    ensures Combined(Some((s.date.year, s.date.month, s.date.day)),
                     Some(((s.hour as int, s.minute as int, s.second as int), Cut(s.fraction) as int))) == Some(Milliseconds(s))
  {
    CivilCountsDays(s.date);
  }

  lemma TimeHasNoT(s: Stamp)
    requires IsStamp(s)
    ensures Free(TimePart(s), 'T')
  {
  }

  /**
   The standard also allows the letters in lower case: a timestamp is read exactly when its letters
   are capitals.
   */
  lemma ReadIffCapitals(s: Stamp, t: char, z: char)
    requires IsStamp(s) && t in {'T', 't'} && z in {'Z', 'z'}
    ensures IsoToMs(Printed(s, t, z)).Some? <==> t == 'T' && (s.zone.Zulu? ==> z == 'Z')
  {
    if s.zone.Zulu? && z == 'z' {
      SmallZ(s, t);
    } else {
      assert Printed(s, t, z) == Printed(s, t, 'Z');
      if t == 'T' {
        IsoToMsByCalendar(s);
      } else {
        SmallT(s);
      }
    }
  }

  /** A part of the date or the time is read exactly from a sign, if any, and digits, if it fits in 64 bits. */
  lemma I64Iff(text: string, v: int)
    ensures ParseI64(text) == Some(v) <==>
            -0x8000_0000_0000_0000 <= v < 0x8000_0000_0000_0000
            && exists digits, n: nat :: IsNumeral(digits, n) && ((v == n && (text == digits || text == "+" + digits)) || (-v == n && text == "-" + digits))
  {
    if ParseI64(text) == Some(v) {
      assert text == text[..1] + text[1..];
      if text[0] == '+' || text[0] == '-' {
        assert IsNumeral(text[1..], Value(text[1..]));
      } else {
        assert IsNumeral(text, Value(text));
      }
    }
    if digits, n: nat :| IsNumeral(digits, n) && ((v == n && (text == digits || text == "+" + digits)) || (-v == n && text == "-" + digits)) {
      assert IsDigit(digits[0]);
      assert text != digits ==> text[1..] == digits;
    }
  }

  /** Behind a date and a clock that are read, any fraction is read exactly when its first three characters are digits. */
  lemma FractionReadIff(s: Stamp, fraction: string)
    requires IsStamp(s) && s.fraction == "" && s.zone.Zulu?
    ensures IsoToMs(DatePart(s.date) + "T" + ClockPart(s) + "." + fraction + "Z").Some? <==>
            forall i :: 0 <= i < |fraction| && i < 3 ==> IsDigit(fraction[i])
  {
    hide DatePart, ClockPart, Three, DaysFromCivil, Millis;
    var date, clock := DatePart(s.date), ClockPart(s);
    var time := clock + ['.'] + fraction;
    var text := date + "T" + clock + "." + fraction + "Z";
    assert text == date + ['T'] + time + ['Z'];
    assert text[..|text| - 1] == date + ['T'] + time && text[|text| - 1..] == "Z";
    assert WithoutZone(text) == Some(date + ['T'] + time);
    DateReads(s.date);
    ClockReads(s);
    IndexOfFirst(date, 'T', time);
    IndexOfFirst(clock, '.', fraction);
    assert time[..|clock|] == clock && time[|clock| + 1..] == fraction;
    MillisIff(fraction);
  }

  lemma MillisIff(fraction: string)
    ensures Millis(fraction).Some? <==> forall i :: 0 <= i < |fraction| && i < 3 ==> IsDigit(fraction[i])
  {
  }

  /** A time with an offset other than zero is not UTC's, and is refused. */
  lemma OtherOffsetsAreRefused(text: string, sign: char, hours: string, minutes: string)
    requires sign == '+' || sign == '-'
    requires |hours| == 2 && |minutes| == 2 && (hours != "00" || minutes != "00")
    requires minutes[1] != 'Z'
    ensures IsoToMs(text + [sign] + hours + ":" + minutes) == None
  {
    var end := [sign] + hours + ":" + minutes;
    var whole := text + end;
    assert text + [sign] + hours + ":" + minutes == whole;
    assert whole[|whole| - 1..] == [minutes[1]] && whole[|whole| - 6..] == end;
    assert end[1..3] == hours && end[4..] == minutes;
    forall zero | zero == "+00:00" || zero == "-00:00" ensures !EndsWith(whole, zero) {
      assert zero[1..3] == "00" && zero[4..] == "00";
    }
    assert WithoutZone(whole).None?;
  }

  lemma SmallZ(s: Stamp, t: char)
    requires IsStamp(s) && s.zone.Zulu?
    ensures WithoutZone(Printed(s, t, 'z')).None?
  {
    var text := Printed(s, t, 'z');
    assert text[|text| - 1] == 'z';
    assert |text| >= 6 ==> text[|text| - 6..][5] == 'z';
    assert text[|text| - 1..][0] == 'z';
  }

  lemma SmallT(s: Stamp)
    requires IsStamp(s)
    ensures IsoToMs(Printed(s, 't', 'Z')).None?
  {
    ZoneReads(s, 't');
    DateReads(s.date);
    TimeHasNoT(s);
    IndexOfNone(DatePart(s.date) + ['t'] + TimePart(s), 'T');
  }

  // ---- Order ----

  predicate IsBefore(a: Date, b: Date) {
    a.year < b.year || (a.year == b.year && (a.month < b.month || (a.month == b.month && a.day < b.day)))
  }

  lemma {:induction false} MonthsGrow(year: int, m1: int, m2: int)
    requires 1 <= m1 < m2 <= 12
    ensures DaysToMonth(year, m1) + MonthLength(year, m1) <= DaysToMonth(year, m2)
    decreases m2
  {
    if m2 > m1 + 1 {
      MonthsGrow(year, m1, m2 - 1);
    }
  }

  lemma WithinYear(d: Date)
    requires IsDate(d)
    ensures 0 <= DaysToMonth(d.year, d.month) + d.day - 1 < YearLength(d.year)
  {
    if d.month < 12 {
      MonthsGrow(d.year, d.month, 12);
    }
    YearEnds(d.year);
  }

  lemma YearEnds(year: int)
    ensures DaysToMonth(year, 12) + 31 == YearLength(year)
  {
    assert DaysToMonth(year, 2) == 31;
    assert DaysToMonth(year, 3) == 31 + MonthLength(year, 2);
    assert DaysToMonth(year, 5) == DaysToMonth(year, 3) + 61;
    assert DaysToMonth(year, 7) == DaysToMonth(year, 5) + 61;
    assert DaysToMonth(year, 9) == DaysToMonth(year, 7) + 62;
    assert DaysToMonth(year, 11) == DaysToMonth(year, 9) + 61;
  }

  lemma {:induction false} YearsGrow(y1: int, y2: int)
    requires y1 < y2
    ensures DaysToYear(y1) + YearLength(y1) <= DaysToYear(y2)
    decreases y2 - y1
  {
    assert DaysToYear(y2 - 1) + YearLength(y2 - 1) == DaysToYear(y2);
    if y1 < y2 - 1 {
      YearsGrow(y1, y2 - 1);
    }
  }

  /** A later date has a higher number. */
  lemma LaterIsHigher(a: Date, b: Date)
    requires IsDate(a) && IsDate(b) && IsBefore(a, b)
    ensures DayNumber(a) < DayNumber(b)
  {
    WithinYear(a);
    WithinYear(b);
    if a.year < b.year {
      YearsGrow(a.year, b.year);
    } else if a.month < b.month {
      MonthsGrow(a.year, a.month, b.month);
    }
  }

  function NextDay(d: Date): (next: Date)
    requires IsDate(d)
    ensures IsDate(next) && IsBefore(d, next)
  {
    if d.day < MonthLength(d.year, d.month) then Date(d.year, d.month, d.day + 1)
    else if d.month < 12 then Date(d.year, d.month + 1, 1)
    else Date(d.year + 1, 1, 1)
  }

  /** Across every month, leap-year and century boundary the next day is one further. */
  lemma NextDayIsNext(d: Date)
    requires IsDate(d)
    ensures DayNumber(NextDay(d)) == DayNumber(d) + 1
  {
    if d.day == MonthLength(d.year, d.month) {
      if d.month < 12 {
        assert DaysToMonth(d.year, d.month + 1) == DaysToMonth(d.year, d.month) + MonthLength(d.year, d.month);
      } else {
        YearEnds(d.year);
        YearGrows(d.year);
      }
    }
  }

  lemma YearGrows(year: int)
    ensures DaysToYear(year + 1) == DaysToYear(year) + YearLength(year)
  {
  }

  /** So read timestamps a day apart are a day of milliseconds apart, at the same time of day. */
  lemma ADayApart(s: Stamp, next: Stamp)
    requires IsStamp(s) && IsStamp(next) && next == s.(date := NextDay(s.date))
    ensures IsoToMs(Printed(s, 'T', 'Z')).Some? && IsoToMs(Printed(next, 'T', 'Z')).Some?
    ensures IsoToMs(Printed(next, 'T', 'Z')).value - IsoToMs(Printed(s, 'T', 'Z')).value == 86_400_000
  {
    MillisecondsNext(s, next);
    IsoToMsByCalendar(s);
    IsoToMsByCalendar(next);
  }

  lemma MillisecondsNext(s: Stamp, next: Stamp)
    requires IsStamp(s) && IsStamp(next) && next == s.(date := NextDay(s.date))
    ensures Milliseconds(next) == Milliseconds(s) + 86_400_000
  {
    NextDayIsNext(s.date);
  }

  function Clock(s: Stamp): nat
    requires AllDigits(s.fraction)
  {
    s.hour * 3_600_000 + s.minute * 60_000 + s.second * 1000 + Cut(s.fraction)
  }

  lemma CutBound(fraction: string)
    requires AllDigits(fraction)
    ensures Cut(fraction) < 1000
  {
    ValueBound(fraction);
    MillisCuts(fraction);
    if |fraction| > 3 {
      ValueBound(fraction[..3]);
    }
    assert Pow10(1) == 10 && Pow10(2) == 100 && Pow10(3) == 1000;
  }

  /** Reading is strictly increasing: a later date, or a later millisecond of one date, is higher. */
  lemma ReadingIncreases(a: Stamp, b: Stamp)
    requires IsStamp(a) && IsStamp(b)
    requires IsBefore(a.date, b.date) || (a.date == b.date && Clock(a) < Clock(b))
    ensures IsoToMs(Printed(a, 'T', 'Z')).Some? && IsoToMs(Printed(b, 'T', 'Z')).Some?
    ensures IsoToMs(Printed(a, 'T', 'Z')).value < IsoToMs(Printed(b, 'T', 'Z')).value
  {
    IsoToMsByCalendar(a);
    IsoToMsByCalendar(b);
    CutBound(a.fraction);
    CutBound(b.fraction);
    if IsBefore(a.date, b.date) {
      LaterIsHigher(a.date, b.date);
    }
  }
}
