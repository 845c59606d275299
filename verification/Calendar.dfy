/** Packed DOS dates and times against seconds since 1970, in word pairs. */
module Calendar {
  import opened WordMath
  import opened Wrappers

  const LAST := 0xffff_ffff

  datatype Clock = Clock(year: int, month: int, day: int, hour: int, minute: int, second: int)

  /** Every fourth year is a leap year, but 2100 is not. */
  predicate Leap(year: int) {
    year % 4 == 0 && year != 2100
  }

  function DaysIn(year: int, month: int): int {
    if month == 2 then (if Leap(year) then 29 else 28)
    else if month == 4 || month == 6 || month == 9 || month == 11 then 30 else 31
  }

  const DAY := 86400

  function YearSpan(year: int): int {
    if Leap(year) then 366 * DAY else 365 * DAY
  }

  function MonthSpan(year: int, month: int): int {
    DaysIn(year, month) * DAY
  }

  /** Seconds from 1970 to the start of a year, and from there to the start of a month. */
  function YearStart(year: int): (s: int)
    ensures s >= 0
    decreases year
  {
    if year <= 1970 then 0 else YearStart(year - 1) + YearSpan(year - 1)
  }

  function MonthStart(year: int, month: int): (s: int)
    ensures s >= 0
    decreases month
  {
    if month <= 1 then 0 else MonthStart(year, month - 1) + MonthSpan(year, month - 1)
  }

  function Within(c: Clock): int {
    (c.day - 1) * DAY + c.hour * 3600 + c.minute * 60 + c.second
  }

  function Seconds(c: Clock): int {
    YearStart(c.year) + MonthStart(c.year, c.month) + Within(c)
  }

  predicate Valid(c: Clock) {
    && c.year >= 1970 && 1 <= c.month <= 12 && 1 <= c.day <= DaysIn(c.year, c.month)
    && 0 <= c.hour < 24 && 0 <= c.minute < 60 && 0 <= c.second < 60
  }

  // Fields of a number of seconds

  /** The year a number of seconds after the start of year y falls in, and the seconds into it. */
  function YearAt(y: int, s: nat): (int, nat)
    decreases s
  {
    if s < YearSpan(y) then (y, s) else YearAt(y + 1, s - YearSpan(y))
  }

  function MonthAt(y: int, m: int, s: nat): (int, nat)
    decreases 12 - m
  {
    if m >= 12 || s < MonthSpan(y, m) then (m, s) else MonthAt(y, m + 1, s - MonthSpan(y, m))
  }

  function Fields(s: nat): Clock {
    var (year, inYear) := YearAt(1970, s);
    var (month, inMonth) := MonthAt(year, 1, inYear);
    var inDay := inMonth % DAY;
    Clock(year, month, 1 + inMonth / DAY, inDay / 3600, inDay % 3600 / 60, inDay % 60)
  }

  lemma {:induction false} YearAtIs(y: int, s: nat)
    requires y >= 1970
    ensures var (year, rest) := YearAt(y, s);
            year >= y && rest < YearSpan(year) && YearStart(year) + rest == YearStart(y) + s
    decreases s
  {
    if s >= YearSpan(y) {
      YearAtIs(y + 1, s - YearSpan(y));
    }
  }

  lemma MonthsFill(y: int)
    ensures MonthStart(y, 12) + MonthSpan(y, 12) == YearSpan(y)
  {
    assert MonthStart(y, 4) == MonthStart(y, 1) + MonthSpan(y, 1) + MonthSpan(y, 2) + MonthSpan(y, 3);
    assert MonthStart(y, 7) == MonthStart(y, 4) + MonthSpan(y, 4) + MonthSpan(y, 5) + MonthSpan(y, 6);
    assert MonthStart(y, 10) == MonthStart(y, 7) + MonthSpan(y, 7) + MonthSpan(y, 8) + MonthSpan(y, 9);
  }

  lemma {:induction false} MonthAtIs(y: int, m: int, s: nat)
    requires 1 <= m <= 12 && MonthStart(y, m) + s < YearSpan(y)
    ensures var (month, rest) := MonthAt(y, m, s);
            m <= month <= 12 && rest < MonthSpan(y, month) && MonthStart(y, month) + rest == MonthStart(y, m) + s
    decreases 12 - m
  {
    hide MonthSpan, YearSpan;
    MonthsFill(y);
    if m < 12 && s >= MonthSpan(y, m) {
      MonthAtIs(y, m + 1, s - MonthSpan(y, m));
    }
  }

  /** The fields of a number of seconds are a valid time that is that many seconds after 1970. */
  lemma FieldsValid(s: nat)
    ensures Valid(Fields(s)) && Seconds(Fields(s)) == s
  {
    var (year, inYear) := YearAt(1970, s);
    YearAtIs(1970, s);
    var (month, inMonth) := MonthAt(year, 1, inYear);
    MonthAtIs(year, 1, inYear);
    assert inMonth / DAY < DaysIn(year, month);
  }

  lemma {:induction false} YearAtStart(y: int, year: int, rest: nat)
    requires 1970 <= y <= year && rest < YearSpan(year)
    ensures YearStart(y) <= YearStart(year) && YearAt(y, YearStart(year) - YearStart(y) + rest) == (year, rest)
    decreases year - y
  {
    if y < year {
      YearAtStart(y + 1, year, rest);
    }
  }

  lemma {:induction false} MonthAtStart(y: int, m: int, month: int, rest: nat)
    requires 1 <= m <= month <= 12 && rest < MonthSpan(y, month)
    ensures MonthStart(y, m) <= MonthStart(y, month)
            && MonthAt(y, m, MonthStart(y, month) - MonthStart(y, m) + rest) == (month, rest)
    decreases month - m
  {
    hide MonthSpan;
    SpanPositive(y, m);
    if m < month {
      MonthAtStart(y, m + 1, month, rest);
    }
  }

  lemma SpanPositive(y: int, m: int)
    ensures MonthSpan(y, m) > 0
  {
  }

  lemma MonthFits(y: int, month: int)
    requires 1 <= month <= 12
    ensures MonthStart(y, month) + MonthSpan(y, month) <= YearSpan(y)
    decreases 12 - month
  {
    hide MonthSpan, YearSpan;
    MonthsFill(y);
    SpanPositive(y, month + 1);
    if month < 12 {
      MonthFits(y, month + 1);
    }
  }

  /** Every valid time is the fields of its own seconds. */
  lemma FieldsOfSeconds(c: Clock)
    requires Valid(c)
    ensures Seconds(c) >= 0 && Fields(Seconds(c)) == c
  {
    hide MonthSpan, YearSpan, YearStart, MonthStart, DaysIn, YearAt, MonthAt;
    var inMonth := Within(c);
    WithinMonth(c);
    MonthFits(c.year, c.month);
    MonthAtStart(c.year, 1, c.month, inMonth);
    YearAtStart(1970, c.year, MonthStart(c.year, c.month) + inMonth);
    Origins(c.year);
  }

  lemma Origins(y: int)
    ensures YearStart(1970) == 0 && MonthStart(y, 1) == 0
  {
  }

  lemma WithinMonth(c: Clock)
    requires Valid(c)
    ensures var (s, inDay) := (Within(c), Within(c) % DAY);
            && 0 <= s < MonthSpan(c.year, c.month) && 1 + s / DAY == c.day
            && inDay / 3600 == c.hour && inDay % 3600 / 60 == c.minute && inDay % 60 == c.second
  {
    var (s, inDay) := (Within(c), c.hour * 3600 + c.minute * 60 + c.second);
    DivideDone(s, c.day - 1, DAY, inDay);
    DivideDone(inDay, c.hour, 3600, c.minute * 60 + c.second);
    DivideDone(c.minute * 60 + c.second, c.minute, 60, c.second);
    DivideDone(inDay, c.hour * 60 + c.minute, 60, c.second);
  }

  // Word pairs

  function Pair(v: int): Words
    requires 0 <= v <= LAST
    ensures Pair(v).Value() == v
  {
    Words(v % 0x1_0000, v / 0x1_0000)
  }

  /** Adds, or gives the largest number and reports that the sum does not fit. */
  method AddSpan(value: Words, span: Words) returns (sum: Words, ok: bool)
    ensures ok == (value.Value() + span.Value() <= LAST)
    ensures sum.Value() == if ok then value.Value() + span.Value() else LAST
  {
    hide Low;
    LowSum(value.lo, span.lo);
    LowSum(value.hi, span.hi);
    var lo := Low(value.lo as int + span.lo);
    var carry := if lo < value.lo then 1 else 0;
    var hi := Low(value.hi as int + span.hi);
    if hi < value.hi {
      return Words(0xffff, 0xffff), false;
    }
    LowSum(hi, carry);
    var top := Low(hi as int + carry);
    if top < hi {
      return Words(0xffff, 0xffff), false;
    }
    return Words(lo, top), true;
  }

  lemma LowSum(a: UWord, b: UWord)
    ensures Low(a as int + b) == if a as int + b >= 0x1_0000 then a as int + b - 0x1_0000 else a as int + b
    ensures Low(a as int + b) < a <==> a as int + b >= 0x1_0000
  {
  }

  /** Subtracts when there is enough. */
  method TakeSpan(value: Words, span: Words) returns (rest: Words, taken: bool)
    ensures taken == (value.Value() >= span.Value())
    ensures rest.Value() == if taken then value.Value() - span.Value() else value.Value()
  {
    if value.hi < span.hi || (value.hi == span.hi && value.lo < span.lo) {
      return value, false;
    }
    var borrow := if value.lo < span.lo then 1 else 0;
    LowDifference(value.lo, span.lo);
    return Words(Low(value.lo as int - span.lo), value.hi - span.hi - borrow), true;
  }

  lemma LowDifference(a: UWord, b: UWord)
    ensures Low(a as int - b) == if a < b then a as int - b + 0x1_0000 else a as int - b
  {
  }

  // Packed fields

  function YearField(date: UWord): int { 1980 + date / 512 }

  function MonthField(date: UWord): int { date / 32 % 16 }

  /** The fields of a packed time and date, valid or not. */
  function Unpacked(time: UWord, date: UWord): Clock {
    Clock(YearField(date), MonthField(date), date % 32, time / 2048, time / 32 % 64, 2 * (time % 32))
  }

  /** The packed form; years before 1980 or after 2107 are moved there, odd seconds go down by one. */
  function PackedTime(c: Clock): int {
    (c.hour * 8 + c.minute / 8) * 256 + (c.minute % 8 * 32 + c.second / 2)
  }

  function PackedDate(c: Clock): int {
    var year := if c.year < 1980 then 1980 else if c.year > 2107 then 2107 else c.year;
    ((year - 1980) * 2 + c.month / 8) * 256 + (c.month % 8 * 32 + c.day)
  }

  lemma PackedFits(c: Clock)
    requires Valid(c)
    ensures 0 <= PackedTime(c) < 0x1_0000 && 0 <= PackedDate(c) < 0x1_0000
    ensures 1980 <= c.year <= 2107 ==>
              Unpacked(PackedTime(c), PackedDate(c)) == c.(second := c.second - c.second % 2)
  {
    PackedTimeFits(c);
    PackedDateFits(c);
  }

  lemma PackedTimeFits(c: Clock)
    requires Valid(c)
    ensures 0 <= PackedTime(c) < 0x1_0000
    ensures var t := PackedTime(c);
            t / 2048 == c.hour && t / 32 % 64 == c.minute && 2 * (t % 32) == c.second - c.second % 2
  {
    var t := PackedTime(c);
    assert c.minute == c.minute / 8 * 8 + c.minute % 8 && c.second == c.second / 2 * 2 + c.second % 2;
    assert t == c.hour * 2048 + c.minute * 32 + c.second / 2;
    DivideDone(t, c.hour, 2048, c.minute * 32 + c.second / 2);
    DivideDone(t, c.hour * 64 + c.minute, 32, c.second / 2);
    DivideDone(c.hour * 64 + c.minute, c.hour, 64, c.minute);
  }

  lemma PackedDateFits(c: Clock)
    requires Valid(c)
    ensures 0 <= PackedDate(c) < 0x1_0000
    ensures PackedDate(c) / 32 % 16 == c.month && PackedDate(c) % 32 == c.day
    ensures 1980 <= c.year <= 2107 ==> 1980 + PackedDate(c) / 512 == c.year
  {
    var d := PackedDate(c);
    var year := if c.year < 1980 then 1980 else if c.year > 2107 then 2107 else c.year;
    assert c.month == c.month / 8 * 8 + c.month % 8;
    assert d == (year - 1980) * 512 + c.month * 32 + c.day;
    DivideDone(d, year - 1980, 512, c.month * 32 + c.day);
    DivideDone(d, (year - 1980) * 16 + c.month, 32, c.day);
    DivideDone((year - 1980) * 16 + c.month, year - 1980, 16, c.month);
  }

  /** Unpacking a packed word pair and packing it again changes nothing. */
  lemma UnpackedPacks(time: UWord, date: UWord)
    requires Valid(Unpacked(time, date))
    ensures PackedTime(Unpacked(time, date)) == time && PackedDate(Unpacked(time, date)) == date
  {
    var c := Unpacked(time, date);
    assert time == time / 2048 * 2048 + time / 32 % 64 * 32 + time % 32 by { SplitWord(time, 32, 64); }
    assert date == date / 512 * 512 + date / 32 % 16 * 32 + date % 32 by { SplitWord(date, 32, 16); }
    assert c.minute == c.minute / 8 * 8 + c.minute % 8 && c.month == c.month / 8 * 8 + c.month % 8;
    assert c.second / 2 == time % 32;
  }

  lemma SplitWord(v: UWord, a: int, b: int)
    requires (a == 32 && b == 64) || (a == 32 && b == 16)
    ensures v == v / (a * b) * (a * b) + v / a % b * a + v % a
  {
    assert v == v / a * a + v % a;
    assert v / a == v / a / b * b + v / a % b;
    DivideDone(v, v / a / b, a * b, v / a % b * a + v % a);
  }

  // Packed time to seconds

  function Capped(v: int): int {
    if v > LAST then LAST else v
  }

  function YearWords(year: int): (w: Words)
    ensures w.Value() == YearSpan(year)
  {
    if year % 4 == 0 && year != 2100 then Words(0x8500, 0x01e2) else Words(0x3380, 0x01e1)
  }

  function MonthWords(year: int, month: int): (w: Words)
    requires 1 <= month <= 12
    ensures w.Value() == MonthSpan(year, month)
  {
    if month == 2 && year % 4 == 0 && year != 2100 then Words(0x3b80, 0x0026)
    else if month == 2 then Words(0xea00, 0x0024)
    else if month == 4 || month == 6 || month == 9 || month == 11 then Words(0x8d00, 0x0027)
    else Words(0xde80, 0x0028)
  }

  /** Adds a span n times, or stops at the largest number. */
  method AddSpans(value: Words, span: Words, n: nat) returns (sum: Words, ok: bool)
    ensures ok == (value.Value() + n * span.Value() <= LAST)
    ensures sum.Value() == Capped(value.Value() + n * span.Value())
  {
    sum, ok := value, true;
    var index := 0;
    while index < n
      invariant 0 <= index <= n && ok && sum.Value() == value.Value() + index * span.Value()
    {
      SpansMore(index, n, span.Value());
      sum, ok := AddSpan(sum, span);
      if !ok {
        return;
      }
      index := index + 1;
    }
  }

  lemma SpansMore(index: nat, n: nat, span: nat)
    requires index < n
    ensures (index + 1) * span == index * span + span && (index + 1) * span <= n * span
  {
    Grows(index + 1, n, span);
  }

  /** Seconds for a packed time and date; None for fields that are no time. Beyond the last 32-bit second the result
      stays there. */
  method Unpack(time: UWord, date: UWord) returns (seconds: Option<Words>)
    ensures seconds.Some? <==> Valid(Unpacked(time, date))
    ensures seconds.Some? ==> seconds.value.Value() == Capped(Seconds(Unpacked(time, date)))
  {
    hide YearStart, MonthStart, YearSpan, MonthSpan, Within;
    var c := Unpacked(time, date);
    if c.month < 1 || c.month > 12 || c.hour > 23 || c.minute > 59 || c.second > 59 {
      return None;
    }
    if c.day < 1 || c.day > DaysIn(c.year, c.month) {
      return None;
    }
    SecondsParts(c);
    var sum, ok := AddYears(c.year);
    if !ok {
      return Some(sum);
    }
    sum, ok := AddMonths(sum, c.year, c.month);
    if !ok {
      return Some(sum);
    }
    sum, ok := AddSpans(sum, Words(0x5180, 1), c.day - 1);
    if !ok {
      return Some(sum);
    }
    sum, ok := AddSpans(sum, Words(3600, 0), c.hour);
    if !ok {
      return Some(sum);
    }
    sum, ok := AddSpans(sum, Words(60, 0), c.minute);
    if !ok {
      return Some(sum);
    }
    sum, ok := AddSpan(sum, Words(c.second, 0));
    return Some(sum);
  }

  lemma SecondsParts(c: Clock)
    requires 1 <= c.day && 0 <= c.hour && 0 <= c.minute && 0 <= c.second
    ensures Seconds(c) == YearStart(c.year) + MonthStart(c.year, c.month) + (c.day - 1) * DAY + c.hour * 3600
            + c.minute * 60
                          + c.second
    ensures Words(0x5180, 1).Value() == DAY && Words(3600, 0).Value() == 3600 && Words(60, 0).Value() == 60
  {
  }

  /** The seconds of the years from 1970 up to, not including, the year. */
  method AddYears(year: int) returns (sum: Words, ok: bool)
    requires year >= 1970
    ensures ok == (YearStart(year) <= LAST) && sum.Value() == Capped(YearStart(year))
  {
    hide YearSpan, YearStart, YearWords, Words.Value;
    ZeroPair();
    sum, ok := Words(0, 0), true;
    var index := 1970;
    Origins(0);
    while index < year
      invariant 1970 <= index <= year && ok && sum.Value() == YearStart(index)
    {
      YearsMore(index, year);
      sum, ok := AddSpan(sum, YearWords(index));
      if !ok {
        return;
      }
      index := index + 1;
    }
  }

  lemma ZeroPair()
    ensures Words(0, 0).Value() == 0
  {
  }

  lemma YearsMore(index: int, year: int)
    requires 1970 <= index < year
    ensures YearStart(index + 1) == YearStart(index) + YearSpan(index) && YearStart(index + 1) <= YearStart(year)
    decreases year - index
  {
    if index + 1 < year {
      YearsMore(index + 1, year);
    }
  }

  method AddMonths(value: Words, year: int, month: int) returns (sum: Words, ok: bool)
    requires 1 <= month <= 12
    ensures ok == (value.Value() + MonthStart(year, month) <= LAST)
    ensures sum.Value() == Capped(value.Value() + MonthStart(year, month))
  {
    hide MonthSpan, MonthStart, MonthWords;
    sum, ok := value, true;
    var index := 1;
    Origins(year);
    while index < month
      invariant 1 <= index <= month && ok && sum.Value() == value.Value() + MonthStart(year, index)
    {
      MonthsMore(year, index, month);
      sum, ok := AddSpan(sum, MonthWords(year, index));
      if !ok {
        return;
      }
      index := index + 1;
    }
  }

  lemma MonthsMore(year: int, index: int, month: int)
    requires 1 <= index < month
    ensures MonthStart(year, index + 1) == MonthStart(year, index) + MonthSpan(year, index)
    ensures MonthStart(year, index + 1) <= MonthStart(year, month)
    decreases month - index
  {
    hide MonthSpan;
    SpanPositive(year, index + 1);
    if index + 1 < month {
      MonthsMore(year, index + 1, month);
    }
  }

  // Seconds to packed time

  /** Takes a span as often as it goes. */
  method TakeSpans(value: Words, span: Words) returns (rest: Words, n: nat)
    requires span.Value() > 0
    ensures n == value.Value() / span.Value() && rest.Value() == value.Value() % span.Value()
  {
    hide Words.Value;
    n := 0;
    ghost var spans := 0;
    var taken;
    rest, taken := TakeSpan(value, span);
    while taken
      invariant rest.Value() >= 0 && rest.Value() + spans + (if taken then span.Value() else 0) == value.Value()
      invariant spans == n * span.Value() && (!taken ==> rest.Value() < span.Value())
      decreases taken, rest.Value()
    {
      assert (n + 1) * span.Value() == n * span.Value() + span.Value();
      n, spans := n + 1, spans + span.Value();
      rest, taken := TakeSpan(rest, span);
    }
    DivideDone(value.Value(), n, span.Value(), rest.Value());
  }

  /** The fields of a number of seconds. */
  method StatClock(seconds: Words) returns (c: Clock)
    ensures c == Fields(seconds.Value())
  {
    hide YearSpan, MonthSpan;
    var year, rest := TakeYears(seconds);
    var month;
    month, rest := TakeMonths(year, rest);
    var days, hours, minutes;
    rest, days := TakeSpans(rest, Words(0x5180, 1));
    rest, hours := TakeSpans(rest, Words(3600, 0));
    rest, minutes := TakeSpans(rest, Words(60, 0));
    c := Clock(year, month, 1 + days, hours, minutes, rest.lo);
    SmallRest(seconds.Value());
  }

  lemma SmallRest(s: nat)
    ensures forall v: nat :: v % 3600 % 60 == v % 60
  {
    forall v: nat
      ensures v % 3600 % 60 == v % 60
    {
      DivideDone(v, v / 3600 * 60 + v % 3600 / 60, 60, v % 3600 % 60);
    }
  }

  method TakeYears(seconds: Words) returns (year: int, rest: Words)
    ensures (year, rest.Value()) == YearAt(1970, seconds.Value())
  {
    hide YearSpan;
    year := 1970;
    SpansPositive(year);
    var taken;
    rest, taken := TakeSpan(seconds, YearWords(year));
    while taken
      invariant YearAt(1970, seconds.Value()) == if taken then YearAt(year + 1, rest.Value()) else (year, rest.Value())
      decreases taken, rest.Value()
    {
      year := year + 1;
      SpansPositive(year);
      rest, taken := TakeSpan(rest, YearWords(year));
    }
  }

  lemma SpansPositive(year: int)
    ensures YearSpan(year) > 0
  {
  }

  method TakeMonths(year: int, inYear: Words) returns (month: int, rest: Words)
    ensures (month, rest.Value()) == MonthAt(year, 1, inYear.Value())
  {
    hide MonthSpan;
    month, rest := 1, inYear;
    while month < 12
      invariant 1 <= month <= 12 && MonthAt(year, 1, inYear.Value()) == MonthAt(year, month, rest.Value())
    {
      var taken;
      rest, taken := TakeSpan(rest, MonthWords(year, month));
      if !taken {
        return;
      }
      month := month + 1;
    }
  }

  // Round trips

  /** A packed time whose seconds fit 32 bits survives unpacking, reading back and packing. */
  lemma PackedRoundTrip(time: UWord, date: UWord)
    requires Valid(Unpacked(time, date)) && Seconds(Unpacked(time, date)) <= LAST
    ensures var c := Fields(Capped(Seconds(Unpacked(time, date))));
            PackedTime(c) == time && PackedDate(c) == date
  {
    FieldsOfSeconds(Unpacked(time, date));
    UnpackedPacks(time, date);
  }

  const FIRST := 315532800

  /** Seconds from 1980 on survive packing and unpacking, rounded down to an even number. */
  lemma SecondsRoundTrip(s: nat)
    requires FIRST <= s <= LAST
    ensures var c := Fields(s);
            && 0 <= PackedTime(c) < 0x1_0000 && 0 <= PackedDate(c) < 0x1_0000
            && Valid(Unpacked(PackedTime(c), PackedDate(c)))
            && Capped(Seconds(Unpacked(PackedTime(c), PackedDate(c)))) == s - s % 2
  {
    hide PackedTime, PackedDate, Unpacked, YearStart, MonthStart, Fields, DaysIn;
    var c := Fields(s);
    FieldsValid(s);
    YearRange(s);
    PackedFits(c);
    EvenSeconds(c);
  }

  lemma EvenSeconds(c: Clock)
    requires Valid(c)
    ensures var even := c.(second := c.second - c.second % 2);
            Valid(even) && Seconds(even) == Seconds(c) - Seconds(c) % 2 && Seconds(even) >= 0
  {
    hide DaysIn, YearStart, MonthStart;
    EvenStart(c.year, c.month);
    var (y, m) := (YearStart(c.year) / 2, MonthStart(c.year, c.month) / 2);
    var h := y + m + (c.day - 1) * 43200 + c.hour * 1800 + c.minute * 30;
    assert Seconds(c) == 2 * h + c.second;
    DivideDone(Seconds(c), h + c.second / 2, 2, c.second % 2);
  }

  lemma EvenStart(y: int, m: int)
    ensures YearStart(y) % 2 == 0 && MonthStart(y, m) % 2 == 0
    decreases y - 1970, m
  {
    EvenYears(y);
    EvenMonths(y, m);
  }

  lemma {:induction false} EvenYears(y: int)
    ensures YearStart(y) % 2 == 0
    decreases y
  {
    if y > 1970 {
      EvenYears(y - 1);
    }
  }

  lemma {:induction false} EvenMonths(y: int, m: int)
    ensures MonthStart(y, m) % 2 == 0
    decreases m
  {
    if m > 1 {
      EvenMonths(y, m - 1);
    }
  }

  /** 32-bit seconds from 1980 on fall between 1980 and 2106. */
  lemma YearRange(s: nat)
    requires FIRST <= s <= LAST
    ensures 1980 <= Fields(s).year <= 2106
  {
    hide YearStart, MonthAt;
    YearAtIs(1970, s);
    var year := YearAt(1970, s).0;
    Century();
    Origins(0);
    if year >= 2107 {
      YearsGrow(2107, year);
    }
    if year < 1980 {
      YearsGrow(year + 1, 1980);
      YearsMore(year, year + 1);
    }
  }

  lemma YearsGrow(a: int, b: int)
    requires 1970 <= a <= b
    ensures YearStart(a) <= YearStart(b)
    decreases b - a
  {
    if a < b {
      YearsMore(a, b);
      YearsGrow(a + 1, b);
    }
  }

  /** Four years at a time. */
  lemma {:induction false} FourYears(y: int, n: nat)
    requires y >= 1970 && y % 4 == 1 && (y + 4 * n <= 2100 || y >= 2101)
    ensures YearStart(y + 4 * n) == YearStart(y) + n * 1461 * DAY
  {
    hide YearStart, YearSpan;
    if n > 0 {
      FourYears(y, n - 1);
      var z := y + 4 * (n - 1);
      YearsMore(z, z + 1);
      YearsMore(z + 1, z + 2);
      YearsMore(z + 2, z + 3);
      YearsMore(z + 3, z + 4);
      LeapCycle(z);
    }
  }

  lemma LeapCycle(y: int)
    requires y % 4 == 1 && !(y < 2100 <= y + 3)
    ensures YearSpan(y) + YearSpan(y + 1) + YearSpan(y + 2) + YearSpan(y + 3) == 1461 * DAY
  {
  }

  lemma Century()
    ensures YearStart(1980) == FIRST && YearStart(2107) > LAST
  {
    hide YearStart;
    Origins(0);
    YearsMore(1970, 1971);
    YearsMore(1971, 1972);
    YearsMore(1972, 1973);
    FourYears(1973, 1);
    YearsMore(1977, 1978);
    YearsMore(1978, 1979);
    YearsMore(1979, 1980);
    FourYears(1973, 31);
    YearsMore(2097, 2098);
    YearsMore(2098, 2099);
    YearsMore(2099, 2100);
    YearsMore(2100, 2101);
    FourYears(2101, 1);
    YearsMore(2105, 2106);
    YearsMore(2106, 2107);
  }

  // The calendar in use

  /** The leap years of the calendar in use. */
  predicate Bissextile(year: int) {
    year % 4 == 0 && (year % 100 != 0 || year % 400 == 0)
  }

  /** Days from 1970 to the start of a year. */
  function DaysTo(year: int): int {
    365 * (year - 1970) + ((year - 1) / 4 - 492) - ((year - 1) / 100 - 19) + ((year - 1) / 400 - 4)
  }

  /** Days from the start of a common year to that of a month. */
  const BEFORE := [0, 31, 59, 90, 120, 151, 181, 212, 243, 273, 304, 334]

  lemma {:induction false} YearStartIs(year: int)
    requires 1970 <= year <= 2200
    ensures YearStart(year) == 86400 * DaysTo(year)
    decreases year
  {
    if year > 1970 {
      hide Leap;
      YearStartIs(year - 1);
      LeapIs(year - 1);
      DaysNext(year - 1);
    }
  }

  lemma LeapIs(year: int)
    requires 1970 <= year < 2200
    ensures Leap(year) <==> Bissextile(year)
  {
  }

  lemma DaysNext(year: int)
    ensures DaysTo(year + 1) == DaysTo(year) + if Bissextile(year) then 366 else 365
  {
    CountNext(year, 4);
    CountNext(year, 100);
    CountNext(year, 400);
  }

  lemma CountNext(year: int, n: int)
    requires n == 4 || n == 100 || n == 400
    ensures year / n == (year - 1) / n + if year % n == 0 then 1 else 0
  {
  }

  lemma MonthStartIs(year: int, month: int)
    requires 1970 <= year < 2200 && 1 <= month <= 12
    ensures MonthStart(year, month)
         == 86400 * (BEFORE[month - 1] + if month > 2 && Bissextile(year) then 1 else 0)
  {
    LeapIs(year);
    assert MonthStart(year, 3) == MonthStart(year, 1) + MonthSpan(year, 1) + MonthSpan(year, 2);
    assert MonthStart(year, 6)
        == MonthStart(year, 3) + MonthSpan(year, 3) + MonthSpan(year, 4) + MonthSpan(year, 5);
    assert MonthStart(year, 9)
        == MonthStart(year, 6) + MonthSpan(year, 6) + MonthSpan(year, 7) + MonthSpan(year, 8);
    assert MonthStart(year, 12)
        == MonthStart(year, 9) + MonthSpan(year, 9) + MonthSpan(year, 10) + MonthSpan(year, 11);
  }

  /** Up to the year 2199 the seconds are those of the calendar in use. */
  lemma SecondsCivil(c: Clock)
    requires Valid(c) && c.year < 2200
    ensures var days := DaysTo(c.year) + BEFORE[c.month - 1]
                        + (if c.month > 2 && Bissextile(c.year) then 1 else 0) + c.day - 1;
            Seconds(c) == 86400 * days + 3600 * c.hour + 60 * c.minute + c.second
  {
    YearStartIs(c.year);
    MonthStartIs(c.year, c.month);
  }
}
