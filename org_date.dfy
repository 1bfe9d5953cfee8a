/**
 * `printOrgDate`: the org-mode timestamp of an event's start and end, written
 * with Go's layouts "2006-01-02" (all-day events) and "2006-01-02 Mon 15:04"
 * (timed events). `ParseSpan` reads such a timestamp back the way org-mode does,
 * and `PrintOrgDateReadsBack` shows that the text reads back as the timestamp
 * shape the code chooses, `ShownSpan`. That shape loses the end date of a timed
 * event whose end falls on the same day of another month (`IntendedSpan`,
 * `MonthApartReadsAsSameDay`).
 */
module OrgDate {
  import opened Wrappers
  import opened Civil
  import opened CalendarApi

  function Digit(n: nat): (c: char)
    requires n < 10
    ensures IsDigit(c) && DigitValue(c) == n
  {
    ('0' as int + n) as char
  }

  predicate IsDigit(c: char) {
    '0' <= c <= '9'
  }

  function DigitValue(c: char): int {
    c as int - '0' as int
  }

  /** Go's `appendInt(b, n, width)` for `n >= 0`: the decimal digits of `n`, zero-padded on the left to `width`. */
  function Dec(n: nat, width: nat): string
    decreases n, width
  {
    if n < 10 && width <= 1 then [Digit(n)]
    else Dec(n / 10, if width > 0 then width - 1 else 0) + [Digit(n % 10)]
  }

  /** The layout element "2006": the year in at least four digits, with a sign if negative. */
  function FormatYear(y: int): string {
    if y < 0 then "-" + Dec(-y, 4) else Dec(y, 4)
  }

  /** The layout "2006-01-02". */
  function FormatDate(d: Date): string
    requires d.month >= 0 && d.day >= 0
  {
    FormatYear(d.year) + "-" + Dec(d.month, 2) + "-" + Dec(d.day, 2)
  }

  /** The layout element "Mon". */
  function WeekdayName(w: Weekday): string {
    match w
    case Sunday => "Sun"
    case Monday => "Mon"
    case Tuesday => "Tue"
    case Wednesday => "Wed"
    case Thursday => "Thu"
    case Friday => "Fri"
    case Saturday => "Sat"
  }

  /** The layout "15:04". */
  function FormatClock(t: Stamp): string {
    Dec(t.hour, 2) + ":" + Dec(t.minute, 2)
  }

  /** The layout "2006-01-02 Mon 15:04". */
  function FormatStamp(t: Stamp): string {
    FormatDate(t.date) + " " + WeekdayName(t.weekday) + " " + FormatClock(t)
  }

  /**
   * `printOrgDate(start, end)`. No start gives a bare newline. An all-day event
   * shows its start date and, when the day before the (exclusive) end date is
   * another day, that day as the end of a date range. A timed event shows its
   * start stamp and, when there is an end, either only the end's clock (when the
   * end falls on the same day of the month) or the full end stamp.
   */
  function PrintOrgDate(start: Option<EventDateTime>, end: Option<EventDateTime>): (r: string)
    ensures r == "\n" <==> start.None?
    ensures start.Some? ==> |r| > 2 && r[0] == '<' && r[|r| - 1] == '>'
  {
    match start
    case None => "\n"
    case Some(s) =>
      if s.allDay then
        var first := "<" + FormatDate(s.date);
        match end
        case None => first + ">"
        case Some(e) =>
          var last := DayBefore(e.date);
          if last == s.date then first + ">"
          else first + ">--<" + FormatDate(last) + ">"
      else
        var first := "<" + FormatStamp(s.local);
        match end
        case None => first + ">"
        case Some(e) =>
          if e.local.date.day != s.local.date.day then first + ">--<" + FormatStamp(e.local) + ">"
          else first + "-" + FormatClock(e.local) + ">"
  }

  // Reading timestamps back, as org-mode does.

  /** What an org timestamp says. */
  datatype Span =
    | OnDay(day: Date)                                          // <2006-01-02>
    | DayRange(first: Date, last: Date)                         // <2006-01-02>--<2006-01-03>
    | At(time: LocalTime)                                       // <2006-01-02 Mon 15:04>
    | AtUntil(time: LocalTime, untilHour: int, untilMinute: int) // <2006-01-02 Mon 15:04-16:05>
    | Between(from: LocalTime, to: LocalTime)                   // <2006-01-02 Mon 15:04>--<2006-01-03 Tue 09:00>

  function Pow10(k: nat): nat {
    if k == 0 then 1 else 10 * Pow10(k - 1)
  }

  /** The number a string of decimal digits stands for. */
  function ParseDigits(s: string): Option<nat>
    decreases |s|
  {
    if s == [] then Some(0)
    else if !IsDigit(s[|s| - 1]) then None
    else match ParseDigits(s[..|s| - 1])
      case None => None
      case Some(v) => Some(10 * v + DigitValue(s[|s| - 1]))
  }

  function ParseDate(s: string): Option<Date>
    requires |s| == 10
  {
    if s[4] != '-' || s[7] != '-' then None
    else match (ParseDigits(s[..4]), ParseDigits(s[5..7]), ParseDigits(s[8..]))
      case (Some(y), Some(m), Some(d)) => Some(Date(y, m, d))
      case _ => None
  }

  function ParseWeekday(s: string): Option<Weekday> {
    if s == "Sun" then Some(Sunday)
    else if s == "Mon" then Some(Monday)
    else if s == "Tue" then Some(Tuesday)
    else if s == "Wed" then Some(Wednesday)
    else if s == "Thu" then Some(Thursday)
    else if s == "Fri" then Some(Friday)
    else if s == "Sat" then Some(Saturday)
    else None
  }

  function ParseClock(s: string): Option<(int, int)>
    requires |s| == 5
  {
    if s[2] != ':' then None
    else match (ParseDigits(s[..2]), ParseDigits(s[3..]))
      case (Some(h), Some(m)) => Some((h, m))
      case _ => None
  }

  function ParseStamp(s: string): Option<LocalTime>
    requires |s| == 20
  {
    if s[10] != ' ' || s[14] != ' ' then None
    else match (ParseDate(s[..10]), ParseWeekday(s[11..14]), ParseClock(s[15..]))
      case (Some(d), Some(w), Some(c)) => Some(LocalTime(d, w, c.0, c.1))
      case _ => None
  }

  /** Reads one org timestamp of the five shapes `PrintOrgDate` writes. */
  function ParseSpan(s: string): Option<Span> {
    if |s| == 12 && s[0] == '<' && s[11] == '>' then
      match ParseDate(s[1..11])
      case Some(d) => Some(OnDay(d))
      case None => None
    else if |s| == 26 && s[0] == '<' && s[11..15] == ">--<" && s[25] == '>' then
      match (ParseDate(s[1..11]), ParseDate(s[15..25]))
      case (Some(a), Some(b)) => Some(DayRange(a, b))
      case _ => None
    else if |s| == 22 && s[0] == '<' && s[21] == '>' then
      match ParseStamp(s[1..21])
      case Some(t) => Some(At(t))
      case None => None
    else if |s| == 28 && s[0] == '<' && s[21] == '-' && s[27] == '>' then
      match (ParseStamp(s[1..21]), ParseClock(s[22..27]))
      case (Some(t), Some(c)) => Some(AtUntil(t, c.0, c.1))
      case _ => None
    else if |s| == 46 && s[0] == '<' && s[21..25] == ">--<" && s[45] == '>' then
      match (ParseStamp(s[1..21]), ParseStamp(s[25..45]))
      case (Some(a), Some(b)) => Some(Between(a, b))
      case _ => None
    else None
  }

  /**
   * The timestamp shape `printOrgDate` chooses for an event with this start and
   * end: an all-day event covers its start date through the day before its
   * exclusive end date; a timed event shows its start, and its end either as a
   * clock alone, when the end falls on the same day of the month, or in full.
   */
  function ShownSpan(start: EventDateTime, end: Option<EventDateTime>): Span {
    if start.allDay then
      if end.None? || DayBefore(end.value.date) == start.date then OnDay(start.date)
      else DayRange(start.date, DayBefore(end.value.date))
    else if end.None? then At(start.local)
    else if end.value.local.date.day != start.local.date.day then Between(start.local, end.value.local)
    else AtUntil(start.local, end.value.local.hour, end.value.local.minute)
  }

  /**
   * What the timestamp is meant to say: as `ShownSpan`, except that a timed
   * event shows only its end's clock when it ends on the very date it starts.
   */
  function IntendedSpan(start: EventDateTime, end: Option<EventDateTime>): Span {
    if start.allDay then
      if end.None? || DayBefore(end.value.date) == start.date then OnDay(start.date)
      else DayRange(start.date, DayBefore(end.value.date))
    else if end.None? then At(start.local)
    else if end.value.local.date != start.local.date then Between(start.local, end.value.local)
    else AtUntil(start.local, end.value.local.hour, end.value.local.minute)
  }

  /**
   * The shape the code chooses is the intended one except for a timed event that
   * ends on another date with the same day of the month: the day-of-month test
   * of `printOrgDate` does not see the month and year.
   */
  lemma ShownIsIntendedUnlessSameDayOfMonth(start: EventDateTime, end: Option<EventDateTime>)
    ensures ShownSpan(start, end) != IntendedSpan(start, end)
            <==> !start.allDay && end.Some? && end.value.local.date != start.local.date
                 && end.value.local.date.day == start.local.date.day
  {
  }

  /** The years that the layout "2006" writes as exactly four digits. */
  predicate FourDigitYear(d: Date) {
    0 <= d.year <= 9999
  }

  lemma {:induction false} DecReadsBack(n: nat, width: nat)
    requires 1 <= width && n < Pow10(width)
    ensures |Dec(n, width)| == width
    ensures ParseDigits(Dec(n, width)) == Some(n)
    decreases n, width
  {
    if n < 10 && width <= 1 {
      assert Dec(n, width) == [Digit(n)];
      assert [Digit(n)][..0] == [];
    } else {
      var w := width - 1;
      assert Pow10(1) == 10;
      assert 1 <= w;
      assert n / 10 < Pow10(w);
      DecReadsBack(n / 10, w);
      var t := Dec(n / 10, w);
      assert (t + [Digit(n % 10)])[..|t|] == t;
    }
  }

  lemma DateReadsBack(d: Date)
    requires ValidDate(d) && FourDigitYear(d)
    ensures |FormatDate(d)| == 10 && ParseDate(FormatDate(d)) == Some(d)
  {
    assert Pow10(2) == 100 && Pow10(4) == 10000;
    DecReadsBack(d.year, 4);
    DecReadsBack(d.month, 2);
    DecReadsBack(d.day, 2);
    var s := FormatDate(d);
    assert s[..4] == Dec(d.year, 4);
    assert s[5..7] == Dec(d.month, 2);
    assert s[8..] == Dec(d.day, 2);
  }

  lemma WeekdayReadsBack(w: Weekday)
    ensures |WeekdayName(w)| == 3 && ParseWeekday(WeekdayName(w)) == Some(w)
  {
    match w
    case Sunday =>
    case Monday => assert "Mon" != "Sun";
    case Tuesday => assert "Tue" != "Sun" && "Tue" != "Mon";
    case Wednesday => assert "Wed" != "Sun" && "Wed" != "Mon" && "Wed" != "Tue";
    case Thursday => assert "Thu" != "Sun" && "Thu" != "Mon" && "Thu" != "Tue" && "Thu" != "Wed";
    case Friday => assert "Fri" != "Sun" && "Fri" != "Mon" && "Fri" != "Tue" && "Fri" != "Wed" && "Fri" != "Thu";
    case Saturday =>
      assert "Sat" != "Sun" && "Sat" != "Mon" && "Sat" != "Tue" && "Sat" != "Wed" && "Sat" != "Thu" && "Sat" != "Fri";
  }

  lemma ClockReadsBack(t: Stamp)
    ensures |FormatClock(t)| == 5 && ParseClock(FormatClock(t)) == Some((t.hour, t.minute))
  {
    assert Pow10(2) == 100;
    DecReadsBack(t.hour, 2);
    DecReadsBack(t.minute, 2);
    Joined(Dec(t.hour, 2), ':', Dec(t.minute, 2));
  }

  lemma StampReadsBack(t: Stamp)
    requires FourDigitYear(t.date)
    ensures |FormatStamp(t)| == 20 && ParseStamp(FormatStamp(t)) == Some(t)
    ensures |FormatClock(t)| == 5 && ParseClock(FormatClock(t)) == Some((t.hour, t.minute))
  {
    DateReadsBack(t.date);
    ClockReadsBack(t);
    WeekdayReadsBack(t.weekday);
    Spaced(FormatDate(t.date), WeekdayName(t.weekday), FormatClock(t));
    var s := FormatStamp(t);
    assert ParseDate(s[..10]) == Some(t.date);
    assert ParseWeekday(s[11..14]) == Some(t.weekday);
  }


  lemma OnDayReadsBack(d: CivilDate)
    requires FourDigitYear(d)
    ensures ParseSpan("<" + FormatDate(d) + ">") == Some(OnDay(d))
  {
    DateReadsBack(d);
    Bracketed(FormatDate(d));
  }

  // Where the parts of a printed timestamp sit

  lemma Joined(a: string, sep: char, b: string)
    ensures var s := a + [sep] + b;
            |s| == |a| + |b| + 1 && s[..|a|] == a && s[|a|] == sep && s[|a| + 1..] == b
  {
    var s := a + [sep] + b;
    assert s[..|a|] == a;
    assert s[|a| + 1..] == b;
  }

  lemma Spaced(d: string, w: string, c: string)
    ensures var s := d + " " + w + " " + c;
            |s| == |d| + |w| + |c| + 2 && s[..|d|] == d && s[|d|] == ' ' && s[|d| + 1..|d| + 1 + |w|] == w
            && s[|d| + 1 + |w|] == ' ' && s[|d| + |w| + 2..] == c
  {
    var s := d + " " + w + " " + c;
    assert s[..|d|] == d;
    assert s[|d| + 1..|d| + 1 + |w|] == w;
    assert s[|d| + |w| + 2..] == c;
  }

  lemma Bracketed(a: string)
    ensures var r := "<" + a + ">";
            |r| == |a| + 2 && r[0] == '<' && r[1..|a| + 1] == a && r[|a| + 1] == '>'
  {
    var r := "<" + a + ">";
    assert r[1..|a| + 1] == a;
  }

  lemma Ranged(a: string, b: string)
    ensures var r := "<" + a + ">--<" + b + ">";
            |r| == |a| + |b| + 6 && r[0] == '<' && r[1..|a| + 1] == a && r[|a| + 1..|a| + 5] == ">--<"
            && r[|a| + 5..|a| + |b| + 5] == b && r[|a| + |b| + 5] == '>'
  {
    var r := "<" + a + ">--<" + b + ">";
    assert r[1..|a| + 1] == a;
    assert r[|a| + 1..|a| + 5] == ">--<";
    assert r[|a| + 5..|a| + |b| + 5] == b;
  }

  lemma Until(a: string, c: string)
    ensures var r := "<" + a + "-" + c + ">";
            |r| == |a| + |c| + 3 && r[0] == '<' && r[1..|a| + 1] == a && r[|a| + 1] == '-'
            && r[|a| + 2..|a| + |c| + 2] == c && r[|a| + |c| + 2] == '>'
  {
    var r := "<" + a + "-" + c + ">";
    assert r[1..|a| + 1] == a;
    assert r[|a| + 2..|a| + |c| + 2] == c;
  }

  lemma DayRangeReadsBack(d: CivilDate, e: CivilDate)
    requires FourDigitYear(d) && FourDigitYear(e)
    ensures ParseSpan("<" + FormatDate(d) + ">--<" + FormatDate(e) + ">") == Some(DayRange(d, e))
  {
    DateReadsBack(d);
    DateReadsBack(e);
    Ranged(FormatDate(d), FormatDate(e));
  }

  lemma AtReadsBack(t: Stamp)
    requires FourDigitYear(t.date)
    ensures ParseSpan("<" + FormatStamp(t) + ">") == Some(At(t))
  {
    StampReadsBack(t);
    Bracketed(FormatStamp(t));
  }

  lemma AtUntilReadsBack(t: Stamp, u: Stamp)
    requires FourDigitYear(t.date)
    ensures ParseSpan("<" + FormatStamp(t) + "-" + FormatClock(u) + ">") == Some(AtUntil(t, u.hour, u.minute))
  {
    StampReadsBack(t);
    ClockReadsBack(u);
    Until(FormatStamp(t), FormatClock(u));
  }

  lemma BetweenReadsBack(t: Stamp, u: Stamp)
    requires FourDigitYear(t.date) && FourDigitYear(u.date)
    ensures ParseSpan("<" + FormatStamp(t) + ">--<" + FormatStamp(u) + ">") == Some(Between(t, u))
  {
    StampReadsBack(t);
    StampReadsBack(u);
    Ranged(FormatStamp(t), FormatStamp(u));
  }

  /**
   * Every timestamp `printOrgDate` writes reads back as the shape the code
   * chooses, as long as the years it prints have four digits.
   */
  lemma PrintOrgDateReadsBack(start: EventDateTime, end: Option<EventDateTime>)
    requires start.allDay ==> FourDigitYear(start.date)
    requires start.allDay && end.Some? ==> FourDigitYear(DayBefore(end.value.date))
    requires !start.allDay ==> FourDigitYear(start.local.date)
    requires !start.allDay && end.Some? && end.value.local.date.day != start.local.date.day
             ==> FourDigitYear(end.value.local.date)
    ensures ParseSpan(PrintOrgDate(Some(start), end)) == Some(ShownSpan(start, end))
  {
    if start.allDay {
      if end.None? || DayBefore(end.value.date) == start.date {
        OnDayReadsBack(start.date);
      } else {
        DayRangeReadsBack(start.date, DayBefore(end.value.date));
      }
    } else if end.None? {
      AtReadsBack(start.local);
    } else if end.value.local.date.day != start.local.date.day {
      BetweenReadsBack(start.local, end.value.local);
    } else {
      AtUntilReadsBack(start.local, end.value.local);
    }
  }

  /**
   * A timed event from 5 January 2024, 10:00, to 5 February 2024, 11:30, is
   * written as a same-day timestamp: it reads back with the end's clock only,
   * not as the month-long span it is.
   */
  lemma MonthApartReadsAsSameDay(start: EventDateTime, end: EventDateTime)
    requires !start.allDay && start.local == LocalTime(Date(2024, 1, 5), Friday, 10, 0)
    requires end.local == LocalTime(Date(2024, 2, 5), Monday, 11, 30)
    ensures ParseSpan(PrintOrgDate(Some(start), Some(end))) == Some(AtUntil(start.local, 11, 30))
    ensures ParseSpan(PrintOrgDate(Some(start), Some(end))) != Some(IntendedSpan(start, Some(end)))
    ensures IntendedSpan(start, Some(end)) == Between(start.local, end.local)
  {
    PrintOrgDateReadsBack(start, Some(end));
  }
}
