/** The calendar page: the month on display, the grid of cells built for it
    (blank cells up to the first weekday, then one cell per day holding the
    events whose date key matches), the two-inline-plus-overflow rule of a
    cell, and the month navigation buttons. The current time is a parameter. */
module Calendar {
  import opened Prelude
  import opened Text
  import opened DateMath

  // ---------------------------------------------------------------------------
  // Events

  /** The three event kinds; `General` is the kind the page calls 'event'. */
  datatype EventType = Meeting | Deadline | General

  datatype Event = Event(id: int, title: string, date: string, time: string, kind: EventType, location: Option<string>)

  /** The events the page is seeded with, all in June 2024. */
  function Events(): seq<Event>
  {
    [ Event(1, "Team Meeting", "2024-06-15", "10:00 AM", Meeting, Some("Conference Room A")),
      Event(2, "Project Deadline", "2024-06-20", "5:00 PM", Deadline, None),
      Event(3, "Client Presentation", "2024-06-25", "2:00 PM", Meeting, Some("Client Office")),
      Event(4, "Product Launch", "2024-06-28", "12:00 PM", General, Some("Main Auditorium")) ]
  }

  // ---------------------------------------------------------------------------
  // Dates

  /** What the page reads from a Date object: full year, month 0..11, day of month. */
  datatype Date = Date(year: int, month: int, day: int)

  predicate ValidDate(t: Date)
  {
    0 <= t.month < 12 && 1 <= t.day <= DaysInMonth(t.year, t.month)
  }

  /** The key a day is looked up by: year, two-digit month (1-based) and
      two-digit day joined by dashes, as in ISO 8601 "YYYY-MM-DD". */
  function DateKey(y: int, m: int, d: int): (r: string)
    requires 0 <= m < 12 && 1 <= d <= 31
    ensures |r| == |IntToString(y)| + 6 && r[|r| - 6] == '-' && r[|r| - 3] == '-'
  {
    IntToString(y) + "-" + TwoDigits(m + 1) + "-" + TwoDigits(d)
  }

  /** A key with two-character fields splits back into its three fields. */
  lemma KeyFields(a1: string, b1: string, c1: string, a2: string, b2: string, c2: string)
    requires |b1| == |b2| == |c1| == |c2| == 2
    requires a1 + "-" + b1 + "-" + c1 == a2 + "-" + b2 + "-" + c2
    ensures a1 == a2 && b1 == b2 && c1 == c2
  {
    var k := a1 + "-" + b1 + "-" + c1;
    var n := |a1|;
    assert |a2| == n;
    assert k[..n] == a1;
    assert (a2 + "-" + b2 + "-" + c2)[..n] == a2;
    assert k[n + 1..n + 3] == b1;
    assert (a2 + "-" + b2 + "-" + c2)[n + 1..n + 3] == b2;
    assert k[n + 4..] == c1;
    assert (a2 + "-" + b2 + "-" + c2)[n + 4..] == c2;
  }

  /** Distinct days have distinct keys, so a key names exactly one day. */
  lemma DateKeyInjective(y1: int, m1: int, d1: int, y2: int, m2: int, d2: int)
    requires 0 <= m1 < 12 && 1 <= d1 <= 31 && 0 <= m2 < 12 && 1 <= d2 <= 31
    requires DateKey(y1, m1, d1) == DateKey(y2, m2, d2)
    ensures y1 == y2 && m1 == m2 && d1 == d2
  {
    KeyFields(IntToString(y1), TwoDigits(m1 + 1), TwoDigits(d1), IntToString(y2), TwoDigits(m2 + 1), TwoDigits(d2));
    IntToStringInjective(y1, y2);
    TwoDigitsInjective(m1 + 1, m2 + 1);
    TwoDigitsInjective(d1, d2);
  }

  /** Different days of any months have different keys. */
  lemma KeysDiffer(y1: int, m1: int, d1: int, y2: int, m2: int, d2: int)
    requires 0 <= m1 < 12 && 1 <= d1 <= 31 && 0 <= m2 < 12 && 1 <= d2 <= 31
    requires y1 != y2 || m1 != m2 || d1 != d2
    ensures DateKey(y1, m1, d1) != DateKey(y2, m2, d2)
  {
    if DateKey(y1, m1, d1) == DateKey(y2, m2, d2) {
      DateKeyInjective(y1, m1, d1, y2, m2, d2);
    }
  }

  /** `a` is a strictly earlier day than `b`. */
  predicate Earlier(a: Date, b: Date)
  {
    a.year < b.year || (a.year == b.year && (a.month < b.month || (a.month == b.month && a.day < b.day)))
  }

  /** A key splits into the year field and the rest, which starts with the dash. */
  lemma KeyHead(y: int, m: int, d: int)
    requires 0 <= m < 12 && 1 <= d <= 31
    ensures DateKey(y, m, d) == IntToString(y) + ("-" + (TwoDigits(m + 1) + ("-" + TwoDigits(d))))
  {
  }

  /** Keys whose fields have equal widths compare field by field. */
  lemma LessFields(sep: char, ya: string, ma: string, da: string, yb: string, mb: string, db: string)
    requires |ya| == |yb| && |ma| == |mb|
    ensures Less(ya + ([sep] + (ma + ([sep] + da))), yb + ([sep] + (mb + ([sep] + db))))
      <==> Less(ya, yb) || (ya == yb && (Less(ma, mb) || (ma == mb && Less(da, db))))
  {
    var sa, sb := ma + ([sep] + da), mb + ([sep] + db);
    LessSameHead(sep, da, db);
    LessAppend(ma, mb, [sep] + da, [sep] + db);
    LessSameHead(sep, sa, sb);
    LessAppend(ya, yb, [sep] + sa, [sep] + sb);
    LessIrreflexive(ya);
    LessIrreflexive(ma);
  }

  /** A valid-looking day whose year the key format writes with four digits. */
  predicate FourDigitDay(t: Date)
  {
    1000 <= t.year <= 9999 && 0 <= t.month < 12 && 1 <= t.day <= 31
  }

  /** For four-digit years, one key sorts before another as a string exactly
      when its day is earlier, so the string order of keys is chronological. */
  lemma DateKeyOrder(a: Date, b: Date)
    requires FourDigitDay(a) && FourDigitDay(b)
    ensures Less(DateKey(a.year, a.month, a.day), DateKey(b.year, b.month, b.day)) <==> Earlier(a, b)
  {
    var ya, ma, da := IntToString(a.year), TwoDigits(a.month + 1), TwoDigits(a.day);
    var yb, mb, db := IntToString(b.year), TwoDigits(b.month + 1), TwoDigits(b.day);
    KeyHead(a.year, a.month, a.day);
    KeyHead(b.year, b.month, b.day);
    FourDigitYear(a.year);
    FourDigitYear(b.year);
    LessFields('-', ya, ma, da, yb, mb, db);
    LessFourDigitYears(a.year, b.year);
    LessTwoDigits(a.month + 1, b.month + 1);
    LessTwoDigits(a.day, b.day);
    if ya == yb {
      IntToStringInjective(a.year, b.year);
    }
    if ma == mb {
      TwoDigitsInjective(a.month + 1, b.month + 1);
    }
  }

  function DateIs(key: string): Event -> bool
  {
    (e: Event) => e.date == key
  }

  /** getEventsForDate: the events whose date equals the day's key. */
  function EventsForDate(events: seq<Event>, y: int, m: int, d: int): (r: seq<Event>)
    requires 0 <= m < 12 && 1 <= d <= 31
    ensures |r| <= |events|
  {
    Filter(events, DateIs(DateKey(y, m, d)))
  }

  /** An event is returned exactly when it is in the list and its date is the
      day's key. */
  lemma EventsForDateMembers(events: seq<Event>, y: int, m: int, d: int, e: Event)
    requires 0 <= m < 12 && 1 <= d <= 31
    ensures e in EventsForDate(events, y, m, d) <==> e in events && e.date == DateKey(y, m, d)
  {
  }

  /** Each matching event is returned as often as it occurs in the list, and
      no other event at all. */
  lemma EventsForDateCount(events: seq<Event>, y: int, m: int, d: int, e: Event)
    requires 0 <= m < 12 && 1 <= d <= 31
    ensures multiset(EventsForDate(events, y, m, d))[e]
      == if e.date == DateKey(y, m, d) then multiset(events)[e] else 0
  {
    FilterCount(events, DateIs(DateKey(y, m, d)), e);
  }

  /** The matches keep the order of the event list: the matches of a
      concatenation are the matches of the first part, then of the second. */
  lemma EventsForDateOrder(a: seq<Event>, b: seq<Event>, y: int, m: int, d: int)
    requires 0 <= m < 12 && 1 <= d <= 31
    ensures EventsForDate(a + b, y, m, d) == EventsForDate(a, y, m, d) + EventsForDate(b, y, m, d)
  {
    FilterAppend(a, b, DateIs(DateKey(y, m, d)));
  }

  // ---------------------------------------------------------------------------
  // The grid

  /** A grid cell: a blank before day 1, or a day with its events and whether
      it is the current day. */
  datatype Cell = Blank | DayCell(day: int, events: seq<Event>, isToday: bool)

  function CellEvents(c: Cell): seq<Event>
  {
    if c.DayCell? then c.events else []
  }

  /** The day cell compares its date with the current one as a whole date. */
  predicate IsToday(now: Date, y: int, m: int, d: int)
    ensures IsToday(now, y, m, d) <==> now == Date(y, m, d)
  {
    now.year == y && now.month == m && now.day == d
  }

  function DayCellFor(events: seq<Event>, y: int, m: int, d: int, now: Date): (r: Cell)
    requires 0 <= m < 12 && 1 <= d <= 31
    ensures r.DayCell? && r.day == d && |r.events| <= |events|
  {
    DayCell(d, EventsForDate(events, y, m, d), IsToday(now, y, m, d))
  }

  function Blanks(n: nat): seq<Cell>
  {
    seq(n, _ => Blank)
  }

  /** The cells of days 1..n of month `m` of year `y`, one pushed per day. */
  function DayCells(n: nat, y: int, m: int, events: seq<Event>, now: Date): (r: seq<Cell>)
    requires 0 <= m < 12 && n <= 31
    ensures |r| == n
  {
    if n == 0 then [] else DayCells(n - 1, y, m, events, now) + [DayCellFor(events, y, m, n, now)]
  }

  /** Entry k of the day cells is the cell of day k + 1. */
  lemma {:induction false} DayCellsIndex(n: nat, y: int, m: int, events: seq<Event>, now: Date, k: nat)
    requires 0 <= m < 12 && k < n <= 31
    ensures DayCells(n, y, m, events, now)[k] == DayCellFor(events, y, m, k + 1, now)
  {
    if k < n - 1 {
      DayCellsIndex(n - 1, y, m, events, now, k);
    }
  }

  /** A month laid out from its first weekday and its length: that many blanks,
      then one cell per day. */
  function MonthGrid(first: nat, n: nat, y: int, m: int, events: seq<Event>, now: Date): (r: seq<Cell>)
    requires 0 <= m < 12 && n <= 31
    ensures |r| == first + n
  {
    Blanks(first) + DayCells(n, y, m, events, now)
  }

  /** The cells of the displayed month. */
  function CalendarGrid(y: int, m: int, events: seq<Event>, now: Date): (r: seq<Cell>)
    requires 0 <= m < 12
    ensures |r| == FirstDayOfMonth(y, m) + DaysInMonth(y, m) <= 37
  {
    MonthGrid(FirstDayOfMonth(y, m), DaysInMonth(y, m), y, m, events, now)
  }

  /** The grid is `first` blanks followed by the days 1..n in increasing order. */
  lemma GridLayout(first: nat, n: nat, y: int, m: int, events: seq<Event>, now: Date)
    requires 0 <= m < 12 && n <= 31
    ensures var g := MonthGrid(first, n, y, m, events, now);
      && |g| == first + n
      && (forall i :: 0 <= i < first ==> g[i] == Blank)
      && (forall i :: first <= i < |g| ==> g[i].DayCell? && g[i].day == i - first + 1)
  {
    var g := MonthGrid(first, n, y, m, events, now);
    forall i | first <= i < |g| ensures g[i].DayCell? && g[i].day == i - first + 1 {
      GridCell(first, n, y, m, events, now, i);
    }
  }

  /** A month never needs more than 37 cells: at most six blanks and 31 days. */
  lemma CalendarGridSize(y: int, m: int, events: seq<Event>, now: Date)
    requires 0 <= m < 12
    ensures |CalendarGrid(y, m, events, now)| == FirstDayOfMonth(y, m) + DaysInMonth(y, m) <= 37
  {
    GridLayout(FirstDayOfMonth(y, m), DaysInMonth(y, m), y, m, events, now);
  }

  /** Cell `first + d - 1` is the cell of day d. */
  lemma GridCell(first: nat, n: nat, y: int, m: int, events: seq<Event>, now: Date, i: int)
    requires 0 <= m < 12 && n <= 31
    requires first <= i < first + n
    ensures MonthGrid(first, n, y, m, events, now)[i] == DayCellFor(events, y, m, i - first + 1, now)
  {
    DayCellsIndex(n, y, m, events, now, i - first);
  }

  /** A cell holds an event exactly when it is the cell of a day whose key is
      the event's date. */
  lemma EventPlacement(first: nat, n: nat, y: int, m: int, events: seq<Event>, now: Date, i: int, e: Event)
    requires 0 <= m < 12 && n <= 31
    requires 0 <= i < first + n
    ensures e in CellEvents(MonthGrid(first, n, y, m, events, now)[i])
      <==> first <= i && e in events && e.date == DateKey(y, m, i - first + 1)
  {
    if first <= i {
      GridCell(first, n, y, m, events, now, i);
      EventsForDateMembers(events, y, m, i - first + 1, e);
    }
  }

  /** The cell of an event's day holds the event. */
  lemma EventCellHit(first: nat, n: nat, y: int, m: int, events: seq<Event>, now: Date, e: Event, d: int)
    requires 0 <= m < 12 && 1 <= d <= n <= 31
    requires e in events && e.date == DateKey(y, m, d)
    ensures e in CellEvents(MonthGrid(first, n, y, m, events, now)[first + d - 1])
  {
    EventPlacement(first, n, y, m, events, now, first + d - 1, e);
  }

  /** No cell of another day holds it. */
  lemma EventCellMiss(first: nat, n: nat, y: int, m: int, events: seq<Event>, now: Date, e: Event, d: int, i: int)
    requires 0 <= m < 12 && n <= 31 && 1 <= d <= 31
    requires e.date == DateKey(y, m, d)
    requires 0 <= i < first + n && i != first + d - 1
    ensures e !in CellEvents(MonthGrid(first, n, y, m, events, now)[i])
  {
    EventPlacement(first, n, y, m, events, now, i, e);
    if first <= i {
      KeysDiffer(y, m, i - first + 1, y, m, d);
    }
  }

  /** In a laid-out month, an event dated on day d is in exactly one cell. */
  lemma MonthEventInOneCell(first: nat, n: nat, y: int, m: int, events: seq<Event>, now: Date, e: Event, d: int)
    requires 0 <= m < 12 && 1 <= d <= n <= 31
    requires e in events && e.date == DateKey(y, m, d)
    ensures var g := MonthGrid(first, n, y, m, events, now);
      forall i :: 0 <= i < |g| ==> (e in CellEvents(g[i]) <==> i == first + d - 1)
  {
    var g := MonthGrid(first, n, y, m, events, now);
    assert |g| == first + n;
    forall i | 0 <= i < |g| ensures e in CellEvents(g[i]) <==> i == first + d - 1 {
      if i == first + d - 1 {
        EventCellHit(first, n, y, m, events, now, e, d);
      } else {
        EventCellMiss(first, n, y, m, events, now, e, d, i);
      }
    }
  }

  /** An event dated on day d of the displayed month is in exactly one cell,
      the cell of day d. */
  lemma EventInExactlyOneCell(y: int, m: int, events: seq<Event>, now: Date, e: Event, d: int)
    requires 0 <= m < 12 && 1 <= d <= DaysInMonth(y, m)
    requires e in events && e.date == DateKey(y, m, d)
    ensures var g := CalendarGrid(y, m, events, now);
      forall i :: 0 <= i < |g| ==> (e in CellEvents(g[i]) <==> i == FirstDayOfMonth(y, m) + d - 1)
  {
    MonthEventInOneCell(FirstDayOfMonth(y, m), DaysInMonth(y, m), y, m, events, now, e, d);
  }

  /** An event dated in another month is in no cell. */
  lemma EventOutsideMonthInNoCell(y: int, m: int, events: seq<Event>, now: Date, e: Event, y2: int, m2: int, d2: int)
    requires 0 <= m < 12 && 0 <= m2 < 12 && 1 <= d2 <= 31
    requires e.date == DateKey(y2, m2, d2) && (y2 != y || m2 != m)
    ensures var g := CalendarGrid(y, m, events, now);
      forall i :: 0 <= i < |g| ==> e !in CellEvents(g[i])
  {
    var first, n := FirstDayOfMonth(y, m), DaysInMonth(y, m);
    var g := MonthGrid(first, n, y, m, events, now);
    GridLayout(first, n, y, m, events, now);
    forall i | 0 <= i < |g| ensures e !in CellEvents(g[i]) {
      EventPlacement(first, n, y, m, events, now, i, e);
      if first <= i && e.date == DateKey(y, m, i - first + 1) {
        DateKeyInjective(y, m, i - first + 1, y2, m2, d2);
      }
    }
  }

  /** In a laid-out month at most one cell is marked as today, and one is
      exactly when the current date is a day of that month. */
  lemma MonthTodayCell(first: nat, n: nat, y: int, m: int, events: seq<Event>, now: Date)
    requires 0 <= m < 12 && n <= 31
    ensures var g := MonthGrid(first, n, y, m, events, now);
      && (forall i, j ::
            0 <= i < |g| && 0 <= j < |g| && g[i].DayCell? && g[i].isToday && g[j].DayCell? && g[j].isToday
            ==> i == j)
      && ((exists i :: 0 <= i < |g| && g[i].DayCell? && g[i].isToday)
          <==> now.year == y && now.month == m && 1 <= now.day <= n)
  {
    var g := MonthGrid(first, n, y, m, events, now);
    GridLayout(first, n, y, m, events, now);
    forall i | 0 <= i < |g| && g[i].DayCell? && g[i].isToday
      ensures i == first + now.day - 1 && now.year == y && now.month == m && 1 <= now.day <= n
    {
      GridCell(first, n, y, m, events, now, i);
    }
    if now.year == y && now.month == m && 1 <= now.day <= n {
      GridCell(first, n, y, m, events, now, first + now.day - 1);
    }
  }

  /** On the calendar: at most one cell is marked as today, and one is exactly
      when the current date lies in the displayed month. */
  lemma TodayCell(y: int, m: int, events: seq<Event>, now: Date)
    requires 0 <= m < 12 && ValidDate(now)
    ensures var g := CalendarGrid(y, m, events, now);
      && (forall i, j ::
            0 <= i < |g| && 0 <= j < |g| && g[i].DayCell? && g[i].isToday && g[j].DayCell? && g[j].isToday
            ==> i == j)
      && ((exists i :: 0 <= i < |g| && g[i].DayCell? && g[i].isToday) <==> now.year == y && now.month == m)
  {
    MonthTodayCell(FirstDayOfMonth(y, m), DaysInMonth(y, m), y, m, events, now);
  }

  // ---------------------------------------------------------------------------
  // What a day cell shows

  /** The events drawn inline: the first two. */
  function InlineEvents(es: seq<Event>): (r: seq<Event>)
    ensures |r| <= 2 && r <= es
    ensures |es| <= 2 ==> r == es
    ensures |es| > 2 ==> r == es[..2]
  {
    if |es| <= 2 then es else es[..2]
  }

  /** The "+N more" line: present exactly when more than two events fall on
      the day, counting the ones not drawn inline. */
  function MoreCount(es: seq<Event>): (r: Option<nat>)
    ensures r.Some? <==> |es| > 2
    ensures r.Some? ==> r.value >= 1 && |InlineEvents(es)| + r.value == |es|
    ensures r.Some? ==> r.value == |es| - 2
  {
    if |es| > 2 then Some(|es| - 2) else None
  }

  /** Every event of a day is either drawn inline or counted in "+N more". */
  lemma OverflowAccountsForAll(es: seq<Event>)
    ensures InlineEvents(es) + es[|InlineEvents(es)|..] == es
    ensures |es[|InlineEvents(es)|..]| == match MoreCount(es) case None => 0 case Some(n) => n
  {
  }

  // ---------------------------------------------------------------------------
  // Month navigation

  datatype Direction = Prev | Next

  /** navigateMonth: day 1 of the month before or after, the Date constructor
      carrying month -1 and month 12 into the year. */
  function Navigate(t: Date, dir: Direction): (r: Date)
    requires 0 <= t.month < 12
    ensures ValidDate(r) && r.day == 1
    ensures dir == Next && t.month < 11 ==> r.year == t.year && r.month == t.month + 1
    ensures dir == Next && t.month == 11 ==> r.year == t.year + 1 && r.month == 0
    ensures dir == Prev && t.month > 0 ==> r.year == t.year && r.month == t.month - 1
    ensures dir == Prev && t.month == 0 ==> r.year == t.year - 1 && r.month == 11
  {
    var n := Normalize(t.year, t.month + if dir == Next then 1 else -1);
    Date(n.0, n.1, 1)
  }

  /** Going forward and back (or back and forward) returns to day 1 of the same month. */
  lemma NavigateRoundTrip(t: Date)
    requires 0 <= t.month < 12
    ensures Navigate(Navigate(t, Next), Prev) == Date(t.year, t.month, 1)
    ensures Navigate(Navigate(t, Prev), Next) == Date(t.year, t.month, 1)
  {
  }

  // ---------------------------------------------------------------------------
  // The page state

  /** One more blank. */
  lemma BlankStep(i: nat)
    ensures Blanks(i + 1) == Blanks(i) + [Blank]
  {
  }

  /** Before any day is added the grid is the blanks alone. */
  lemma GridNoDays(first: nat, y: int, m: int, events: seq<Event>, now: Date)
    requires 0 <= m < 12
    ensures MonthGrid(first, 0, y, m, events, now) == Blanks(first)
  {
    assert Blanks(first) + [] == Blanks(first);
  }

  /** Adding the cell of day k + 1 extends the grid of k days to the grid of k + 1 days. */
  lemma DayStep(first: nat, k: nat, y: int, m: int, events: seq<Event>, now: Date)
    requires 0 <= m < 12 && k < 31
    ensures MonthGrid(first, k + 1, y, m, events, now)
      == MonthGrid(first, k, y, m, events, now) + [DayCellFor(events, y, m, k + 1, now)]
  {
    var b, c := DayCells(k, y, m, events, now), DayCellFor(events, y, m, k + 1, now);
    assert Blanks(first) + (b + [c]) == (Blanks(first) + b) + [c];
  }

  /** The page's `currentDate` state cell. */
  class CalendarView {
    var current: Date
    /** The event list the page holds. */
    const events: seq<Event>

    predicate Valid()
      reads this
    {
      ValidDate(current)
    }

    /** The page opens on the current date. */
    constructor (now: Date)
      requires ValidDate(now)
      ensures Valid() && current == now && events == Events()
    {
      current := now;
      events := Events();
    }

    method NavigateMonth(dir: Direction)
      requires Valid()
      modifies this
      ensures Valid() && current == Navigate(old(current), dir)
    {
      current := Navigate(current, dir);
    }

    /** The Today button. */
    method GoToToday(now: Date)
      requires ValidDate(now)
      modifies this
      ensures Valid() && current == now
    {
      current := now;
    }

    /** generateCalendarDays: pushes the blanks, then one cell per day of the
      displayed month, producing exactly the grid of that month. */
    method GenerateCalendarDays(now: Date) returns (cells: seq<Cell>)
      requires Valid()
      ensures cells == CalendarGrid(current.year, current.month, events, now)
    {
      var y, m := current.year, current.month;
      var first := FirstDayOfMonth(y, m);
      var daysInMonth := DaysInMonth(y, m);
      cells := [];
      var i := 0;
      while i < first
        invariant 0 <= i <= first
        invariant cells == Blanks(i)
      {
        BlankStep(i);
        cells := cells + [Blank];
        i := i + 1;
      }
      GridNoDays(first, y, m, events, now);
      var day := 1;
      while day <= daysInMonth
        invariant 1 <= day <= daysInMonth + 1
        invariant cells == MonthGrid(first, day - 1, y, m, events, now)
      {
        var dayEvents := EventsForDate(events, y, m, day);
        var isToday := IsToday(now, y, m, day);
        DayStep(first, day - 1, y, m, events, now);
        cells := cells + [DayCell(day, dayEvents, isToday)];
        day := day + 1;
      }
    }
  }

  // ---------------------------------------------------------------------------
  // The seed month

  lemma YearField()
    ensures IntToString(2024) == "2024"
  {
    assert NatToString(20) == "20";
    assert NatToString(202) == "202";
  }

  lemma JuneKeyFields()
    ensures IntToString(2024) == "2024" && TwoDigits(6) == "06"
    ensures TwoDigits(15) == "15" && TwoDigits(20) == "20" && TwoDigits(25) == "25" && TwoDigits(28) == "28"
  {
    YearField();
  }

  /** The seed events fall on June 15, 20, 25 and 28 of 2024. */
  lemma SeedDates()
    ensures var es := Events();
      && es[0].date == DateKey(2024, 5, 15) && es[1].date == DateKey(2024, 5, 20)
      && es[2].date == DateKey(2024, 5, 25) && es[3].date == DateKey(2024, 5, 28)
  {
    JuneKeyFields();
  }

  /** Shown on June 2024, the Team Meeting appears only in the cell of day 15,
      cell 20 of the grid after six blanks. */
  lemma JuneShowsTeamMeetingOnce(now: Date)
    ensures var g := CalendarGrid(2024, 5, Events(), now);
      forall i :: 0 <= i < |g| ==> (Events()[0] in CellEvents(g[i]) <==> i == 20)
  {
    June2024();
    SeedDates();
    EventInExactlyOneCell(2024, 5, Events(), now, Events()[0], 15);
  }
}
