/** The month view of the journal: the 42-cell grid, month navigation, the lookup of a day's
    entry and the mood legend (src/components/Calendar.tsx). */
module Calendar {
  import opened CivilDates
  import opened Sequences
  import opened Wrappers

  /** A fetched entry once its date has been converted to a local calendar date. */
  datatype Entry = Entry(id: string, date: Date, moodColor: string, moodName: string)

  /** An entry as the backend sends it: `date` is the calendar date of its DATE column. */
  datatype WireEntry = WireEntry(id: string, date: Date, moodColor: string, moodName: string)

  /** One legend item. */
  datatype MoodInfo = MoodInfo(color: string, name: string)

  /** The data handed to one grid cell. */
  datatype Cell = Cell(day: int, date: Date, customColor: string, isCurrentMonth: bool, entry: Option<Entry>)

  /** Six rows of seven days. */
  const TotalCells: int := 42

  /** `getDaysInMonth`: day 0 of the following month is the last day of this one. */
  function DaysInMonth(d: Date): (n: int)
    requires 0 <= d.month < 12
    ensures n == MonthLength(d.year, d.month)
  {
    MonthIndexParts(d.year, d.month);
    DayZero(MonthIndex(d.year, d.month + 1));
    MakeDate(d.year, d.month + 1, 0).day
  }

  /** `getFirstDayOfMonth`: the weekday (0 = Sunday) of the first of the month. */
  function FirstDayOfMonth(d: Date): (w: int)
    ensures 0 <= w < 7
    ensures w == Weekday(DayNumber(d.year, d.month, 1))
  {
    Weekday(DayNumberOf(MakeDate(d.year, d.month, 1)))
  }

  /** Going forward one month and back one month returns to the first of the month. */
  lemma {:induction false} MonthNavigationRoundTrip(d: Date)
    requires 0 <= d.month < 12
    ensures var n := MakeDate(d.year, d.month + 1, 1);
            MakeDate(n.year, n.month - 1, 1) == Date(d.year, d.month, 1)
  {
    var k := MonthIndex(d.year, d.month);
    MonthIndexParts(d.year, d.month);
    var n := MakeDate(d.year, d.month + 1, 1);
    MakeDateInMonth(d.year, d.month + 1, 1);
    assert MonthIndex(n.year, n.month) == k + 1;
    MakeDateInMonth(n.year, n.month - 1, 1);
  }

  // ---------------------------------------------------------------------------------------
  // Entry lookup and cell colour

  function EntryDates(es: seq<Entry>): seq<Date>
  {
    seq(|es|, i requires 0 <= i < |es| => es[i].date)
  }

  /** `entries.find(...)` on (year, month, day): the first entry in list order dated `d`. */
  function MatchingEntry(es: seq<Entry>, d: Date): (r: Option<Entry>)
    ensures r.None? <==> forall j :: 0 <= j < |es| ==> es[j].date != d
    ensures r.Some? ==> exists j :: 0 <= j < |es| && es[j] == r.value && r.value.date == d
                                    && forall k :: 0 <= k < j ==> es[k].date != d
  {
    var ds := EntryDates(es);
    var i := FirstIndexOf(ds, d);
    assert forall j :: 0 <= j < |es| ==> ds[j] == es[j].date;
    if i < |es| then Some(es[i]) else None
  }

  /** `matchingEntry?.mood_color || weekday`: an empty colour counts as missing. */
  function CellColor(m: Option<Entry>, weekdayColor: string): (c: string)
    ensures m.Some? && m.value.moodColor != "" ==> c == m.value.moodColor
    ensures m.None? || m.value.moodColor == "" ==> c == weekdayColor
  {
    if m.Some? && m.value.moodColor != "" then m.value.moodColor else weekdayColor
  }

  // ---------------------------------------------------------------------------------------
  // Mood legend

  function EntryColors(es: seq<Entry>): seq<string>
  {
    seq(|es|, i requires 0 <= i < |es| => es[i].moodColor)
  }

  function LegendColors(ms: seq<MoodInfo>): seq<string>
  {
    seq(|ms|, i requires 0 <= i < |ms| => ms[i].color)
  }

  lemma LegendColorsSnoc(ms: seq<MoodInfo>, m: MoodInfo)
    ensures LegendColors(ms + [m]) == LegendColors(ms) + [m.color]
  {
  }

  /** The legend built from the first `n` entries: one item per distinct colour in
      first-seen order, named after the first entry of that colour. */
  ghost predicate LegendOfPrefix(es: seq<Entry>, n: int, acc: seq<MoodInfo>)
    requires 0 <= n <= |es|
  {
    var cs := EntryColors(es);
    LegendColors(acc) == Distinct(cs[..n])
    && (forall i :: 0 <= i < |acc| ==> FirstIndexOf(cs, acc[i].color) < n)
    && (forall i :: 0 <= i < |acc| ==> acc[i].name == es[FirstIndexOf(cs, acc[i].color)].moodName)
  }

  /** An entry whose colour is already in the legend leaves it as it is. */
  lemma LegendStepSeen(es: seq<Entry>, n: int, acc: seq<MoodInfo>)
    requires 0 <= n < |es| && LegendOfPrefix(es, n, acc)
    requires exists i :: 0 <= i < |acc| && acc[i].color == es[n].moodColor
    ensures LegendOfPrefix(es, n + 1, acc)
  {
    var cs := EntryColors(es);
    var i :| 0 <= i < |acc| && acc[i].color == es[n].moodColor;
    assert LegendColors(acc)[i] == es[n].moodColor;
    assert cs[n] == es[n].moodColor;
    TakeSnoc(cs, n);
    DistinctSnoc(cs[..n], es[n].moodColor);
  }

  /** An entry of a new colour adds one item, named after it. */
  lemma LegendStepNew(es: seq<Entry>, n: int, acc: seq<MoodInfo>)
    requires 0 <= n < |es| && LegendOfPrefix(es, n, acc)
    requires !exists i :: 0 <= i < |acc| && acc[i].color == es[n].moodColor
    ensures LegendOfPrefix(es, n + 1, acc + [MoodInfo(es[n].moodColor, es[n].moodName)])
  {
    var cs := EntryColors(es);
    var e := es[n];
    assert cs[n] == e.moodColor;
    TakeSnoc(cs, n);
    DistinctSnoc(cs[..n], e.moodColor);
    assert e.moodColor !in Distinct(cs[..n]);
    assert e.moodColor !in cs[..n];
    FirstIndexAt(cs, n, e.moodColor);
    var item := MoodInfo(e.moodColor, e.moodName);
    LegendColorsSnoc(acc, item);
    var next := acc + [item];
    forall i | 0 <= i < |next|
      ensures FirstIndexOf(cs, next[i].color) < n + 1
      ensures next[i].name == es[FirstIndexOf(cs, next[i].color)].moodName
    {
      if i < |acc| {
        assert next[i] == acc[i];
      }
    }
  }

  /** The `uniqueMoods` reduce: one legend item per distinct colour, in first-seen order,
      named after the first entry of that colour. */
  method UniqueMoods(es: seq<Entry>) returns (acc: seq<MoodInfo>)
    ensures LegendColors(acc) == Distinct(EntryColors(es))
    ensures forall i :: 0 <= i < |acc| ==> FirstIndexOf(EntryColors(es), acc[i].color) < |es|
    ensures forall i :: 0 <= i < |acc| ==>
      acc[i].name == es[FirstIndexOf(EntryColors(es), acc[i].color)].moodName
  {
    acc := [];
    var n := 0;
    while n < |es|
      invariant 0 <= n <= |es| && LegendOfPrefix(es, n, acc)
    {
      var e := es[n];
      if !(exists i :: 0 <= i < |acc| && acc[i].color == e.moodColor) {
        LegendStepNew(es, n, acc);
        acc := acc + [MoodInfo(e.moodColor, e.moodName)];
      } else {
        LegendStepSeen(es, n, acc);
      }
      n := n + 1;
    }
    LegendComplete(es, acc);
  }

  /** The legend of the whole list. */
  lemma LegendComplete(es: seq<Entry>, acc: seq<MoodInfo>)
    requires LegendOfPrefix(es, |es|, acc)
    ensures LegendColors(acc) == Distinct(EntryColors(es))
    ensures forall i :: 0 <= i < |acc| ==> FirstIndexOf(EntryColors(es), acc[i].color) < |es|
    ensures forall i :: 0 <= i < |acc| ==>
      acc[i].name == es[FirstIndexOf(EntryColors(es), acc[i].color)].moodName
  {
    assert EntryColors(es)[..|es|] == EntryColors(es);
  }

  // ---------------------------------------------------------------------------------------
  // Time-zone correction of fetched dates

  /** Lines 112-113 as written: UTC midnight of the wire date, moved by the offset in force
      now (`nowOffset`), then read by the local getters, which apply the offset in force at
      that instant (`offsetThen`). */
  function AdjustedEntryDate(wire: Date, nowOffset: int, offsetThen: int): Date
  {
    LocalDateOf(UtcMidnight(wire) + nowOffset * MsPerMinute, offsetThen)
  }

  /** With one offset all year round the correction gives back the wire date. */
  lemma AdjustedEntryDateSameOffset(wire: Date, offset: int)
    requires Valid(wire)
    ensures AdjustedEntryDate(wire, offset, offset) == wire
  {
    LocalDateDuringDay(wire, UtcMidnight(wire) + offset * MsPerMinute, offset);
  }

  /** When the offset at the entry's date is larger than today's (a date in standard time
      viewed during daylight-saving time, in either hemisphere), the entry moves to the day
      before. */
  lemma AdjustedEntryDateAcrossDst(wire: Date, nowOffset: int, offsetThen: int)
    requires Valid(wire)
    requires nowOffset < offsetThen <= nowOffset + 24 * 60
    ensures AdjustedEntryDate(wire, nowOffset, offsetThen) == FromDayNumber(DayNumberOf(wire) - 1)
    ensures AdjustedEntryDate(wire, nowOffset, offsetThen) != wire
  {
    var prev := FromDayNumber(DayNumberOf(wire) - 1);
    LocalDateDuringDay(prev, UtcMidnight(wire) + nowOffset * MsPerMinute, offsetThen);
  }

  /** When today's offset is at least the one at the entry's date, by less than a day (a date
      in daylight-saving time viewed in standard time, in either hemisphere), the entry keeps
      its date. With `AdjustedEntryDateAcrossDst` this covers every pair of offsets less than a
      day apart. */
  lemma AdjustedEntryDateKept(wire: Date, nowOffset: int, offsetThen: int)
    requires Valid(wire)
    requires offsetThen <= nowOffset < offsetThen + 24 * 60
    ensures AdjustedEntryDate(wire, nowOffset, offsetThen) == wire
  {
    LocalDateDuringDay(wire, UtcMidnight(wire) + nowOffset * MsPerMinute, offsetThen);
  }

  /** An entry of 15 January 2024 fetched on a summer day in New York (offset 240 minutes now,
      300 minutes in January) is shown on 14 January. */
  lemma AdjustedEntryDateExample()
    ensures AdjustedEntryDate(Date(2024, 0, 15), 240, 300) == Date(2024, 0, 14)
  {
    var wire := Date(2024, 0, 15);
    AdjustedEntryDateAcrossDst(wire, 240, 300);
    FromDayNumberOf(Date(2024, 0, 14));
  }

  /** The corrected conversion: read the UTC fields of the parsed instant. */
  function CorrectedEntryDate(wire: Date): (d: Date)
    ensures Valid(wire) ==> d == wire
  {
    if Valid(wire) then LocalDateDuringDay(wire, UtcMidnight(wire), 0); LocalDateOf(UtcMidnight(wire), 0)
    else LocalDateOf(UtcMidnight(wire), 0)
  }

  function ToEntry(w: WireEntry): Entry
  {
    Entry(w.id, CorrectedEntryDate(w.date), w.moodColor, w.moodName)
  }

  // ---------------------------------------------------------------------------------------
  // The grid

  /** Where cell `i` of the month with index `k`, starting on weekday `first`, belongs: its
      day number, its date and whether that date is in month `k`. */
  ghost predicate GridPlace(day: int, date: Date, isCurrentMonth: bool, i: int, k: int, first: int)
  {
    var dim := LengthAt(k);
    if i < first then
      day == LengthAt(k - 1) - first + i + 1
      && date == Date(YearOf(k - 1), MonthOf(k - 1), day) && !isCurrentMonth
    else if i < first + dim then
      day == i - first + 1 && date == Date(YearOf(k), MonthOf(k), day) && isCurrentMonth
    else
      day == i - first - dim + 1 && day <= 14
      && date == Date(YearOf(k + 1), MonthOf(k + 1), day) && !isCurrentMonth
  }

  ghost predicate LaidOut(c: Cell, i: int, k: int, first: int)
  {
    GridPlace(c.day, c.date, c.isCurrentMonth, i, k, first)
  }

  /** The day number and date of cell `i` of the grid of month `month` of `year`, whose first
      day falls on weekday `first`. */
  method GridDate(year: int, month: int, i: int, first: int, daysInMonth: int, daysInPreviousMonth: int)
    returns (dayNumber: int, cellDate: Date)
    requires 0 <= month < 12 && 0 <= i < TotalCells && 0 <= first < 7
    requires daysInMonth == LengthAt(MonthIndex(year, month))
    requires daysInPreviousMonth == LengthAt(MonthIndex(year, month) - 1)
    ensures Valid(cellDate)
    ensures GridPlace(dayNumber, cellDate, cellDate.month == month, i, MonthIndex(year, month), first)
  {
    if i < first {
      dayNumber := daysInPreviousMonth - first + i + 1;
      PrevMonthDate(year, month, dayNumber);
      cellDate := MakeDate(year, month - 1, dayNumber);
    } else if i >= first + daysInMonth {
      dayNumber := i - (first + daysInMonth) + 1;
      NextMonthDate(year, month, dayNumber);
      cellDate := MakeDate(year, month + 1, dayNumber);
    } else {
      dayNumber := i - first + 1;
      MonthIndexParts(year, month);
      MakeDateInMonth(year, month, dayNumber);
      cellDate := MakeDate(year, month, dayNumber);
    }
  }

  /** A day inside the month before (`delta` = -1), the month itself (0) or the month after (1)
      of month `m` of year `y` names that very date, and only the middle one has month `m`. */
  lemma NearbyMonthDate(y: int, m: int, delta: int, day: int)
    requires 0 <= m < 12 && -1 <= delta <= 1
    requires 1 <= day <= LengthAt(MonthIndex(y, m) + delta)
    ensures var k := MonthIndex(y, m);
            MakeDate(y, m + delta, day) == Date(YearOf(k + delta), MonthOf(k + delta), day)
    ensures Valid(MakeDate(y, m + delta, day))
    ensures MakeDate(y, m + delta, day).month == m <==> delta == 0
  {
    if delta == -1 {
      PrevMonthDate(y, m, day);
    } else if delta == 1 {
      NextMonthDate(y, m, day);
    } else {
      MonthIndexParts(y, m);
      MakeDateInMonth(y, m, day);
    }
  }

  lemma PrevMonthDate(y: int, m: int, day: int)
    requires 0 <= m < 12 && 1 <= day <= LengthAt(MonthIndex(y, m) - 1)
    ensures var k := MonthIndex(y, m);
            MakeDate(y, m - 1, day) == Date(YearOf(k - 1), MonthOf(k - 1), day)
    ensures MakeDate(y, m - 1, day).month != m
  {
    var k := MonthIndex(y, m);
    MonthIndexParts(y, m);
    assert MonthIndex(y, m - 1) == k - 1;
    MakeDateInMonth(y, m - 1, day);
    MonthStep(k - 1);
  }

  lemma NextMonthDate(y: int, m: int, day: int)
    requires 0 <= m < 12 && 1 <= day <= LengthAt(MonthIndex(y, m) + 1)
    ensures var k := MonthIndex(y, m);
            MakeDate(y, m + 1, day) == Date(YearOf(k + 1), MonthOf(k + 1), day)
    ensures MakeDate(y, m + 1, day).month != m
  {
    var k := MonthIndex(y, m);
    MonthIndexParts(y, m);
    assert MonthIndex(y, m + 1) == k + 1;
    MakeDateInMonth(y, m + 1, day);
    MonthStep(k);
  }

  /** Number of cells flagged as belonging to the displayed month. */
  function CurrentMonthCount(cells: seq<Cell>): nat
  {
    if |cells| == 0 then 0
    else CurrentMonthCount(cells[..|cells| - 1]) + (if cells[|cells| - 1].isCurrentMonth then 1 else 0)
  }

  /** Cells flagged exactly on the block [lo, hi) count hi - lo. */
  lemma {:induction false} CurrentMonthBlock(cells: seq<Cell>, lo: int, hi: int)
    requires 0 <= lo <= hi
    requires forall i :: 0 <= i < |cells| ==> (cells[i].isCurrentMonth <==> lo <= i < hi)
    ensures CurrentMonthCount(cells) == if |cells| <= lo then 0 else if |cells| <= hi then |cells| - lo else hi - lo
  {
    if |cells| > 0 {
      CurrentMonthBlock(cells[..|cells| - 1], lo, hi);
    }
  }

  /** A laid-out grid of 42 cells flags exactly the days of the displayed month. */
  lemma LaidOutCount(days: seq<Cell>, k: int, first: int)
    requires |days| == TotalCells && 0 <= first < 7
    requires forall j :: 0 <= j < |days| ==> LaidOut(days[j], j, k, first)
    ensures CurrentMonthCount(days) == LengthAt(k)
  {
    var dim := LengthAt(k);
    forall j | 0 <= j < |days|
      ensures days[j].isCurrentMonth <==> first <= j < first + dim
    {
      assert LaidOut(days[j], j, k, first);
    }
    CurrentMonthBlock(days, first, first + dim);
  }

  /** Cell `i` of the grid of month `k` starting on weekday `first` is laid out, dated
      validly, holds the first of `entries` on its date and shows that entry's colour. */
  ghost predicate Rendered(c: Cell, i: int, k: int, first: int, entries: seq<Entry>, weekdayColor: string) {
    LaidOut(c, i, k, first) && CivilDates.Valid(c.date)
    && c.entry == MatchingEntry(entries, c.date)
    && c.customColor == CellColor(c.entry, weekdayColor)
  }

  class CalendarView {
    /** The displayed month is that of `currentDate`. */
    var currentDate: Date
    var entries: seq<Entry>
    var uniqueMoods: seq<MoodInfo>
    var isLoading: bool
    /** The theme's class for a day without an entry. */
    const weekdayColor: string

    ghost predicate Valid()
      reads this
    {
      CivilDates.Valid(currentDate)
    }

    /** The view opens on today's month with no entries, loading. */
    constructor (today: Date, weekdayColor: string)
      requires CivilDates.Valid(today)
      ensures Valid()
      ensures currentDate == today && entries == [] && uniqueMoods == [] && isLoading
      ensures this.weekdayColor == weekdayColor
    {
      currentDate := today;
      entries := [];
      uniqueMoods := [];
      isLoading := true;
      this.weekdayColor := weekdayColor;
    }

    /** The first of the month before; January goes back to December of the previous year. */
    method PrevMonth()
      requires Valid()
      modifies this`currentDate
      ensures Valid()
      ensures old(currentDate.month) == 0 ==> currentDate == Date(old(currentDate.year) - 1, 11, 1)
      ensures old(currentDate.month) > 0 ==> currentDate == Date(old(currentDate.year), old(currentDate.month) - 1, 1)
    {
      MakeDateInMonth(currentDate.year, currentDate.month - 1, 1);
      currentDate := MakeDate(currentDate.year, currentDate.month - 1, 1);
    }

    /** The first of the month after; December goes on to January of the next year. */
    method NextMonth()
      requires Valid()
      modifies this`currentDate
      ensures Valid()
      ensures old(currentDate.month) == 11 ==> currentDate == Date(old(currentDate.year) + 1, 0, 1)
      ensures old(currentDate.month) < 11 ==> currentDate == Date(old(currentDate.year), old(currentDate.month) + 1, 1)
    {
      MakeDateInMonth(currentDate.year, currentDate.month + 1, 1);
      currentDate := MakeDate(currentDate.year, currentDate.month + 1, 1);
    }

    /** The successful end of the month fetch: dates converted, legend rebuilt, loading over. */
    method ReceiveEntries(data: seq<WireEntry>)
      modifies this`entries, this`uniqueMoods, this`isLoading
      ensures entries == seq(|data|, i requires 0 <= i < |data| => ToEntry(data[i]))
      ensures forall i :: 0 <= i < |data| && CivilDates.Valid(data[i].date) ==> entries[i].date == data[i].date
      ensures LegendColors(uniqueMoods) == Distinct(EntryColors(entries))
      ensures forall i :: 0 <= i < |uniqueMoods| ==> FirstIndexOf(EntryColors(entries), uniqueMoods[i].color) < |entries|
      ensures forall i :: 0 <= i < |uniqueMoods| ==>
        uniqueMoods[i].name == entries[FirstIndexOf(EntryColors(entries), uniqueMoods[i].color)].moodName
      ensures !isLoading
    {
      entries := seq(|data|, i requires 0 <= i < |data| => ToEntry(data[i]));
      uniqueMoods := UniqueMoods(entries);
      isLoading := false;
    }

    /** `renderCalendarDays` without the markup: 42 cells, the last days of the previous month,
        every day of this month, then the first days of the next. */
    method RenderCalendarDays() returns (days: seq<Cell>)
      requires Valid()
      ensures |days| == TotalCells
      ensures var k := MonthIndex(currentDate.year, currentDate.month);
              forall i :: 0 <= i < TotalCells ==> Rendered(days[i], i, k, FirstDayOfMonth(currentDate), entries, weekdayColor)
      ensures CurrentMonthCount(days) == MonthLength(currentDate.year, currentDate.month)
    {
      var firstDayOfMonth, daysInMonth, daysInPreviousMonth := MonthShape();
      ghost var k := MonthIndex(currentDate.year, currentDate.month);
      MonthIndexParts(currentDate.year, currentDate.month);
      days := [];
      var i := 0;
      while i < TotalCells
        invariant 0 <= i <= TotalCells && |days| == i
        invariant forall j :: 0 <= j < i ==> Rendered(days[j], j, k, firstDayOfMonth, entries, weekdayColor)
      {
        var cell := CellAt(i, firstDayOfMonth, daysInMonth, daysInPreviousMonth);
        days := days + [cell];
        i := i + 1;
      }
      forall j | 0 <= j < |days|
        ensures LaidOut(days[j], j, k, firstDayOfMonth)
      {
        assert Rendered(days[j], j, k, firstDayOfMonth, entries, weekdayColor);
      }
      LaidOutCount(days, k, firstDayOfMonth);
    }

    /** The three numbers the grid is laid out from: the weekday of the 1st, the length of
        this month and the length of the month before (the "day 0" of this month). */
    method MonthShape() returns (firstDayOfMonth: int, daysInMonth: int, daysInPreviousMonth: int)
      requires Valid()
      ensures firstDayOfMonth == FirstDayOfMonth(currentDate)
      ensures daysInMonth == LengthAt(MonthIndex(currentDate.year, currentDate.month))
      ensures daysInPreviousMonth == LengthAt(MonthIndex(currentDate.year, currentDate.month) - 1)
    {
      var year, month := currentDate.year, currentDate.month;
      daysInMonth := DaysInMonth(currentDate);
      firstDayOfMonth := FirstDayOfMonth(currentDate);
      daysInPreviousMonth := MakeDate(year, month, 0).day;
      DayZero(MonthIndex(year, month));
    }

    /** The data of cell `i` of the displayed month. */
    method CellAt(i: int, firstDayOfMonth: int, daysInMonth: int, daysInPreviousMonth: int) returns (cell: Cell)
      requires Valid() && 0 <= i < TotalCells
      requires firstDayOfMonth == FirstDayOfMonth(currentDate)
      requires daysInMonth == LengthAt(MonthIndex(currentDate.year, currentDate.month))
      requires daysInPreviousMonth == LengthAt(MonthIndex(currentDate.year, currentDate.month) - 1)
      ensures Rendered(cell, i, MonthIndex(currentDate.year, currentDate.month), firstDayOfMonth, entries, weekdayColor)
    {
      var year, month := currentDate.year, currentDate.month;
      var dayNumber, cellDate := GridDate(year, month, i, firstDayOfMonth, daysInMonth, daysInPreviousMonth);
      var isCurrentMonth := cellDate.month == month;
      var matchingEntry := MatchingEntry(entries, cellDate);
      var customColor := CellColor(matchingEntry, weekdayColor);
      cell := Cell(dayNumber, cellDate, customColor, isCurrentMonth, matchingEntry);
    }
  }
}
