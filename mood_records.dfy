/** The per-day mood counts both charts draw (`MoodData` in src/components/LineGraph.tsx and
    src/components/PieChart.tsx), the trailing time window both apply, and the sums they plot. */
module MoodRecords {
  import opened CivilDates

  /** One row of the chart data: `entryCount` entries of one mood on one day. The day is a
      day number counted from 1 January 1970; its string is parsed as UTC midnight. */
  datatype MoodRecord = MoodRecord(date: int, entryCount: int, moodColor: string, moodName: string)

  /** Milliseconds since the Unix epoch of the start of day `date`. */
  function Instant(date: int): int
  {
    date * MsPerDay
  }

  /** `cutoffDate`: the current instant moved back by `days` whole days. */
  function Cutoff(nowMs: int, days: int): int
  {
    nowMs - days * MsPerDay
  }

  /** `new Date(item.date) >= cutoffDate` */
  predicate InWindow(r: MoodRecord, nowMs: int, days: int)
  {
    Instant(r.date) >= Cutoff(nowMs, days)
  }

  /** `filterDataByTimeRange`: the records inside the window, in their original order. */
  function FilterByTimeRange(data: seq<MoodRecord>, nowMs: int, days: int): (r: seq<MoodRecord>)
    ensures forall i :: 0 <= i < |r| ==> InWindow(r[i], nowMs, days)
    ensures forall x :: multiset(r)[x] == if InWindow(x, nowMs, days) then multiset(data)[x] else 0
  {
    if |data| == 0 then []
    else
      var rest := FilterByTimeRange(data[..|data| - 1], nowMs, days);
      var last := data[|data| - 1];
      assert data == data[..|data| - 1] + [last];
      if InWindow(last, nowMs, days) then rest + [last] else rest
  }

  /** Filtering a concatenation filters each part and keeps them in order. */
  lemma {:induction false} FilterAppend(a: seq<MoodRecord>, b: seq<MoodRecord>, nowMs: int, days: int)
    ensures FilterByTimeRange(a + b, nowMs, days)
         == FilterByTimeRange(a, nowMs, days) + FilterByTimeRange(b, nowMs, days)
  {
    if |b| > 0 {
      var b' := b[..|b| - 1];
      assert (a + b)[..|a + b| - 1] == a + b';
      FilterAppend(a, b', nowMs, days);
    } else {
      assert a + b == a;
    }
  }

  /** When "now" falls strictly inside day `today`, the window of `days` days holds exactly
      the records dated from `today - days + 1` on: today and the `days - 1` days before it. */
  lemma WindowInDays(r: MoodRecord, nowMs: int, days: int, today: int)
    requires Instant(today) < nowMs < Instant(today + 1)
    ensures InWindow(r, nowMs, days) <==> r.date >= today - days + 1
  {
    if r.date >= today - days + 1 {
      assert (r.date + days) * MsPerDay >= (today + 1) * MsPerDay;
    } else {
      assert (r.date + days) * MsPerDay <= today * MsPerDay;
    }
  }

  /** `counts[mood] || 0`: a mood without a count yet counts as 0. */
  function Lookup(counts: map<string, int>, mood: string): (n: int)
    ensures mood !in counts ==> n == 0
    ensures mood in counts ==> n == counts[mood]
  {
    if mood in counts then counts[mood] else 0
  }

  function Names(s: seq<MoodRecord>): (r: seq<string>)
    ensures |r| == |s| && forall i :: 0 <= i < |s| ==> r[i] == s[i].moodName
  {
    seq(|s|, i requires 0 <= i < |s| => s[i].moodName)
  }

  lemma NamesSnoc(p: seq<MoodRecord>, r: MoodRecord)
    ensures Names(p + [r]) == Names(p) + [r.moodName]
  {
  }

  function Dates(s: seq<MoodRecord>): (r: seq<int>)
    ensures |r| == |s| && forall i :: 0 <= i < |s| ==> r[i] == s[i].date
  {
    seq(|s|, i requires 0 <= i < |s| => s[i].date)
  }

  /** Sum of `entryCount` over the records named `name`. */
  function SumFor(s: seq<MoodRecord>, name: string): int
  {
    if |s| == 0 then 0
    else SumFor(s[..|s| - 1], name) + (if s[|s| - 1].moodName == name then s[|s| - 1].entryCount else 0)
  }

  /** Sum of `entryCount` over the records named `name` dated no later than `d`. */
  function SumUpTo(s: seq<MoodRecord>, d: int, name: string): int
  {
    if |s| == 0 then 0
    else
      SumUpTo(s[..|s| - 1], d, name)
      + (if s[|s| - 1].moodName == name && s[|s| - 1].date <= d then s[|s| - 1].entryCount else 0)
  }

  lemma SumUpToSnoc(s: seq<MoodRecord>, r: MoodRecord, d: int, name: string)
    ensures SumUpTo(s + [r], d, name)
         == SumUpTo(s, d, name) + (if r.moodName == name && r.date <= d then r.entryCount else 0)
  {
    assert (s + [r])[..|s|] == s;
  }

  /** Sum of `entryCount` over all records. */
  function SumAll(s: seq<MoodRecord>): int
  {
    if |s| == 0 then 0 else SumAll(s[..|s| - 1]) + s[|s| - 1].entryCount
  }

  predicate NonNegativeCounts(s: seq<MoodRecord>)
  {
    forall i :: 0 <= i < |s| ==> s[i].entryCount >= 0
  }

  /** With counts that are never negative, a running total can only grow with the date. */
  lemma {:induction false} SumUpToMonotone(s: seq<MoodRecord>, d1: int, d2: int, name: string)
    requires NonNegativeCounts(s) && d1 <= d2
    ensures SumUpTo(s, d1, name) <= SumUpTo(s, d2, name)
  {
    if |s| > 0 {
      SumUpToMonotone(s[..|s| - 1], d1, d2, name);
    }
  }

  /** Once every record is dated no later than `d`, the running total is the whole sum. */
  lemma {:induction false} SumUpToAll(s: seq<MoodRecord>, d: int, name: string)
    requires forall i :: 0 <= i < |s| ==> s[i].date <= d
    ensures SumUpTo(s, d, name) == SumFor(s, name)
  {
    if |s| > 0 {
      SumUpToAll(s[..|s| - 1], d, name);
    }
  }
}
