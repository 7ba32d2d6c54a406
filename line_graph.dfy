/** The cumulative line chart of mood counts (src/components/LineGraph.tsx): filter to the
    window, sort by date in place, one series per mood with a running total per date. */
module LineGraph {
  import opened Sequences
  import opened MoodRecords

  // ---------------------------------------------------------------------------------------
  // The date sort

  predicate SortedByDate(s: seq<MoodRecord>)
  {
    forall i, j :: 0 <= i < j < |s| ==> s[i].date <= s[j].date
  }

  /** `x` placed after every record dated no later than it. */
  function Insert(x: MoodRecord, t: seq<MoodRecord>): (r: seq<MoodRecord>)
    ensures |r| == |t| + 1
  {
    if |t| == 0 || t[|t| - 1].date <= x.date then t + [x]
    else
      assert t == t[..|t| - 1] + [t[|t| - 1]];
      Insert(x, t[..|t| - 1]) + [t[|t| - 1]]
  }

  /** The order a stable sort by ascending date produces. */
  function InsertionSorted(s: seq<MoodRecord>): (r: seq<MoodRecord>)
    ensures |r| == |s|
  {
    if |s| == 0 then []
    else
      assert s == s[..|s| - 1] + [s[|s| - 1]];
      Insert(s[|s| - 1], InsertionSorted(s[..|s| - 1]))
  }

  lemma {:induction false} InsertAddsOne(x: MoodRecord, t: seq<MoodRecord>)
    ensures multiset(Insert(x, t)) == multiset(t) + multiset{x}
  {
    if |t| > 0 && t[|t| - 1].date > x.date {
      var t' := t[..|t| - 1];
      InsertAddsOne(x, t');
      assert t == t' + [t[|t| - 1]];
    }
  }

  /** The sort is a permutation. */
  lemma {:induction false} InsertionSortedPermutes(s: seq<MoodRecord>)
    ensures multiset(InsertionSorted(s)) == multiset(s)
  {
    if |s| > 0 {
      var s' := s[..|s| - 1];
      InsertionSortedPermutes(s');
      InsertAddsOne(s[|s| - 1], InsertionSorted(s'));
      assert s == s' + [s[|s| - 1]];
    }
  }

  lemma {:induction false} InsertKeepsSorted(x: MoodRecord, t: seq<MoodRecord>)
    requires SortedByDate(t)
    ensures SortedByDate(Insert(x, t))
  {
    if |t| == 0 || t[|t| - 1].date <= x.date {
      SortedAppend(t, x);
    } else {
      var t', last := t[..|t| - 1], t[|t| - 1];
      assert t == t' + [last];
      SortedSnoc(t', last);
      InsertKeepsSorted(x, t');
      InsertDatesBelow(x, t', last.date);
      SortedAppend(Insert(x, t'), last);
    }
  }

  /** A record dated no earlier than every record of a sorted sequence may follow them. */
  lemma SortedAppend(r: seq<MoodRecord>, y: MoodRecord)
    requires SortedByDate(r)
    requires |r| > 0 ==> r[|r| - 1].date <= y.date
    ensures SortedByDate(r + [y])
  {
    var s := r + [y];
    forall i, j | 0 <= i < j < |s|
      ensures s[i].date <= s[j].date
    {
      assert s[i] == r[i];
      if j < |r| {
        assert s[j] == r[j];
      } else if i < |r| - 1 {
        assert r[i].date <= r[|r| - 1].date;
      }
    }
  }

  /** Inserting a record no later than `d` among records no later than `d` dates none later. */
  lemma InsertDatesBelow(x: MoodRecord, t: seq<MoodRecord>, d: int)
    requires x.date <= d && forall k :: 0 <= k < |t| ==> t[k].date <= d
    ensures forall i :: 0 <= i < |Insert(x, t)| ==> Insert(x, t)[i].date <= d
  {
    var r := Insert(x, t);
    InsertAddsOne(x, t);
    forall i | 0 <= i < |r|
      ensures r[i].date <= d
    {
      assert r[i] in multiset(r);
      if r[i] != x {
        assert r[i] in multiset(t);
        var k :| 0 <= k < |t| && t[k] == r[i];
      }
    }
  }

  /** The sorted records are in ascending date order. */
  lemma {:induction false} InsertionSortedIsSorted(s: seq<MoodRecord>)
    ensures SortedByDate(InsertionSorted(s))
  {
    if |s| > 0 {
      InsertionSortedIsSorted(s[..|s| - 1]);
      InsertKeepsSorted(s[|s| - 1], InsertionSorted(s[..|s| - 1]));
    }
  }

  /** The records dated `d`, in order. */
  function OnDate(s: seq<MoodRecord>, d: int): seq<MoodRecord>
  {
    if |s| == 0 then []
    else OnDate(s[..|s| - 1], d) + (if s[|s| - 1].date == d then [s[|s| - 1]] else [])
  }

  lemma {:induction false} InsertOnDate(x: MoodRecord, t: seq<MoodRecord>, d: int)
    ensures OnDate(Insert(x, t), d) == OnDate(t, d) + (if x.date == d then [x] else [])
  {
    if |t| == 0 || t[|t| - 1].date <= x.date {
      assert (t + [x])[..|t|] == t;
    } else {
      var t' := t[..|t| - 1];
      var last := t[|t| - 1];
      InsertOnDate(x, t', d);
      var r := Insert(x, t') + [last];
      assert r[..|r| - 1] == Insert(x, t');
    }
  }

  /** The sort is stable: records with equal dates keep their relative order. */
  lemma {:induction false} InsertionSortedIsStable(s: seq<MoodRecord>, d: int)
    ensures OnDate(InsertionSorted(s), d) == OnDate(s, d)
  {
    if |s| > 0 {
      InsertionSortedIsStable(s[..|s| - 1], d);
      InsertOnDate(s[|s| - 1], InsertionSorted(s[..|s| - 1]), d);
    }
  }

  /** Records that all come after `x` stay behind it. */
  lemma {:induction false} InsertSplit(x: MoodRecord, t: seq<MoodRecord>, j: int)
    requires 0 <= j <= |t|
    requires forall k :: j <= k < |t| ==> t[k].date > x.date
    ensures Insert(x, t) == Insert(x, t[..j]) + t[j..]
    decreases |t| - j
  {
    if j < |t| {
      var t' := t[..|t| - 1];
      InsertSplit(x, t', j);
      assert t'[..j] == t[..j];
      assert t'[j..] + [t[|t| - 1]] == t[j..];
    } else {
      assert t[..j] == t;
    }
  }

  /** One step of the sort: the record at `i` moves left past the later-dated records of the
      already sorted prefix `a[..i]`. */
  method InsertLast(a: array<MoodRecord>, i: int)
    requires 0 <= i < a.Length
    modifies a
    ensures a[..i + 1] == Insert(old(a[i]), old(a[..i]))
    ensures a[i + 1..] == old(a[i + 1..])
  {
    var x := a[i];
    ghost var t := a[..i];
    var j := ShiftLater(a, i, x);
    a[j] := x;
    PlacedIsInsert(x, t, j, a[..i + 1]);
    assert a[i + 1..] == old(a[i + 1..]);
  }

  /** Moves the records of `a[..i]` dated after `x` one place right, over `a[i]`, and returns
      the hole left before them. */
  method ShiftLater(a: array<MoodRecord>, i: int, x: MoodRecord) returns (j: int)
    requires 0 <= i < a.Length
    modifies a
    ensures 0 <= j <= i
    ensures forall k :: 0 <= k < j ==> a[k] == old(a[k])
    ensures forall k :: j < k <= i ==> a[k] == old(a[k - 1])
    ensures forall k :: i < k < a.Length ==> a[k] == old(a[k])
    ensures forall k :: j <= k < i ==> old(a[k]).date > x.date
    ensures j == 0 || old(a[j - 1]).date <= x.date
  {
    ghost var b := a[..];
    j := i;
    while j > 0 && a[j - 1].date > x.date
      invariant 0 <= j <= i
      invariant forall k :: 0 <= k < j ==> a[k] == b[k]
      invariant forall k :: j < k <= i ==> a[k] == b[k - 1]
      invariant forall k :: i < k < a.Length ==> a[k] == b[k]
      invariant forall k :: j <= k < i ==> b[k].date > x.date
    {
      a[j] := a[j - 1];
      j := j - 1;
    }
  }

  /** The array after the shifting loop holds `Insert(x, t)`: the records of `t` before `j`,
      then `x`, then the later-dated rest of `t` one place to the right. */
  lemma PlacedIsInsert(x: MoodRecord, t: seq<MoodRecord>, j: int, b: seq<MoodRecord>)
    requires 0 <= j <= |t| && |b| == |t| + 1 && b[j] == x
    requires forall k :: 0 <= k < j ==> b[k] == t[k]
    requires forall k :: j < k <= |t| ==> b[k] == t[k - 1]
    requires forall k :: j <= k < |t| ==> t[k].date > x.date
    requires j == 0 || t[j - 1].date <= x.date
    ensures b == Insert(x, t)
  {
    InsertSplit(x, t, j);
    assert Insert(x, t[..j]) == t[..j] + [x];
    var u := t[..j] + [x] + t[j..];
    forall k | 0 <= k < |b|
      ensures b[k] == u[k]
    {
      if k > j {
        assert u[k] == t[k - 1];
      }
    }
  }

  /** `filteredData.sort(...)`: an in-place stable sort by ascending date. */
  method SortByDate(a: array<MoodRecord>)
    modifies a
    ensures a[..] == InsertionSorted(old(a[..]))
  {
    ghost var s := a[..];
    var i := 0;
    while i < a.Length
      invariant 0 <= i <= a.Length
      invariant a[..i] == InsertionSorted(s[..i])
      invariant a[i..] == s[i..]
    {
      assert s[..i + 1] == s[..i] + [s[i]];
      InsertLast(a, i);
      i := i + 1;
    }
    assert a[..] == a[..a.Length] && s == s[..a.Length];
  }

  // ---------------------------------------------------------------------------------------
  // Mood colours

  /** `moodColors[mood]`: the colour of the first record named `mood`, or black when that
      record's colour is empty or there is no such record. */
  function ColorOfFirst(s: seq<MoodRecord>, mood: string): (c: string)
    ensures c != ""
    ensures (forall i :: 0 <= i < |s| ==> s[i].moodName != mood) ==> c == "#000000"
    ensures forall i :: 0 <= i < |s| && s[i].moodName == mood
                        && (forall k :: 0 <= k < i ==> s[k].moodName != mood)
                        ==> c == if s[i].moodColor != "" then s[i].moodColor else "#000000"
  {
    var i := FirstIndexOf(Names(s), mood);
    assert forall k :: 0 <= k < |s| && s[k].moodName == mood ==> i <= k;
    if i < |s| && s[i].moodColor != "" then s[i].moodColor else "#000000"
  }

  /** The `moodColors` reduce over the mood list. */
  method MoodColors(moods: seq<string>, s: seq<MoodRecord>) returns (colors: map<string, string>)
    ensures forall m :: m in colors <==> m in moods
    ensures forall m :: m in moods ==> colors[m] == ColorOfFirst(s, m)
  {
    colors := map[];
    var n := 0;
    while n < |moods|
      invariant 0 <= n <= |moods|
      invariant forall m :: m in colors <==> m in moods[..n]
      invariant forall m :: m in colors ==> colors[m] == ColorOfFirst(s, m)
    {
      InTakeSnoc(moods, n);
      colors := colors[moods[n] := ColorOfFirst(s, moods[n])];
      n := n + 1;
    }
    assert moods[..n] == moods;
  }

  // ---------------------------------------------------------------------------------------
  // Cumulative totals

  /** `cumulativeTotals`: the dates in key order and, per date, a running count per mood. */
  datatype Totals = Totals(keys: seq<int>, byDate: map<int, map<string, int>>)

  ghost predicate WellFormed(t: Totals)
  {
    (forall d :: d in t.byDate <==> d in t.keys) && NoDuplicates(t.keys)
  }

  /** `if (!acc[date]) acc[date] = { ...acc[Object.keys(acc).pop() || ''] }`: a date seen for
      the first time is appended and starts from a copy of the last date's totals, or from
      nothing when there is no date yet. */
  function Touch(t: Totals, date: int): (u: Totals)
    requires WellFormed(t)
    ensures WellFormed(u) && date in u.byDate
    ensures date in t.byDate ==> u == t
    ensures date !in t.byDate ==> u.keys == t.keys + [date]
    ensures date !in t.byDate && |t.keys| == 0 ==> u.byDate == t.byDate[date := map[]]
    ensures date !in t.byDate && |t.keys| > 0 ==>
      t.keys[|t.keys| - 1] in t.byDate && u.byDate == t.byDate[date := t.byDate[t.keys[|t.keys| - 1]]]
  {
    if date in t.byDate then t
    else if |t.keys| == 0 then Totals([date], t.byDate[date := map[]])
    else
      var last := t.keys[|t.keys| - 1];
      assert last in t.keys;
      Totals(t.keys + [date], t.byDate[date := t.byDate[last]])
  }

  /** `acc[date][mood] = (acc[date][mood] || 0) + count` */
  function AddCount(day: map<string, int>, mood: string, count: int): map<string, int>
  {
    day[mood := Lookup(day, mood) + count]
  }

  /** Adding a count changes that mood's total by the count and no other mood's. */
  lemma AddCountLookup(day: map<string, int>, mood: string, count: int, m: string)
    ensures Lookup(AddCount(day, mood, count), m) == Lookup(day, m) + (if m == mood then count else 0)
  {
  }

  /** The reduce callback on one record. */
  function Step(t: Totals, r: MoodRecord): (u: Totals)
    requires WellFormed(t)
    ensures WellFormed(u)
  {
    var t1 := Touch(t, r.date);
    Totals(t1.keys, t1.byDate[r.date := AddCount(t1.byDate[r.date], r.moodName, r.entryCount)])
  }

  /** The reduce over a whole sequence of records. */
  function Fold(s: seq<MoodRecord>): (t: Totals)
    ensures WellFormed(t)
  {
    if |s| == 0 then Totals([], map[]) else Step(Fold(s[..|s| - 1]), s[|s| - 1])
  }

  /** `Object.keys(cumulativeTotals)`: every date once, in first-seen order. */
  lemma {:induction false} FoldKeys(s: seq<MoodRecord>)
    ensures Fold(s).keys == Distinct(Dates(s))
  {
    if |s| > 0 {
      var p, r := s[..|s| - 1], s[|s| - 1];
      assert s == p + [r];
      FoldKeys(p);
      DatesSnoc(p, r);
      DistinctSnoc(Dates(p), r.date);
    }
  }

  /** The reduce callback, updating the accumulator in place. */
  method AddRecord(keys: seq<int>, totals: map<int, map<string, int>>, item: MoodRecord)
    returns (keys': seq<int>, totals': map<int, map<string, int>>)
    requires WellFormed(Totals(keys, totals))
    ensures Totals(keys', totals') == Step(Totals(keys, totals), item)
  {
    keys', totals' := keys, totals;
    var date := item.date;
    if date !in totals' {
      assert forall d :: d in totals <==> d in keys;
      assert |keys| > 0 ==> keys[|keys| - 1] in keys;
      totals' := totals'[date := if |keys'| > 0 then totals'[keys'[|keys'| - 1]] else map[]];
      keys' := keys' + [date];
    }
    assert Totals(keys', totals') == Touch(Totals(keys, totals), date);
    var day := totals'[date];
    totals' := totals'[date := day[item.moodName := Lookup(day, item.moodName) + item.entryCount]];
  }

  /** The `cumulativeTotals` reduce over the sorted records. */
  method CumulativeTotals(s: seq<MoodRecord>) returns (keys: seq<int>, totals: map<int, map<string, int>>)
    ensures Totals(keys, totals) == Fold(s)
  {
    keys, totals := [], map[];
    var n := 0;
    while n < |s|
      invariant 0 <= n <= |s|
      invariant Totals(keys, totals) == Fold(s[..n])
    {
      keys, totals := AddRecord(keys, totals, s[n]);
      FoldSnoc(s, n);
      n := n + 1;
    }
    assert s[..n] == s;
  }

  lemma FoldSnoc(s: seq<MoodRecord>, n: int)
    requires 0 <= n < |s|
    ensures Fold(s[..n + 1]) == Step(Fold(s[..n]), s[n])
  {
    assert s[..n + 1][..n] == s[..n];
  }

  predicate Ascending(keys: seq<int>)
  {
    forall i, j :: 0 <= i < j < |keys| ==> keys[i] < keys[j]
  }

  /** Every date of sorted records is at most the last record's. */
  lemma DatesUpToLast(s: seq<MoodRecord>, d: int)
    requires SortedByDate(s) && d in Dates(s)
    ensures d <= s[|s| - 1].date
  {
    var i :| 0 <= i < |s| && Dates(s)[i] == d;
  }

  /** No record of a date-sorted sequence is dated after the last one. */
  lemma SortedUpToLast(s: seq<MoodRecord>)
    requires SortedByDate(s) && |s| > 0
    ensures forall i :: 0 <= i < |s| ==> s[i].date <= s[|s| - 1].date
  {
    forall i | 0 <= i < |s| - 1
      ensures s[i].date <= s[|s| - 1].date
    {
    }
  }

  /** The last distinct date of date-sorted records is the last record's date. */
  lemma {:induction false} LastDistinctDate(s: seq<MoodRecord>)
    requires SortedByDate(s) && |s| > 0
    ensures Distinct(Dates(s))[|Distinct(Dates(s))| - 1] == s[|s| - 1].date
  {
    var p := s[..|s| - 1];
    var r := s[|s| - 1];
    assert Dates(s) == Dates(p) + [r.date];
    DistinctSnoc(Dates(p), r.date);
    if r.date in Dates(p) {
      assert SortedByDate(p);
      LastDistinctDate(p);
      DatesUpToLast(p, r.date);
      assert p[|p| - 1].date <= r.date;
    }
  }

  /** The distinct dates of date-sorted records ascend. */
  lemma {:induction false} AscendingDistinctDates(s: seq<MoodRecord>)
    requires SortedByDate(s)
    ensures Ascending(Distinct(Dates(s)))
  {
    if |s| > 0 {
      var p := s[..|s| - 1];
      assert s == p + [s[|s| - 1]];
      assert SortedByDate(p);
      AscendingDistinctDates(p);
      AscendingDatesStep(p, s[|s| - 1]);
    }
  }

  /** One more record, dated no earlier than the last one, keeps the distinct dates ascending. */
  lemma AscendingDatesStep(p: seq<MoodRecord>, r: MoodRecord)
    requires SortedByDate(p) && (|p| > 0 ==> p[|p| - 1].date <= r.date)
    requires Ascending(Distinct(Dates(p)))
    ensures Ascending(Distinct(Dates(p + [r])))
  {
    var dp := Dates(p);
    DatesSnoc(p, r);
    DistinctSnoc(dp, r.date);
    if r.date !in dp {
      DatesBelow(p, r.date);
      AscendingSnoc(Distinct(dp), r.date);
    }
  }

  lemma DatesSnoc(p: seq<MoodRecord>, r: MoodRecord)
    ensures Dates(p + [r]) == Dates(p) + [r.date]
  {
  }

  /** A new date no earlier than the last record's is later than every distinct date. */
  lemma DatesBelow(p: seq<MoodRecord>, d: int)
    requires SortedByDate(p) && (|p| > 0 ==> p[|p| - 1].date <= d) && d !in Dates(p)
    ensures forall k :: 0 <= k < |Distinct(Dates(p))| ==> Distinct(Dates(p))[k] < d
  {
    var keys := Distinct(Dates(p));
    forall k | 0 <= k < |keys|
      ensures keys[k] < d
    {
      assert keys[k] in Dates(p);
      DatesUpToLast(p, keys[k]);
    }
  }

  /** A date above every ascending key may follow them. */
  lemma AscendingSnoc(keys: seq<int>, d: int)
    requires Ascending(keys)
    requires forall k :: 0 <= k < |keys| ==> keys[k] < d
    ensures Ascending(keys + [d])
  {
    var keys' := keys + [d];
    forall i, j | 0 <= i < j < |keys'|
      ensures keys'[i] < keys'[j]
    {
      assert keys'[i] == keys[i];
    }
  }

  /** Each date's total for each mood is the mood's sum up to and including that date. */
  ghost predicate TotalsMatch(t: Totals, s: seq<MoodRecord>)
  {
    forall d, mood :: d in t.byDate ==> Lookup(t.byDate[d], mood) == SumUpTo(s, d, mood)
  }

  lemma StepKeepsMatch(p: seq<MoodRecord>, r: MoodRecord)
    requires SortedByDate(p + [r]) && TotalsMatch(Fold(p), p)
    ensures TotalsMatch(Step(Fold(p), r), p + [r])
  {
    var u := Step(Fold(p), r);
    forall d, mood | d in u.byDate
      ensures Lookup(u.byDate[d], mood) == SumUpTo(p + [r], d, mood)
    {
      if d != r.date {
        StepMatchOther(p, r, d, mood);
      } else {
        StepMatchSame(p, r, mood);
      }
    }
  }

  /** A date other than the record's keeps its totals, which already counted everything. */
  lemma StepMatchOther(p: seq<MoodRecord>, r: MoodRecord, d: int, mood: string)
    requires SortedByDate(p + [r]) && TotalsMatch(Fold(p), p)
    requires d in Step(Fold(p), r).byDate && d != r.date
    ensures Lookup(Step(Fold(p), r).byDate[d], mood) == SumUpTo(p + [r], d, mood)
  {
    var t := Fold(p);
    FoldKeys(p);
    SumUpToSnoc(p, r, d, mood);
    StepElsewhere(t, r, d);
    assert d in Distinct(Dates(p));
    DatesUpToLast(p + [r], d);
  }

  /** The step leaves every other date's totals as they were. */
  lemma StepElsewhere(t: Totals, r: MoodRecord, d: int)
    requires WellFormed(t) && d != r.date && d in Step(t, r).byDate
    ensures d in t.byDate && Step(t, r).byDate[d] == t.byDate[d]
  {
    var t1 := Touch(t, r.date);
    assert d in t1.byDate && t1.byDate[d] == t.byDate[d];
  }

  /** The record's own date adds its count to the running sum before it. */
  lemma StepMatchSame(p: seq<MoodRecord>, r: MoodRecord, mood: string)
    requires SortedByDate(p + [r]) && TotalsMatch(Fold(p), p)
    ensures r.date in Step(Fold(p), r).byDate
    ensures Lookup(Step(Fold(p), r).byDate[r.date], mood) == SumUpTo(p + [r], r.date, mood)
  {
    var t1 := Touch(Fold(p), r.date);
    SumUpToSnoc(p, r, r.date, mood);
    AddCountLookup(t1.byDate[r.date], r.moodName, r.entryCount, mood);
    TouchedTotal(p, r, mood);
  }

  /** Sorted records with one more at the end: the front is sorted and dated no later. */
  lemma SortedSnoc(p: seq<MoodRecord>, r: MoodRecord)
    requires SortedByDate(p + [r])
    ensures SortedByDate(p)
    ensures forall i :: 0 <= i < |p| ==> p[i].date <= r.date
  {
    var s := p + [r];
    assert forall i :: 0 <= i < |p| ==> s[i] == p[i];
    assert s[|p|] == r;
  }

  /** The record's date starts from the running sum of everything before it. */
  lemma TouchedTotal(p: seq<MoodRecord>, r: MoodRecord, mood: string)
    requires SortedByDate(p + [r]) && TotalsMatch(Fold(p), p)
    ensures Lookup(Touch(Fold(p), r.date).byDate[r.date], mood) == SumUpTo(p, r.date, mood)
  {
    var t := Fold(p);
    FoldKeys(p);
    SortedSnoc(p, r);
    if r.date !in t.byDate && |p| > 0 {
      var last := t.keys[|t.keys| - 1];
      LastDistinctDate(p);
      SortedUpToLast(p);
      SumUpToAll(p, r.date, mood);
      SumUpToAll(p, last, mood);
    }
  }

  /** On date-sorted records every date's total for a mood is that mood's running sum. */
  lemma {:induction false} FoldOfSorted(s: seq<MoodRecord>)
    requires SortedByDate(s)
    ensures TotalsMatch(Fold(s), s)
  {
    if |s| > 0 {
      var p := s[..|s| - 1];
      FoldOfSorted(p);
      assert s == p + [s[|s| - 1]];
      StepKeepsMatch(p, s[|s| - 1]);
    }
  }

  /** One date and mood of `FoldOfSorted`. */
  lemma FoldAt(s: seq<MoodRecord>, d: int, mood: string)
    requires SortedByDate(s) && d in Fold(s).byDate
    ensures Lookup(Fold(s).byDate[d], mood) == SumUpTo(s, d, mood)
  {
    FoldOfSorted(s);
  }

  /** With counts that are never negative, a mood's plotted value never falls from one date
      to a later one. */
  lemma CumulativeNonDecreasing(s: seq<MoodRecord>, i: int, j: int, mood: string)
    requires SortedByDate(s) && NonNegativeCounts(s)
    requires 0 <= i < j < |Fold(s).keys|
    ensures Fold(s).keys[i] in Fold(s).byDate && Fold(s).keys[j] in Fold(s).byDate
    ensures Lookup(Fold(s).byDate[Fold(s).keys[i]], mood) <= Lookup(Fold(s).byDate[Fold(s).keys[j]], mood)
  {
    var t := Fold(s);
    assert t.keys[i] in t.keys && t.keys[j] in t.keys;
    FoldKeys(s);
    AscendingDistinctDates(s);
    FoldOfSorted(s);
    SumUpToMonotone(s, t.keys[i], t.keys[j], mood);
  }

  /** At the last date each mood's value is the sum of all its counts. */
  lemma CumulativeLastIsTotal(s: seq<MoodRecord>, mood: string)
    requires SortedByDate(s) && |s| > 0
    ensures |Fold(s).keys| > 0 && Fold(s).keys[|Fold(s).keys| - 1] in Fold(s).byDate
    ensures Lookup(Fold(s).byDate[Fold(s).keys[|Fold(s).keys| - 1]], mood) == SumFor(s, mood)
  {
    var last := s[|s| - 1].date;
    LastKey(s);
    FoldAt(s, last, mood);
    SortedUpToLast(s);
    SumUpToAll(s, last, mood);
  }

  /** The last key of the totals of date-sorted records is the last record's date. */
  lemma LastKey(s: seq<MoodRecord>)
    requires SortedByDate(s) && |s| > 0
    ensures |Fold(s).keys| > 0 && Fold(s).keys[|Fold(s).keys| - 1] == s[|s| - 1].date
    ensures s[|s| - 1].date in Fold(s).byDate
  {
    var t := Fold(s);
    FoldKeys(s);
    assert s[0].date in Dates(s);
    LastDistinctDate(s);
    assert t.keys[|t.keys| - 1] in t.keys;
  }

  // ---------------------------------------------------------------------------------------
  // The chart data

  /** One line of the chart. */
  datatype Dataset = Dataset(mood: string, values: seq<int>, color: string)

  /** `Object.values(cumulativeTotals).map(dailyTotal => dailyTotal[mood] || 0)` */
  function Series(t: Totals, mood: string): seq<int>
    requires forall j :: 0 <= j < |t.keys| ==> t.keys[j] in t.byDate
  {
    seq(|t.keys|, j requires 0 <= j < |t.keys| => Lookup(t.byDate[t.keys[j]], mood))
  }

  lemma KeysInDomain(t: Totals)
    requires WellFormed(t)
    ensures forall j :: 0 <= j < |t.keys| ==> t.keys[j] in t.byDate
  {
    assert forall d :: d in t.byDate <==> d in t.keys;
    forall j | 0 <= j < |t.keys|
      ensures t.keys[j] in t.byDate
    {
      assert t.keys[j] in t.keys;
    }
  }

  /** On date-sorted records a mood's line plots, at each date, its running sum. */
  lemma SeriesOfSorted(s: seq<MoodRecord>, mood: string)
    requires SortedByDate(s)
    ensures forall j :: 0 <= j < |Fold(s).keys| ==> Fold(s).keys[j] in Fold(s).byDate
    ensures |Series(Fold(s), mood)| == |Fold(s).keys|
    ensures forall j :: 0 <= j < |Fold(s).keys| ==> Series(Fold(s), mood)[j] == SumUpTo(s, Fold(s).keys[j], mood)
  {
    KeysInDomain(Fold(s));
    FoldOfSorted(s);
  }

  /** The whole component: the labels are the distinct dates of the window in ascending order,
      and the line of each mood (in first-occurrence order) plots, at every label, the sum of
      its counts up to that date, drawn in the colour of its first record. */
  method BuildLineChart(data: seq<MoodRecord>, nowMs: int, days: int)
    returns (labels: seq<int>, datasets: seq<Dataset>)
    ensures var sorted := InsertionSorted(FilterByTimeRange(data, nowMs, days));
            var moods := Distinct(Names(sorted));
            && labels == Distinct(Dates(sorted))
            && Ascending(labels)
            && |datasets| == |moods|
            && forall i :: 0 <= i < |moods| ==>
                 && datasets[i].mood == moods[i]
                 && datasets[i].color == ColorOfFirst(sorted, moods[i])
                 && |datasets[i].values| == |labels|
                 && forall j :: 0 <= j < |labels| ==> datasets[i].values[j] == SumUpTo(sorted, labels[j], moods[i])
  {
    var sorted := SortedInRange(data, nowMs, days);
    var moods := Distinct(Names(sorted));
    var colors := MoodColors(moods, sorted);
    var keys, totals := CumulativeTotals(sorted);
    ChartOfSorted(sorted, moods, colors);
    labels := keys;
    datasets := Datasets(Totals(keys, totals), moods, colors);
  }

  /** The records within the range, sorted by date in place in an array. */
  method SortedInRange(data: seq<MoodRecord>, nowMs: int, days: int) returns (sorted: seq<MoodRecord>)
    ensures sorted == InsertionSorted(FilterByTimeRange(data, nowMs, days))
    ensures SortedByDate(sorted)
  {
    var filtered := FilterByTimeRange(data, nowMs, days);
    var a := new MoodRecord[|filtered|](i requires 0 <= i < |filtered| => filtered[i]);
    assert a[..] == filtered;
    SortByDate(a);
    sorted := a[..];
    InsertionSortedIsSorted(filtered);
  }

  /** One dataset per mood: its running totals over the dates and its colour. */
  function Datasets(t: Totals, moods: seq<string>, colors: map<string, string>): (r: seq<Dataset>)
    requires forall j :: 0 <= j < |t.keys| ==> t.keys[j] in t.byDate
    requires forall m :: m in moods ==> m in colors
    ensures |r| == |moods|
  {
    seq(|moods|, i requires 0 <= i < |moods| =>
      assert moods[i] in moods; Dataset(moods[i], Series(t, moods[i]), colors[moods[i]]))
  }

  /** The chart of date-sorted records: ascending distinct dates as labels, and per mood
      its first colour and its running totals at those dates. */
  lemma ChartOfSorted(sorted: seq<MoodRecord>, moods: seq<string>, colors: map<string, string>)
    requires SortedByDate(sorted) && moods == Distinct(Names(sorted))
    requires forall m :: m in colors <==> m in moods
    requires forall m :: m in moods ==> colors[m] == ColorOfFirst(sorted, m)
    ensures forall j :: 0 <= j < |Fold(sorted).keys| ==> Fold(sorted).keys[j] in Fold(sorted).byDate
    ensures Fold(sorted).keys == Distinct(Dates(sorted)) && Ascending(Fold(sorted).keys)
    ensures var ds := Datasets(Fold(sorted), moods, colors);
            forall i :: 0 <= i < |moods| ==>
              && ds[i].mood == moods[i]
              && ds[i].color == ColorOfFirst(sorted, moods[i])
              && |ds[i].values| == |Fold(sorted).keys|
              && forall j :: 0 <= j < |Fold(sorted).keys| ==>
                   ds[i].values[j] == SumUpTo(sorted, Fold(sorted).keys[j], moods[i])
  {
    FoldKeys(sorted);
    AscendingDistinctDates(sorted);
    KeysInDomain(Fold(sorted));
    var ds := Datasets(Fold(sorted), moods, colors);
    forall i | 0 <= i < |moods|
      ensures ds[i].color == ColorOfFirst(sorted, moods[i])
      ensures |ds[i].values| == |Fold(sorted).keys|
      ensures forall j :: 0 <= j < |Fold(sorted).keys| ==>
                ds[i].values[j] == SumUpTo(sorted, Fold(sorted).keys[j], moods[i])
    {
      assert moods[i] in moods;
      SeriesOfSorted(sorted, moods[i]);
    }
  }

}
