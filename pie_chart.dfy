/** The pie chart of mood counts (src/components/PieChart.tsx): filter to the window, one
    slice per mood with the sum of its counts. */
module PieChart {
  import opened Sequences
  import opened MoodRecords

  /** The `moodCounts` reduce: the moods in first-seen order (the key order of the object)
      and, per mood, the sum of its counts. */
  method MoodCounts(f: seq<MoodRecord>) returns (keys: seq<string>, counts: map<string, int>)
    ensures keys == Distinct(Names(f))
    ensures forall m :: m in counts <==> m in keys
    ensures forall m :: m in counts ==> counts[m] == SumFor(f, m)
  {
    keys, counts := [], map[];
    var n := 0;
    while n < |f|
      invariant 0 <= n <= |f|
      invariant CountsOf(keys, counts, f[..n])
    {
      TakeSnoc(f, n);
      keys, counts := Tally(keys, counts, f[..n], f[n]);
      n := n + 1;
    }
    assert f[..n] == f;
  }

  /** `keys` and `counts` are the result of the reduce over `s`. */
  ghost predicate CountsOf(keys: seq<string>, counts: map<string, int>, s: seq<MoodRecord>)
  {
    keys == Distinct(Names(s))
    && (forall m :: m in counts <==> m in keys)
    && SumsOf(counts, s)
  }

  /** Each counted mood holds the sum of its counts over `s`. */
  ghost predicate SumsOf(counts: map<string, int>, s: seq<MoodRecord>)
  {
    forall m :: m in counts ==> counts[m] == SumFor(s, m)
  }

  /** One step of the reduce: `acc[name] = (acc[name] || 0) + entry_count`. */
  method Tally(keys: seq<string>, counts: map<string, int>, ghost s: seq<MoodRecord>, item: MoodRecord)
    returns (keys': seq<string>, counts': map<string, int>)
    requires CountsOf(keys, counts, s)
    ensures CountsOf(keys', counts', s + [item])
  {
    var name := item.moodName;
    keys' := if name in counts then keys else keys + [name];
    counts' := counts[name := Lookup(counts, name) + item.entryCount];
    CountsStep(keys, counts, s, item, keys', counts');
  }

  lemma CountsStep(keys: seq<string>, counts: map<string, int>, s: seq<MoodRecord>, r: MoodRecord,
                   keys': seq<string>, counts': map<string, int>)
    requires CountsOf(keys, counts, s)
    requires keys' == if r.moodName in counts then keys else keys + [r.moodName]
    requires counts' == counts[r.moodName := Lookup(counts, r.moodName) + r.entryCount]
    ensures CountsOf(keys', counts', s + [r])
  {
    KeysStep(keys, s, r);
    assert r.moodName in counts <==> r.moodName in Names(s);
    SumsStep(counts, s, r);
  }

  /** The sums after the step are the sums over the longer prefix. */
  lemma SumsStep(counts: map<string, int>, s: seq<MoodRecord>, r: MoodRecord)
    requires SumsOf(counts, s)
    requires r.moodName in counts <==> r.moodName in Names(s)
    ensures SumsOf(counts[r.moodName := Lookup(counts, r.moodName) + r.entryCount], s + [r])
  {
    var counts' := counts[r.moodName := Lookup(counts, r.moodName) + r.entryCount];
    forall m | m in counts'
      ensures counts'[m] == SumFor(s + [r], m)
    {
      SumForSnoc(s, r, m);
      if m == r.moodName && r.moodName !in counts {
        SumForAbsent(s, m);
      }
    }
  }

  lemma KeysStep(keys: seq<string>, s: seq<MoodRecord>, r: MoodRecord)
    requires keys == Distinct(Names(s))
    ensures Distinct(Names(s + [r])) == if r.moodName in Names(s) then keys else keys + [r.moodName]
  {
    assert Names(s + [r]) == Names(s) + [r.moodName];
    DistinctSnoc(Names(s), r.moodName);
  }

  lemma SumForSnoc(s: seq<MoodRecord>, r: MoodRecord, name: string)
    ensures SumFor(s + [r], name) == SumFor(s, name) + (if r.moodName == name then r.entryCount else 0)
  {
    assert (s + [r])[..|s|] == s;
  }

  /** `Object.values(moodCounts)`, aligned with the keys. */
  function Values(keys: seq<string>, counts: map<string, int>): (v: seq<int>)
    requires forall m :: m in keys ==> m in counts
  {
    seq(|keys|, i requires 0 <= i < |keys| => counts[keys[i]])
  }

  function SumSeq(xs: seq<int>): int
  {
    if |xs| == 0 then 0 else SumSeq(xs[..|xs| - 1]) + xs[|xs| - 1]
  }

  /** The sum over the moods `keys` of each mood's count. */
  function SumSlices(keys: seq<string>, f: seq<MoodRecord>): int
  {
    if |keys| == 0 then 0 else SumSlices(keys[..|keys| - 1], f) + SumFor(f, keys[|keys| - 1])
  }

  lemma {:induction false} ValuesSum(keys: seq<string>, f: seq<MoodRecord>, values: seq<int>)
    requires |values| == |keys|
    requires forall i :: 0 <= i < |keys| ==> values[i] == SumFor(f, keys[i])
    ensures SumSeq(values) == SumSlices(keys, f)
  {
    if |keys| > 0 {
      ValuesSum(keys[..|keys| - 1], f, values[..|values| - 1]);
    }
  }

  /** A mood no record carries sums to 0. */
  lemma {:induction false} SumForAbsent(f: seq<MoodRecord>, name: string)
    requires name !in Names(f)
    ensures SumFor(f, name) == 0
  {
    if |f| > 0 {
      var p := f[..|f| - 1];
      assert Names(f) == Names(p) + [f[|f| - 1].moodName];
      SumForAbsent(p, name);
    }
  }

  /** One more record adds its count to the slice of its mood, if that mood is listed once. */
  lemma {:induction false} SumSlicesSnoc(keys: seq<string>, p: seq<MoodRecord>, r: MoodRecord)
    requires NoDuplicates(keys)
    ensures SumSlices(keys, p + [r]) == SumSlices(keys, p) + (if r.moodName in keys then r.entryCount else 0)
  {
    assert (p + [r])[..|p|] == p;
    if |keys| > 0 {
      var k' := keys[..|keys| - 1];
      assert NoDuplicates(k');
      SumSlicesSnoc(k', p, r);
      SumForSnoc(p, r, keys[|keys| - 1]);
      assert keys == k' + [keys[|keys| - 1]];
    }
  }

  /** The slices add up to the total count of the filtered records. */
  lemma {:induction false} SlicesTotal(f: seq<MoodRecord>)
    ensures SumSlices(Distinct(Names(f)), f) == SumAll(f)
  {
    if |f| > 0 {
      var p := f[..|f| - 1];
      var r := f[|f| - 1];
      assert f == p + [r];
      SlicesTotal(p);
      var keys := Distinct(Names(p));
      NamesSnoc(p, r);
      DistinctSnoc(Names(p), r.moodName);
      DistinctInFirstSeenOrder(Names(p));
      SumSlicesSnoc(keys, p, r);
      assert SumAll(f) == SumAll(p) + r.entryCount;
      if r.moodName in Names(p) {
        assert Distinct(Names(f)) == keys;
      } else {
        assert Distinct(Names(f)) == keys + [r.moodName];
        SumForAbsent(p, r.moodName);
        SumForSnoc(p, r, r.moodName);
        SumSlicesAppend(keys, f, r.moodName);
      }
    }
  }

  lemma SumSlicesAppend(keys: seq<string>, f: seq<MoodRecord>, m: string)
    ensures SumSlices(keys + [m], f) == SumSlices(keys, f) + SumFor(f, m)
  {
    assert (keys + [m])[..|keys|] == keys;
  }

  // ---------------------------------------------------------------------------------------
  // Slice colours

  /** Line 44 as written: one colour per record, in record order. chart.js gives slice `i`
      the colour at position `i`, so slices are coloured by the first records, whatever
      their mood. */
  function AsWrittenColors(f: seq<MoodRecord>): (c: seq<string>)
    ensures |c| == |f|
    ensures forall i :: 0 <= i < |f| ==> c[i] == f[i].moodColor
  {
    seq(|f|, i requires 0 <= i < |f| => f[i].moodColor)
  }

  /** Two calm days and a sad one. */
  const Sample: seq<MoodRecord> := [MoodRecord(19800, 1, "green", "calm"), MoodRecord(19801, 1, "green", "calm"),
                                    MoodRecord(19802, 1, "blue", "sad")]

  lemma SampleLabels()
    ensures Names(Sample) == ["calm", "calm", "sad"]
    ensures Distinct(Names(Sample)) == ["calm", "sad"]
  {
    var names := ["calm", "calm", "sad"];
    assert Names(Sample) == names;
    assert names[..1] == ["calm"] && names[..2] == ["calm", "calm"];
    assert Distinct(names[..1]) == ["calm"];
    assert Distinct(names[..2]) == ["calm"];
    assert "sad" != "calm";
  }

  /** On the sample the sad slice (the second label) is drawn in the calm colour, though
      every sad record is blue. */
  lemma AsWrittenColorsMismatch()
    ensures Distinct(Names(Sample)) == ["calm", "sad"]
    ensures AsWrittenColors(Sample)[1] == "green"
    ensures forall i :: 0 <= i < |Sample| && Sample[i].moodName == "sad" ==> Sample[i].moodColor == "blue"
  {
    SampleLabels();
  }

  /** The corrected colours: slice `i` takes the colour of the first record of its mood. */
  function SliceColors(f: seq<MoodRecord>): (c: seq<string>)
    ensures |c| == |Distinct(Names(f))|
    ensures forall i :: 0 <= i < |c| ==>
      exists j :: 0 <= j < |f| && f[j].moodName == Distinct(Names(f))[i] && c[i] == f[j].moodColor
                  && forall k :: 0 <= k < j ==> f[k].moodName != f[j].moodName
  {
    var labels := Distinct(Names(f));
    seq(|labels|, i requires 0 <= i < |labels| =>
      assert labels[i] in labels;
      f[FirstIndexOf(Names(f), labels[i])].moodColor)
  }

  /** With the corrected colours the sample draws the sad slice blue. */
  lemma SliceColorsExample()
    ensures SliceColors(Sample) == ["green", "blue"]
  {
    SampleLabels();
    var names := Names(Sample);
    assert FirstIndexOf(names, "calm") == 0;
    assert "sad" != "calm";
    assert names[1..] == ["calm", "sad"] && names[2..] == ["sad"];
    assert FirstIndexOf(names, "sad") == 2;
  }

  /** The whole component with the corrected colours: one slice per mood in first-seen order,
      its value the mood's summed count, the values adding up to the total count. */
  method BuildPieChart(data: seq<MoodRecord>, nowMs: int, days: int)
    returns (labels: seq<string>, values: seq<int>, colors: seq<string>)
    ensures var f := FilterByTimeRange(data, nowMs, days);
            && labels == Distinct(Names(f))
            && |values| == |labels|
            && (forall i :: 0 <= i < |labels| ==> values[i] == SumFor(f, labels[i]))
            && SumSeq(values) == SumAll(f)
            && colors == SliceColors(f)
            && (|f| == 0 ==> labels == [] && values == [] && colors == [])
  {
    var f := FilterByTimeRange(data, nowMs, days);
    var counts;
    labels, counts := MoodCounts(f);
    assert forall i :: 0 <= i < |labels| ==> labels[i] in labels;
    values := Values(labels, counts);
    ValuesSum(labels, f, values);
    SlicesTotal(f);
    colors := SliceColors(f);
  }
}
