/** The heading of the journal page (src/components/JournalPage.tsx): the route date
    `M_D_YYYY` rendered as "January 1st, 2024". */
module JournalPage {
  import opened Decimal
  import opened Sequences

  /** The JavaScript values the formatting meets: a number read from the route (only
      non-negative integers and NaN arise from pieces of digits or other text), and the
      `undefined` of a missing piece. */
  datatype JsValue = Num(n: nat) | NaN | Undefined

  /** `s.split(sep)`: the pieces between separators, empty pieces included. */
  function Split(s: string, sep: char): (r: seq<string>)
    ensures |r| >= 1
    ensures forall i :: 0 <= i < |r| ==> sep !in r[i]
    decreases |s|
  {
    if sep !in s then [s]
    else
      var i := FirstIndexOf(s, sep);
      [s[..i]] + Split(s[i + 1..], sep)
  }

  /** `parts.join(sep)`. */
  function Join(parts: seq<string>, sep: char): string
    requires |parts| >= 1
  {
    if |parts| == 1 then parts[0] else parts[0] + [sep] + Join(parts[1..], sep)
  }

  /** Splitting and joining again restores the text. */
  lemma {:induction false} SplitJoin(s: string, sep: char)
    ensures Join(Split(s, sep), sep) == s
    decreases |s|
  {
    if sep in s {
      var i := FirstIndexOf(s, sep);
      var rest := Split(s[i + 1..], sep);
      SplitJoin(s[i + 1..], sep);
      JoinCons(s[..i], rest, sep);
      CutAt(s, i);
    }
  }

  lemma JoinCons(x: string, rest: seq<string>, sep: char)
    requires |rest| >= 1
    ensures Join([x] + rest, sep) == x + [sep] + Join(rest, sep)
  {
    assert ([x] + rest)[1..] == rest;
  }

  lemma CutAt(s: string, i: nat)
    requires i < |s|
    ensures s == s[..i] + [s[i]] + s[i + 1..]
  {
  }

  /** Pieces free of the separator are recovered from their join. */
  lemma {:induction false} JoinSplit(parts: seq<string>, sep: char)
    requires |parts| >= 1
    requires forall i :: 0 <= i < |parts| ==> sep !in parts[i]
    ensures Split(Join(parts, sep), sep) == parts
  {
    if |parts| > 1 {
      var s := Join(parts, sep);
      var p := parts[0];
      JoinSplit(parts[1..], sep);
      assert s[..|p|] == p && s[|p|] == sep;
      FirstIndexAt(s, |p|, sep);
      assert s[|p| + 1..] == Join(parts[1..], sep);
    }
  }

  /** `Number(s)` for the texts the route can hold: the empty string reads as 0, a string of
      ASCII digits as its value, anything else as NaN. */
  function ToNumber(s: string): JsValue
  {
    if AllDigits(s) then Num(ValueOf(s)) else NaN
  }

  /** `Number.MAX_SAFE_INTEGER`: up to here every natural is a double, read and printed exactly. */
  const MaxSafeInteger: nat := 0x1F_FFFF_FFFF_FFFF

  /** `Number.isSafeInteger` for a natural. */
  predicate SafeInteger(n: nat) { n <= MaxSafeInteger }

  /** A printed number reads back as itself. */
  lemma ToNumberOfNatToString(n: nat)
    requires SafeInteger(n)
    ensures ToNumber(NatToString(n)) == Num(n)
  {
    ValueOfNatToString(n);
  }

  /** Array destructuring: a missing element is `undefined`. */
  function Piece(parts: seq<string>, i: nat): (v: JsValue)
    ensures i >= |parts| <==> v == Undefined
  {
    if i < |parts| then ToNumber(parts[i]) else Undefined
  }

  const MonthNames: seq<string> := ["January", "February", "March", "April", "May", "June",
    "July", "August", "September", "October", "November", "December"]

  /** `${v}`. */
  function Render(v: JsValue): string
  {
    match v
    case Num(n) => NatToString(n)
    case NaN => "NaN"
    case Undefined => "undefined"
  }

  /** `${monthNames[month - 1]}`: months 1..12 are named, any other index reads `undefined`. */
  function MonthText(month: JsValue): (t: string)
    ensures month.Num? && 1 <= month.n <= 12 ==> t == MonthNames[month.n - 1]
    ensures !(month.Num? && 1 <= month.n <= 12) ==> t == "undefined"
  {
    if month.Num? && 1 <= month.n <= 12 then MonthNames[month.n - 1] else "undefined"
  }

  /** `getDaySuffix`: 11, 12 and 13 take "th"; otherwise the last digit decides. NaN and
      `undefined` fail both comparisons and leave NaN as remainder, so they take "th". */
  function DaySuffix(day: JsValue): string
  {
    if day.Num? && 11 <= day.n <= 13 then "th"
    else if day.Num? && day.n % 10 == 1 then "st"
    else if day.Num? && day.n % 10 == 2 then "nd"
    else if day.Num? && day.n % 10 == 3 then "rd"
    else "th"
  }

  /** The English ordinal suffixes of the days of a month, written out. */
  const OrdinalSuffixes: seq<string> := [
    "st", "nd", "rd", "th", "th", "th", "th", "th", "th", "th",
    "th", "th", "th", "th", "th", "th", "th", "th", "th", "th",
    "st", "nd", "rd", "th", "th", "th", "th", "th", "th", "th",
    "st"]

  /** For every day of a month the rule gives the English ordinal suffix. */
  lemma DaySuffixOfDays(d: nat)
    requires 1 <= d <= 31
    ensures DaySuffix(Num(d)) == OrdinalSuffixes[d - 1]
  {
    if d <= 10 {
      if d <= 5 {
        assert d == 1 || d == 2 || d == 3 || d == 4 || d == 5;
      } else {
        assert d == 6 || d == 7 || d == 8 || d == 9 || d == 10;
      }
    } else if d <= 20 {
      if d <= 15 {
        assert d == 11 || d == 12 || d == 13 || d == 14 || d == 15;
      } else {
        assert d == 16 || d == 17 || d == 18 || d == 19 || d == 20;
      }
    } else {
      if d <= 25 {
        assert d == 21 || d == 22 || d == 23 || d == 24 || d == 25;
      } else {
        assert d == 26 || d == 27 || d == 28 || d == 29 || d == 30 || d == 31;
      }
    }
  }

  /** `formatDate`. */
  function FormatDate(route: string): string
  {
    var parts := Split(route, '_');
    var month, day, year := Piece(parts, 0), Piece(parts, 1), Piece(parts, 2);
    MonthText(month) + " " + Render(day) + DaySuffix(day) + ", " + Render(year)
  }

  lemma FormatOfPieces(route: string, parts: seq<string>)
    requires Split(route, '_') == parts
    ensures FormatDate(route) == MonthText(Piece(parts, 0)) + " " + Render(Piece(parts, 1))
                                 + DaySuffix(Piece(parts, 1)) + ", " + Render(Piece(parts, 2))
  {
  }

  /** The route of a date. */
  function Route(month: nat, day: nat, year: nat): string
  {
    NatToString(month) + "_" + NatToString(day) + "_" + NatToString(year)
  }

  lemma DigitsHaveNoSeparator(s: string)
    requires AllDigits(s)
    ensures '_' !in s
  {
  }

  lemma JoinTwo(a: string, b: string, sep: char)
    ensures Join([a, b], sep) == a + [sep] + b
  {
    assert [a, b][1..] == [b];
  }

  lemma JoinThree(a: string, b: string, c: string, sep: char)
    ensures Join([a, b, c], sep) == a + [sep] + b + [sep] + c
  {
    assert [a, b, c][1..] == [b, c];
    JoinTwo(b, c, sep);
    assert a + [sep] + (b + [sep] + c) == a + [sep] + b + [sep] + c;
  }

  /** The pieces of `<a>_<b>_<c>` for pieces of digits are `[a, b, c]`. */
  lemma SplitRoute(a: string, b: string, c: string)
    requires AllDigits(a) && AllDigits(b) && AllDigits(c)
    ensures Split(a + "_" + b + "_" + c, '_') == [a, b, c]
  {
    DigitsHaveNoSeparator(a);
    DigitsHaveNoSeparator(b);
    DigitsHaveNoSeparator(c);
    JoinThree(a, b, c, '_');
    JoinSplit([a, b, c], '_');
  }

  /** Formatting the route of month `m` (1..12), day `d` and year `y` names the month and
      prints the day with its suffix and the year. */
  lemma FormatRoute(m: nat, d: nat, y: nat)
    requires 1 <= m <= 12 && SafeInteger(d) && SafeInteger(y)
    ensures FormatDate(Route(m, d, y))
         == MonthNames[m - 1] + " " + NatToString(d) + DaySuffix(Num(d)) + ", " + NatToString(y)
  {
    var parts := [NatToString(m), NatToString(d), NatToString(y)];
    SplitRoute(NatToString(m), NatToString(d), NatToString(y));
    ValueOfNatToString(m);
    ValueOfNatToString(d);
    ValueOfNatToString(y);
    FormatOfPieces(Route(m, d, y), parts);
    assert Piece(parts, 0) == Num(m) && Piece(parts, 1) == Num(d) && Piece(parts, 2) == Num(y);
  }

  lemma FormatDateExample()
    ensures FormatDate("1_1_2024") == "January 1st, 2024"
  {
    PrintedDigits();
    assert Route(1, 1, 2024) == "1_1_2024";
    FormatRoute(1, 1, 2024);
    assert DaySuffix(Num(1)) == "st";
    assert MonthNames[0] == "January";
    HeadingText();
  }

  lemma HeadingText()
    ensures "January" + " " + "1" + "st" + ", " + "2024" == "January 1st, 2024"
  {
    HeadingPrefix();
  }

  lemma HeadingPrefix()
    ensures "January" + " " + "1" + "st" + ", " == "January 1st, "
  {
    assert "January" + " " == "January ";
    assert "January " + "1" == "January 1";
    assert "January 1" + "st" == "January 1st";
  }

  lemma PrintedDigits()
    ensures NatToString(1) == "1" && NatToString(2024) == "2024"
  {
    assert NatToString(2) == "2";
    assert NatToString(20) == "20";
    assert NatToString(202) == "202";
  }

  /** The pieces of `<a>_<b>` for pieces of digits are `[a, b]`. */
  lemma SplitPair(a: string, b: string)
    requires AllDigits(a) && AllDigits(b)
    ensures Split(a + "_" + b, '_') == [a, b]
  {
    DigitsHaveNoSeparator(a);
    DigitsHaveNoSeparator(b);
    JoinTwo(a, b, '_');
    JoinSplit([a, b], '_');
  }

  /** A route with fewer than three pieces prints `undefined` for what is missing. */
  lemma FormatMissingYear(m: nat, d: nat)
    requires 1 <= m <= 12 && SafeInteger(d)
    ensures FormatDate(NatToString(m) + "_" + NatToString(d))
         == MonthNames[m - 1] + " " + NatToString(d) + DaySuffix(Num(d)) + ", " + "undefined"
  {
    var a, b := NatToString(m), NatToString(d);
    var parts := [a, b];
    SplitPair(a, b);
    ToNumberOfNatToString(m);
    ToNumberOfNatToString(d);
    FormatOfPieces(a + "_" + b, parts);
    assert MonthText(Piece(parts, 0)) == MonthNames[m - 1];
    assert Piece(parts, 1) == Num(d) && Render(Piece(parts, 2)) == "undefined";
  }
}
