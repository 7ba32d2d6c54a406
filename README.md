# Mood journal core, modelled in Dafny

A model of the logic of a small mood journal: a React client that shows a month calendar of
journal entries, a line chart and a pie chart of mood counts, and a journal page heading, and
a Flask backend whose handlers validate requests and update PostgreSQL tables. The model covers:

- **The month grid** (`calendar.dfy`, on top of `civil_dates.dfy`): month length, weekday of
  the first, month navigation with year roll-over, the 42-cell grid with its three segments,
  the lookup of each cell's entry and colour, the mood legend, and the time-zone correction
  applied to fetched entry dates. JavaScript's local `Date` is modelled as proleptic Gregorian
  arithmetic on a day count from 1 January of year 1, with `new Date(y, m, d)` rolling
  out-of-range months and days over as JavaScript does (`CivilDates.Normalize`). Months are
  numbered from 0, as `getMonth()` numbers them.
- **The chart aggregation** (`mood_records.dfy`, `line_graph.dfy`, `pie_chart.dfy`): the
  trailing window, the stable date sort (an in-place insertion sort on an array, specified by
  a functional insertion sort), the distinct mood names, the first colour of each mood, the
  carry-forward cumulative totals of the line chart and the per-mood sums of the pie chart.
  Record dates are day numbers since 1 January 1970; the current instant is a parameter.
- **The journal page heading** (`journal_page.dfy`): splitting `M_D_YYYY`, `Number` on the
  pieces, month names and the English ordinal suffix.
- **The backend rules** (`backend.dfy`): the upload extension whitelist, the request checks of
  `register`, `entries` POST and `manage_note`, the `entries` upsert keyed by
  `"<user>_<date>"`, the `manage_entry` PUT with its `COALESCE` on the image path, the
  get-or-create of moods and the upsert of a user's mood colour. Tables are maps held by the
  `Backend.Database` class; the methods are tied to pure functions of the old tables, and the
  properties are proved about those functions.

`sequences.dfy` (first occurrence, `new Set` order), `decimal.dfy` (decimal text of naturals)
and `wrappers.dfy` (`Option`) are shared helpers.

Three points about what the code does, which the model follows:

- `Calendar.tsx:165-171` looks up an entry for every one of the 42 cells, including the
  previous- and next-month days, not only for the days of the displayed month.
- `Calendar.tsx:112-113` corrects the wire date with the UTC offset in force now, not the
  one in force at the entry's date (see Findings).
- `app.py:258-277` finds or creates a mood by name alone, in one table shared by all users,
  then upserts the caller's colour keyed by (user, mood); a mood is not unique per
  (user, name, colour), and a second `moods` POST with the same name finds the same mood.

## Model

| member | source | states |
|---|---|---|
| CivilDates.Normalize | src/components/Calendar.tsx:61-62 | `new Date(y, m, d)` gives a valid date lying exactly `d - 1` days after the first of month `m`, whatever the range of `d` |
| CivilDates.UnixEpochIsThursday | src/components/Calendar.tsx:14 | the weekday numbering (0 = Sunday, the header order) puts 1 January 1970 on 4, a Thursday |
| CivilDates.LocalDateDuringDay | src/components/Calendar.tsx:113 | any instant inside the local day of a date reads back, through the local getters, as that date |
| Calendar.DaysInMonth | src/components/Calendar.tsx:61 | day 0 of the next month gives the true Gregorian length of the month |
| Calendar.FirstDayOfMonth | src/components/Calendar.tsx:62 | the weekday of the first is in 0..6 and is the weekday of its day count |
| Calendar.MonthNavigationRoundTrip | src/components/Calendar.tsx:69-75 | going to the next month and back lands on the first of the original month |
| Calendar.CalendarView.PrevMonth | src/components/Calendar.tsx:69-71 | the view moves to day 1 of the month before; January goes to December of the year before |
| Calendar.CalendarView.NextMonth | src/components/Calendar.tsx:73-75 | the view moves to day 1 of the month after; December goes to January of the year after |
| Calendar.MatchingEntry | src/components/Calendar.tsx:165-169 | no entry exactly when no entry has the cell's (year, month, day); otherwise the first such entry in list order |
| Calendar.CellColor | src/components/Calendar.tsx:171 | the entry's mood colour, or the weekday colour when there is no entry or its colour is empty |
| Calendar.UniqueMoods | src/components/Calendar.tsx:120-125 | the legend lists each distinct entry colour once, in first-seen order, with the name of the first entry of that colour |
| Calendar.AdjustedEntryDateSameOffset | src/components/Calendar.tsx:112-113 | with one UTC offset all year the correction gives back the date sent by the server |
| Calendar.AdjustedEntryDateAcrossDst | src/components/Calendar.tsx:112-113 | when the offset at the entry's date exceeds today's offset the entry is shown on the day before |
| Calendar.AdjustedEntryDateKept | src/components/Calendar.tsx:112-113 | when today's offset is at least the offset at the entry's date, by less than a day, the entry keeps its date |
| Calendar.AdjustedEntryDateExample | src/components/Calendar.tsx:112-113 | 15 January 2024 seen from New York in summer is shown on 14 January |
| Calendar.CorrectedEntryDate | src/components/Calendar.tsx:107-118 | the corrected conversion keeps every valid date sent by the server |
| Calendar.NearbyMonthDate | src/components/Calendar.tsx:149-163 | `new Date(year, month + delta, day)` for a day of the month before, the month or the month after names that day of that month, and only the middle one has the displayed month |
| Calendar.GridDate | src/components/Calendar.tsx:149-163 | cell `i` gets its day number and a valid date: the previous month's last `first` days, this month's days 1..length, then the next month's days 1, 2, ...; it is flagged current exactly in the middle segment |
| Calendar.CurrentMonthBlock | src/components/Calendar.tsx:163 | cells flagged on one contiguous block count the length of the block |
| Calendar.CalendarView.MonthShape | src/components/Calendar.tsx:142-143 | the weekday of the first, the length of the displayed month and the length of the month before, each against the independent Gregorian definitions |
| Calendar.CalendarView.CellAt | src/components/Calendar.tsx:149-171 | cell `i` is laid out by `GridPlace`, holds the first entry of its date and the colour `CellColor` gives it |
| Calendar.CalendarView.RenderCalendarDays | src/components/Calendar.tsx:138-185 | 42 cells: the last `first` days of the previous month ending at its last day, days 1..length of this month, then next-month days 1, 2, ... (at most 14); each cell holds its first matching entry and its colour; exactly month-length cells are flagged current |
| Calendar.CalendarView.ReceiveEntries | src/components/Calendar.tsx:107-127 | with the corrected conversion, entries keep their dates; the legend is the distinct colours in first-seen order with first names, loading ends |
| Calendar.CalendarView.constructor | src/components/Calendar.tsx:55-58 | the view opens on today with no entries and no legend, loading |
| MoodRecords.FilterByTimeRange | src/components/LineGraph.tsx:38-42 | every kept record is in the window, and each record of the window is kept as often as it occurs |
| MoodRecords.FilterAppend | src/components/LineGraph.tsx:41 | filtering keeps relative order: it distributes over concatenation |
| MoodRecords.WindowInDays | src/components/LineGraph.tsx:39-41 | with now inside day `today`, the window holds exactly the records dated `today - days + 1` or later |
| MoodRecords.Lookup | src/components/LineGraph.tsx:76 | a mood without a total reads as 0, a mood with one reads its total |
| MoodRecords.SumUpToMonotone | src/components/LineGraph.tsx:61-63 | with non-negative counts a mood's running sum never falls as the date grows |
| LineGraph.InsertionSortedPermutes | src/components/LineGraph.tsx:47 | the sorted records are a permutation of the filtered ones |
| LineGraph.InsertionSortedIsSorted | src/components/LineGraph.tsx:47 | the sorted records are in ascending date order |
| LineGraph.InsertionSortedIsStable | src/components/LineGraph.tsx:47 | records of one date keep their relative order, as the stable `Array.prototype.sort` keeps it |
| LineGraph.SortByDate | src/components/LineGraph.tsx:47 | the array is sorted in place into the functional insertion sort of its old contents |
| LineGraph.ColorOfFirst | src/components/LineGraph.tsx:53 | the colour of the first record of the mood, or black when that colour is empty or the mood is absent |
| LineGraph.MoodColors | src/components/LineGraph.tsx:52-55 | one colour per listed mood, each the colour of its first record |
| LineGraph.Touch | src/components/LineGraph.tsx:60-62 | a new date is appended and starts as a copy of the last date's totals (empty for the first date); a known date is left alone |
| LineGraph.AddCountLookup | src/components/LineGraph.tsx:63 | adding a count raises that mood's total by the count and leaves other moods alone |
| LineGraph.FoldKeys | src/components/LineGraph.tsx:58-65 | the keys are every record date once, in first-seen order |
| LineGraph.AddRecord | src/components/LineGraph.tsx:58-64 | the in-place callback computes the reduce step on the accumulator |
| LineGraph.CumulativeTotals | src/components/LineGraph.tsx:58-65 | the loop computes the reduce over all records |
| LineGraph.AscendingDistinctDates | src/components/LineGraph.tsx:47-62 | on date-sorted records the keys are strictly ascending |
| LineGraph.CumulativeNonDecreasing | src/components/LineGraph.tsx:61 | with non-negative counts every mood's value is non-decreasing from one key to a later one |
| LineGraph.CumulativeLastIsTotal | src/components/LineGraph.tsx:63 | at the last date each mood's value is the sum of all its counts |
| LineGraph.SeriesOfSorted | src/components/LineGraph.tsx:76 | each mood's line plots, at each date, the sum of its counts up to that date |
| LineGraph.BuildLineChart | src/components/LineGraph.tsx:37-82 | one label per distinct date in ascending order; one dataset per mood in first-occurrence order, in its first colour, plotting its running sums |
| PieChart.MoodCounts | src/components/PieChart.tsx:34-37 | the keys are the distinct names in first-seen order and each count is the sum of that mood's counts |
| PieChart.Tally | src/components/PieChart.tsx:35 | one step of the reduce turns the counts of a prefix into the counts of the prefix and one more record |
| PieChart.SlicesTotal | src/components/PieChart.tsx:34-43 | the slice values add up to the total count of the filtered records |
| PieChart.AsWrittenColors | src/components/PieChart.tsx:44 | as written, one colour per filtered record: position `i` holds record `i`'s colour |
| PieChart.AsWrittenColorsMismatch | src/components/PieChart.tsx:44 | as written, the second slice of two calm days and a sad one is drawn green though every sad record is blue |
| PieChart.SliceColors | src/components/PieChart.tsx:44 | corrected: one colour per slice, the colour of the first record of the slice's mood |
| PieChart.SliceColorsExample | src/components/PieChart.tsx:44 | corrected, the same data draws the sad slice blue |
| PieChart.BuildPieChart | src/components/PieChart.tsx:25-48 | with the corrected colours: labels are the distinct moods in first-seen order, values aligned with them and summing to the total, empty data giving empty labels and values |
| JournalPage.Split | src/components/JournalPage.tsx:18 | `split('_')` gives at least one piece and no piece holds the separator |
| JournalPage.SplitJoin | src/components/JournalPage.tsx:18 | joining the pieces again gives back the route |
| JournalPage.JoinSplit | src/components/JournalPage.tsx:18 | pieces without the separator are recovered from their join |
| JournalPage.ToNumberOfNatToString | src/components/JournalPage.tsx:18 | `Number` reads a printed number back as itself |
| JournalPage.Piece | src/components/JournalPage.tsx:18 | destructuring gives `undefined` exactly for a missing piece |
| JournalPage.MonthText | src/components/JournalPage.tsx:35 | months 1..12 give their English name; any other value, NaN or `undefined` prints "undefined" |
| JournalPage.DaySuffixOfDays | src/components/JournalPage.tsx:25-33 | for every day 1..31 the suffix is the written-out English ordinal suffix (1st, 2nd, 3rd, 11th-13th, 21st, 22nd, 23rd, 31st) |
| JournalPage.FormatRoute | src/components/JournalPage.tsx:17-39 | the route of month 1..12, day and year formats as "<month name> <day><suffix>, <year>" |
| JournalPage.FormatDateExample | src/components/JournalPage.tsx:17-39 | "1_1_2024" formats as "January 1st, 2024" |
| JournalPage.FormatMissingYear | src/components/JournalPage.tsx:18-38 | a route without a year prints "undefined" in its place |
| Backend.LastDot | backend/app.py:58 | the index of the last '.', none exactly when there is no '.' |
| Backend.AllowedFileIff | backend/app.py:57-58 | a file name is allowed exactly when it is `<stem>.<ext>` with no '.' in `ext` and `ext` lower-cased in {png, jpg, jpeg, gif} |
| Backend.AllowedFileUpperCase | backend/app.py:36 | "photo.PNG" is allowed: the extension is compared lower-cased |
| Backend.AllowedFileNoStem | backend/app.py:57-58 | ".gif" is allowed |
| Backend.AllowedFileLastExtension | backend/app.py:57-58 | "archive.tar.gz" is refused: only the last extension counts |
| Backend.AllowedFileNoDot | backend/app.py:57-58 | "png" is refused: a name without '.' is never allowed |
| Backend.AllowedFileTrailingDot | backend/app.py:57-58 | "image.jpeg." is refused: the extension after the last '.' is empty |
| Backend.ImagePath | backend/app.py:208-216 | an image path is stored exactly for an upload with an allowed name, and it is the upload's saved path |
| Backend.RegisterCheck | backend/app.py:88-96 | an early status is 400 or 500, and 500 exactly for a `null` body or a truthy password that is not text (`len` fails) |
| Backend.RegisterCheckPasses | backend/app.py:88-96 | the insert is reached exactly for a body with a non-empty username and a text password of at least 8 characters |
| Backend.RegisterBadRequest | backend/app.py:92-96 | a missing or empty username or password, or a password of 1 to 7 characters, is refused with 400 |
| Backend.Register | backend/app.py:86-114 | the status is one of 201, 400, 409, 500; 201 exactly for a valid request with a new username, which is then added; nothing else changes the table |
| Backend.ConflictOnlyWhenValid | backend/app.py:92-111 | 409 is returned only after validation passed, for a taken username |
| Backend.EntryPostCheck | backend/app.py:199-205 | the upsert is reached exactly for a body holding date, user_mood_id, title and entry_text; otherwise 400 |
| Backend.NoteIdCheck | backend/app.py:506-507 | the id is accepted exactly when it is a non-empty string of ASCII digits; otherwise 400 |
| Backend.NoteIdOfNumber | backend/app.py:506-507 | every printed number passes the note id check |
| Backend.NoteIdRejections | backend/app.py:506-507 | "", "-1", "12a" and "abc" are refused with 400 |
| Backend.EntryId | backend/app.py:218 | the id is the user's digits, then its first '_', then the printed date |
| Backend.EntryIdInjective | backend/app.py:218 | two `"<user>_<date>"` ids are equal only for the same user and the same printed date |
| Backend.UpsertEntry | backend/app.py:222-232 | the id is added if new; an existing row keeps id, user and date and takes the new mood, title, image path and text; other rows are unchanged |
| Backend.PostEntry | backend/app.py:198-236 | 200 with the id `"<user>_<date>"` exactly for a valid body, the table then being the upsert of the body's row (with the saved image path) under that id; otherwise 400 and the table unchanged |
| Backend.PostWithoutFileClearsImage | backend/app.py:208-232 | a valid post without a saved file leaves the row for its id with no image path, also over a row that had one |
| Backend.SecondPostReplaces | backend/app.py:218-232 | a second post for the same user and date leaves one row for that id, keeping its user and date and taking the second post's content |
| Backend.UpdateEntry | backend/app.py:466-473 | date, user_mood_id, title and entry_text take the body's values; the image path is kept when no new image was saved and replaced when one was; the owner stays |
| Backend.PutEntry | backend/app.py:425-480 | 200 exactly for a uuid id, a complete body and a row of the caller; the row then becomes `UpdateEntry` of the old row, the body and the saved image (the `COALESCE`); no other row changes, and nothing changes otherwise |
| Backend.GetOrCreateMood | backend/app.py:258-267 | `isNew` exactly when no mood of that name existed; existing moods keep their ids |
| Backend.GetOrCreateKeepsFresh | backend/app.py:265-266 | a created mood gets an id no other mood has |
| Backend.GetOrCreateIdempotent | backend/app.py:258-267 | asking again for the same name finds the same mood, not new |
| Backend.UpsertUserMood | backend/app.py:269-277 | the (user, mood) row is created or its colour replaced; an existing row keeps its id; other rows are unchanged |
| Backend.UpsertUserMoodKeepsIds | backend/app.py:274 | the upsert changes colours only: ids of existing rows stay, new ids are fresh |
| Backend.Database.RegisterUser | backend/app.py:86-114 | the handler's status and new users table are those of `Register` |
| Backend.Database.PostEntryRequest | backend/app.py:198-236 | the handler's status, id and new entries table are those of `PostEntry` |
| Backend.Database.PutEntryRequest | backend/app.py:449-480 | the handler's status and new entries table are those of `PutEntry` |
| Backend.Database.PostMood | backend/app.py:242-291 | 500 for a null body, 400 without a name; otherwise 201 exactly when the mood is new, else 200; with a truthy colour the caller's row for the mood holds that colour and is returned, keeping its id if it existed; without one `user_mood_id` is null and user_moods is unchanged |
| Backend.Database.PostUserMood | backend/app.py:293-318 | 400 without mood_id and colour; otherwise the caller's row for the mood holds the colour, keeps its id if it existed, and no other row changes |

## Left out

- Rendering, chart.js, the React state hooks and `fetch`: the model takes the fetched data as
  parameters. The error path of the month fetch (loading stays on) is not modelled.
- The real clock and time zone: "now" is a millisecond parameter and the UTC offsets are
  minute parameters. `setDate(getDate() - days)` is modelled as exactly `days` times 24 hours;
  across a daylight-saving change the real cutoff differs by the hour of the change.
- JavaScript `Date` of years 0 to 99 (which `new Date(y, m, d)` maps to 1900 + y) is not
  modelled; every year is taken literally.
- Chart labels: `toLocaleDateString` is left out; the labels are the day numbers of the keys.
- Chart record dates are day numbers; the string form and its parsing as UTC midnight are
  left out. Object key order is modelled as insertion order, which holds for date strings
  and mood names that do not look like array indices ("12" would move to the front).
- Calendar.CalendarView.ReceiveEntries: converts dates with the corrected
  `Calendar.CorrectedEntryDate`, not with lines 112-113 as written; across a daylight-saving
  change the source shows an entry a day early (`Calendar.AdjustedEntryDateAcrossDst`), which
  this method does not capture.
- PieChart.BuildPieChart: returns the corrected per-slice colours `PieChart.SliceColors`, not the
  per-record array of `PieChart.tsx:44` as written (`PieChart.AsWrittenColors`), so the wrong
  slice colours the source draws are not part of its result.
- JournalPage.ToNumber: reads every string of digits as an exact natural, and `Render` prints
  every natural in full. JavaScript's `Number` is a double: above 2^53 it rounds, and from
  10^21 on it prints in exponent form. JournalPage.ToNumberOfNatToString and
  JournalPage.FormatRoute are therefore stated only up to `Number.MAX_SAFE_INTEGER`.
- Mood names inherited from `Object.prototype` ("toString", "constructor", "valueOf",
  `__proto__`) make `(acc[name] || 0) + count` at `PieChart.tsx:35` and `LineGraph.tsx:63`
  start from a function or an object; the model treats every name as a fresh key.
- JournalPage.ToNumber: only strings of ASCII digits (and the empty string, which reads as
  0) are read as numbers; `Number`'s whitespace, signs, decimals, exponents and hexadecimal
  forms are read as NaN.
- Backend.NoteIdCheck: Python's `isdigit` also accepts non-ASCII digits; only ASCII digits
  are accepted here.
- Backend.Lower: only ASCII letters are lowered. No other character lowers into one of the
  letters of png, jpg, jpeg or gif, so the whitelist test is unaffected.
- Backend request bodies: a JSON object of null, booleans, integers and strings, or a body
  of JSON `null`. Other JSON values (arrays, floats, nested objects) are left out.
- Backend.ImagePath: the upload is a parameter independent of the JSON body. In Flask,
  `request.files` is filled only for a multipart body, and for such a body `request.json`
  fails (400 or 415; in older Werkzeug it is `None`, giving 400 at `app.py:200-201` and a
  `TypeError`, so 500, at `app.py:452`). In the source, then, every request that reaches the
  INSERT or the UPDATE has no file, its image path is `None`, and an `entries` POST over a row
  with an image clears it (`Backend.PostWithoutFileClearsImage`). The rows of `ImagePath`,
  `UpdateEntry` and `PutEntry` that store or replace a path describe requests Flask does not
  deliver together with a JSON body.
- Backend SQL: errors raised by the database (foreign keys, NOT NULL columns, type casts)
  and the 500 they lead to are not modelled; a mood name of JSON null is compared by value,
  not with SQL's NULL semantics; a user_moods key holds the mood id as sent, so a textual
  "3" and a number 3 are different keys.
- Backend.Register: usernames are assumed unique in the users table (the 409 path); the
  table script in the repository declares no username column at all.
- Password hashing, JWT identities (the user is a natural-number parameter), `secure_filename`,
  `uuid4`, saving files (the saved path is part of the `Upload` parameter) and `is_valid_uuid`
  (a boolean parameter of `PutEntry`). The entry ids made by `entries` POST are not uuids, so
  `manage_entry` refuses them; the model keeps both rules as written.
- The other routes (login, GET handlers, notes, user update and delete) beyond the note id
  check.

## Findings

| source | as written | input that shows it | evidently intended | confidence | as-written member | corrected member |
|---|---|---|---|---|---|---|
| src/components/Calendar.tsx:112-113 | the wire date is shifted by today's UTC offset, then read back with the offset in force at the entry's date | an entry of 15 January 2024 viewed in New York in summer (offset 240 now, 300 in January) | the entry stays on the date the server sent | high; not executed | Calendar.AdjustedEntryDateAcrossDst | Calendar.CorrectedEntryDate |
| src/components/PieChart.tsx:44 | `backgroundColor` has one colour per filtered record, but chart.js colours slice `i` with colour `i` | records calm/green, calm/green, sad/blue: the sad slice is drawn green | slice `i` drawn in the colour of its mood | high; not executed | PieChart.AsWrittenColorsMismatch | PieChart.SliceColors |

The rest of the model uses the corrected members: `Calendar.CalendarView.ReceiveEntries`
converts dates with `Calendar.CorrectedEntryDate`, and `PieChart.BuildPieChart` colours
slices with `PieChart.SliceColors`.
