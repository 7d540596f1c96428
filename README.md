# Weekly planner ("Wochenplaner") — data core in Dafny

The planner is a single Streamlit script. Under its widgets sits a small
data core, and this project models that core and proves what it does:

- a **store** maps a week key such as `2025-KW07` to a **week plan**;
- a week plan maps a weekday name (`Montag` … `Sonntag`) to the day's
  **entries** `(start, end, text)` in the order they were added;
- the store is **saved** as a raw nested structure in which every time is an
  `"HH:MM"` string and every entry is the list `[start, end, text]`, and it is
  **loaded** back from that structure;
- the user **prepares** a week (an unseen week gets seven empty days),
  **adds** an entry (only when start is before end and the stripped text is
  non-empty), and **deletes** an entry by its stored index. Every add and
  delete saves the whole store;
- the **mobile view** lists each day sorted by start time (Python's stable
  `sorted`) with a count; the **desktop view** is a grid of hours 6 to 22 by
  weekday, where an entry is shown in a cell when
  `(start.hour <= hour < end.hour) or (start.hour == hour and start.minute == 0)`.

Modules, one per concern of the script:

| file | module | contents |
|---|---|---|
| digits.dfy | `Digits` | `str(n)` and the `02d` format, with their inverses |
| clock.dfy | `Clock` | `Time` (hour 0..23, minute 0..59), `<` on times, `"HH:MM"` format and parse |
| text.dfy | `Text` | `str.strip()` |
| plans.dfy | `Plans` | entries, week plans, the store type, weekdays, the week key, the add guard, `list.pop` |
| persistence.dfy | `Persistence` | the raw structure, save and load as functions and as the script's loops, both round trips |
| views.dfy | `Views` | stable sort by start, mobile listing, grid occupancy and the grid's loops |
| session.dfy | `Session` | class `Planner`: the in-memory store and the file contents, with `GetOrCreate`, `Add`, `RemoveAt`, `Save` |

The store is a mutable field of the `Planner` class, and its methods update it in place as the
script does. The backing file is represented by a second field, `file`, holding the
raw structure last written. The `Planner.Valid()` invariant says that the file is well formed and that
every week it holds is exactly what saving the store writes for that week.
Preparing a week writes nothing. The prepared week reaches the file, with
its seven empty days, at the next add or delete in any week, because every
save writes the whole store.

Four behaviours of the code a reader might not expect; the model follows the code:

- The grid test is modelled exactly as written. Its second clause is not redundant: `08:00–08:30`
  appears in hour 8 only because of it, and `08:15–08:45` appears in no cell
  (`Views.HiddenEntries`, `Views.GridHoursExamples`).
- Loading a malformed file has no error value. The code has no handling for it.
- Delete has no out-of-range error. The code only ever passes an index taken from enumerating
  the day.
- Writes are not atomic. The code overwrites the file directly.

## Model

| member | source | states |
|---|---|---|
| `Digits.ZeroPad2` | wochenplaner.py:54 | the `02d` format gives at least two digits, and exactly the two decimal digits of any value below 100 |
| `Digits.IntStringRoundTrip` | wochenplaner.py:54 | `str(year)` is a well-formed integer numeral that reads back to the year, for any integer |
| `Plans.WeekKey` | wochenplaner.py:54 | the key `f"{jahr}-KW{kw:02d}"` has at least six characters, and for a week number below 100 it has the form year numeral, `-KW`, two digits |
| `Plans.WeekKeyRoundTrip` | wochenplaner.py:54 | the key `f"{jahr}-KW{kw:02d}"` is of the form year, `-KW`, two digits, and reads back to `(jahr, kw)` for `kw < 100` |
| `Plans.WeekKeyInjective` | wochenplaner.py:48-54 | distinct (year, week) pairs with week numbers below 100 (the selectable 1..53 included) get distinct keys |
| `Plans.EmptyWeek` | wochenplaner.py:58 | a new week plan has exactly the seven weekday names as keys, each with no entries |
| `Plans.IsValidTask` | wochenplaner.py:70 | the add guard holds exactly when start is before end and the text has a non-whitespace character |
| `Plans.Pop` | wochenplaner.py:135 | `list.pop(i)` on a valid index: one element shorter, elements before `i` unchanged, elements after shifted down by one, and the removed element is exactly `s[i]` (multiset) |
| `Clock.Before` | wochenplaner.py:70 | `von < bis` is the lexicographic order on (hour, minute) |
| `Clock.FormatTime` | wochenplaner.py:33 | `strftime("%H:%M")` yields a well-formed zero-padded `"HH:MM"` string |
| `Clock.FormatParseRoundTrip` | wochenplaner.py:22-23 | parsing a formatted time gives the time back |
| `Clock.ParseTime` | wochenplaner.py:22-23 | `strptime("%H:%M")` on a well-formed `"HH:MM"` string is the inverse of the format: formatting the parsed time gives the string back |
| `Text.Strip` | wochenplaner.py:70-71 | `text.strip()` is a slice of the text with only whitespace before and after it, it neither starts nor ends with whitespace, and it is empty exactly when the text is all whitespace |
| `Text.StripIdempotent` | wochenplaner.py:71 | stripping the stored text again changes nothing |
| `Persistence.SaveEntry` | wochenplaner.py:33 | a saved entry is a three-element list of two well-formed time strings and the text |
| `Persistence.Saved` | wochenplaner.py:28-33 | save writes every week key of the store and, per week, every weekday key, and the result is a well-formed file |
| `Persistence.Loaded` | wochenplaner.py:18-25 | load builds one week per key of the file and, per week, one day per weekday key of the file |
| `Persistence.SaveLoadRoundTrip` | wochenplaner.py:14-33 | what save writes is always loadable, and loading it reproduces the store exactly: week keys, weekday keys, entry order, texts and times |
| `Persistence.LoadSaveRoundTrip` | wochenplaner.py:14-33 | saving what was loaded from a well-formed file reproduces the file's structure exactly |
| `Persistence.SavePlans` | wochenplaner.py:28-33 | the nested loops of save build exactly the saved structure of the store, and it is well formed |
| `Persistence.LoadPlans` | wochenplaner.py:14-26 | the nested loops of load build exactly the loaded store, or the empty store when there is no file |
| `Views.SortByStart` | wochenplaner.py:82 | the sorted day is a permutation of the day, of the same length |
| `Views.SortIsSorted` | wochenplaner.py:82 | the sorted day is ascending by start time |
| `Views.SortIsStable` | wochenplaner.py:82 | entries with the same start appear in the listing in their stored order |
| `Views.StableSortIsSortByStart` | wochenplaner.py:82 | any listing that is ascending by start and keeps equal starts in stored order equals the model's sort, so the model's sort and Python's `sorted` give the same list |
| `Views.StableExample` | wochenplaner.py:82 | `09:00–10:00 A` added before `09:00–11:00 B` is listed as A, B |
| `Views.ListDay` | wochenplaner.py:82-83 | a day's section lists its entries sorted, stable and complete, with the day's length as its count |
| `Views.MobileView` | wochenplaner.py:81-83 | the mobile view has one section per weekday, in weekday order |
| `Views.ListedAfterAppend` | wochenplaner.py:82-83 | an appended entry appears in the day's listing and the count grows by one |
| `Views.Occupies` | wochenplaner.py:110 | the cell test, clause for clause as written: an entry occupies no hour before its start hour, every hour from its start hour up to its end hour, and an hour at or after its end hour only when that is its start hour and it starts on the full hour |
| `Views.OccupiesAcrossHours` | wochenplaner.py:110 | a span crossing an hour boundary occupies exactly the hours from its start hour up to, not including, its end hour |
| `Views.OccupiesWithinHour` | wochenplaner.py:110 | a span inside one hour occupies that hour if it starts on the full hour, and no hour otherwise |
| `Views.HiddenEntries` | wochenplaner.py:110 | a valid span is in no cell exactly when it starts and ends in the same hour and does not start on the full hour |
| `Views.GridHoursExamples` | wochenplaner.py:104-110 | `08:00–10:00` is shown in hours {8, 9}, `08:30–09:30` in {8}, `08:00–08:30` in {8}, `08:15–08:45` in none, `05:00–07:00` in {6} |
| `Views.CellEntries` | wochenplaner.py:109-111 | a cell holds each occupying entry as many times as the day does, and nothing else |
| `Views.CellMembers` | wochenplaner.py:109-111 | an entry is in a cell exactly when it is in the day and occupies the hour |
| `Views.CellInStoredOrder` | wochenplaner.py:109-111 | a cell's entries are a subsequence of the day, in stored and not sorted order |
| `Views.CollectCell` | wochenplaner.py:108-111 | the loop over a day's entries collects exactly the cell's entries |
| `Views.CollectRow` | wochenplaner.py:107-112 | the loop over the weekdays yields one cell per weekday, in weekday order |
| `Views.DesktopGrid` | wochenplaner.py:104-113 | the grid has 17 rows (hours 6..22) of 7 cells, and cell (hour, weekday) holds that weekday's entries occupying the hour |
| `Session.Planner.constructor` | wochenplaner.py:38-39 | the session starts with the loaded store (empty without a file), consistent with the file |
| `Session.Planner.Save` | wochenplaner.py:28-35 | the file then holds exactly the saved structure of the whole store |
| `Session.Planner.GetOrCreate` | wochenplaner.py:57-60 | an unseen key gets the seven empty weekdays, a known week is left untouched, no other key changes, and the selected plan is returned |
| `Session.Planner.Add` | wochenplaner.py:69-76 | the add succeeds exactly when start is before end and the stripped text is non-empty. On success it appends `(start, end, stripped text)` at the end of the chosen day and saves the store. Otherwise store and file are unchanged. No other day or week changes |
| `Session.Planner.RemoveAt` | wochenplaner.py:129-136 | the chosen day becomes `Pop` of its stored list at the index, no other day or week changes, and the store is saved |

## Left out

- The Streamlit user interface is not modelled: widgets, columns, expanders, headers, success and warning messages, `st.rerun` and the session-state mechanism. It is presentation and framework runtime. The model's methods take the selected values as parameters.
- The file system and JSON text are not modelled: `os.path.exists`, `open`, `json.load` and `json.dump`, indentation and `ensure_ascii`. The backing file is the raw nested structure held in `Planner.file`, and whether it exists is a parameter of the constructor.
- The clock-dependent defaults are not modelled: `datetime.today()` and `isocalendar()` only pick the initially selected year and week.
- The HTML and CSS of the desktop grid are not modelled: the header row, the time labels and the `taskbox` markup. Neither are the markdown strings of the mobile view. The grid collects each cell's entries instead of concatenating HTML.
- Python dict key order is not modelled: maps are unordered, so the order of keys in the written file is not captured.
- The alias `wochenplan = store[key]` is not modelled as an alias. The methods index the store by key, which has the same effect on the store.
- Times are at minute precision. The script's times come from `time_input` and from `strptime("%H:%M")`, so seconds are always zero.
- Labels in the raw structure are modelled as strings. JSON could hold other values there.
- `Clock.ParseTime`: accepts only strict two-digit `"HH:MM"` strings. `strptime` also accepts forms such as `"8:5"`.
- `Persistence.LoadPlans`: requires a well-formed file. The script raises an exception on a malformed file, and that failure is not modelled.
- `Session.Planner.constructor`: requires a well-formed file when one exists, for the same reason.
- `Session.Planner.Add`: requires the week and the weekday to be in the store. The script raises `KeyError` when a week loaded from the file lacks a weekday, and that failure is not modelled.
- `Views.MobileView`, `Views.CollectRow`, `Views.DesktopGrid`: require all seven weekdays in the week plan. A well-formed file may hold a week that lacks a weekday, and the script then raises `KeyError` at `wochenplan[tag]`; that failure is not modelled.
- `Session.Planner.RemoveAt`: requires a valid index. The script only passes indices from enumerating the day, so Python's negative indices and `IndexError` are not modelled.
- `Plans.WeekKey`: takes the week number as a natural number. The selectable weeks are 1..53, so `02d` on negative numbers is not modelled.
- Concurrent sessions are not modelled. The model assumes one session owns the backing file. Each browser session loads its own copy of the store, and every save overwrites the whole shared file, so two sessions writing the same file lose each other's updates.
- `Text.IsSpace`: Python's whitespace set is written out by code point, not derived from the Unicode database.
