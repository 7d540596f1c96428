/** What the two views derive from a week plan: the mobile list (each day
    sorted by start, with a count) and the desktop grid (the entries in
    each weekday/hour cell for the hours 6 to 22). */
module Views {
  import opened Clock
  import opened Plans

  // ---- Mobile list: sorted(day, key=lambda x: x[0]) ----

  function StartKey(e: Entry): nat {
    MinuteOfDay(e.start)
  }

  predicate SortedByStart(s: seq<Entry>) {
    forall i, j :: 0 <= i < j < |s| ==> StartKey(s[i]) <= StartKey(s[j])
  }

  /** The entries of `s` that start at `t`, in their order in `s`. */
  function StartingAt(s: seq<Entry>, t: Time): seq<Entry> {
    if s == [] then []
    else (if s[0].start == t then [s[0]] else []) + StartingAt(s[1..], t)
  }

  /** Places `e` in front of the first entry that does not start earlier. */
  function InsertByStart(e: Entry, s: seq<Entry>): (r: seq<Entry>)
    ensures multiset(r) == multiset(s) + multiset{e}
  {
    if s == [] || StartKey(e) <= StartKey(s[0]) then
      [e] + s
    else
      assert s == [s[0]] + s[1..];
      [s[0]] + InsertByStart(e, s[1..])
  }

  lemma SortedCons(x: Entry, rest: seq<Entry>)
    requires SortedByStart(rest)
    requires forall y :: y in rest ==> StartKey(x) <= StartKey(y)
    ensures SortedByStart([x] + rest)
  {
    var r := [x] + rest;
    forall i, j | 0 <= i < j < |r| ensures StartKey(r[i]) <= StartKey(r[j]) {
      assert r[j] == rest[j - 1];
      if i > 0 {
        assert r[i] == rest[i - 1];
      }
    }
  }

  lemma {:induction false} InsertKeepsSorted(e: Entry, s: seq<Entry>)
    requires SortedByStart(s)
    ensures SortedByStart(InsertByStart(e, s))
  {
    if s == [] || StartKey(e) <= StartKey(s[0]) {
      SortedCons(e, s);
    } else {
      var rest := InsertByStart(e, s[1..]);
      InsertKeepsSorted(e, s[1..]);
      forall y | y in rest ensures StartKey(s[0]) <= StartKey(y) {
        assert y in multiset(rest);
        if y != e {
          assert y in multiset(s[1..]);
          var k :| 0 <= k < |s[1..]| && s[1..][k] == y;
          assert s[k + 1] == y;
        }
      }
      SortedCons(s[0], rest);
    }
  }

  lemma {:induction false} InsertStartingAt(e: Entry, s: seq<Entry>, t: Time)
    ensures StartingAt(InsertByStart(e, s), t) == (if e.start == t then [e] else []) + StartingAt(s, t)
  {
    var r := InsertByStart(e, s);
    if s == [] || StartKey(e) <= StartKey(s[0]) {
      assert r[1..] == s;
    } else {
      var rest := InsertByStart(e, s[1..]);
      assert r[0] == s[0] && r[1..] == rest;
      InsertStartingAt(e, s[1..], t);
      if e.start == t {
        assert s[0].start != t;
      }
    }
  }

  /** Python's stable `sorted` by start time. */
  function SortByStart(s: seq<Entry>): (r: seq<Entry>)
    ensures multiset(r) == multiset(s)
    ensures |r| == |s|
  {
    if s == [] then []
    else
      var r := InsertByStart(s[0], SortByStart(s[1..]));
      assert s == [s[0]] + s[1..];
      assert |r| == |multiset(r)| == |multiset(s)| == |s|;
      r
  }

  /** The listing is ascending by start. */
  lemma {:induction false} SortIsSorted(s: seq<Entry>)
    ensures SortedByStart(SortByStart(s))
  {
    if s != [] {
      SortIsSorted(s[1..]);
      InsertKeepsSorted(s[0], SortByStart(s[1..]));
    }
  }

  /** The sort is stable: the entries starting at any one time appear in
      the listing in the order they are stored. */
  lemma {:induction false} SortIsStable(s: seq<Entry>, t: Time)
    ensures StartingAt(SortByStart(s), t) == StartingAt(s, t)
  {
    if s != [] {
      SortIsStable(s[1..], t);
      InsertStartingAt(s[0], SortByStart(s[1..]), t);
    }
  }

  lemma SortIsStableEverywhere(s: seq<Entry>)
    ensures forall t :: StartingAt(SortByStart(s), t) == StartingAt(s, t)
  {
    forall t ensures StartingAt(SortByStart(s), t) == StartingAt(s, t) {
      SortIsStable(s, t);
    }
  }

  lemma {:induction false} StartingAtMembers(s: seq<Entry>, t: Time, e: Entry)
    ensures e in StartingAt(s, t) <==> e in s && e.start == t
  {
    if s != [] {
      StartingAtMembers(s[1..], t, e);
      assert s == [s[0]] + s[1..];
    }
  }

  lemma StartingAtHead(s: seq<Entry>)
    requires s != []
    ensures StartingAt(s, s[0].start) != []
  {
  }

  /** Two listings ascending by start that agree on the entries starting at
      every time are the same listing. */
  lemma {:induction false} SortedListingUnique(x: seq<Entry>, y: seq<Entry>)
    requires SortedByStart(x) && SortedByStart(y)
    requires forall t :: StartingAt(x, t) == StartingAt(y, t)
    ensures x == y
    decreases |x| + |y|
  {
    if x == [] || y == [] {
      if x != [] {
        StartingAtHead(x);
        assert false;
      } else if y != [] {
        StartingAtHead(y);
        assert false;
      }
    } else {
      var tx, ty := x[0].start, y[0].start;
      assert StartingAt(x, tx)[0] == x[0];
      StartingAtMembers(y, tx, StartingAt(y, tx)[0]);
      assert StartKey(y[0]) <= StartKey(x[0]);
      assert StartingAt(y, ty)[0] == y[0];
      StartingAtMembers(x, ty, StartingAt(x, ty)[0]);
      assert StartKey(x[0]) <= StartKey(y[0]);
      MinuteOfDayInjective(tx, ty);
      assert x[0] == y[0];
      forall t ensures StartingAt(x[1..], t) == StartingAt(y[1..], t) {
        var p := if tx == t then [x[0]] else [];
        assert StartingAt(x, t) == p + StartingAt(x[1..], t);
        assert StartingAt(y, t) == p + StartingAt(y[1..], t);
        assert StartingAt(x, t) == StartingAt(y, t);
        assert StartingAt(x[1..], t) == (p + StartingAt(x[1..], t))[|p|..];
        assert StartingAt(y[1..], t) == (p + StartingAt(y[1..], t))[|p|..];
      }
      SortedListingUnique(x[1..], y[1..]);
      assert x == [x[0]] + x[1..] && y == [y[0]] + y[1..];
    }
  }

  /** Every stable sort by start gives the same result as SortByStart; in
      particular Python's `sorted` does. */
  lemma StableSortIsSortByStart(s: seq<Entry>, listing: seq<Entry>)
    requires SortedByStart(listing)
    requires forall t :: StartingAt(listing, t) == StartingAt(s, t)
    ensures listing == SortByStart(s)
  {
    SortIsSorted(s);
    SortIsStableEverywhere(s);
    SortedListingUnique(listing, SortByStart(s));
  }

  /** Two entries with the same start listed in the order they were added. */
  lemma StableExample()
    ensures SortByStart([Entry(Time(9, 0), Time(10, 0), "A"), Entry(Time(9, 0), Time(11, 0), "B")])
         == [Entry(Time(9, 0), Time(10, 0), "A"), Entry(Time(9, 0), Time(11, 0), "B")]
  {
  }

  /** One section of the mobile list: a weekday, its entries as listed
      and the count shown in the section's title. */
  datatype DayListing = DayListing(day: string, entries: seq<Entry>, count: nat)

  /** The section of one weekday: its entries ascending by start, equal
      starts in stored order, nothing added or lost, and the day's size as
      the count. */
  function ListDay(day: string, entries: seq<Entry>): (l: DayListing)
    ensures l.day == day && l.count == |entries|
    ensures SortedByStart(l.entries)
    ensures multiset(l.entries) == multiset(entries)
    ensures forall t :: StartingAt(l.entries, t) == StartingAt(entries, t)
  {
    var sorted := SortByStart(entries);
    SortIsSorted(entries);
    SortIsStableEverywhere(entries);
    DayListing(day, sorted, |sorted|)
  }

  /** An appended entry shows up in the day's listing, and the count grows
      by one. */
  lemma ListedAfterAppend(day: string, entries: seq<Entry>, e: Entry)
    ensures e in ListDay(day, entries + [e]).entries
    ensures ListDay(day, entries + [e]).count == |entries| + 1
  {
    var l := ListDay(day, entries + [e]);
    assert e in multiset(entries + [e]);
    assert e in multiset(l.entries);
  }

  /** The mobile view of a week: one section per weekday, in weekday order. */
  function MobileView(plan: WeekPlan): (r: seq<DayListing>)
    requires forall d :: d in Weekdays ==> d in plan
    ensures |r| == |Weekdays|
    ensures forall i :: 0 <= i < |r| ==> r[i] == ListDay(Weekdays[i], plan[Weekdays[i]])
  {
    seq(|Weekdays|, i requires 0 <= i < |Weekdays| => ListDay(Weekdays[i], plan[Weekdays[i]]))
  }

  // ---- Desktop grid ----

  const FirstHour: int := 6
  const HourCount: nat := 17   // range(6, 23)

  /** The occupancy test of the desktop grid, as the program writes it. */
  function Occupies(e: Entry, hour: int): (r: bool)
    ensures r ==> e.start.hour <= hour
    ensures r && hour >= e.end.hour ==> hour == e.start.hour && e.start.minute == 0
    ensures e.start.hour <= hour < e.end.hour ==> r
    ensures hour == e.start.hour && e.start.minute == 0 ==> r
  {
    (e.start.hour <= hour < e.end.hour) || (e.start.hour == hour && e.start.minute == 0)
  }

  /** The grid hours in which an entry is shown. */
  function GridHours(e: Entry): set<int> {
    set hour | FirstHour <= hour < FirstHour + HourCount && Occupies(e, hour)
  }

  /** Once a span crosses an hour boundary, the second clause of the test adds
      nothing: the span occupies exactly the hours from its start hour up to
      but not including its end hour, whatever its minutes. */
  lemma OccupiesAcrossHours(e: Entry, hour: int)
    requires e.start.hour < e.end.hour
    ensures Occupies(e, hour) <==> e.start.hour <= hour < e.end.hour
  {
  }

  /** Within one hour the second clause is all there is: a span that starts
      and ends in the same hour is shown there if it starts on the full
      hour, and in no cell at all otherwise. */
  lemma OccupiesWithinHour(e: Entry)
    requires Before(e.start, e.end) && e.start.hour == e.end.hour
    ensures forall hour :: Occupies(e, hour) <==> hour == e.start.hour && e.start.minute == 0
  {
  }

  /** A valid span is missing from every cell exactly when it starts and
      ends in the same hour and does not start on the full hour. */
  lemma HiddenEntries(e: Entry)
    requires Before(e.start, e.end)
    ensures (forall hour :: !Occupies(e, hour)) <==> e.start.hour == e.end.hour && e.start.minute != 0
  {
    if e.start.hour != e.end.hour || e.start.minute == 0 {
      assert Occupies(e, e.start.hour);
    }
  }

  lemma GridHoursExamples()
    ensures GridHours(Entry(Time(8, 0), Time(10, 0), "X")) == {8, 9}
    ensures GridHours(Entry(Time(8, 30), Time(9, 30), "Y")) == {8}
    ensures GridHours(Entry(Time(8, 0), Time(8, 30), "Z")) == {8}
    ensures GridHours(Entry(Time(8, 15), Time(8, 45), "W")) == {}
    ensures GridHours(Entry(Time(5, 0), Time(7, 0), "V")) == {6}
  {
    var x := Entry(Time(8, 0), Time(10, 0), "X");
    assert 8 in GridHours(x) && 9 in GridHours(x);
    var y := Entry(Time(8, 30), Time(9, 30), "Y");
    assert 8 in GridHours(y);
    var z := Entry(Time(8, 0), Time(8, 30), "Z");
    assert 8 in GridHours(z);
    var v := Entry(Time(5, 0), Time(7, 0), "V");
    assert 6 in GridHours(v);
  }

  /** The entries of a day shown in the cell of `hour`. */
  function CellEntries(day: seq<Entry>, hour: int): (r: seq<Entry>)
    ensures forall e :: multiset(r)[e] == if Occupies(e, hour) then multiset(day)[e] else 0
  {
    if day == [] then []
    else
      var init, last := day[..|day| - 1], day[|day| - 1];
      assert day == init + [last];
      CellEntries(init, hour) + (if Occupies(last, hour) then [last] else [])
  }

  /** An entry is in a cell exactly when it is on that day and occupies
      that hour. */
  lemma CellMembers(day: seq<Entry>, hour: int, e: Entry)
    ensures e in CellEntries(day, hour) <==> e in day && Occupies(e, hour)
  {
    assert e in CellEntries(day, hour) <==> e in multiset(CellEntries(day, hour));
    assert e in day <==> e in multiset(day);
  }

  /** `a` is `b` with some elements left out, the rest in their order. */
  ghost predicate Subsequence<T>(a: seq<T>, b: seq<T>)
    decreases |b|
  {
    || a == []
    || (&& b != []
        && ((a[|a| - 1] == b[|b| - 1] && Subsequence(a[..|a| - 1], b[..|b| - 1]))
            || Subsequence(a, b[..|b| - 1])))
  }

  /** A cell lists its entries in stored order, not sorted. */
  lemma {:induction false} CellInStoredOrder(day: seq<Entry>, hour: int)
    ensures Subsequence(CellEntries(day, hour), day)
    decreases |day|
  {
    if day != [] {
      var init, last := day[..|day| - 1], day[|day| - 1];
      var r := CellEntries(day, hour);
      CellInStoredOrder(init, hour);
      if Occupies(last, hour) {
        assert r[..|r| - 1] == CellEntries(init, hour);
      } else {
        assert r == CellEntries(init, hour);
      }
    }
  }

  /** The innermost loop of the desktop view: one cell's entries. */
  method CollectCell(entries: seq<Entry>, hour: int) returns (cell: seq<Entry>)
    ensures cell == CellEntries(entries, hour)
  {
    cell := [];
    for k := 0 to |entries|
      invariant cell == CellEntries(entries[..k], hour)
    {
      assert entries[..k + 1][..k] == entries[..k];
      if Occupies(entries[k], hour) {
        cell := cell + [entries[k]];
      }
    }
    assert entries[..|entries|] == entries;
  }

  /** The loop over the weekdays: one row of the grid. */
  method CollectRow(plan: WeekPlan, hour: int) returns (row: seq<seq<Entry>>)
    requires forall d :: d in Weekdays ==> d in plan
    ensures |row| == |Weekdays|
    ensures forall j :: 0 <= j < |row| ==> row[j] == CellEntries(plan[Weekdays[j]], hour)
  {
    row := [];
    for j := 0 to |Weekdays|
      invariant |row| == j
      invariant forall j' :: 0 <= j' < j ==> row[j'] == CellEntries(plan[Weekdays[j']], hour)
    {
      var day := Weekdays[j];
      assert day in plan;
      var cell := CollectCell(plan[day], hour);
      row := row + [cell];
      assert row[j] == cell;
    }
  }

  /** The loops of the desktop view, collecting each cell's entries instead
      of building its HTML: a row per hour 6..22, a column per weekday. */
  method DesktopGrid(plan: WeekPlan) returns (grid: seq<seq<seq<Entry>>>)
    requires forall d :: d in Weekdays ==> d in plan
    ensures |grid| == HourCount
    ensures forall i :: 0 <= i < |grid| ==> |grid[i]| == |Weekdays|
    ensures forall i, j :: 0 <= i < |grid| && 0 <= j < |Weekdays| ==>
      grid[i][j] == CellEntries(plan[Weekdays[j]], FirstHour + i)
  {
    grid := [];
    var hour := FirstHour;
    while hour < FirstHour + HourCount
      invariant FirstHour <= hour <= FirstHour + HourCount
      invariant |grid| == hour - FirstHour
      invariant forall i :: 0 <= i < |grid| ==> |grid[i]| == |Weekdays|
      invariant forall i, j :: 0 <= i < |grid| && 0 <= j < |Weekdays| ==>
        grid[i][j] == CellEntries(plan[Weekdays[j]], FirstHour + i)
    {
      var row := CollectRow(plan, hour);
      grid := grid + [row];
      hour := hour + 1;
    }
  }
}
