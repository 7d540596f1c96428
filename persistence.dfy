/** The structure written to and read from the backing file: the same
    nesting as the store, with every time as an "HH:MM" string and every
    entry as the three-element list `[start, end, text]`. JSON text itself is
    not modelled. */
module Persistence {
  import opened Clock
  import opened Plans

  type RawEntry = seq<string>
  type RawWeek = map<string, seq<RawEntry>>
  type RawStore = map<string, RawWeek>

  // ---- What save writes ----

  function SaveEntry(e: Entry): (r: RawEntry)
    ensures |r| == 3 && IsTimeString(r[0]) && IsTimeString(r[1]) && r[2] == e.text
  {
    [FormatTime(e.start), FormatTime(e.end), e.text]
  }

  function SaveDay(d: seq<Entry>): (r: seq<RawEntry>)
    ensures |r| == |d|
  {
    seq(|d|, k requires 0 <= k < |d| => SaveEntry(d[k]))
  }

  function SaveWeek(w: WeekPlan): (r: RawWeek)
    ensures r.Keys == w.Keys
  {
    map day | day in w :: SaveDay(w[day])
  }

  /** The raw structure `save_wochenplaene` builds from the store. */
  function Saved(store: PlanStore): (r: RawStore)
    ensures r.Keys == store.Keys
    ensures forall key :: key in r ==> r[key].Keys == store[key].Keys
    ensures WellFormedRaw(r)
  {
    map key | key in store :: SaveWeek(store[key])
  }

  // ---- What load accepts and builds ----

  predicate WellFormedEntry(r: RawEntry) {
    |r| == 3 && IsTimeString(r[0]) && IsTimeString(r[1])
  }

  predicate WellFormedDay(d: seq<RawEntry>) {
    forall k :: 0 <= k < |d| ==> WellFormedEntry(d[k])
  }

  predicate WellFormedWeek(w: RawWeek) {
    forall day :: day in w ==> WellFormedDay(w[day])
  }

  /** A file `load_wochenplaene` reads without raising. */
  predicate WellFormedRaw(raw: RawStore) {
    forall key :: key in raw ==> WellFormedWeek(raw[key])
  }

  function LoadEntry(r: RawEntry): (e: Entry)
    requires WellFormedEntry(r)
  {
    Entry(ParseTime(r[0]), ParseTime(r[1]), r[2])
  }

  function LoadDay(d: seq<RawEntry>): (r: seq<Entry>)
    requires WellFormedDay(d)
    ensures |r| == |d|
  {
    seq(|d|, k requires 0 <= k < |d| => LoadEntry(d[k]))
  }

  function LoadWeek(w: RawWeek): (r: WeekPlan)
    requires WellFormedWeek(w)
    ensures r.Keys == w.Keys
  {
    map day | day in w :: LoadDay(w[day])
  }

  /** The store `load_wochenplaene` builds from a well-formed file. */
  function Loaded(raw: RawStore): (r: PlanStore)
    requires WellFormedRaw(raw)
    ensures r.Keys == raw.Keys
    ensures forall key :: key in r ==> r[key].Keys == raw[key].Keys
  {
    map key | key in raw :: LoadWeek(raw[key])
  }

  // ---- Round trips ----

  lemma DayRoundTrip(d: seq<Entry>)
    ensures WellFormedDay(SaveDay(d))
    ensures LoadDay(SaveDay(d)) == d
  {
    forall k | 0 <= k < |d|
      ensures LoadDay(SaveDay(d))[k] == d[k]
    {
      FormatParseRoundTrip(d[k].start);
      FormatParseRoundTrip(d[k].end);
    }
  }

  lemma WeekRoundTrip(w: WeekPlan)
    ensures WellFormedWeek(SaveWeek(w))
    ensures LoadWeek(SaveWeek(w)) == w
  {
    forall day | day in w
      ensures WellFormedDay(SaveWeek(w)[day]) && LoadDay(SaveWeek(w)[day]) == w[day]
    {
      DayRoundTrip(w[day]);
    }
  }

  /** Loading what was saved gives back the store exactly: the same week
      keys, weekday keys, entry order, texts and times (to the minute). */
  lemma SaveLoadRoundTrip(store: PlanStore)
    ensures WellFormedRaw(Saved(store))
    ensures Loaded(Saved(store)) == store
  {
    forall key | key in store
      ensures WellFormedWeek(Saved(store)[key]) && LoadWeek(Saved(store)[key]) == store[key]
    {
      WeekRoundTrip(store[key]);
    }
  }

  lemma RawEntryRoundTrip(r: RawEntry)
    requires WellFormedEntry(r)
    ensures SaveEntry(LoadEntry(r)) == r
  {
    assert r == [r[0], r[1], r[2]];
  }

  lemma RawDayRoundTrip(d: seq<RawEntry>)
    requires WellFormedDay(d)
    ensures SaveDay(LoadDay(d)) == d
  {
    forall k | 0 <= k < |d|
      ensures SaveDay(LoadDay(d))[k] == d[k]
    {
      RawEntryRoundTrip(d[k]);
    }
  }

  /** Saving what was loaded reproduces a well-formed file's structure
      exactly. */
  lemma LoadSaveRoundTrip(raw: RawStore)
    requires WellFormedRaw(raw)
    ensures Saved(Loaded(raw)) == raw
  {
    forall key | key in raw
      ensures SaveWeek(Loaded(raw)[key]) == raw[key]
    {
      forall day | day in raw[key]
        ensures SaveDay(Loaded(raw)[key][day]) == raw[key][day]
      {
        RawDayRoundTrip(raw[key][day]);
      }
    }
  }

  // ---- The loops of save_wochenplaene and load_wochenplaene ----

  /** `save_wochenplaene` without the file write: one pass over the weeks,
      and inside it one pass over the weekdays. */
  method SavePlans(data: PlanStore) returns (raw: RawStore)
    ensures raw == Saved(data)
    ensures WellFormedRaw(raw)
  {
    raw := map[];
    var weeks := data.Keys;
    while weeks != {}
      invariant weeks <= data.Keys
      invariant raw.Keys == data.Keys - weeks
      invariant forall key :: key in raw ==> raw[key] == SaveWeek(data[key])
      decreases weeks
    {
      var key :| key in weeks;
      var plan := data[key];
      var week: RawWeek := map[];
      var days := plan.Keys;
      while days != {}
        invariant days <= plan.Keys
        invariant week.Keys == plan.Keys - days
        invariant forall day :: day in week ==> week[day] == SaveDay(plan[day])
        decreases days
      {
        var day :| day in days;
        week := week[day := SaveDay(plan[day])];
        days := days - {day};
      }
      raw := raw[key := week];
      weeks := weeks - {key};
    }
  }

  /** `load_wochenplaene` without the file read: the store is empty when
      there is no file, otherwise it is built week by week and day by day. */
  method LoadPlans(fileExists: bool, raw: RawStore) returns (result: PlanStore)
    requires fileExists ==> WellFormedRaw(raw)
    ensures result == if fileExists then Loaded(raw) else map[]
  {
    if !fileExists {
      return map[];
    }
    result := map[];
    var weeks := raw.Keys;
    while weeks != {}
      invariant weeks <= raw.Keys
      invariant result.Keys == raw.Keys - weeks
      invariant forall key :: key in result ==> result[key] == LoadWeek(raw[key])
      decreases weeks
    {
      var key :| key in weeks;
      var plan := raw[key];
      var week: WeekPlan := map[];
      var days := plan.Keys;
      while days != {}
        invariant days <= plan.Keys
        invariant week.Keys == plan.Keys - days
        invariant forall day :: day in week ==> week[day] == LoadDay(plan[day])
        decreases days
      {
        var day :| day in days;
        week := week[day := LoadDay(plan[day])];
        days := days - {day};
      }
      result := result[key := week];
      weeks := weeks - {key};
    }
  }
}
