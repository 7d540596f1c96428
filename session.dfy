/** The planner's session state: the store of all weeks, held in memory and
    changed in place, and the raw structure last written to the backing
    file. */
module Session {
  import opened Clock
  import opened Text
  import opened Plans
  import opened Persistence

  class Planner {
    /** The in-memory store (`st.session_state.wochenplaene`). */
    var store: PlanStore
    /** What the backing file holds, as the raw structure. */
    var file: RawStore

    /** The file is well formed and holds, for every week it has, exactly
        what saving the store writes for that week; weeks created but not
        yet saved are only in memory. */
    ghost predicate Valid()
      reads this
    {
      && WellFormedRaw(file)
      && file.Keys <= store.Keys
      && forall key :: key in file ==> file[key] == SaveWeek(store[key])
    }

    /** Session start: the store is what `load_wochenplaene` reads, and empty
        when there is no file. */
    constructor (fileExists: bool, contents: RawStore)
      requires fileExists ==> WellFormedRaw(contents)
      ensures Valid()
      ensures store == (if fileExists then Loaded(contents) else map[])
      ensures file == (if fileExists then contents else map[])
    {
      var loaded := LoadPlans(fileExists, contents);
      store := loaded;
      file := if fileExists then contents else map[];
      if fileExists {
        LoadSaveRoundTrip(contents);
      }
    }

    /** `save_wochenplaene`: the whole store is written. */
    method Save()
      modifies this`file
      ensures Valid()
      ensures file == Saved(store)
    {
      file := SavePlans(store);
    }

    /** Prepares the selected week: an unseen key gets the seven empty
        weekdays; a known week and every other week stay as they are.
        Nothing is written to the file. */
    method GetOrCreate(key: string) returns (plan: WeekPlan)
      requires Valid()
      modifies this`store
      ensures Valid()
      ensures store.Keys == old(store).Keys + {key}
      ensures forall k :: k in old(store) ==> store[k] == old(store)[k]
      ensures key !in old(store) ==> store[key] == EmptyWeek()
      ensures plan == store[key]
    {
      if key !in store {
        store := store[key := EmptyWeek()];
      }
      plan := store[key];
    }

    /** The add button: with a start before the end and a label that is not
        all whitespace, the stripped label is appended to the chosen day and
        the store is saved; otherwise nothing changes. Only the chosen day of
        the chosen week is touched. */
    method Add(key: string, day: string, start: Time, end: Time, text: string) returns (ok: bool)
      requires Valid()
      requires key in store && day in store[key]
      modifies this
      ensures Valid()
      ensures ok <==> IsValidTask(start, end, text)
      ensures !ok ==> store == old(store) && file == old(file)
      ensures store.Keys == old(store).Keys
      ensures forall k :: k in store && k != key ==> store[k] == old(store)[k]
      ensures store[key].Keys == old(store)[key].Keys
      ensures forall d :: d in store[key] && d != day ==> store[key][d] == old(store)[key][d]
      ensures ok ==> store[key][day] == old(store)[key][day] + [Entry(start, end, Strip(text))]
      ensures ok ==> file == Saved(store)
    {
      ok := Before(start, end) && Strip(text) != [];
      if ok {
        var plan := store[key];
        plan := plan[day := plan[day] + [Entry(start, end, Strip(text))]];
        store := store[key := plan];
        Save();
      }
    }

    /** The delete button of the entry at `index` in stored order: that entry
        leaves the chosen day, the others keep their order, nothing else
        changes, and the store is saved. */
    method RemoveAt(key: string, day: string, index: nat)
      requires Valid()
      requires key in store && day in store[key] && index < |store[key][day]|
      modifies this
      ensures Valid()
      ensures store.Keys == old(store).Keys
      ensures forall k :: k in store && k != key ==> store[k] == old(store)[k]
      ensures store[key].Keys == old(store)[key].Keys
      ensures forall d :: d in store[key] && d != day ==> store[key][d] == old(store)[key][d]
      ensures store[key][day] == Pop(old(store)[key][day], index)
      ensures file == Saved(store)
    {
      var plan := store[key];
      plan := plan[day := Pop(plan[day], index)];
      store := store[key := plan];
      Save();
    }
  }
}
