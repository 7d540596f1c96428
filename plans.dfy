/** The planner's data: entries, week plans, the store of all weeks and
    the key under which a week is stored. */
module Plans {
  import opened Digits
  import opened Clock
  import opened Text

  /** One task: `(von, bis, text)`. */
  datatype Entry = Entry(start: Time, end: Time, text: string)

  /** Weekday name to the day's entries in stored (insertion) order. */
  type WeekPlan = map<string, seq<Entry>>

  /** Week key to week plan. */
  type PlanStore = map<string, WeekPlan>

  const Weekdays: seq<string> := ["Montag", "Dienstag", "Mittwoch", "Donnerstag", "Freitag", "Samstag", "Sonntag"]

  /** The plan of a week seen for the first time: the seven weekdays, each
      with no entries. */
  function EmptyWeek(): (w: WeekPlan)
    ensures w.Keys == set d | d in Weekdays
    ensures forall d :: d in w ==> w[d] == []
  {
    map d | d in Weekdays :: []
  }

  /** The store key `f"{jahr}-KW{kw:02d}"`. */
  function WeekKey(year: int, kw: nat): (key: string)
    ensures |key| >= 6
    ensures kw < 100 ==> IsWeekKey(key)
  {
    var y, p := IntString(year), ZeroPad2(kw);
    var key := y + "-KW" + p;
    IntStringRoundTrip(year);
    assert kw < 100 ==> key[..|key| - 5] == y && key[|key| - 5..|key| - 2] == "-KW" by {
      if kw < 100 {
        assert |p| == 2;
      }
    }
    key
  }

  /** The shape of a key `WeekKey` produces for a week number below 100. */
  predicate IsWeekKey(s: string) {
    && |s| >= 6
    && IsIntString(s[..|s| - 5])
    && s[|s| - 5..|s| - 2] == "-KW"
    && IsDigit(s[|s| - 2]) && IsDigit(s[|s| - 1])
  }

  /** Year and week number read back from a key. */
  function ParseWeekKey(s: string): (int, nat)
    requires IsWeekKey(s)
  {
    (ParseInt(s[..|s| - 5]), TwoDigitValue(s[|s| - 2], s[|s| - 1]))
  }

  lemma WeekKeyRoundTrip(year: int, kw: nat)
    requires kw < 100
    ensures IsWeekKey(WeekKey(year, kw))
    ensures ParseWeekKey(WeekKey(year, kw)) == (year, kw)
  {
    var y, p := IntString(year), ZeroPad2(kw);
    var key := WeekKey(year, kw);
    assert key[..|key| - 5] == y;
    assert key[|key| - 5..|key| - 2] == "-KW";
    assert key[|key| - 2] == p[0] && key[|key| - 1] == p[1];
    IntStringRoundTrip(year);
    ZeroPad2RoundTrip(kw);
  }

  /** Distinct (year, week) pairs with a week number of at most two digits
      (the selectable weeks are 1..53) are stored under distinct keys. */
  lemma WeekKeyInjective(y1: int, kw1: nat, y2: int, kw2: nat)
    requires kw1 < 100 && kw2 < 100
    requires WeekKey(y1, kw1) == WeekKey(y2, kw2)
    ensures y1 == y2 && kw1 == kw2
  {
    WeekKeyRoundTrip(y1, kw1);
    WeekKeyRoundTrip(y2, kw2);
  }

  /** The guard of the add button: start strictly before end and a label
      that is not all whitespace. */
  function IsValidTask(start: Time, end: Time, text: string): (ok: bool)
    ensures ok <==> Before(start, end) && !AllSpace(text)
  {
    Before(start, end) && Strip(text) != []
  }

  /** `list.pop(i)` on a valid index: the list without its `i`-th element,
      everything else in its old order. */
  function Pop<T>(s: seq<T>, i: nat): (r: seq<T>)
    requires i < |s|
    ensures |r| == |s| - 1
    ensures forall k :: 0 <= k < i ==> r[k] == s[k]
    ensures forall k :: i <= k < |r| ==> r[k] == s[k + 1]
    ensures multiset(r) + multiset{s[i]} == multiset(s)
  {
    assert s == s[..i] + [s[i]] + s[i + 1..];
    s[..i] + s[i + 1..]
  }
}
