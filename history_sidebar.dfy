/**
 * The history sidebar of the dashboard: nutrition logs are grouped by the date
 * part of their timestamp, in order of first appearance, each log becoming one
 * link entry; each group is labelled with its date reformatted from
 * YYYY-MM-DD to MM-DD-YYYY. Also the daily-goal editor's field update.
 */
module HistorySidebar {
  import opened Wrappers
  import opened Strings

  datatype NutritionFacts = NutritionFacts(foodName: string, calories: int)

  /** One row of `user_nutrition_log`; `facts` is `None` when the joined record is null. */
  datatype NutritionLog = NutritionLog(logId: string, consumedAt: string, facts: Option<NutritionFacts>)

  /** One entry under a date: its label, the table link it opens, and the date key. */
  datatype Entry = Entry(labelText: string, link: string, date: string)

  /** One key of the insertion-ordered `dateMap` with the entries pushed under it. */
  datatype Group = Group(key: string, entries: seq<Entry>)

  /** One item of the sidebar: the display date and its entries (`None` for `undefined`). */
  datatype SidebarDate = SidebarDate(labelText: string, links: Option<seq<Entry>>)

  /** The part of `s` before the first `c`, or all of `s` when it has none: `s.split(c)[0]`. */
  function BeforeFirst(s: string, c: char): (r: string)
    ensures r <= s && c !in r
    ensures |r| < |s| ==> s[|r|] == c
  {
    if s == [] || s[0] == c then [] else [s[0]] + BeforeFirst(s[1..], c)
  }

  /** `s.split(c)`: the pieces between the occurrences of `c`; there is always at least one. */
  function Split(s: string, c: char): (r: seq<string>)
    ensures |r| > 0
    ensures forall i :: 0 <= i < |r| ==> c !in r[i]
    decreases |s|
  {
    var head := BeforeFirst(s, c);
    if |head| == |s| then [s] else [head] + Split(s[|head| + 1..], c)
  }

  /** The date key of a log: the part of `consumed_at` before the first 'T'. */
  function DateKey(log: NutritionLog): string {
    BeforeFirst(log.consumedAt, 'T')
  }

  /** `${food_name || 'Unknown'}: ${calories || 0} cal` */
  function EntryLabel(facts: Option<NutritionFacts>): (r: string)
    ensures facts.None? ==> r == "Unknown: 0 cal"
    ensures facts.Some? ==> r == (if facts.value.foodName == "" then "Unknown" else facts.value.foodName)
                                 + ": " + IntToString(facts.value.calories) + " cal"
    ensures facts.Some? && facts.value.foodName != "" ==> facts.value.foodName <= r
    ensures |r| > 4 && r[|r| - 4..] == " cal"
  {
    var name := if facts.None? || facts.value.foodName == "" then "Unknown" else facts.value.foodName;
    var calories := if facts.None? then 0 else facts.value.calories;
    name + ": " + IntToString(calories) + " cal"
  }

  function EntryFor(log: NutritionLog): (e: Entry)
    ensures e.labelText == EntryLabel(log.facts)
    ensures e.date == DateKey(log)
    ensures e.link == "/dashboard/table?date=" + DateKey(log)
  {
    Entry(EntryLabel(log.facts), "/dashboard/table?date=" + DateKey(log), DateKey(log))
  }

  function Keys(groups: seq<Group>): (r: seq<string>)
    ensures |r| == |groups| && forall i :: 0 <= i < |groups| ==> r[i] == groups[i].key
  {
    seq(|groups|, i requires 0 <= i < |groups| => groups[i].key)
  }

  /** The index of the group with key `key`, or -1 (`dateMap.has` / `dateMap.get`). */
  function Find(groups: seq<Group>, key: string): (r: int)
    ensures -1 <= r < |groups|
    ensures r >= 0 ==> groups[r].key == key && forall i :: 0 <= i < r ==> groups[i].key != key
    ensures r == -1 <==> key !in Keys(groups)
  {
    if groups == [] then -1
    else if groups[0].key == key then 0
    else
      var k := Find(groups[1..], key);
      assert Keys(groups[1..]) == Keys(groups)[1..];
      if k < 0 then -1 else k + 1
  }

  /** Files `entry` under `key`: at the end of that key's group, or in a new group at the end (`dateMap.set` then `push`). */
  function AddEntry(groups: seq<Group>, key: string, entry: Entry): (r: seq<Group>)
    ensures key in Keys(groups) ==> |r| == |groups| && Keys(r) == Keys(groups)
    ensures key !in Keys(groups) ==> |r| == |groups| + 1 && Keys(r) == Keys(groups) + [key] && r[|groups|] == Group(key, [entry])
  {
    var at := Find(groups, key);
    if at >= 0 then groups[at := groups[at].(entries := groups[at].entries + [entry])]
    else groups + [Group(key, [entry])]
  }

  /** The groups the `forEach` over the logs builds. */
  function GroupLogs(logs: seq<NutritionLog>): (r: seq<Group>)
    ensures |r| <= |logs|
  {
    if logs == [] then []
    else
      var last := logs[|logs| - 1];
      AddEntry(GroupLogs(logs[..|logs| - 1]), DateKey(last), EntryFor(last))
  }

  /** The date keys of the logs, each kept at its first occurrence only. */
  function FirstOccurrences(keys: seq<string>): seq<string>
  {
    if keys == [] then []
    else
      var seen := FirstOccurrences(keys[..|keys| - 1]);
      if keys[|keys| - 1] in seen then seen else seen + [keys[|keys| - 1]]
  }

  function LogKeys(logs: seq<NutritionLog>): (r: seq<string>)
    ensures |r| == |logs| && forall i :: 0 <= i < |logs| ==> r[i] == DateKey(logs[i])
  {
    seq(|logs|, i requires 0 <= i < |logs| => DateKey(logs[i]))
  }

  /** The entries of the logs with date key `key`, in log order. */
  function EntriesFor(logs: seq<NutritionLog>, key: string): seq<Entry>
  {
    if logs == [] then []
    else
      var last := logs[|logs| - 1];
      EntriesFor(logs[..|logs| - 1], key) + if DateKey(last) == key then [EntryFor(last)] else []
  }

  function TotalEntries(groups: seq<Group>): nat
  {
    if groups == [] then 0 else TotalEntries(groups[..|groups| - 1]) + |groups[|groups| - 1].entries|
  }

  /** Replacing one group changes the total by the difference in its size. */
  lemma {:induction false} TotalEntriesUpdate(groups: seq<Group>, at: nat, g: Group)
    requires at < |groups|
    ensures TotalEntries(groups[at := g]) + |groups[at].entries| == TotalEntries(groups) + |g.entries|
  {
    var n := |groups|;
    var u := groups[at := g];
    if at == n - 1 {
      assert u[..n - 1] == groups[..n - 1];
    } else {
      assert u[..n - 1] == groups[..n - 1][at := g];
      TotalEntriesUpdate(groups[..n - 1], at, g);
    }
  }

  lemma TotalEntriesAppend(groups: seq<Group>, g: Group)
    ensures TotalEntries(groups + [g]) == TotalEntries(groups) + |g.entries|
  {
    assert (groups + [g])[..|groups|] == groups;
  }

  /** The facts about the groups of `logs` that grouping promises. */
  ghost predicate Characterised(logs: seq<NutritionLog>, groups: seq<Group>) {
    && Keys(groups) == FirstOccurrences(LogKeys(logs))
    && NoDuplicates(Keys(groups))
    && (forall i :: 0 <= i < |groups| ==> groups[i].entries == EntriesFor(logs, groups[i].key))
    && TotalEntries(groups) == |logs|
  }

  /** Grouping one more log files its entry with `AddEntry`. */
  lemma GroupLogsSnoc(init: seq<NutritionLog>, last: NutritionLog)
    ensures GroupLogs(init + [last]) == AddEntry(GroupLogs(init), DateKey(last), EntryFor(last))
  {
    assert (init + [last])[..|init|] == init;
  }

  /** One more log adds its key at the end of the log keys and its entry at the end of its key's entries. */
  lemma LogsSnoc(init: seq<NutritionLog>, last: NutritionLog)
    ensures LogKeys(init + [last]) == LogKeys(init) + [DateKey(last)]
    ensures forall key ::
      EntriesFor(init + [last], key) == EntriesFor(init, key) + (if DateKey(last) == key then [EntryFor(last)] else [])
  {
    assert (init + [last])[..|init|] == init;
  }

  /** The keys after one more log are its predecessors' first occurrences. */
  lemma KeysStep(init: seq<NutritionLog>, last: NutritionLog)
    requires Keys(GroupLogs(init)) == FirstOccurrences(LogKeys(init))
    ensures Keys(GroupLogs(init + [last])) == FirstOccurrences(LogKeys(init + [last]))
  {
    GroupLogsSnoc(init, last);
    LogsSnoc(init, last);
    var ks := LogKeys(init + [last]);
    assert ks[..|ks| - 1] == LogKeys(init);
  }

  /** The group of each key after one more log holds exactly that key's entries. */
  lemma EntriesStep(init: seq<NutritionLog>, last: NutritionLog)
    requires Keys(GroupLogs(init)) == FirstOccurrences(LogKeys(init))
    requires NoDuplicates(Keys(GroupLogs(init)))
    requires forall i :: 0 <= i < |GroupLogs(init)| ==> GroupLogs(init)[i].entries == EntriesFor(init, GroupLogs(init)[i].key)
    ensures var r := GroupLogs(init + [last]);
      forall i :: 0 <= i < |r| ==> r[i].entries == EntriesFor(init + [last], r[i].key)
  {
    GroupLogsSnoc(init, last);
    if DateKey(last) !in Keys(GroupLogs(init)) {
      KeyAbsentNoEntries(init, DateKey(last));
    }
    AddEntryKeepsEntries(GroupLogs(init), init, last);
  }

  /** Filing the entry of one more log keeps every group equal to its key's entries. */
  lemma AddEntryKeepsEntries(g: seq<Group>, init: seq<NutritionLog>, last: NutritionLog)
    requires NoDuplicates(Keys(g))
    requires forall i :: 0 <= i < |g| ==> g[i].entries == EntriesFor(init, g[i].key)
    requires DateKey(last) !in Keys(g) ==> EntriesFor(init, DateKey(last)) == []
    ensures var r := AddEntry(g, DateKey(last), EntryFor(last));
      forall i :: 0 <= i < |r| ==> r[i].entries == EntriesFor(init + [last], r[i].key)
  {
    LogsSnoc(init, last);
    var key := DateKey(last);
    var r := AddEntry(g, key, EntryFor(last));
    var at := Find(g, key);
    if at >= 0 {
      forall i | 0 <= i < |r| ensures r[i].entries == EntriesFor(init + [last], r[i].key) {
        assert r[i].key == Keys(r)[i] == Keys(g)[i] == g[i].key;
        if i != at {
          assert Keys(g)[i] != Keys(g)[at];
        }
      }
    } else {
      forall i | 0 <= i < |r| ensures r[i].entries == EntriesFor(init + [last], r[i].key) {
        if i < |g| {
          assert r[i] == g[i];
          assert Keys(g)[i] != key;
        }
      }
    }
  }

  /** One more log adds one entry in all. */
  lemma TotalStep(init: seq<NutritionLog>, last: NutritionLog)
    ensures TotalEntries(GroupLogs(init + [last])) == TotalEntries(GroupLogs(init)) + 1
  {
    GroupLogsSnoc(init, last);
    var key := DateKey(last);
    var entry := EntryFor(last);
    var g := GroupLogs(init);
    var at := Find(g, key);
    if at >= 0 {
      TotalEntriesUpdate(g, at, g[at].(entries := g[at].entries + [entry]));
    } else {
      TotalEntriesAppend(g, Group(key, [entry]));
    }
  }

  /**
   * What grouping computes: the keys are the logs' date keys in order of first
   * occurrence, with no key twice; the group of a key holds the entries of
   * exactly the logs with that key, in log order; and there are as many
   * entries in all as there are logs.
   */
  lemma {:induction false} GroupLogsCharacterised(logs: seq<NutritionLog>)
    ensures Characterised(logs, GroupLogs(logs))
  {
    if logs != [] {
      var init := logs[..|logs| - 1];
      var last := logs[|logs| - 1];
      assert init + [last] == logs;
      GroupLogsCharacterised(init);
      KeysStep(init, last);
      EntriesStep(init, last);
      TotalStep(init, last);
      FirstOccurrencesCover(LogKeys(logs));
    }
  }

  /** A key that no group carries is the key of no log. */
  lemma KeyAbsentNoEntries(logs: seq<NutritionLog>, key: string)
    requires Keys(GroupLogs(logs)) == FirstOccurrences(LogKeys(logs))
    requires key !in Keys(GroupLogs(logs))
    ensures EntriesFor(logs, key) == []
  {
    FirstOccurrencesCover(LogKeys(logs));
    EntriesForAbsent(logs, key);
  }

  lemma {:induction false} EntriesForAbsent(logs: seq<NutritionLog>, key: string)
    requires key !in LogKeys(logs)
    ensures EntriesFor(logs, key) == []
  {
    if logs != [] {
      var n := |logs|;
      assert LogKeys(logs[..n - 1]) == LogKeys(logs)[..n - 1];
      EntriesForAbsent(logs[..n - 1], key);
      assert LogKeys(logs)[n - 1] == DateKey(logs[n - 1]);
    }
  }

  /** Keeping first occurrences drops no value and repeats none. */
  lemma {:induction false} FirstOccurrencesCover(keys: seq<string>)
    ensures forall k :: k in keys <==> k in FirstOccurrences(keys)
    ensures NoDuplicates(FirstOccurrences(keys))
  {
    if keys != [] {
      var init := keys[..|keys| - 1];
      FirstOccurrencesCover(init);
      assert keys == init + [keys[|keys| - 1]];
    }
  }

  /** Every group holds at least one entry, so every sidebar item has links. */
  lemma GroupsNonEmpty(logs: seq<NutritionLog>)
    ensures forall i :: 0 <= i < |GroupLogs(logs)| ==> |GroupLogs(logs)[i].entries| > 0
  {
    var groups := GroupLogs(logs);
    GroupLogsCharacterised(logs);
    forall i | 0 <= i < |groups| ensures |groups[i].entries| > 0 {
      KeyHasEntries(logs, groups[i].key);
    }
  }

  lemma KeyHasEntries(logs: seq<NutritionLog>, key: string)
    requires key in FirstOccurrences(LogKeys(logs))
    ensures |EntriesFor(logs, key)| > 0
  {
    FirstOccurrencesCover(LogKeys(logs));
    var j :| 0 <= j < |logs| && LogKeys(logs)[j] == key;
    EntriesForPresent(logs, key, j);
  }

  lemma {:induction false} EntriesForPresent(logs: seq<NutritionLog>, key: string, j: nat)
    requires j < |logs| && DateKey(logs[j]) == key
    ensures |EntriesFor(logs, key)| > 0
  {
    var n := |logs|;
    if j < n - 1 {
      EntriesForPresent(logs[..n - 1], key, j);
    }
  }

  /** `dateMap.set(key, [])` followed by a push onto that new last group is `AddEntry` for an absent key. */
  lemma NewGroupThenPush(groups: seq<Group>, key: string, entry: Entry)
    requires Find(groups, key) < 0
    ensures var g := groups + [Group(key, [])];
      g[|g| - 1 := g[|g| - 1].(entries := g[|g| - 1].entries + [entry])] == AddEntry(groups, key, entry)
  {
    assert [] + [entry] == [entry];
  }

  /** Grouping one more log of a list files its entry with `AddEntry`. */
  lemma GroupLogsPrefix(logs: seq<NutritionLog>, i: nat)
    requires i < |logs|
    ensures GroupLogs(logs[..i + 1]) == AddEntry(GroupLogs(logs[..i]), DateKey(logs[i]), EntryFor(logs[i]))
  {
    assert logs[..i + 1][..i] == logs[..i];
  }

  /** The grouping loop of the sidebar's fetch handler, with `dateMap` as an insertion-ordered list of groups. */
  method GroupByDate(logs: seq<NutritionLog>) returns (dateMap: seq<Group>)
    ensures dateMap == GroupLogs(logs)
  {
    dateMap := [];
    var i := 0;
    while i < |logs|
      invariant 0 <= i <= |logs|
      invariant dateMap == GroupLogs(logs[..i])
    {
      GroupLogsPrefix(logs, i);
      dateMap := FileEntry(dateMap, DateKey(logs[i]), EntryFor(logs[i]));
      i := i + 1;
    }
    assert logs[..i] == logs;
  }

  /** One round of the `forEach`: create the key's list if the map has none, then push the entry onto it. */
  method FileEntry(dateMap: seq<Group>, dateKey: string, entry: Entry) returns (r: seq<Group>)
    ensures r == AddEntry(dateMap, dateKey, entry)
  {
    r := dateMap;
    var at := Find(r, dateKey);
    if at < 0 {
      NewGroupThenPush(r, dateKey, entry);
      r := r + [Group(dateKey, [])];
      at := |r| - 1;
    }
    r := r[at := r[at].(entries := r[at].entries + [entry])];
  }

  /** A value of `Number(part)`: `NaN`, or a natural number. */
  datatype JsNumber = NaN | Natural(n: nat)

  /**
   * `Number(part)` for an element of a split date: surrounding whitespace is
   * ignored, and empty or all-blank text is 0. JavaScript does not count the
   * information separators U+001C-U+001F as whitespace, so text holding one is `NaN`.
   */
  function ToNumber(part: string): (r: JsNumber)
    ensures AllDigits(part) ==> r == Natural(DigitsValue(part))
    ensures (exists i :: 0 <= i < |part| && IsInfoSeparator(part[i])) ==> r == NaN
  {
    if exists i :: 0 <= i < |part| && IsInfoSeparator(part[i]) then NaN
    else
      var t := Strip(part);
      StripDigits(part);
      if t == "" then Natural(0) else if AllDigits(t) then Natural(DigitsValue(t)) else NaN
  }

  /** `String(n)`. */
  function NumberToString(v: JsNumber): string
  {
    match v
    case NaN => "NaN"
    case Natural(n) => NatToString(n)
  }

  /** `padStart(2, '0')`. */
  function Pad2(s: string): (r: string)
    ensures |s| >= 2 ==> r == s
    ensures |s| < 2 ==> r == seq(2 - |s|, _ => '0') + s
    decreases 2 - |s|
  {
    if |s| >= 2 then s
    else
      assert seq(2 - |s|, _ => '0') + s == seq(2 - |"0" + s|, _ => '0') + ("0" + s);
      Pad2("0" + s)
  }

  /**
   * `String(x)` for element `i` of `dateKey.split('-').map(Number)`: an element
   * past the end of the array is `undefined`, which `Number` never sees.
   */
  function PartText(parts: seq<string>, i: nat): string {
    if i < |parts| then NumberToString(ToNumber(parts[i])) else "undefined"
  }

  /** The group label: `${pad2(month)}-${pad2(day)}-${year}` from a `year-month-day` key. */
  function DisplayDate(dateKey: string): (r: string)
    ensures '-' !in dateKey ==> r == "undefined" + "-" + "undefined" + "-" + NumberToString(ToNumber(dateKey))
  {
    var parts := Split(dateKey, '-');
    SplitNone(dateKey);
    assert '-' !in dateKey ==> PartText(parts, 1) == PartText(parts, 2) == "undefined" == Pad2("undefined");
    Pad2(PartText(parts, 1)) + "-" + Pad2(PartText(parts, 2)) + "-" + PartText(parts, 0)
  }

  /** A key with a year and a month but no day shows `undefined` for the day. */
  lemma DisplayDateMissingDay(year: string, month: string)
    requires '-' !in year && '-' !in month
    ensures DisplayDate(year + "-" + month) ==
              Pad2(NumberToString(ToNumber(month))) + "-" + "undefined" + "-" + NumberToString(ToNumber(year))
  {
    var parts := Split(year + "-" + month, '-');
    SplitAt(year, month);
    SplitNone(month);
    assert parts == [year, month];
    assert PartText(parts, 2) == "undefined" == Pad2("undefined");
  }

  /**
   * A key `YYYY-MM-DD` whose year has no leading zero is shown as `MM-DD-YYYY`.
   * A year of at most 15 digits is below 2^53, so `Number` reads it exactly and
   * `String` prints it without an exponent.
   */
  lemma DisplayDateWellFormed(year: string, month: string, day: string)
    requires AllDigits(year) && 0 < |year| <= 15 && year[0] != '0'
    requires AllDigits(month) && |month| == 2
    requires AllDigits(day) && |day| == 2
    ensures DisplayDate(year + "-" + month + "-" + day) == month + "-" + day + "-" + year
  {
    var key := year + "-" + month + "-" + day;
    SplitThree(year, month, day);
    NatToStringOfDigitsValue(year);
    TwoDigitsShown(month);
    TwoDigitsShown(day);
  }

  lemma SplitThree(a: string, b: string, c: string)
    requires '-' !in a && '-' !in b && '-' !in c
    ensures Split(a + "-" + b + "-" + c, '-') == [a, b, c]
  {
    var bc := b + "-" + c;
    var key := a + "-" + b + "-" + c;
    assert key == a + "-" + bc;
    calc {
      Split(key, '-');
      { SplitAt(a, bc); }
      [a] + Split(bc, '-');
      { SplitAt(b, c); }
      [a] + ([b] + Split(c, '-'));
      { SplitNone(c); }
      [a, b, c];
    }
  }

  lemma SplitAt(a: string, rest: string)
    requires '-' !in a
    ensures Split(a + "-" + rest, '-') == [a] + Split(rest, '-')
  {
    var s := a + "-" + rest;
    BeforeFirstStops(a, rest);
    assert s[|a| + 1..] == rest;
  }

  lemma SplitNone(a: string)
    ensures '-' !in a ==> Split(a, '-') == [a]
  {
    if '-' !in a {
      BeforeFirstAll(a);
    }
  }

  lemma {:induction false} BeforeFirstStops(a: string, rest: string)
    requires '-' !in a
    ensures BeforeFirst(a + "-" + rest, '-') == a
  {
    if a != [] {
      assert (a + "-" + rest)[1..] == a[1..] + "-" + rest;
      BeforeFirstStops(a[1..], rest);
    }
  }

  lemma {:induction false} BeforeFirstAll(a: string)
    requires '-' !in a
    ensures BeforeFirst(a, '-') == a
  {
    if a != [] {
      BeforeFirstAll(a[1..]);
    }
  }

  lemma StripDigits(s: string)
    ensures AllDigits(s) ==> Strip(s) == s
  {
    if AllDigits(s) {
      assert |s| > 0 ==> !IsSpace(s[0]) && !IsSpace(s[|s| - 1]);
    }
  }

  /** A two-digit string is shown padded back to itself. */
  lemma TwoDigitsShown(s: string)
    requires AllDigits(s) && |s| == 2
    ensures Pad2(NumberToString(Natural(DigitsValue(s)))) == s
  {
    if s[0] == '0' {
      assert s[..1][..0] == [];
      assert DigitsValue(s[..1]) == 0;
      assert DigitsValue(s) == DigitValue(s[1]);
      assert NatToString(DigitsValue(s)) == [s[1]];
      assert Pad2([s[1]]) == Pad2("0" + [s[1]]);
      assert "0" + [s[1]] == s;
    } else {
      NatToStringOfDigitsValue(s);
    }
  }

  /** `formattedData`: one sidebar item per group, in group order. */
  function FormatGroups(groups: seq<Group>): (r: seq<SidebarDate>)
    ensures |r| == |groups|
    ensures forall i :: 0 <= i < |groups| ==> r[i].labelText == DisplayDate(groups[i].key)
    ensures forall i :: 0 <= i < |groups| ==>
      r[i].links == if |groups[i].entries| > 0 then Some(groups[i].entries) else None
  {
    seq(|groups|, i requires 0 <= i < |groups| =>
      SidebarDate(DisplayDate(groups[i].key), if |groups[i].entries| > 0 then Some(groups[i].entries) else None))
  }

  /** Lines 105-130 of the fetch handler: group the fetched logs and format them for the sidebar. */
  method BuildSidebarData(logs: seq<NutritionLog>) returns (data: seq<SidebarDate>)
    ensures data == FormatGroups(GroupLogs(logs))
    ensures |data| == |FirstOccurrences(LogKeys(logs))|
    ensures forall i :: 0 <= i < |data| ==> data[i].links.Some?
  {
    var dateMap := GroupByDate(logs);
    data := FormatGroups(dateMap);
    GroupLogsCharacterised(logs);
    GroupsNonEmpty(logs);
  }

  /** The four daily goals of the goal editor. */
  datatype GoalField = Calories | Protein | Carbs | Sugars

  /** A goal value: the empty string kept for a cleared input, or a number. */
  datatype GoalValue = Blank | Number(value: real)

  datatype NutritionGoals = NutritionGoals(calories: GoalValue, protein: GoalValue, carbs: GoalValue, sugars: GoalValue)

  function Goal(goals: NutritionGoals, field: GoalField): GoalValue {
    match field
    case Calories => goals.calories
    case Protein => goals.protein
    case Carbs => goals.carbs
    case Sugars => goals.sugars
  }

  /**
   * `updateGoal(field, value)`: `parsed` is what `parseFloat(value)` returns,
   * looked at only when `value` is not empty.
   */
  function UpdateGoal(prev: NutritionGoals, field: GoalField, value: string, parsed: real): (r: NutritionGoals)
    ensures Goal(r, field) == if value == "" then Blank else Number(parsed)
    ensures forall f :: f != field ==> Goal(r, f) == Goal(prev, f)
  {
    var v := if value == "" then Blank else Number(parsed);
    match field
    case Calories => prev.(calories := v)
    case Protein => prev.(protein := v)
    case Carbs => prev.(carbs := v)
    case Sugars => prev.(sugars := v)
  }
}
