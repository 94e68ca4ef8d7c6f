/**
 * Row selection of the food log table: the selection is the list of ids of the
 * checked rows, updated by a row checkbox (`toggleRow`) and by the header
 * checkbox (`toggleAll`); the row and header check marks are read off it.
 */
module FoodTable {
  import opened Strings

  /** The ids of the rows of the table, in table order. */
  const FoodHistoryIds: seq<string> := ["banana", "greek-yogurt", "oatmeal", "almonds"]

  /** Every id of the selection is the id of a row. */
  predicate WithinTable(selection: seq<string>, table: seq<string>) {
    forall k :: 0 <= k < |selection| ==> selection[k] in table
  }

  /** The selections the table can reach: no id twice, and only ids of rows. */
  predicate WellFormed(selection: seq<string>, table: seq<string>) {
    NoDuplicates(selection) && WithinTable(selection, table)
  }

  /** `current.filter((item) => item !== id)`. */
  function Without(current: seq<string>, id: string): (r: seq<string>)
    ensures id !in r
    ensures forall x :: x != id ==> (x in r <==> x in current)
    ensures |r| <= |current|
  {
    if current == [] then []
    else if current[0] == id then Without(current[1..], id)
    else [current[0]] + Without(current[1..], id)
  }

  /** Filtering distributes over concatenation, so the kept ids stay in their order. */
  lemma {:induction false} WithoutConcat(a: seq<string>, b: seq<string>, id: string)
    ensures Without(a + b, id) == Without(a, id) + Without(b, id)
    decreases |a|
  {
    if a != [] {
      assert (a + b)[1..] == a[1..] + b;
      WithoutConcat(a[1..], b, id);
    } else {
      assert a + b == b;
    }
  }

  /** Removing an id that is not there changes nothing. */
  lemma {:induction false} WithoutAbsent(current: seq<string>, id: string)
    requires id !in current
    ensures Without(current, id) == current
  {
    if current != [] {
      WithoutAbsent(current[1..], id);
      assert current == [current[0]] + current[1..];
    }
  }

  /** Removing an element keeps the others' relative order, and so their distinctness. */
  lemma {:induction false} WithoutKeepsNoDuplicates(current: seq<string>, id: string)
    requires NoDuplicates(current)
    ensures NoDuplicates(Without(current, id))
  {
    if current != [] {
      WithoutKeepsNoDuplicates(current[1..], id);
      assert current[0] !in current[1..] by {
        forall k | 0 <= k < |current[1..]| ensures current[1..][k] != current[0] {
          assert current[1..][k] == current[k + 1];
        }
      }
    }
  }

  /** `toggleRow(id)`: remove `id` if it is selected, otherwise append it. */
  function ToggleRow(current: seq<string>, id: string): (r: seq<string>)
    ensures id in current ==> id !in r
    ensures id !in current ==> r == current + [id]
    ensures forall x :: x != id ==> (x in r <==> x in current)
  {
    if id in current then Without(current, id) else current + [id]
  }

  /** `toggleAll()`: clear a full selection, otherwise select every row in table order. */
  function ToggleAll(current: seq<string>, table: seq<string>): (r: seq<string>)
    ensures |current| == |table| ==> r == []
    ensures |current| != |table| ==> r == table
  {
    if |current| == |table| then [] else table
  }

  /** The check mark of a row. */
  predicate RowSelected(selection: seq<string>, id: string) {
    id in selection
  }

  /** The header checkbox is checked. */
  predicate HeaderChecked(selection: seq<string>, table: seq<string>) {
    |selection| == |table|
  }

  /** The header checkbox shows a dash. */
  predicate HeaderIndeterminate(selection: seq<string>, table: seq<string>) {
    |selection| > 0 && |selection| < |table|
  }

  /** Toggling a row that was not selected twice restores the selection exactly. */
  lemma ToggleRowTwice(current: seq<string>, id: string)
    requires id !in current
    ensures ToggleRow(ToggleRow(current, id), id) == current
  {
    var once := current + [id];
    assert id in once;
    assert once == current + [id];
    WithoutAppend(current, id);
  }

  lemma {:induction false} WithoutAppend(current: seq<string>, id: string)
    requires id !in current
    ensures Without(current + [id], id) == current
  {
    if current == [] {
      assert [] + [id] == [id];
      assert [id][1..] == [];
    } else {
      WithoutAppend(current[1..], id);
      assert (current + [id])[1..] == current[1..] + [id];
      assert current == [current[0]] + current[1..];
    }
  }

  /** A row toggle of one of the table's rows keeps the selection well formed. */
  lemma ToggleRowWellFormed(current: seq<string>, id: string, table: seq<string>)
    requires WellFormed(current, table) && id in table
    ensures WellFormed(ToggleRow(current, id), table)
  {
    if id in current {
      WithoutKeepsNoDuplicates(current, id);
      var r := Without(current, id);
      assert forall k :: 0 <= k < |r| ==> r[k] in current;
    } else {
      var r := current + [id];
      assert forall k :: 0 <= k < |current| ==> r[k] == current[k];
    }
  }

  /** The user actions on the table: a row checkbox, or the header checkbox. */
  datatype Action = ClickRow(row: nat) | ClickHeader

  /** The selection after a run of clicks, starting from `selection`. */
  function Apply(selection: seq<string>, actions: seq<Action>, table: seq<string>): seq<string>
    decreases |actions|
  {
    if actions == [] then selection
    else
      var next := match actions[0]
        case ClickRow(k) => if k < |table| then ToggleRow(selection, table[k]) else selection
        case ClickHeader => ToggleAll(selection, table);
      Apply(next, actions[1..], table)
  }

  /** Every selection reachable from the empty one through clicks holds no twice-listed id and only ids of rows. */
  lemma {:induction false} ReachableWellFormed(selection: seq<string>, actions: seq<Action>, table: seq<string>)
    requires NoDuplicates(table) && WellFormed(selection, table)
    ensures WellFormed(Apply(selection, actions, table), table)
    decreases |actions|
  {
    if actions != [] {
      var next := match actions[0]
        case ClickRow(k) => if k < |table| then ToggleRow(selection, table[k]) else selection
        case ClickHeader => ToggleAll(selection, table);
      match actions[0] {
        case ClickRow(k) =>
          if k < |table| { ToggleRowWellFormed(selection, table[k], table); }
        case ClickHeader =>
      }
      ReachableWellFormed(next, actions[1..], table);
    }
  }

  lemma FoodHistoryIdsDistinct()
    ensures NoDuplicates(FoodHistoryIds)
  {
  }

  /** On a well-formed selection the header is checked exactly when every row is selected. */
  lemma {:induction false} HeaderCheckedIffAllRows(selection: seq<string>, table: seq<string>)
    requires NoDuplicates(table) && WellFormed(selection, table)
    ensures HeaderChecked(selection, table) <==> forall k :: 0 <= k < |table| ==> RowSelected(selection, table[k])
  {
    var sel := set x | x in selection;
    var tab := set x | x in table;
    DistinctCard(selection);
    DistinctCard(table);
    assert sel <= tab;
    SubsetCard(sel, tab);
    if HeaderChecked(selection, table) {
      SubsetSameSize(sel, tab);
      forall k | 0 <= k < |table| ensures RowSelected(selection, table[k]) {
        assert table[k] in tab;
      }
    }
    if forall k :: 0 <= k < |table| ==> RowSelected(selection, table[k]) {
      assert tab <= sel by {
        forall x | x in tab ensures x in sel {
          var k :| 0 <= k < |table| && table[k] == x;
          assert RowSelected(selection, table[k]);
        }
      }
      assert sel == tab;
    }
  }

  /** A list without repeats has as many distinct elements as entries. */
  lemma {:induction false} DistinctCard<T>(s: seq<T>)
    requires NoDuplicates(s)
    ensures |set x | x in s| == |s|
  {
    if s != [] {
      var rest := s[1..];
      assert NoDuplicates(rest) by {
        forall i, j | 0 <= i < j < |rest| ensures rest[i] != rest[j] {
          assert rest[i] == s[i + 1] && rest[j] == s[j + 1];
        }
      }
      DistinctCard(rest);
      assert s[0] !in rest by {
        forall k | 0 <= k < |rest| ensures rest[k] != s[0] {
          assert rest[k] == s[k + 1];
        }
      }
      assert (set x | x in s) == (set x | x in rest) + {s[0]};
    }
  }

  lemma SubsetCard<T>(a: set<T>, b: set<T>)
    requires a <= b
    ensures |a| <= |b|
  {
    assert b == a + (b - a);
  }

  lemma SubsetSameSize<T>(a: set<T>, b: set<T>)
    requires a <= b && |a| == |b|
    ensures a == b
  {
    assert b == a + (b - a);
    assert |b - a| == 0;
  }

  /** The header shows a dash exactly when some but not all rows are selected. */
  lemma HeaderIndeterminateIffSome(selection: seq<string>, table: seq<string>)
    requires NoDuplicates(table) && WellFormed(selection, table)
    ensures HeaderIndeterminate(selection, table) <==>
      (exists k :: 0 <= k < |table| && RowSelected(selection, table[k])) &&
      (exists k :: 0 <= k < |table| && !RowSelected(selection, table[k]))
  {
    HeaderCheckedIffAllRows(selection, table);
    DistinctCard(selection);
    DistinctCard(table);
    var sel := set x | x in selection;
    var tab := set x | x in table;
    assert sel <= tab;
    SubsetCard(sel, tab);
    if |selection| > 0 {
      assert selection[0] in table;
      var k :| 0 <= k < |table| && table[k] == selection[0];
      assert RowSelected(selection, table[k]);
    }
    if exists k :: 0 <= k < |table| && RowSelected(selection, table[k]) {
      var k :| 0 <= k < |table| && RowSelected(selection, table[k]);
      assert |selection| > 0;
    }
  }
}
