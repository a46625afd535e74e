/** Grouping of measurements for the plots: an incremental merge that amounts to a mean per group. */
module Plot {
  import opened Statistics

  datatype Field =
    | Directory | Cpu | Time | Rss | Vsz | Pubs | Subs | MsgSize | SendFrequency | NumExperiments | SeparatorName
    | Other(name: string)

  /** Field names used as values are told apart from other texts. */
  datatype Value = Number(value: real) | Text(text: string) | Name(field: Field)

  type Record = map<Field, Value>

  const UNCOUNTABLE: set<Field> := {Directory, Time, SendFrequency, MsgSize, Pubs, Subs, SeparatorName}

  // ----- Merging two records -----

  predicate SameKind(a: Value, b: Value) {
    (a.Number? && b.Number?) || (a.Text? && b.Text?)
  }

  /** The `+` of the values; Python raises on values of different kinds. */
  function Add(a: Value, b: Value): Value
    requires SameKind(a, b)
  {
    if a.Number? then Number(a.value + b.value) else Text(a.text + b.text)
  }

  function DefaultOf(a: Value): Value {
    if a.Number? then Number(0.0) else Text("")
  }

  /** The values that `merge_dictionaries` adds can be added. */
  predicate Addable(first: Record, second: Record, uncountable: set<Field>) {
    forall k :: k in first && k !in uncountable ==>
      SameKind(first[k], if k in second then second[k] else DefaultOf(first[k]))
  }

  /** The value after the loop over the first record. */
  function FirstValue(first: Record, second: Record, uncountable: set<Field>, k: Field): Value
    requires Addable(first, second, uncountable) && k in first
  {
    if k in uncountable then first[k]
    else Add(first[k], if k in second then second[k] else DefaultOf(first[k]))
  }

  function MergedValue(first: Record, second: Record, uncountable: set<Field>, k: Field): Value
    requires Addable(first, second, uncountable) && (k in first || k in second)
  {
    if k in second && (k in uncountable || k !in first) then second[k] else FirstValue(first, second, uncountable, k)
  }

  function Merged(first: Record, second: Record, uncountable: set<Field>): Record
    requires Addable(first, second, uncountable)
  {
    map k | k in first.Keys + second.Keys :: MergedValue(first, second, uncountable, k)
  }

  lemma IsMerged(merged: Record, first: Record, second: Record, uncountable: set<Field>)
    requires Addable(first, second, uncountable)
    requires forall k :: k in merged <==> k in first || k in second
    requires forall k :: k in merged ==> merged[k] == MergedValue(first, second, uncountable, k)
    ensures merged == Merged(first, second, uncountable)
  {
  }

  /** `merge_dictionaries`: countable fields are added; of an uncountable one in both, the second's is kept. */
  method MergeDictionaries(first: Record, second: Record, uncountable: set<Field>) returns (merged: Record)
    requires Addable(first, second, uncountable)
    ensures merged == Merged(first, second, uncountable)
  {
    hide Add, DefaultOf, SameKind, Merged;
    merged := map[];
    var todo := first.Keys;
    while todo != {}
      invariant todo <= first.Keys
      invariant forall k :: k in merged <==> k in first && k !in todo
      invariant forall k :: k in merged ==> merged[k] == FirstValue(first, second, uncountable, k)
      decreases |todo|
    {
      var key :| key in todo;
      if key in uncountable {
        merged := merged[key := first[key]];
      } else {
        merged := merged[key := Add(first[key], if key in second then second[key] else DefaultOf(first[key]))];
      }
      todo := todo - {key};
    }
    hide FirstValue, Addable;
    todo := second.Keys;
    while todo != {}
      invariant todo <= second.Keys
      invariant forall k :: k in merged <==> k in first || (k in second && k !in todo)
      invariant forall k :: k in merged ==>
        merged[k] == if k in todo then FirstValue(first, second, uncountable, k)
                     else MergedValue(first, second, uncountable, k)
      decreases |todo|
    {
      var key :| key in todo;
      if key in uncountable {
        merged := merged[key := second[key]];
      } else if key !in first {
        merged := merged[key := second[key]];
      }
      todo := todo - {key};
    }
    IsMerged(merged, first, second, uncountable);
  }

  /** The merge of two records in plain terms: numbers in both are added, texts in both are joined with the first in
      front, of an uncountable field in both the second's is kept, and every other field is taken as it is. */
  lemma MergedInFull(first: Record, second: Record, uncountable: set<Field>, k: Field)
    requires Addable(first, second, uncountable)
    ensures var m := Merged(first, second, uncountable);
            && (k in m <==> k in first || k in second)
            && (k in first && k !in second ==> m[k] == first[k])
            && (k !in first && k in second ==> m[k] == second[k])
            && (k in first && k in second && k in uncountable ==> m[k] == second[k])
            && (k in first && k in second && k !in uncountable ==>
                  && (first[k].Number? ==> second[k].Number? && m[k] == Number(first[k].value + second[k].value))
                  && (first[k].Text? ==> second[k].Text? && m[k] == Text(first[k].text + second[k].text)))
  {
    if k in first && k !in second && k !in uncountable {
      if first[k].Text? {
        assert first[k].text + "" == first[k].text;
      }
    }
  }

  /** The fields that are not added up. */
  lemma UncountableFields()
    ensures {Directory, Time, SendFrequency, MsgSize, Pubs, Subs, SeparatorName} == UNCOUNTABLE
    ensures {Cpu, Rss, Vsz, NumExperiments} !! UNCOUNTABLE
  {
  }

  // ----- Grouping the rows -----

  datatype Separator = All | By(field: Field)

  /** The field on the x axis and the field, if any, that separates the plots. */
  datatype Layout = Layout(x: Field, separator: Separator)

  type Groups = map<Value, map<Value, Record>>

  /** Countable fields are numbers. */
  predicate Numeric(r: Record) {
    forall k :: k in r && k !in UNCOUNTABLE ==> r[k].Number?
  }

  /** The fields used as keys are present. */
  predicate Keyed(row: Record, l: Layout) {
    l.x in row && (l.separator.By? ==> l.separator.field in row) && Numeric(row)
  }

  ghost predicate AllKeyed(rows: seq<Record>, l: Layout) {
    forall i :: 0 <= i < |rows| ==> Keyed(rows[i], l)
  }

  function GroupOf(row: Record, l: Layout): Value {
    if l.separator.By? && l.separator.field in row then row[l.separator.field] else Text("all")
  }

  /** The separator's name is noted in the row under a field of its own. */
  function Noted(row: Record, l: Layout): Record {
    if l.separator.By? then row[SeparatorName := Name(l.separator.field)] else row
  }

  function Cell(groups: Groups, group: Value, v: Value): Record {
    if group in groups && v in groups[group] then groups[group][v] else map[]
  }

  lemma NumericAddable(row: Record, cell: Record)
    requires Numeric(row) && Numeric(cell)
    ensures Addable(row, cell, UNCOUNTABLE)
    ensures Numeric(Merged(row, cell, UNCOUNTABLE))
  {
  }

  lemma NotedNumeric(row: Record, l: Layout)
    requires Numeric(row)
    ensures Numeric(Noted(row, l))
  {
  }

  function WithRow(groups: Groups, row: Record, l: Layout): Groups
    requires Keyed(row, l) && Numeric(Cell(groups, GroupOf(row, l), row[l.x]))
  {
    var group := GroupOf(row, l);
    var plot := if group in groups then groups[group] else map[];
    NotedNumeric(row, l);
    NumericAddable(Noted(row, l), Cell(groups, group, row[l.x]));
    groups[group := plot[row[l.x] := Merged(Noted(row, l), Cell(groups, group, row[l.x]), UNCOUNTABLE)]]
  }

  /** Whether the row belongs to the cell. */
  predicate Member(row: Record, l: Layout, group: Value, v: Value) {
    l.x in row && row[l.x] == v && GroupOf(row, l) == group
  }

  lemma CellNext(groups: Groups, row: Record, l: Layout, group: Value, v: Value)
    requires Keyed(row, l) && Numeric(Cell(groups, GroupOf(row, l), row[l.x]))
    ensures Addable(Noted(row, l), Cell(groups, GroupOf(row, l), row[l.x]), UNCOUNTABLE)
    ensures Cell(WithRow(groups, row, l), group, v)
         == if Member(row, l, group, v) then Merged(Noted(row, l), Cell(groups, group, v), UNCOUNTABLE)
            else Cell(groups, group, v)
  {
  }

  ghost predicate AllNumeric(groups: Groups) {
    forall g, v :: Numeric(Cell(groups, g, v))
  }

  lemma WithRowNumeric(groups: Groups, row: Record, l: Layout)
    requires Keyed(row, l) && AllNumeric(groups)
    ensures AllNumeric(WithRow(groups, row, l))
  {
    hide WithRow, Numeric, Cell, Noted, Merged, Addable;
    forall g, v ensures Numeric(Cell(WithRow(groups, row, l), g, v)) {
      assert Numeric(Cell(groups, g, v));
      CellNext(groups, row, l, g, v);
      if Member(row, l, g, v) {
        NotedNumeric(row, l);
        NumericAddable(Noted(row, l), Cell(groups, g, v));
      }
    }
  }

  function NoGroups(l: Layout): Groups {
    if l.separator.By? then map[] else map[Text("all") := map[]]
  }

  ghost function Organized(rows: seq<Record>, l: Layout): (groups: Groups)
    requires AllKeyed(rows, l)
    ensures AllNumeric(groups)
  {
    if rows == [] then NoGroups(l)
    else
      var groups := Organized(rows[..|rows| - 1], l);
      WithRowNumeric(groups, rows[|rows| - 1], l);
      WithRow(groups, rows[|rows| - 1], l)
  }

  /** `organize_data` with at most one separator. */
  method OrganizeData(rows: seq<Record>, l: Layout) returns (groups: Groups)
    requires AllKeyed(rows, l)
    ensures groups == Organized(rows, l)
  {
    hide Numeric, Merged, Addable;
    groups := if l.separator.By? then map[] else map[Text("all") := map[]];
    for i := 0 to |rows|
      invariant groups == Organized(rows[..i], l)
    {
      assert rows[..i + 1][..i] == rows[..i] && rows[..i + 1][i] == rows[i];
      var row := rows[i];
      assert Keyed(row, l) && Numeric(Cell(groups, GroupOf(row, l), row[l.x]));
      NotedNumeric(row, l);
      NumericAddable(Noted(row, l), Cell(groups, GroupOf(row, l), row[l.x]));
      var group := GroupOf(row, l);
      if l.separator.By? {
        row := row[SeparatorName := Name(l.separator.field)];
      }
      var plot := if group in groups then groups[group] else map[];
      var v := rows[i][l.x];
      var merged := MergeDictionaries(row, if v in plot then plot[v] else map[], UNCOUNTABLE);
      groups := groups[group := plot[v := merged]];
    }
    assert rows[..|rows|] == rows;
  }

  // ----- What a cell holds -----

  function NumberAt(row: Record, k: Field): real {
    if k in row && row[k].Number? then row[k].value else 0.0
  }

  /** The contribution of one row to a countable field of a cell. */
  function Share(row: Record, l: Layout, group: Value, v: Value, k: Field): real {
    if Member(row, l, group, v) then NumberAt(row, k) else 0.0
  }

  /** The direct sum of one field over the rows of a group that have it. */
  function FieldSum(rows: seq<Record>, l: Layout, group: Value, v: Value, k: Field): real {
    if rows == [] then 0.0
    else FieldSum(rows[..|rows| - 1], l, group, v, k) + Share(rows[|rows| - 1], l, group, v, k)
  }

  predicate Has(row: Record, l: Layout, group: Value, v: Value, k: Field) {
    Member(row, l, group, v) && k in row
  }

  predicate SomeRow(rows: seq<Record>, l: Layout, group: Value, v: Value, k: Field) {
    rows != [] && (SomeRow(rows[..|rows| - 1], l, group, v, k) || Has(rows[|rows| - 1], l, group, v, k))
  }

  lemma {:induction false} SomeRowExists(rows: seq<Record>, l: Layout, group: Value, v: Value, k: Field)
    ensures SomeRow(rows, l, group, v, k) <==> exists i :: 0 <= i < |rows| && Has(rows[i], l, group, v, k)
  {
    hide Has;
    if rows == [] {
    } else {
      var last := |rows| - 1;
      SomeRowExists(rows[..last], l, group, v, k);
      assert forall i :: 0 <= i < last ==> rows[..last][i] == rows[i];
    }
  }

  /** What one row does to one countable field of a cell. */
  lemma MergedField(row: Record, l: Layout, cell: Record, k: Field)
    requires Numeric(row) && Numeric(cell) && k !in UNCOUNTABLE
    requires Addable(Noted(row, l), cell, UNCOUNTABLE)
    ensures var m := Merged(Noted(row, l), cell, UNCOUNTABLE);
            && (k in m <==> k in row || k in cell)
            && (k in m ==>
                 m[k] == Number((if k in row then row[k].value else 0.0) + if k in cell then cell[k].value else 0.0))
  {
  }

  /** However the rows are merged one by one, a countable field of a cell is present exactly when some
      row of its group has the field, and is then the direct sum over those rows. */
  lemma {:induction false} CellIsSum(rows: seq<Record>, l: Layout, group: Value, v: Value, k: Field)
    requires AllKeyed(rows, l) && k !in UNCOUNTABLE
    ensures var cell := Cell(Organized(rows, l), group, v);
            && (k in cell <==> SomeRow(rows, l, group, v, k))
            && (k in cell ==> cell[k] == Number(FieldSum(rows, l, group, v, k)))
            && (k !in cell ==> FieldSum(rows, l, group, v, k) == 0.0)
  {
    hide Merged, Noted, Numeric, Addable, WithRow, Cell;
    if rows == [] {
      EmptyCells(l, group, v);
    } else {
      var front, row := rows[..|rows| - 1], rows[|rows| - 1];
      var groups := Organized(front, l);
      CellIsSum(front, l, group, v, k);
      assert Keyed(row, l);
      assert Numeric(Cell(groups, GroupOf(row, l), row[l.x])) && Numeric(Cell(groups, group, v));
      CellNext(groups, row, l, group, v);
      if Member(row, l, group, v) {
        MergedField(row, l, Cell(groups, group, v), k);
        NumericAt(row, k);
      }
    }
  }

  lemma NumericAt(r: Record, k: Field)
    requires Numeric(r) && k !in UNCOUNTABLE
    ensures k in r ==> r[k].Number?
  {
  }

  lemma EmptyCells(l: Layout, group: Value, v: Value)
    ensures Cell(NoGroups(l), group, v) == map[]
  {
  }

  // ----- Nothing is lost between the cells -----

  /** The sum of one field over all rows. */
  function Overall(rows: seq<Record>, k: Field): real {
    if rows == [] then 0.0 else Overall(rows[..|rows| - 1], k) + NumberAt(rows[|rows| - 1], k)
  }

  /** One field of the cells of a list of groups and x values, added up. */
  function OverCells(groups: Groups, cells: seq<(Value, Value)>, k: Field): real {
    if cells == [] then 0.0
    else
      var c := cells[|cells| - 1];
      OverCells(groups, cells[..|cells| - 1], k) + NumberAt(Cell(groups, c.0, c.1), k)
  }

  /** The direct sums over the rows of each of them, added up. */
  function OverSums(rows: seq<Record>, l: Layout, cells: seq<(Value, Value)>, k: Field): real {
    if cells == [] then 0.0
    else
      var c := cells[|cells| - 1];
      OverSums(rows, l, cells[..|cells| - 1], k) + FieldSum(rows, l, c.0, c.1, k)
  }

  lemma {:induction false} CellsAreSums(rows: seq<Record>, l: Layout, cells: seq<(Value, Value)>, k: Field)
    requires AllKeyed(rows, l) && k !in UNCOUNTABLE
    ensures OverCells(Organized(rows, l), cells, k) == OverSums(rows, l, cells, k)
  {
    hide Organized, Cell, FieldSum, SomeRow, AllKeyed;
    if cells == [] {
    } else {
      var c := cells[|cells| - 1];
      CellsAreSums(rows, l, cells[..|cells| - 1], k);
      CellIsSum(rows, l, c.0, c.1, k);
    }
  }

  function OwnCell(row: Record, l: Layout): (Value, Value) {
    (GroupOf(row, l), if l.x in row then row[l.x] else Text(""))
  }

  ghost predicate Distinct(cells: seq<(Value, Value)>) {
    forall i, j :: 0 <= i < j < |cells| ==> cells[i] != cells[j]
  }

  lemma {:induction false} CellsNext(rows: seq<Record>, l: Layout, cells: seq<(Value, Value)>, k: Field)
    requires rows != [] && l.x in rows[|rows| - 1] && Distinct(cells)
    ensures var row := rows[|rows| - 1];
            OverSums(rows, l, cells, k) == OverSums(rows[..|rows| - 1], l, cells, k)
              + if OwnCell(row, l) in cells then NumberAt(row, k) else 0.0
  {
    if cells == [] {
    } else {
      hide GroupOf;
      var front, c := cells[..|cells| - 1], cells[|cells| - 1];
      CellsNext(rows, l, front, k);
      assert cells == front + [c];
      assert c !in front;
      assert Member(rows[|rows| - 1], l, c.0, c.1) <==> OwnCell(rows[|rows| - 1], l) == c;
    }
  }

  /** Merging loses and doubles nothing: a countable field, added up over all cells that the rows were
      merged into, is its sum over all rows. */
  lemma TotalConserved(rows: seq<Record>, l: Layout, cells: seq<(Value, Value)>, k: Field)
    requires AllKeyed(rows, l) && Distinct(cells) && k !in UNCOUNTABLE
    requires forall i :: 0 <= i < |rows| ==> OwnCell(rows[i], l) in cells
    ensures OverCells(Organized(rows, l), cells, k) == Overall(rows, k)
  {
    CellsAreSums(rows, l, cells, k);
    SumsConserved(rows, l, cells, k);
    hide *;
  }

  lemma {:induction false} SumsConserved(rows: seq<Record>, l: Layout, cells: seq<(Value, Value)>, k: Field)
    requires AllKeyed(rows, l) && Distinct(cells)
    requires forall i :: 0 <= i < |rows| ==> OwnCell(rows[i], l) in cells
    ensures OverSums(rows, l, cells, k) == Overall(rows, k)
  {
    hide OwnCell, Keyed, Numeric, Distinct;
    if rows == [] {
      NoCells(l, cells, k);
    } else {
      var front := rows[..|rows| - 1];
      assert forall i :: 0 <= i < |front| ==> front[i] == rows[i];
      KeyedHasX(rows[|rows| - 1], l);
      SumsConserved(front, l, cells, k);
      CellsNext(rows, l, cells, k);
    }
  }

  lemma KeyedHasX(row: Record, l: Layout)
    requires Keyed(row, l)
    ensures l.x in row
  {
  }

  lemma {:induction false} NoCells(l: Layout, cells: seq<(Value, Value)>, k: Field)
    ensures OverSums([], l, cells, k) == 0.0
  {
    if cells == [] {
    } else {
      NoCells(l, cells[..|cells| - 1], k);
    }
  }

  /** What one row does to an uncountable field of a cell: an older value stays. */
  lemma MergedKeeps(row: Record, l: Layout, cell: Record, k: Field)
    requires Addable(Noted(row, l), cell, UNCOUNTABLE) && k in UNCOUNTABLE && k != SeparatorName
    ensures var m := Merged(Noted(row, l), cell, UNCOUNTABLE);
            && (k in m <==> k in row || k in cell)
            && (k in m ==> m[k] == if k in cell then cell[k] else row[k])
  {
  }

  /** When there is a separator, each cell names it, whatever the rows say. */
  lemma {:induction false} CellNamesSeparator(rows: seq<Record>, l: Layout, group: Value, v: Value)
    requires AllKeyed(rows, l) && l.separator.By?
    ensures var cell := Cell(Organized(rows, l), group, v);
            cell != map[] ==> SeparatorName in cell && cell[SeparatorName] == Name(l.separator.field)
  {
    hide Merged, Numeric, Addable, WithRow, Cell;
    if rows == [] {
      EmptyCells(l, group, v);
    } else {
      var front, row := rows[..|rows| - 1], rows[|rows| - 1];
      var groups := Organized(front, l);
      CellNamesSeparator(front, l, group, v);
      assert Keyed(row, l);
      assert Numeric(Cell(groups, GroupOf(row, l), row[l.x])) && Numeric(Cell(groups, group, v));
      CellNext(groups, row, l, group, v);
      if Member(row, l, group, v) {
        MergedInFull(Noted(row, l), Cell(groups, group, v), UNCOUNTABLE, SeparatorName);
      }
    }
  }

  /** There is a group for each value of the separator and a cell in it for each x value of its rows, and no other;
      without a separator the one group is called `all` and there even without rows. */
  lemma {:induction false} GroupsOfRows(rows: seq<Record>, l: Layout, group: Value, v: Value)
    requires AllKeyed(rows, l)
    ensures var groups := Organized(rows, l);
            && (group in groups <==>
                  (l.separator.All? && group == Text("all"))
                  || exists i :: 0 <= i < |rows| && GroupOf(rows[i], l) == group)
            && (group in groups && v in groups[group] <==> exists i :: 0 <= i < |rows| && Member(rows[i], l, group, v))
  {
    if rows == [] {
    } else {
      hide Merged, Numeric, Addable, GroupOf;
      var last := |rows| - 1;
      var front, row := rows[..last], rows[last];
      GroupsOfRows(front, l, group, v);
      assert forall i :: 0 <= i < last ==> front[i] == rows[i];
      assert Keyed(row, l);
      assert Organized(rows, l) == WithRow(Organized(front, l), row, l);
      if GroupOf(row, l) == group {
        assert GroupOf(rows[last], l) == group;
      }
      if Member(row, l, group, v) {
        assert Member(rows[last], l, group, v);
      }
    }
  }

  /** The position of the first row of a group that has a field. */
  function FirstRow(rows: seq<Record>, l: Layout, group: Value, v: Value, k: Field): (i: nat)
    requires SomeRow(rows, l, group, v, k)
    ensures i < |rows| && Has(rows[i], l, group, v, k) && !SomeRow(rows[..i], l, group, v, k)
  {
    var last := |rows| - 1;
    if SomeRow(rows[..last], l, group, v, k) then
      var i := FirstRow(rows[..last], l, group, v, k);
      assert rows[..last][i] == rows[i] && rows[..last][..i] == rows[..i];
      i
    else last
  }

  /** An uncountable field of a cell is present exactly when some row of its group has it, and keeps the
      value of the first such row. */
  lemma {:induction false} CellKeepsFirst(rows: seq<Record>, l: Layout, group: Value, v: Value, k: Field)
    requires AllKeyed(rows, l) && k in UNCOUNTABLE && k != SeparatorName
    ensures var cell := Cell(Organized(rows, l), group, v);
            && (k in cell <==> SomeRow(rows, l, group, v, k))
            && (k in cell ==> cell[k] == rows[FirstRow(rows, l, group, v, k)][k])
  {
    hide Merged, Noted, Numeric, Addable, WithRow, Cell;
    if rows == [] {
      EmptyCells(l, group, v);
    } else {
      var last := |rows| - 1;
      var row, groups := rows[last], Organized(rows[..last], l);
      CellKeepsFirst(rows[..last], l, group, v, k);
      assert Keyed(row, l);
      assert Numeric(Cell(groups, GroupOf(row, l), row[l.x])) && Numeric(Cell(groups, group, v));
      CellNext(groups, row, l, group, v);
      if Member(row, l, group, v) {
        MergedKeeps(row, l, Cell(groups, group, v), k);
      }
    }
  }

  // ----- The two ways of turning a file into rows -----

  /** A parsed file: one measurement per line in each list. */
  class ParsedCsv {
    const directory: Value
    var time: seq<real>
    var cpu: seq<real>
    var rss: seq<real>
    var vsz: seq<real>
    const pubs: Value
    const subs: Value
    const msgSize: Value
    const sendFrequency: Value

    ghost predicate Valid()
      reads this
    {
      |time| == |cpu| == |rss| == |vsz|
    }

    constructor (directory: Value, time: seq<real>, cpu: seq<real>, rss: seq<real>, vsz: seq<real>,
                 pubs: Value, subs: Value, msgSize: Value, sendFrequency: Value)
      requires |time| == |cpu| == |rss| == |vsz|
      ensures Valid() && this.time == time && this.cpu == cpu && this.rss == rss && this.vsz == vsz
      ensures this.directory == directory && this.pubs == pubs && this.subs == subs
      ensures this.msgSize == msgSize && this.sendFrequency == sendFrequency
    {
      this.directory, this.time, this.cpu, this.rss, this.vsz := directory, time, cpu, rss, vsz;
      this.pubs, this.subs, this.msgSize, this.sendFrequency := pubs, subs, msgSize, sendFrequency;
    }

    function Row(time: real, cpu: real, rss: real, vsz: real, experiments: real): Record
    {
      map[Directory := directory, Cpu := Number(cpu), Time := Number(time), Rss := Number(rss), Vsz := Number(vsz),
          Pubs := pubs, Subs := subs, MsgSize := msgSize, SendFrequency := sendFrequency,
          NumExperiments := Number(experiments)]
    }

    /** `split_csv`: one record per line. */
    method SplitCsv() returns (rows: seq<Record>)
      requires Valid()
      ensures |rows| == |cpu|
      ensures forall i :: 0 <= i < |rows| ==> rows[i] == Row(time[i], cpu[i], rss[i], vsz[i], 1.0)
    {
      rows := [];
      for i := 0 to |time|
        invariant |rows| == i
        invariant forall j :: 0 <= j < i ==> rows[j] == Row(time[j], cpu[j], rss[j], vsz[j], 1.0)
      {
        rows := rows + [Row(time[i], cpu[i], rss[i], vsz[i], 1.0)];
      }
    }

    /** `aggregate_csv`: the first line is dropped from the lists in place, the others are added up. */
    method AggregateCsv() returns (row: Record)
      requires Valid() && time != []
      modifies this
      ensures Valid()
      ensures time == old(time)[1..] && cpu == old(cpu)[1..] && rss == old(rss)[1..] && vsz == old(vsz)[1..]
      ensures row == Row(|time| as real, Sum(cpu), Sum(rss), Sum(vsz), |time| as real)
    {
      time := time[1..];
      cpu := cpu[1..];
      rss := rss[1..];
      vsz := vsz[1..];
      var experiments := |time| as real;
      row := Row(experiments, Sum(cpu), Sum(rss), Sum(vsz), experiments);
    }
  }

  /** The measurements behind a row: its field is their sum, and its experiments are their number. */
  predicate Backed(row: Record, samples: seq<real>, k: Field) {
    && k in row && row[k] == Number(Sum(samples))
    && NumExperiments in row && row[NumExperiments] == Number(|samples| as real)
  }

  lemma RowFields(csv: ParsedCsv, t: real, c: real, r: real, v: real, n: real)
    ensures var row := csv.Row(t, c, r, v, n);
            && Cpu in row && row[Cpu] == Number(c) && Rss in row && row[Rss] == Number(r)
            && Vsz in row && row[Vsz] == Number(v) && NumExperiments in row && row[NumExperiments] == Number(n)
  {
  }

  /** A line stands for its own measurements. */
  lemma LineIsBacked(csv: ParsedCsv, t: real, c: real, r: real, v: real)
    ensures var row := csv.Row(t, c, r, v, 1.0);
            Backed(row, [c], Cpu) && Backed(row, [r], Rss) && Backed(row, [v], Vsz)
  {
    OneSample(c);
    OneSample(r);
    OneSample(v);
  }

  lemma OneSample(x: real)
    ensures Sum([x]) == x
  {
  }

  /** An aggregated file stands for the measurements that were added up. */
  lemma FileIsBacked(csv: ParsedCsv, t: real, cs: seq<real>, rs: seq<real>, vs: seq<real>)
    requires |cs| == |rs| == |vs|
    ensures var row := csv.Row(t, Sum(cs), Sum(rs), Sum(vs), |cs| as real);
            Backed(row, cs, Cpu) && Backed(row, rs, Rss) && Backed(row, vs, Vsz)
  {
    RowFields(csv, t, Sum(cs), Sum(rs), Sum(vs), |cs| as real);
    hide Sum, ParsedCsv.Row;
  }

  // ----- From the files to the rows -----

  /** The keys that the command line admits, on the x axis and as separator. */
  predicate Admitted(l: Layout) {
    && l.x in {Time, Pubs, Subs, MsgSize}
    && (l.separator.By? ==> l.separator.field in {SendFrequency, Directory, Pubs, Subs, MsgSize})
  }

  lemma RowKeyed(csv: ParsedCsv, t: real, c: real, r: real, v: real, n: real, l: Layout)
    requires Admitted(l)
    ensures Keyed(csv.Row(t, c, r, v, n), l)
  {
  }

  /** Files that were parsed, each of them with at least one line. */
  ghost predicate Parsed(files: seq<ParsedCsv>)
    reads files
  {
    && (forall i :: 0 <= i < |files| ==> files[i].Valid() && files[i].time != [])
    && (forall i, j :: 0 <= i < j < |files| ==> files[i] != files[j])
  }

  const MEASURED: set<Field> := {Cpu, Rss, Vsz}

  /** The keys of the row are those of its file; its time is the line's, or the number of lines added up. */
  ghost predicate FromFile(row: Record, csv: ParsedCsv, time: real) {
    && row.Keys == {Directory, Cpu, Time, Rss, Vsz, Pubs, Subs, MsgSize, SendFrequency, NumExperiments}
    && row[Directory] == csv.directory && row[Pubs] == csv.pubs && row[Subs] == csv.subs
    && row[MsgSize] == csv.msgSize && row[SendFrequency] == csv.sendFrequency && row[Time] == Number(time)
  }

  lemma RowFromFile(csv: ParsedCsv, t: real, c: real, r: real, v: real, n: real)
    ensures FromFile(csv.Row(t, c, r, v, n), csv, t)
  {
  }

  /** What a file, or a line of it, has under one of the admitted keys. */
  function KeyOf(csv: ParsedCsv, time: real, k: Field): Value {
    match k
    case Directory => csv.directory
    case Pubs => csv.pubs
    case Subs => csv.subs
    case MsgSize => csv.msgSize
    case SendFrequency => csv.sendFrequency
    case _ => Number(time)
  }

  /** A row belongs to the cell named by its file: the group is the separator's value, the x value that of the x key. */
  lemma CellOfRow(row: Record, csv: ParsedCsv, time: real, l: Layout, group: Value, v: Value)
    requires Admitted(l) && FromFile(row, csv, time)
    ensures Member(row, l, group, v) <==>
              && v == KeyOf(csv, time, l.x)
              && group == if l.separator.By? then KeyOf(csv, time, l.separator.field) else Text("all")
  {
  }

  ghost function Measured(csv: ParsedCsv, k: Field): seq<real>
    reads csv
  {
    match k
    case Cpu => csv.cpu
    case Rss => csv.rss
    case Vsz => csv.vsz
    case _ => []
  }

  ghost predicate FromOrigins(rows: seq<Record>, origins: seq<(ParsedCsv, real)>) {
    |rows| == |origins| && forall i :: 0 <= i < |rows| ==> FromFile(rows[i], origins[i].0, origins[i].1)
  }

  /** Each row is a member of the one cell that its file names. */
  ghost predicate CellsNamed(rows: seq<Record>, origins: seq<(ParsedCsv, real)>, l: Layout) {
    && |rows| == |origins|
    && forall i, group, v :: 0 <= i < |rows| ==>
         (Member(rows[i], l, group, v) <==>
           && v == KeyOf(origins[i].0, origins[i].1, l.x)
           && group == if l.separator.By? then KeyOf(origins[i].0, origins[i].1, l.separator.field) else Text("all"))
  }

  lemma CellsOfRows(rows: seq<Record>, origins: seq<(ParsedCsv, real)>, l: Layout)
    requires Admitted(l) && FromOrigins(rows, origins)
    ensures CellsNamed(rows, origins, l)
  {
    hide Member, FromFile, KeyOf, Admitted;
    forall i, group, v | 0 <= i < |rows|
      ensures Member(rows[i], l, group, v) <==>
                && v == KeyOf(origins[i].0, origins[i].1, l.x)
                && group == if l.separator.By? then KeyOf(origins[i].0, origins[i].1, l.separator.field)
                            else Text("all")
    {
      CellOfRow(rows[i], origins[i].0, origins[i].1, l, group, v);
    }
  }

  // ----- One row a file -----

  /** The row of a file: the sums and the number of the measurements after its first line. */
  ghost function FileRow(csv: ParsedCsv): Record
    requires csv.Valid() && csv.time != []
    reads csv
  {
    var n := (|csv.time| - 1) as real;
    csv.Row(n, Sum(csv.cpu[1..]), Sum(csv.rss[1..]), Sum(csv.vsz[1..]), n)
  }

  ghost function FileRows(files: seq<ParsedCsv>): (rows: seq<Record>)
    requires Parsed(files)
    reads files
    ensures |rows| == |files|
  {
    seq(|files|, i requires 0 <= i < |files| && files[i].Valid() && files[i].time != [] reads files =>
          FileRow(files[i]))
  }

  /** The measurements of each file after its first line. */
  ghost function Tails(files: seq<ParsedCsv>, k: Field): (tails: seq<seq<real>>)
    requires Parsed(files) && k in MEASURED
    reads files
    ensures |tails| == |files|
  {
    seq(|files|, i requires 0 <= i < |files| && files[i].Valid() && files[i].time != [] reads files =>
          Measured(files[i], k)[1..])
  }

  /** The files with the number of lines that are added up. */
  ghost function FileOrigins(files: seq<ParsedCsv>): (origins: seq<(ParsedCsv, real)>)
    requires Parsed(files)
    reads files
    ensures |origins| == |files|
    ensures forall i :: 0 <= i < |files| ==> origins[i] == (files[i], (|files[i].time| - 1) as real)
  {
    seq(|files|, i requires 0 <= i < |files| reads files => (files[i], (|files[i].time| - 1) as real))
  }

  ghost function Lengths(files: seq<ParsedCsv>): (lengths: seq<nat>)
    reads files
    ensures |lengths| == |files| && forall i :: 0 <= i < |files| ==> lengths[i] == |files[i].time|
  {
    seq(|files|, i requires 0 <= i < |files| reads files => |files[i].time|)
  }

  lemma FilesBacked(files: seq<ParsedCsv>, l: Layout, k: Field)
    requires Admitted(l) && Parsed(files) && k in MEASURED
    ensures AllKeyed(FileRows(files), l) && AllBacked(FileRows(files), Tails(files, k), k)
    ensures forall i :: 0 <= i < |files| ==> (Tails(files, k)[i] == [] <==> Lengths(files)[i] == 1)
    ensures FromOrigins(FileRows(files), FileOrigins(files))
  {
    hide Keyed, Backed, Sum, Admitted, FromFile, Lengths, FileOrigins;
    forall i | 0 <= i < |files|
      ensures Keyed(FileRows(files)[i], l) && Backed(FileRows(files)[i], Tails(files, k)[i], k)
      ensures FromFile(FileRows(files)[i], files[i], (|files[i].time| - 1) as real)
    {
      var csv := files[i];
      var n := |csv.time| - 1;
      FileIsBacked(csv, n as real, csv.cpu[1..], csv.rss[1..], csv.vsz[1..]);
      RowKeyed(csv, n as real, Sum(csv.cpu[1..]), Sum(csv.rss[1..]), Sum(csv.vsz[1..]), n as real, l);
      RowFromFile(csv, n as real, Sum(csv.cpu[1..]), Sum(csv.rss[1..]), Sum(csv.vsz[1..]), n as real);
    }
  }

  /** The loop over the files when time is not on the x axis. */
  method CollectFiles(files: seq<ParsedCsv>, l: Layout) returns (rows: seq<Record>)
    requires Admitted(l) && Parsed(files)
    modifies files
    ensures rows == old(FileRows(files))
    ensures AllKeyed(rows, l)
    ensures forall k :: k in MEASURED ==> AllBacked(rows, old(Tails(files, k)), k)
  {
    hide AllKeyed, AllBacked, Sum, Admitted, Lengths, FileOrigins, FromOrigins;
    ghost var expected := FileRows(files);
    forall k | k in MEASURED ensures AllKeyed(expected, l) && AllBacked(expected, Tails(files, k), k) {
      FilesBacked(files, l, k);
    }
    assert Cpu in MEASURED;
    rows := [];
    for n := 0 to |files|
      invariant rows == expected[..n]
      invariant forall i :: n <= i < |files| ==>
        && files[i].time == old(files[i].time) && files[i].cpu == old(files[i].cpu)
        && files[i].rss == old(files[i].rss) && files[i].vsz == old(files[i].vsz)
    {
      var row := files[n].AggregateCsv();
      assert row == expected[n];
      rows := rows + [row];
    }
  }

  // ----- One row a line -----

  ghost function FileLines(csv: ParsedCsv): (rows: seq<Record>)
    requires csv.Valid()
    reads csv
    ensures |rows| == |csv.cpu|
  {
    seq(|csv.cpu|, i requires 0 <= i < |csv.cpu| && csv.Valid() reads csv =>
          csv.Row(csv.time[i], csv.cpu[i], csv.rss[i], csv.vsz[i], 1.0))
  }

  ghost function LineRows(files: seq<ParsedCsv>): seq<Record>
    requires forall i :: 0 <= i < |files| ==> files[i].Valid()
    reads files
  {
    if files == [] then [] else LineRows(files[..|files| - 1]) + FileLines(files[|files| - 1])
  }

  /** The measurements of all files, in order. */
  ghost function AllMeasured(files: seq<ParsedCsv>, k: Field): seq<real>
    reads files
  {
    if files == [] then [] else AllMeasured(files[..|files| - 1], k) + Measured(files[|files| - 1], k)
  }

  /** One list for each measurement. */
  function Singles(xs: seq<real>): (lists: seq<seq<real>>)
    ensures |lists| == |xs| && forall i :: 0 <= i < |xs| ==> lists[i] == [xs[i]]
  {
    seq(|xs|, i requires 0 <= i < |xs| => [xs[i]])
  }

  /** The file and the time of each line, in order. */
  ghost function Origins(files: seq<ParsedCsv>): seq<(ParsedCsv, real)>
    reads files
  {
    if files == [] then []
    else
      var last := files[|files| - 1];
      var times := last.time;
      Origins(files[..|files| - 1]) + seq(|times|, i requires 0 <= i < |times| => (last, times[i]))
  }

  lemma {:induction false} LinesFromFiles(files: seq<ParsedCsv>)
    requires forall i :: 0 <= i < |files| ==> files[i].Valid()
    ensures FromOrigins(LineRows(files), Origins(files))
  {
    if files == [] {
    } else {
      hide FromFile;
      LinesFromFiles(files[..|files| - 1]);
      var last := files[|files| - 1];
      forall i | 0 <= i < |last.time| ensures FromFile(FileLines(last)[i], last, last.time[i]) {
        RowFromFile(last, last.time[i], last.cpu[i], last.rss[i], last.vsz[i], 1.0);
      }
    }
  }

  lemma SinglesAppend(a: seq<real>, b: seq<real>)
    ensures Singles(a + b) == Singles(a) + Singles(b)
  {
  }

  lemma FileLinesBacked(csv: ParsedCsv, l: Layout, k: Field)
    requires csv.Valid() && Admitted(l) && k in MEASURED
    ensures AllKeyed(FileLines(csv), l) && AllBacked(FileLines(csv), Singles(Measured(csv, k)), k)
  {
    hide Keyed, Backed, Admitted;
    forall i | 0 <= i < |csv.cpu|
      ensures Keyed(FileLines(csv)[i], l) && Backed(FileLines(csv)[i], [Measured(csv, k)[i]], k)
    {
      LineIsBacked(csv, csv.time[i], csv.cpu[i], csv.rss[i], csv.vsz[i]);
      RowKeyed(csv, csv.time[i], csv.cpu[i], csv.rss[i], csv.vsz[i], 1.0, l);
    }
  }

  lemma BackedAppend(rows: seq<Record>, samples: seq<seq<real>>, more: seq<Record>, others: seq<seq<real>>,
      l: Layout, k: Field)
    requires AllKeyed(rows, l) && AllBacked(rows, samples, k) && AllKeyed(more, l) && AllBacked(more, others, k)
    ensures AllKeyed(rows + more, l) && AllBacked(rows + more, samples + others, k)
  {
    hide Keyed, Backed;
  }

  lemma {:induction false} LinesBacked(files: seq<ParsedCsv>, l: Layout, k: Field)
    requires Admitted(l) && k in MEASURED && forall i :: 0 <= i < |files| ==> files[i].Valid()
    ensures AllKeyed(LineRows(files), l) && AllBacked(LineRows(files), Singles(AllMeasured(files, k)), k)
  {
    if files == [] {
    } else {
      hide AllKeyed, AllBacked, Admitted, Singles, FileLines, Measured;
      var front, last := files[..|files| - 1], files[|files| - 1];
      LinesBacked(front, l, k);
      FileLinesBacked(last, l, k);
      BackedAppend(LineRows(front), Singles(AllMeasured(front, k)), FileLines(last), Singles(Measured(last, k)), l, k);
      SinglesAppend(AllMeasured(front, k), Measured(last, k));
    }
  }

  /** Appending the records of one file to the list. */
  method AppendAll(rows: seq<Record>, lines: seq<Record>) returns (all: seq<Record>)
    ensures all == rows + lines
  {
    all := rows;
    for i := 0 to |lines|
      invariant all == rows + lines[..i]
    {
      all := all + [lines[i]];
    }
  }

  /** The loop over the files when time is on the x axis. */
  method CollectLines(files: seq<ParsedCsv>, l: Layout) returns (rows: seq<Record>)
    requires Admitted(l) && Parsed(files)
    ensures rows == LineRows(files)
    ensures AllKeyed(rows, l)
    ensures forall k :: k in MEASURED ==> AllBacked(rows, Singles(AllMeasured(files, k)), k)
  {
    hide Admitted, AllKeyed, AllBacked, AllMeasured;
    rows := [];
    for n := 0 to |files|
      invariant rows == LineRows(files[..n])
    {
      assert files[..n + 1][..n] == files[..n];
      var lines := files[n].SplitCsv();
      assert lines == FileLines(files[n]);
      rows := AppendAll(rows, lines);
    }
    assert files[..|files|] == files;
    assert Cpu in MEASURED;
    forall k | k in MEASURED ensures AllKeyed(rows, l) && AllBacked(rows, Singles(AllMeasured(files, k)), k) {
      LinesBacked(files, l, k);
    }
  }

  // ----- The plotted value -----

  /** All measurements behind the rows of one group, in order. */
  function GroupSamples(rows: seq<Record>, samples: seq<seq<real>>, l: Layout, group: Value, v: Value): seq<real> {
    if rows == [] || |samples| != |rows| then []
    else
      var last := |rows| - 1;
      GroupSamples(rows[..last], samples[..last], l, group, v)
      + if Member(rows[last], l, group, v) then samples[last] else []
  }

  ghost predicate AllBacked(rows: seq<Record>, samples: seq<seq<real>>, k: Field) {
    |samples| == |rows| && forall i :: 0 <= i < |rows| ==> Backed(rows[i], samples[i], k)
  }

  lemma BackedFront(rows: seq<Record>, samples: seq<seq<real>>, k: Field)
    requires AllBacked(rows, samples, k) && rows != []
    ensures AllBacked(rows[..|rows| - 1], samples[..|rows| - 1], k) && Backed(rows[|rows| - 1], samples[|rows| - 1], k)
  {
  }

  lemma GroupNext(rows: seq<Record>, samples: seq<seq<real>>, l: Layout, group: Value, v: Value, k: Field)
    requires AllBacked(rows, samples, k) && rows != []
    ensures var last := |rows| - 1;
            var kept := if Member(rows[last], l, group, v) then samples[last] else [];
            && GroupSamples(rows, samples, l, group, v)
               == GroupSamples(rows[..last], samples[..last], l, group, v) + kept
            && FieldSum(rows, l, group, v, k) == FieldSum(rows[..last], l, group, v, k) + Sum(kept)
            && FieldSum(rows, l, group, v, NumExperiments)
               == FieldSum(rows[..last], l, group, v, NumExperiments) + |kept| as real
  {
  }

  lemma {:induction false} SumsOfSamples(rows: seq<Record>, samples: seq<seq<real>>, l: Layout, group: Value,
      v: Value, k: Field)
    requires AllBacked(rows, samples, k)
    ensures FieldSum(rows, l, group, v, k) == Sum(GroupSamples(rows, samples, l, group, v))
    ensures FieldSum(rows, l, group, v, NumExperiments) == |GroupSamples(rows, samples, l, group, v)| as real
  {
    if rows == [] {
      assert GroupSamples(rows, samples, l, group, v) == [];
    } else {
      hide *;
      var last := |rows| - 1;
      BackedFront(rows, samples, k);
      SumsOfSamples(rows[..last], samples[..last], l, group, v, k);
      GroupNext(rows, samples, l, group, v, k);
      var kept := if Member(rows[last], l, group, v) then samples[last] else [];
      SumAppend(GroupSamples(rows[..last], samples[..last], l, group, v), kept);
      assert FieldSum(rows, l, group, v, k) == Sum(GroupSamples(rows, samples, l, group, v));
      assert FieldSum(rows, l, group, v, NumExperiments) == |GroupSamples(rows, samples, l, group, v)| as real;
    }
  }

  datatype Plotted = Point(y: real) | DivisionByZero

  /** The averaging entries of `get_plot_data`; the unit is 1 or 1024. */
  function PlotValue(cell: Record, k: Field, unit: real): Plotted
    requires unit > 0.0 && k in cell && cell[k].Number?
    requires NumExperiments in cell ==> cell[NumExperiments].Number?
  {
    var n := if NumExperiments in cell then cell[NumExperiments].value else 1.0;
    if n == 0.0 then DivisionByZero else Point(cell[k].value / unit / n)
  }

  /** The plotted value of a group is the arithmetic mean, up to the unit, of all measurements behind it,
      whether its rows are single lines or whole files; only a group without any measurement, made of
      files of a single line, divides by zero. */
  lemma PlotIsMean(rows: seq<Record>, samples: seq<seq<real>>, l: Layout, group: Value, v: Value, k: Field, unit: real)
    requires AllKeyed(rows, l) && AllBacked(rows, samples, k) && k !in UNCOUNTABLE && unit > 0.0
    requires SomeRow(rows, l, group, v, k)
    ensures var all := GroupSamples(rows, samples, l, group, v);
            var cell := Cell(Organized(rows, l), group, v);
            && k in cell && NumExperiments in cell && cell[k].Number? && cell[NumExperiments].Number?
            && PlotValue(cell, k, unit) == if all == [] then DivisionByZero else Point(Mean(all) / unit)
  {
    var all := GroupSamples(rows, samples, l, group, v);
    SomeRowExists(rows, l, group, v, k);
    SomeRowExists(rows, l, group, v, NumExperiments);
    var i :| 0 <= i < |rows| && Has(rows[i], l, group, v, k);
    assert Has(rows[i], l, group, v, NumExperiments);
    hide Organized, Cell, FieldSum, GroupSamples, Sum, SomeRow, AllKeyed, Backed;
    SumsOfSamples(rows, samples, l, group, v, k);
    CellIsSum(rows, l, group, v, k);
    CellIsSum(rows, l, group, v, NumExperiments);
    if all != [] {
      SwapDivisions(Sum(all), unit, |all| as real);
    }
  }

  lemma SwapDivisions(s: real, a: real, b: real)
    requires a > 0.0 && b > 0.0
    ensures s / a / b == s / b / a
  {
  }

  lemma {:induction false} NoSamples(rows: seq<Record>, samples: seq<seq<real>>, l: Layout, group: Value, v: Value)
    requires |samples| == |rows|
    ensures GroupSamples(rows, samples, l, group, v) == []
      <==> forall i :: 0 <= i < |rows| && Member(rows[i], l, group, v) ==> samples[i] == []
  {
    hide Member;
    if rows == [] {
    } else {
      var last := |rows| - 1;
      NoSamples(rows[..last], samples[..last], l, group, v);
      assert forall i :: 0 <= i < last ==> rows[..last][i] == rows[i] && samples[..last][i] == samples[i];
    }
  }

  /** The plot has a value for the cell, and computing it divides by zero. */
  predicate DividesByZero(cell: Record, k: Field, unit: real)
    requires unit > 0.0
  {
    && k in cell && cell[k].Number? && (NumExperiments in cell ==> cell[NumExperiments].Number?)
    && PlotValue(cell, k, unit) == DivisionByZero
  }

  /** A cell divides by zero exactly when there are rows for it and none of them stands for any measurement. */
  lemma DividesByZeroExactly(rows: seq<Record>, samples: seq<seq<real>>, l: Layout, group: Value, v: Value, k: Field,
      unit: real)
    requires AllKeyed(rows, l) && AllBacked(rows, samples, k) && k !in UNCOUNTABLE && unit > 0.0
    ensures DividesByZero(Cell(Organized(rows, l), group, v), k, unit) <==>
              && SomeRow(rows, l, group, v, k)
              && forall i :: 0 <= i < |rows| && Member(rows[i], l, group, v) ==> samples[i] == []
  {
    hide Organized, Cell, FieldSum, GroupSamples, SomeRow, AllKeyed, Backed, Mean;
    CellIsSum(rows, l, group, v, k);
    if SomeRow(rows, l, group, v, k) {
      PlotIsMean(rows, samples, l, group, v, k, unit);
      NoSamples(rows, samples, l, group, v);
    }
  }

  /** The cell is plotted as the mean of these measurements, up to the unit; without any it divides by zero. */
  predicate PlotsMean(cell: Record, k: Field, unit: real, samples: seq<real>)
    requires unit > 0.0
  {
    && k in cell && cell[k].Number? && NumExperiments in cell && cell[NumExperiments].Number?
    && PlotValue(cell, k, unit) == if samples == [] then DivisionByZero else Point(Mean(samples) / unit)
  }

  /** Every cell that has rows is plotted as the mean of the measurements behind these. */
  ghost predicate MeansPlotted(groups: Groups, rows: seq<Record>, samples: seq<seq<real>>, l: Layout, k: Field) {
    forall group, v, unit: real :: unit > 0.0 && SomeRow(rows, l, group, v, k) ==>
      PlotsMean(Cell(groups, group, v), k, unit, GroupSamples(rows, samples, l, group, v))
  }

  lemma AllPlotted(rows: seq<Record>, samples: seq<seq<real>>, l: Layout, k: Field)
    requires AllKeyed(rows, l) && AllBacked(rows, samples, k) && k in MEASURED
    ensures MeansPlotted(Organized(rows, l), rows, samples, l, k)
  {
    hide Organized, Cell, GroupSamples, PlotValue, Mean, SomeRow, AllKeyed, AllBacked;
    forall group, v, unit: real | unit > 0.0 && SomeRow(rows, l, group, v, k)
      ensures PlotsMean(Cell(Organized(rows, l), group, v), k, unit, GroupSamples(rows, samples, l, group, v))
    {
      PlotIsMean(rows, samples, l, group, v, k, unit);
    }
  }

  /** A value divides by zero exactly in the cells of which every file has a single line. */
  ghost predicate DividesExactly(groups: Groups, rows: seq<Record>, lengths: seq<nat>, l: Layout, k: Field) {
    && |rows| == |lengths|
    && forall group, v, unit: real :: unit > 0.0 ==>
         (DividesByZero(Cell(groups, group, v), k, unit) <==>
           && SomeRow(rows, l, group, v, k)
           && forall i :: 0 <= i < |rows| && Member(rows[i], l, group, v) ==> lengths[i] == 1)
  }

  lemma AllDivide(rows: seq<Record>, tails: seq<seq<real>>, lengths: seq<nat>, l: Layout, k: Field)
    requires AllKeyed(rows, l) && AllBacked(rows, tails, k) && k in MEASURED && |lengths| == |rows| == |tails|
    requires forall i :: 0 <= i < |rows| ==> (tails[i] == [] <==> lengths[i] == 1)
    ensures DividesExactly(Organized(rows, l), rows, lengths, l, k)
  {
    hide Organized, Cell, DividesByZero, Member, SomeRow, AllKeyed, AllBacked;
    forall group, v, unit: real | unit > 0.0
      ensures DividesByZero(Cell(Organized(rows, l), group, v), k, unit) <==>
                && SomeRow(rows, l, group, v, k)
                && forall i :: 0 <= i < |rows| && Member(rows[i], l, group, v) ==> lengths[i] == 1
    {
      DividesByZeroExactly(rows, tails, l, group, v, k, unit);
    }
  }

  /** From the files to the plot when time is not on the x axis: each file belongs to the cell that it names, every
      value is the mean of the lines after the first of all files of its cell, and computing it divides by zero
      exactly when each of them has a single line. */
  method PlotFiles(files: seq<ParsedCsv>, l: Layout) returns (groups: Groups, rows: seq<Record>)
    requires Admitted(l) && Parsed(files)
    modifies files
    ensures rows == old(FileRows(files)) && AllKeyed(rows, l) && groups == Organized(rows, l)
    ensures FromOrigins(rows, old(FileOrigins(files))) && CellsNamed(rows, old(FileOrigins(files)), l)
    ensures forall k :: k in MEASURED ==> MeansPlotted(groups, rows, old(Tails(files, k)), l, k)
    ensures forall k :: k in MEASURED ==> DividesExactly(groups, rows, old(Lengths(files)), l, k)
  {
    hide Organized, MeansPlotted, DividesExactly, FromOrigins, CellsNamed, AllKeyed, AllBacked, Admitted, FileRow;
    ghost var origins, lengths := FileOrigins(files), Lengths(files);
    ghost var tails := map k | k in MEASURED :: Tails(files, k);
    forall k | k in MEASURED
      ensures forall i :: 0 <= i < |files| ==> (tails[k][i] == [] <==> lengths[i] == 1)
      ensures FromOrigins(FileRows(files), origins)
    {
      FilesBacked(files, l, k);
    }
    assert Cpu in MEASURED;
    rows := CollectFiles(files, l);
    CellsOfRows(rows, origins, l);
    groups := OrganizeData(rows, l);
    forall k | k in MEASURED
      ensures MeansPlotted(groups, rows, tails[k], l, k) && DividesExactly(groups, rows, lengths, l, k)
    {
      AllPlotted(rows, tails[k], l, k);
      AllDivide(rows, tails[k], lengths, l, k);
    }
  }

  lemma SampledCell(rows: seq<Record>, xs: seq<real>, l: Layout, group: Value, v: Value, k: Field, unit: real)
    requires AllKeyed(rows, l) && AllBacked(rows, Singles(xs), k) && k in MEASURED && unit > 0.0
    ensures !DividesByZero(Cell(Organized(rows, l), group, v), k, unit)
  {
    hide Organized, Cell, DividesByZero, SomeRow, Member, AllKeyed;
    DividesByZeroExactly(rows, Singles(xs), l, group, v, k, unit);
    SomeRowExists(rows, l, group, v, k);
  }

  /** From the files to the plot when time is on the x axis: every value is the mean of all lines of all files in
      its cell, and never divides by zero. */
  method PlotLines(files: seq<ParsedCsv>, l: Layout) returns (groups: Groups, rows: seq<Record>)
    requires Admitted(l) && Parsed(files)
    ensures rows == LineRows(files) && AllKeyed(rows, l) && groups == Organized(rows, l)
    ensures FromOrigins(rows, Origins(files)) && CellsNamed(rows, Origins(files), l)
    ensures forall k :: k in MEASURED ==> MeansPlotted(groups, rows, Singles(AllMeasured(files, k)), l, k)
    ensures forall group, v, k, unit: real :: unit > 0.0 && k in MEASURED ==>
              !DividesByZero(Cell(groups, group, v), k, unit)
  {
    hide Organized, Cell, MeansPlotted, DividesByZero, AllKeyed, AllBacked, Admitted, AllMeasured, LineRows,
      FromOrigins, CellsNamed, Origins;
    rows := CollectLines(files, l);
    LinesFromFiles(files);
    CellsOfRows(rows, Origins(files), l);
    groups := OrganizeData(rows, l);
    forall k | k in MEASURED ensures MeansPlotted(groups, rows, Singles(AllMeasured(files, k)), l, k) {
      AllPlotted(rows, Singles(AllMeasured(files, k)), l, k);
    }
    forall group, v, k, unit: real | unit > 0.0 && k in MEASURED
      ensures !DividesByZero(Cell(groups, group, v), k, unit)
    {
      SampledCell(rows, AllMeasured(files, k), l, group, v, k, unit);
    }
  }
}
