/**
 * The table editing shared by the two chart blocks: a table is a list of rows
 * of cell strings, every edit builds a new table and hands it to the block's
 * `onChange`, and the block stores it with `JSON.stringify` and reads it back
 * with `JSON.parse`.
 */
module Tables {
  import opened Wrappers
  import opened JsArrays
  import opened JsonValues

  type Table = seq<seq<string>>

  /** Every row has `width` cells. */
  predicate Rectangular(t: Table, width: nat) {
    forall i :: 0 <= i < |t| ==> |t[i]| == width
  }

  /** `addRow`: the table with one more row at the end. */
  function AddRow(t: Table, row: seq<string>): (r: Table)
    ensures |r| == |t| + 1 && r[..|t|] == t && r[|t|] == row
  {
    t + [row]
  }

  /** `addColumn`: an empty cell at the end of every row. */
  function AddColumn(t: Table): (r: Table)
    ensures |r| == |t|
    ensures forall i :: 0 <= i < |t| ==> |r[i]| == |t[i]| + 1 && r[i][..|t[i]|] == t[i] && r[i][|t[i]|] == ""
  {
    seq(|t|, i requires 0 <= i < |t| => t[i] + [""])
  }

  /** `deleteRow(index)`: a copy after `splice(index, 1)`. */
  function DeleteRow(t: Table, index: int): (r: Table)
    ensures 0 <= index < |t| ==> |r| == |t| - 1 && r == Delete(t, index)
    ensures index >= |t| || |t| == 0 ==> r == t
    ensures -|t| <= index < 0 ==> r == Delete(t, |t| + index)
    ensures |t| > 0 && index < -|t| ==> r == Delete(t, 0)
  {
    SpliceOne(t, index)
  }

  /** `deleteColumn(index)`: every row loses the cell `splice(index, 1)` picks in it. */
  function DeleteColumn(t: Table, index: int): (r: Table)
    ensures |r| == |t|
    ensures forall i :: 0 <= i < |t| ==> r[i] == SpliceOne(t[i], index)
  {
    seq(|t|, i requires 0 <= i < |t| => SpliceOne(t[i], index))
  }

  /** `handleDataChange(row, cell, value)`: the cell at (row, cell) becomes `value`. */
  function SetCell(t: Table, row: int, cell: int, value: string): (r: Table)
    ensures |r| == |t| && forall i :: 0 <= i < |t| ==> |r[i]| == |t[i]|
    ensures forall i, j :: 0 <= i < |t| && 0 <= j < |t[i]| ==>
      r[i][j] == if i == row && j == cell then value else t[i][j]
  {
    seq(|t|, i requires 0 <= i < |t| =>
      if i == row then seq(|t[i]|, j requires 0 <= j < |t[i]| => if j == cell then value else t[i][j]) else t[i])
  }

  /** Adding a row and deleting the last one gives the table back. */
  lemma DeleteAddedRow(t: Table, row: seq<string>)
    ensures DeleteRow(AddRow(t, row), |t|) == t
  {
  }

  /** Adding a column and deleting the cell after the old last of a rectangular table gives it back. */
  lemma DeleteAddedColumn(t: Table, width: nat)
    requires Rectangular(t, width)
    ensures Rectangular(AddColumn(t), width + 1)
    ensures DeleteColumn(AddColumn(t), width) == t
  {
    var r := DeleteColumn(AddColumn(t), width);
    forall i | 0 <= i < |t| ensures r[i] == t[i] {
      assert AddColumn(t)[i][..width] == t[i];
    }
  }

  /** Setting a cell twice keeps the second value; setting it to its own value changes nothing. */
  lemma SetCellTwice(t: Table, row: int, cell: int, v1: string, v2: string)
    ensures SetCell(SetCell(t, row, cell, v1), row, cell, v2) == SetCell(t, row, cell, v2)
    ensures 0 <= row < |t| && 0 <= cell < |t[row]| ==> SetCell(t, row, cell, t[row][cell]) == t
  {
    var a := SetCell(SetCell(t, row, cell, v1), row, cell, v2);
    var b := SetCell(t, row, cell, v2);
    assert forall i :: 0 <= i < |t| ==> a[i] == b[i];
    if 0 <= row < |t| && 0 <= cell < |t[row]| {
      var c := SetCell(t, row, cell, t[row][cell]);
      assert forall i :: 0 <= i < |t| ==> c[i] == t[i];
    }
  }

  // ---------------------------------------------------------------------------
  // Storage as JSON

  function RowToJson(row: seq<string>): (j: seq<Json>)
    ensures |j| == |row| && forall k :: 0 <= k < |row| ==> j[k] == JString(row[k])
  {
    seq(|row|, k requires 0 <= k < |row| => JString(row[k]))
  }

  /** `JSON.stringify(tableData)`, as a value: an array of arrays of strings. */
  function TableToJson(t: Table): (j: Json)
    ensures j.JArray? && |j.items| == |t|
    ensures forall i :: 0 <= i < |t| ==> j.items[i] == JArray(RowToJson(t[i]))
  {
    JArray(seq(|t|, i requires 0 <= i < |t| => JArray(RowToJson(t[i]))))
  }

  function RowFromJson(items: seq<Json>): Option<seq<string>> {
    if |items| == 0 then Some([])
    else
      match (items[0], RowFromJson(items[1..]))
      case (JString(s), Some(rest)) => Some([s] + rest)
      case _ => None
  }

  function RowsFromJson(items: seq<Json>): Option<Table> {
    if |items| == 0 then Some([])
    else
      match (items[0], RowsFromJson(items[1..]))
      case (JArray(cells), Some(rest)) =>
        (match RowFromJson(cells)
         case Some(row) => Some([row] + rest)
         case None => None)
      case _ => None
  }

  /** `JSON.parse(tableData)` read as a table; `None` for a value of another shape. */
  function TableFromJson(j: Json): Option<Table> {
    match j
    case JArray(items) => RowsFromJson(items)
    case _ => None
  }

  lemma {:induction false} RowRoundTrip(row: seq<string>)
    ensures RowFromJson(RowToJson(row)) == Some(row)
  {
    if |row| > 0 {
      assert RowToJson(row)[1..] == RowToJson(row[1..]);
      RowRoundTrip(row[1..]);
      assert row == [row[0]] + row[1..];
    }
  }

  lemma {:induction false} RowsRoundTrip(t: Table)
    ensures RowsFromJson(TableToJson(t).items) == Some(t)
  {
    if |t| > 0 {
      assert TableToJson(t).items[1..] == TableToJson(t[1..]).items;
      RowRoundTrip(t[0]);
      RowsRoundTrip(t[1..]);
      assert t == [t[0]] + t[1..];
    }
  }

  /** A stored table reads back as the same table. */
  lemma TableRoundTrip(t: Table)
    ensures TableFromJson(TableToJson(t)) == Some(t)
  {
    RowsRoundTrip(t);
  }

  // ---------------------------------------------------------------------------
  // The block holding a table

  /** A chart block as the editor stores it: its type, its `name` prop and its `tableData` prop. */
  datatype TableBlock = TableBlock(kind: string, name: string, tableData: Json)

  /** The table a block renders: `JSON.parse(block.props.tableData)`. */
  function Rendered(b: TableBlock): Option<Table> {
    TableFromJson(b.tableData)
  }

  /**
   * The `onChange` both chart blocks pass: the block is updated to type
   * "chart" with the given name and the stringified table.
   */
  function OnChange(b: TableBlock, name: string, t: Table): (r: TableBlock)
    ensures r.kind == "chart" && r.name == name
    ensures Rendered(r) == Some(t)
  {
    TableRoundTrip(t);
    TableBlock("chart", name, TableToJson(t))
  }
}
