/**
 * The chart block: a table with add-row, add-column, delete-last-row and
 * delete-last-column buttons and editable cells, stored in the block's props.
 */
module ChartBlock {
  import opened Wrappers
  import opened JsArrays
  import opened JsonValues
  import opened Tables

  /** `getDefaultTableData`: a header row of three names, then one empty row. */
  function DefaultTableData(): (t: Table)
    ensures |t| == 2 && Rectangular(t, 3)
    ensures t[0] == ["First Name", "Second Name", "Third Name"]
    ensures forall j :: 0 <= j < 3 ==> t[1][j] == ""
  {
    [["First Name", "Second Name", "Third Name"], ["", "", ""]]
  }

  /** `addRow`: always three empty cells, whatever the table's width. */
  function ChartAddRow(t: Table): (r: Table)
    ensures |r| == |t| + 1 && r[..|t|] == t
    ensures |r[|t|]| == 3 && forall j :: 0 <= j < 3 ==> r[|t|][j] == ""
  {
    AddRow(t, ["", "", ""])
  }

  /** Adding a row to a table of another width breaks its rectangular shape. */
  lemma AddRowBreaksShape(t: Table, width: nat)
    requires |t| > 0 && Rectangular(t, width) && width != 3
    ensures !Rectangular(ChartAddRow(t), width)
  {
    assert |ChartAddRow(t)[|t|]| == 3;
  }

  /** "Delete Last Row": `deleteRow(tableData.length - 1)`; on an empty table nothing happens. */
  function DeleteLastRow(t: Table): (r: Table)
    ensures |t| > 0 ==> r == t[..|t| - 1]
    ensures |t| == 0 ==> r == []
  {
    DeleteRow(t, |t| - 1)
  }

  /**
   * "Delete Last Column": `deleteColumn(tableData[0].length - 1)`. The first
   * row's width picks the index for every row; with no first row the click
   * throws, modelled as `None`. On a ragged table a longer row loses the cell
   * at that index, a shorter row is unchanged, and when the first row is empty
   * the index is -1, so every non-empty row loses its last cell.
   */
  function DeleteLastColumn(t: Table): (r: Option<Table>)
    ensures r.None? <==> |t| == 0
    ensures r.Some? ==> |r.value| == |t|
    ensures r.Some? && |t[0]| > 0 ==> forall i :: 0 <= i < |t| && |t[i]| == |t[0]| ==> r.value[i] == t[i][..|t[0]| - 1]
    ensures r.Some? && |t[0]| > 0 ==> forall i :: 0 <= i < |t| && |t[i]| >= |t[0]| ==> r.value[i] == Delete(t[i], |t[0]| - 1)
    ensures r.Some? ==> forall i :: 0 <= i < |t| && |t[i]| < |t[0]| ==> r.value[i] == t[i]
    ensures r.Some? && |t[0]| == 0 ==> forall i :: 0 <= i < |t| && |t[i]| > 0 ==> r.value[i] == t[i][..|t[i]| - 1]
  {
    if |t| == 0 then None else Some(DeleteColumn(t, |t[0]| - 1))
  }

  /** On a rectangular table the last-column button undoes "Add Column". */
  lemma DeleteLastColumnUndoesAdd(t: Table, width: nat)
    requires |t| > 0 && Rectangular(t, width)
    ensures DeleteLastColumn(AddColumn(t)) == Some(t)
  {
    DeleteAddedColumn(t, width);
  }

  /** The block the slash menu inserts: type "chart", default name, default table. */
  function InsertChartBlock(): (b: TableBlock)
    ensures b.kind == "chart" && b.name == "chart block"
    ensures Rendered(b) == Some(DefaultTableData())
  {
    TableRoundTrip(DefaultTableData());
    TableBlock("chart", "chart block", TableToJson(DefaultTableData()))
  }
}
