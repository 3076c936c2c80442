/**
 * The pie chart block: a two-column table of labels and values with per-row
 * delete buttons, an add-row button and a button converting the block into a
 * rendered pie chart; in preview everything is read-only.
 */
module PieChartBlock {
  import opened Wrappers
  import opened JsArrays
  import opened JsonValues
  import opened Tables
  import opened JsNumbers

  /** `getDefaultTableData`: three labelled rows with empty values. */
  function DefaultTableData(): (t: Table)
    ensures |t| == 3 && Rectangular(t, 2)
    ensures t[0][0] == "First Name" && t[1][0] == "Second Name" && t[2][0] == "Third Name"
    ensures forall i :: 0 <= i < 3 ==> t[i][1] == ""
  {
    [["First Name", ""], ["Second Name", ""], ["Third Name", ""]]
  }

  /** `addRow`: exactly `["", ""]` at the end. */
  function PieAddRow(t: Table): (r: Table)
    ensures |r| == |t| + 1 && r[..|t|] == t && r[|t|] == ["", ""]
  {
    AddRow(t, ["", ""])
  }

  /** Adding a row keeps a two-column table two columns wide. */
  lemma PieAddRowKeepsShape(t: Table)
    requires Rectangular(t, 2)
    ensures Rectangular(PieAddRow(t), 2)
  {
  }

  /** The minus button of row `i` deletes that row and keeps the others in order. */
  lemma DeleteRowButton(t: Table, i: nat)
    requires i < |t|
    ensures var r := DeleteRow(t, i);
      |r| == |t| - 1 && r[..i] == t[..i] && r[i..] == t[i + 1..]
  {
  }

  /** "Convert to chart": only the block's type changes, to "piechart". */
  function OnChartCreated(b: TableBlock): (r: TableBlock)
    ensures r.kind == "piechart"
    ensures r.name == b.name && Rendered(r) == Rendered(b)
  {
    b.(kind := "piechart")
  }

  /** What the block shows as editable. */
  datatype Controls = Controls(inputsDisabled: bool, rowDeleteShown: bool, addRowShown: bool, convertShown: bool)

  /** In preview the inputs are disabled and the row, add and convert buttons are hidden. */
  function ControlsFor(preview: bool): (c: Controls)
    ensures c.inputsDisabled <==> preview
    ensures c.rowDeleteShown <==> !preview
    ensures c.addRowShown <==> !preview
    ensures c.convertShown <==> !preview
  {
    Controls(preview, !preview, !preview, !preview)
  }

  /** A block inserted with an explicit id. */
  datatype InsertedBlock = InsertedBlock(id: string, block: TableBlock)

  /**
   * The block the slash menu inserts: type "chart" with the default pie table,
   * and as its id the decimal text of the clock reading `now` (`Date.now()`),
   * which reads back as `now`, so insertions at different times get
   * different ids.
   */
  function InsertPieChartBlock(now: nat): (r: InsertedBlock)
    ensures ToNumber(r.id) == Num(now)
    ensures r.block.kind == "chart" && r.block.name == "chart block"
    ensures Rendered(r.block) == Some(DefaultTableData())
  {
    TableRoundTrip(DefaultTableData());
    ToNumberRoundTrip(now);
    InsertedBlock(DecimalString(now), TableBlock("chart", "chart block", TableToJson(DefaultTableData())))
  }
}
