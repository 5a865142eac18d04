/**
 * The table row: it pairs its record with each column definition, giving
 * one cell definition per column.
 */
module TableRow {
  import opened Js
  import opened TableColumnDefinition

  /** A cell definition: the record, the property it shows, and how. */
  datatype CellDef<R> = CellDef(record: R, displayProperty: string,
                                displayType: Option<string>, displayFormat: Option<string>)

  /** The cell definition for one column of a record. */
  function CellFor<R>(record: R, field: ColumnDef): CellDef<R>
  {
    CellDef(record, field.modelProperty, field.displayType, field.displayFormat)
  }

  /** `cells`: one cell per column, in column order, each showing that
      column's property of the row's record the way the column says. */
  function Cells<R>(record: R, fields: seq<ColumnDef>): (cells: seq<CellDef<R>>)
    ensures |cells| == |fields|
    ensures forall i :: 0 <= i < |fields| ==>
      && cells[i].record == record
      && cells[i].displayProperty == fields[i].modelProperty
      && cells[i].displayType == fields[i].displayType
      && cells[i].displayFormat == fields[i].displayFormat
  {
    if fields == [] then [] else [CellFor(record, fields[0])] + Cells(record, fields[1..])
  }

  /** Mapping the columns of two tables side by side gives the cells of
      each, side by side. */
  lemma {:induction false} CellsAppend<R>(record: R, left: seq<ColumnDef>, right: seq<ColumnDef>)
    ensures Cells(record, left + right) == Cells(record, left) + Cells(record, right)
  {
    var whole := Cells(record, left + right);
    var parts := Cells(record, left) + Cells(record, right);
    assert |whole| == |parts|;
    forall i | 0 <= i < |whole|
      ensures whole[i] == parts[i]
    {
      if i < |left| {
        assert (left + right)[i] == left[i];
      } else {
        assert (left + right)[i] == right[i - |left|];
      }
    }
  }

  /** A row depends on its columns only through their properties, types
      and formats: columns that agree on those give the same cells. */
  lemma {:induction false} CellsDependOnDisplaySettings<R>(record: R, a: seq<ColumnDef>, b: seq<ColumnDef>)
    requires |a| == |b|
    requires forall i :: 0 <= i < |a| ==>
      a[i].modelProperty == b[i].modelProperty && a[i].displayType == b[i].displayType
      && a[i].displayFormat == b[i].displayFormat
    ensures Cells(record, a) == Cells(record, b)
  {
    var ca := Cells(record, a);
    var cb := Cells(record, b);
    forall i | 0 <= i < |ca|
      ensures ca[i] == cb[i]
    {
    }
  }
}
