/**
 * The table cell: which formatter the template renders, chosen by the
 * cell's display type.
 */
module TableCell {
  import opened Js

  /** `isDatetime`: the cell renders with the date formatter. It never
      holds for a number cell or a cell without a display type. */
  predicate IsDatetime(displayType: Option<string>): (r: bool)
    ensures r ==> displayType.Some? && displayType.value != "number"
    ensures displayType == Some("date") ==> r
  {
    displayType == Some("date")
  }

  /** `isNumber`: the cell renders with the number formatter. It never
      holds for a date cell or a cell without a display type. */
  predicate IsNumber(displayType: Option<string>): (r: bool)
    ensures r ==> displayType.Some? && displayType.value != "date"
    ensures displayType == Some("number") ==> r
  {
    displayType == Some("number")
  }

  /** At most one formatter applies, and any other or absent display type
      selects neither. */
  lemma FormatterChoice(displayType: Option<string>)
    ensures !(IsDatetime(displayType) && IsNumber(displayType))
    ensures displayType != Some("date") && displayType != Some("number") ==>
      !IsDatetime(displayType) && !IsNumber(displayType)
  {
    assert "date" != "number";
  }
}
