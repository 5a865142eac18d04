/**
 * The table component: the sort flags it puts on its column definitions,
 * the sort configuration it hands to the sorted data, the `tableSort`
 * action that toggles a column between ascending and descending, and the
 * filtered data it keeps.
 */
module TableComponent {
  import opened Js
  import opened TableColumnDefinition

  /** `tableConfig.sort[0]`: the sort key in force, absent when `sort` is
      falsy or holds no entry. */
  function CurrentSortKey(sort: Option<seq<string>>): (key: Option<string>)
    ensures key.Some? <==> sort.Some? && |sort.value| > 0
    ensures key.Some? ==> key.value == sort.value[0]
  {
    if sort.Some? && |sort.value| > 0 then Some(sort.value[0]) else None
  }

  /** The column with this model property is the ascending sort column. */
  predicate SortedAsc(sort: Option<seq<string>>, modelProperty: string)
  {
    CurrentSortKey(sort) == Some(modelProperty)
  }

  /** The column with this model property is the descending sort column. */
  predicate SortedDesc(sort: Option<seq<string>>, modelProperty: string)
  {
    CurrentSortKey(sort) == Some(modelProperty + ":desc")
  }

  /** No column is ever marked ascending and descending at once. */
  lemma FlagsExclusive(sort: Option<seq<string>>, modelProperty: string)
    ensures !(SortedAsc(sort, modelProperty) && SortedDesc(sort, modelProperty))
  {
    assert |modelProperty + ":desc"| != |modelProperty|;
  }

  /** `_defaultSortConfig`. */
  const DefaultSortConfig: seq<string> := [""]

  /** The key `tableSort` sorts a column on: date columns sort on the
      internal value of the moment object. */
  function SortKey(displayType: Option<string>, modelProperty: string): (key: string)
    ensures displayType == Some("date") ==> key == modelProperty + "._i"
    ensures displayType != Some("date") ==> key == modelProperty
  {
    if displayType == Some("date") then modelProperty + "._i" else modelProperty
  }

  /** Whether a click on the column with this key sorts ascending: when no
      sort is in force or another key is. */
  predicate SortsAscending(current: Option<seq<string>>, key: string)
  {
    CurrentSortKey(current) != Some(key)
  }

  /** The sort list `tableSort` sets for a click on the column with this key. */
  function NextSort(current: Option<seq<string>>, key: string): (next: seq<string>)
    ensures |next| == 1
    ensures SortsAscending(current, key) <==> next == [key]
    ensures !SortsAscending(current, key) <==> next == [key + ":desc"]
  {
    assert [key] != [key + ":desc"] by { assert |key| != |key + ":desc"|; }
    if SortsAscending(current, key) then [key] else [key + ":desc"]
  }

  /** Clicking the same column toggles ascending, descending, ascending. */
  lemma SortCycle(current: Option<seq<string>>, key: string)
    ensures var first := NextSort(current, key);
      var second := NextSort(Some(first), key);
      var third := NextSort(Some(second), key);
      second == (if first == [key] then [key + ":desc"] else [key]) && third == first
  {
    assert |key| != |key + ":desc"|;
  }

  /** For a column that is not date-typed, the flags `tableSort` sets are
      the flags the `fields` mapping computes from the new sort. */
  lemma ClickAgreesWithMapping(current: Option<seq<string>>, displayType: Option<string>, modelProperty: string)
    requires displayType != Some("date")
    ensures var key := SortKey(displayType, modelProperty);
      var next := Some(NextSort(current, key));
      && (SortedAsc(next, modelProperty) <==> SortsAscending(current, key))
      && (SortedDesc(next, modelProperty) <==> !SortsAscending(current, key))
  {
    assert |modelProperty| != |modelProperty + ":desc"|;
  }

  /** For a date column the sort key carries '._i', so the `fields` mapping
      marks the column neither ascending nor descending, whatever
      `tableSort` set on it. */
  lemma DateColumnUnmarkedByMapping(current: Option<seq<string>>, modelProperty: string)
    ensures var next := Some(NextSort(current, SortKey(Some("date"), modelProperty)));
      !SortedAsc(next, modelProperty) && !SortedDesc(next, modelProperty)
  {
    var key := modelProperty + "._i";
    assert |key| != |modelProperty| && |key| != |modelProperty + ":desc"|;
    assert |key + ":desc"| != |modelProperty| && |key + ":desc"| != |modelProperty + ":desc"|;
  }

  /** `colWidths`: the width class of each column, in column order. */
  function ColWidths(fields: seq<ColumnDef>): (widths: seq<Option<string>>)
    ensures |widths| == |fields|
    ensures forall i :: 0 <= i < |fields| ==> widths[i] == ColWidthCSSClass(fields[i].colWidth)
  {
    if fields == [] then [] else [ColWidthCSSClass(fields[0].colWidth)] + ColWidths(fields[1..])
  }

  /** A table over records of type R. `sort` is `tableConfig.sort`, absent
      when falsy; `filteredData` is absent when undefined. */
  class Table<R> {
    var sort: Option<seq<string>>
    var fields: seq<ColumnDef>
    var data: seq<R>
    var filterText: JsValue
    var filteredData: Option<seq<R>>

    /** A new table, on which `setFilteredData` runs once at init: with no
        filter text yet, the filtered data is the whole data set. */
    constructor(sort: Option<seq<string>>, fields: seq<ColumnDef>, data: seq<R>)
      ensures this.sort == sort && this.fields == fields && this.data == data
      ensures filterText == Undefined && filteredData == Some(data)
    {
      this.sort := sort;
      this.fields := fields;
      this.data := data;
      filterText := Undefined;
      filteredData := None;
      new;
      SetFilteredData();
    }

    /** `sortConfig`: the sort passed in when truthy, else the default. */
    function SortConfig(): (config: seq<string>)
      reads this
      ensures sort.Some? ==> config == sort.value
      ensures sort.None? ==> config == DefaultSortConfig
    {
      if sort.Some? then sort.value else DefaultSortConfig
    }

    /** The `fields` mapping: marks each column ascending or descending to
        match the sort in force, and returns the columns themselves. */
    method MarkSortFlags()
      modifies set f | f in fields
      ensures forall i :: 0 <= i < |fields| ==>
        fields[i].isSortedAsc == SortedAsc(sort, fields[i].modelProperty) &&
        fields[i].isSortedDesc == SortedDesc(sort, fields[i].modelProperty)
    {
      var key := if sort.Some? && |sort.value| > 0 then Some(sort.value[0]) else None;
      for i := 0 to |fields|
        invariant forall j :: 0 <= j < i ==>
          fields[j].isSortedAsc == SortedAsc(sort, fields[j].modelProperty) &&
          fields[j].isSortedDesc == SortedDesc(sort, fields[j].modelProperty)
      {
        var field := fields[i];
        field.isSortedAsc := key == Some(field.modelProperty);
        field.isSortedDesc := key == Some(field.modelProperty + ":desc");
      }
    }

    /** The `tableSort` action for a click on a column header. The clicked
        column is normally one of `fields`; one that is not keeps its other
        flag, since only `fields` are cleared. */
    method TableSort(fieldDef: ColumnDef)
      modifies this`sort, fieldDef, set f | f in fields
      ensures var key := SortKey(fieldDef.displayType, fieldDef.modelProperty);
        && sort == Some(NextSort(old(sort), key))
        && fieldDef.isSortedAsc == (SortsAscending(old(sort), key) || (fieldDef !in fields && old(fieldDef.isSortedAsc)))
        && fieldDef.isSortedDesc == (!SortsAscending(old(sort), key) || (fieldDef !in fields && old(fieldDef.isSortedDesc)))
      ensures forall f :: f in fields && f != fieldDef ==> !f.isSortedAsc && !f.isSortedDesc
    {
      var currentSort := sort;
      var fieldName := fieldDef.modelProperty;
      for i := 0 to |fields|
        invariant forall j :: 0 <= j < i ==> !fields[j].isSortedAsc && !fields[j].isSortedDesc
        invariant fieldDef !in fields ==> unchanged(fieldDef)
      {
        fields[i].isSortedAsc := false;
        fields[i].isSortedDesc := false;
      }
      if fieldDef.displayType == Some("date") {
        fieldName := fieldName + "._i";
      }
      if currentSort.None? || |currentSort.value| == 0 || currentSort.value[0] != fieldName {
        sort := Some([fieldName]);
        fieldDef.isSortedAsc := true;
      } else {
        sort := Some([fieldName + ":desc"]);
        fieldDef.isSortedDesc := true;
      }
    }

    /** `setFilteredData`: the whole data set without filter text. With
        filter text the filtering is not written yet and the result is
        undefined. */
    method SetFilteredData()
      modifies this`filteredData
      ensures !Truthy(filterText) ==> filteredData == Some(data)
      ensures Truthy(filterText) ==> filteredData == None
    {
      var filtered: Option<seq<R>> := None;
      if !Truthy(filterText) {
        filtered := Some(data);
      }
      filteredData := filtered;
    }
  }

  /** After a click the sort configuration is the single key of the clicked
      column, ascending or descending. */
  lemma SortConfigAfterClick(current: Option<seq<string>>, key: string)
    ensures var next := NextSort(current, key);
      |next| == 1 && (next[0] == key || next[0] == key + ":desc")
  {
  }
}
