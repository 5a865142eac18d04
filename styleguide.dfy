/**
 * The styleguide page: its controller, which highlights button rows and
 * labels the data toggle, and its route, which switches between the two
 * mock data sets.
 */
module Styleguide {
  import opened Js

  /** The CSS class of a button row. The misspelling 'hightlight' is the
      class name the stylesheet is written against. */
  function RowClass(row: string, isRowHighlighted: bool): (cssClass: string)
    ensures isRowHighlighted ==> cssClass == row + "-button-row-hightlight"
    ensures !isRowHighlighted ==> cssClass == row + "-button-row"
  {
    if isRowHighlighted then row + "-button-row-hightlight" else row + "-button-row"
  }

  /** The label of a button row's action. */
  function RowActionName(isRowHighlighted: bool): (name: string)
    ensures name == "Remove" <==> isRowHighlighted
    ensures name == "Add" <==> !isRowHighlighted
  {
    if isRowHighlighted then "Remove" else "Add"
  }

  /** The name of the controller property that holds a row's highlight. */
  function HighlightProperty(row: string): string
  {
    "is" + Capitalize(row) + "RowHighlighted"
  }

  /** The rows of the page. */
  const Rows: seq<string> := ["save", "cancel", "delete"]

  /** `table1DataAction`: the label of the data toggle. */
  function Table1DataAction(mockDataset: JsValue): (actionLabel: string)
    ensures actionLabel == "Update" <==> mockDataset == Str("set1")
    ensures actionLabel == "Restore" <==> mockDataset != Str("set1")
  {
    if mockDataset == Str("set1") then "Update" else "Restore"
  }

  /** A property `toggleProperty` has not seen reads as false. */
  function Highlighted(properties: map<string, bool>, property: string): bool
  {
    property in properties && properties[property]
  }

  class StyleguideController {
    /** The controller's boolean properties by name; it starts with the
        three row highlights. */
    var properties: map<string, bool>
    var mockDataset: JsValue

    constructor()
      ensures forall row :: row in Rows ==> HighlightProperty(row) in properties && !properties[HighlightProperty(row)]
      ensures mockDataset == Undefined
    {
      properties := map["isSaveRowHighlighted" := false, "isCancelRowHighlighted" := false,
                         "isDeleteRowHighlighted" := false];
      mockDataset := Undefined;
      SaveCancelDeleteProperties();
    }

    /** The CSS class of a row (`saveRowClass`, `cancelRowClass`, `deleteRowClass`). */
    function RowClassOf(row: string): (cssClass: string)
      reads this
      ensures Highlighted(properties, HighlightProperty(row)) ==> cssClass == row + "-button-row-hightlight"
      ensures !Highlighted(properties, HighlightProperty(row)) ==> cssClass == row + "-button-row"
    {
      RowClass(row, Highlighted(properties, HighlightProperty(row)))
    }

    /** The action label of a row (`saveRowActionName` and the others). */
    function RowActionNameOf(row: string): (name: string)
      reads this
      ensures name == "Remove" <==> Highlighted(properties, HighlightProperty(row))
    {
      RowActionName(Highlighted(properties, HighlightProperty(row)))
    }

    /** `updateRowBackground`: flips the highlight of one row and no other
        property. */
    method UpdateRowBackground(row: string)
      modifies this`properties
      ensures properties == old(properties)[HighlightProperty(row) := !Highlighted(old(properties), HighlightProperty(row))]
    {
      var property := "is" + Capitalize(row) + "RowHighlighted";
      var current := property in properties && properties[property];
      properties := properties[property := !current];
    }
  }

  /** Flipping a row's highlight changes its own reading and nothing else,
      and flipping it twice restores the reading. */
  lemma ToggleFlipsOnlyThatProperty(properties: map<string, bool>, property: string, other: string)
    requires other != property
    ensures var once := properties[property := !Highlighted(properties, property)];
      var twice := once[property := !Highlighted(once, property)];
      && Highlighted(once, property) == !Highlighted(properties, property)
      && Highlighted(once, other) == Highlighted(properties, other)
      && Highlighted(twice, property) == Highlighted(properties, property)
      && (property in properties ==> twice == properties)
  {
  }

  /** Capitalizing a name that starts with a lower-case letter. */
  lemma CapitalizeLowerCase(first: char, rest: string)
    requires 'a' <= first <= 'z'
    ensures Capitalize([first] + rest) == [(first as int - 32) as char] + rest
  {
    assert ([first] + rest)[1..] == rest;
  }

  /** The three rows have the highlight properties the controller declares. */
  lemma SaveCancelDeleteProperties()
    ensures HighlightProperty("save") == "isSaveRowHighlighted"
    ensures HighlightProperty("cancel") == "isCancelRowHighlighted"
    ensures HighlightProperty("delete") == "isDeleteRowHighlighted"
  {
    SaveProperty();
    CancelProperty();
    DeleteProperty();
  }

  /** The property of a row whose capitalized name is known. */
  lemma RowProperty(row: string, capitalized: string, property: string)
    requires Capitalize(row) == capitalized
    requires "is" + capitalized + "RowHighlighted" == property
    ensures HighlightProperty(row) == property
  {
  }

  lemma SaveProperty()
    ensures HighlightProperty("save") == "isSaveRowHighlighted"
  {
    CapitalizedSave();
    SavePropertyName();
    RowProperty("save", "Save", "isSaveRowHighlighted");
  }

  lemma CapitalizedSave()
    ensures Capitalize("save") == "Save"
  {
    assert "save" == ['s'] + "ave";
    CapitalizeLowerCase('s', "ave");
    assert ['S'] + "ave" == "Save";
  }

  lemma SavePropertyName()
    ensures "is" + "Save" + "RowHighlighted" == "isSaveRowHighlighted"
  {
  }

  lemma CancelProperty()
    ensures HighlightProperty("cancel") == "isCancelRowHighlighted"
  {
    CapitalizedCancel();
    CancelPropertyName();
    RowProperty("cancel", "Cancel", "isCancelRowHighlighted");
  }

  lemma CapitalizedCancel()
    ensures Capitalize("cancel") == "Cancel"
  {
    assert "cancel" == ['c'] + "ancel";
    CapitalizeLowerCase('c', "ancel");
    assert ['C'] + "ancel" == "Cancel";
  }

  lemma CancelPropertyName()
    ensures "is" + "Cancel" + "RowHighlighted" == "isCancelRowHighlighted"
  {
  }

  lemma DeleteProperty()
    ensures HighlightProperty("delete") == "isDeleteRowHighlighted"
  {
    CapitalizedDelete();
    DeletePropertyName();
    RowProperty("delete", "Delete", "isDeleteRowHighlighted");
  }

  lemma CapitalizedDelete()
    ensures Capitalize("delete") == "Delete"
  {
    assert "delete" == ['d'] + "elete";
    CapitalizeLowerCase('d', "elete");
    assert ['D'] + "elete" == "Delete";
  }

  lemma DeletePropertyName()
    ensures "is" + "Delete" + "RowHighlighted" == "isDeleteRowHighlighted"
  {
  }

  /** `toggleData`'s switch: 'set1' becomes 'set2', anything else 'set1'. */
  function ToggledDataset(mockDataset: string): (next: string)
    ensures next == "set1" || next == "set2"
    ensures next == "set2" <==> mockDataset == "set1"
  {
    if mockDataset == "set1" then "set2" else "set1"
  }

  /** Two toggles from either data set return to it. */
  lemma ToggleTwiceRestores(mockDataset: string)
    requires mockDataset == "set1" || mockDataset == "set2"
    ensures ToggledDataset(ToggledDataset(mockDataset)) == mockDataset
  {
  }

  class StyleguideRoute {
    var mockDataset: string

    constructor()
      ensures mockDataset == "set1"
    {
      mockDataset := "set1";
    }

    /** `setupController`: tells the controller which data set is shown. */
    method SetupController(controller: StyleguideController)
      modifies controller`mockDataset
      ensures controller.mockDataset == Str(mockDataset)
    {
      controller.mockDataset := Str(mockDataset);
    }

    /** `toggleData`: switches to the other data set. */
    method ToggleData()
      modifies this`mockDataset
      ensures mockDataset == ToggledDataset(old(mockDataset))
    {
      if mockDataset == "set1" {
        mockDataset := "set2";
      } else {
        mockDataset := "set1";
      }
    }
  }

  /** After the route sets up the controller, the toggle label offers to
      update the first data set and to restore from the second. */
  lemma DataActionFollowsRoute(mockDataset: string)
    requires mockDataset == "set1" || mockDataset == "set2"
    ensures Table1DataAction(Str(mockDataset)) == (if mockDataset == "set1" then "Update" else "Restore")
    ensures Table1DataAction(Str(ToggledDataset(mockDataset))) != Table1DataAction(Str(mockDataset))
  {
  }
}
