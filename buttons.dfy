/**
 * The button components: the base button and the cancel, save and delete
 * buttons, which differ in the text they show when none is given.
 */
module Buttons {
  import opened Js

  datatype ButtonKind = Base | CancelButton | SaveButton | DeleteButton
  {
    /** `defaultDisplayText` of each button class. */
    function DefaultDisplayText(): (text: string)
      ensures this == Base <==> text == ""
    {
      match this
      case Base => ""
      case CancelButton => "Cancel"
      case SaveButton => "Save"
      case DeleteButton => "Delete"
    }
  }

  /** `displayText`: the `text` given, when truthy, else the class default. */
  function DisplayText(kind: ButtonKind, text: JsValue): (shown: JsValue)
    ensures Truthy(text) ==> shown == text
    ensures !Truthy(text) ==> shown == Str(kind.DefaultDisplayText())
  {
    if Truthy(text) then text else Str(kind.DefaultDisplayText())
  }

  /** A button with no text shows its class default, and a given text
      overrides the default of every button class. */
  lemma DefaultAndCustomText(text: string)
    requires text != ""
    ensures DisplayText(CancelButton, Undefined) == Str("Cancel")
    ensures DisplayText(SaveButton, Undefined) == Str("Save")
    ensures DisplayText(DeleteButton, Undefined) == Str("Delete")
    ensures DisplayText(Base, Undefined) == Str("")
    ensures forall kind: ButtonKind :: DisplayText(kind, Str(text)) == Str(text)
  {
  }

  /** The text shown is truthy exactly when the given text is or the class
      has a non-empty default. */
  lemma ShownTextTruthy(kind: ButtonKind, text: JsValue)
    ensures Truthy(DisplayText(kind, text)) <==> Truthy(text) || kind != Base
  {
  }
}
