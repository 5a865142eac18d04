/**
 * The form-control base component: display-text fallbacks, the required-value
 * rule, the validation gate, the one-way failure latch, the admin show/hide
 * state and the label visibility rule.
 *
 * The component is a class whose fields are the Ember properties the code
 * reads and `set`s. Template bindings assign the public fields directly.
 * Services are passed as booleans: `isNotEditMode` and `isEditMode` of the
 * show-hide admin service, `shouldGhostHiddenFields` of the same service and
 * `allFieldsRequired` of the model validation service. The `isValid`
 * observer `trackFailures` is run explicitly after every write of `isValid`.
 */
module FormControl {
  import opened Js
  import opened Cascade

  /** The controller model metadata of the field; '' where it has no entry. */
  datatype ModelMeta = ModelMeta(elementName: string, description: string, usageType: string, identifier: string)

  /** The call made on the show-hide admin service, if any. */
  datatype ServiceCall = NoCall | ShowField(identifier: string) | HideField(identifier: string)

  class Control {
    var labelText: string            // the `label` property (`label` is a Dafny keyword)
    var placeholder: Option<string>   // None is the default null
    var description: string
    var required: bool
    var usageType: string
    var meta: ModelMeta
    var dataType: string
    var inputType: string
    var notValue: JsValue            // the selected not-value, from the not-values mixin
    var notValueDisplay: bool
    var isMandatory: bool            // provided by code outside this model
    var componentInfo: bool
    var componentValidation: bool
    var customValidationMessage: string
    var shouldValidateOnConstraintChange: bool
    var value: JsValue
    var customValue: JsValue
    var statusMessage: string
    var isValid: Option<bool>        // None is the initial null
    var hasFailed: bool              // false stands for the initial null
    var adminShow: bool
    var adminHide: bool
    var normalModeAdminHide: bool
    var remove: bool
    var allowNotValues: bool
    var showLabel: Option<bool>      // None is the default null
    var insideTable: bool

    /** The failure latch is set whenever the control is invalid, and the
        admin show/hide flags are never both on. */
    ghost predicate Valid()
      reads this
    {
      && (isValid == Some(false) ==> hasFailed)
      && !(adminShow && adminHide)
    }

    /** The declared defaults of the component. */
    constructor ()
      ensures Valid()
      ensures labelText == "" && placeholder == None && description == "" && !required && usageType == ""
      ensures componentInfo && componentValidation && customValidationMessage == ""
      ensures !shouldValidateOnConstraintChange && statusMessage == "" && isValid == None && !hasFailed
      ensures !adminShow && !adminHide && !normalModeAdminHide && !remove && showLabel == None
    {
      labelText := "";
      placeholder := None;
      description := "";
      required := false;
      usageType := "";
      meta := ModelMeta("", "", "", "");
      dataType := "";
      inputType := "";
      notValue := Undefined;
      notValueDisplay := false;
      isMandatory := false;
      componentInfo := true;
      componentValidation := true;
      customValidationMessage := "";
      shouldValidateOnConstraintChange := false;
      value := Undefined;
      customValue := Undefined;
      statusMessage := "";
      isValid := None;
      hasFailed := false;
      adminShow := false;
      adminHide := false;
      normalModeAdminHide := false;
      remove := false;
      allowNotValues := true;
      showLabel := None;
      insideTable := false;
    }

    // -------------------------------------------------------------------------
    // Computed display text

    /** `displayLabel`: the label, else the placeholder, else a generic text;
        never empty, so messages built from it always name the field. */
    function DisplayLabel(): (r: string)
      reads this
      ensures r != ""
      ensures labelText != "" ==> r == labelText
      ensures labelText == "" && placeholder.Some? && placeholder.value != "" ==> r == placeholder.value
      ensures labelText == "" && (placeholder == None || placeholder == Some("")) ==> r == dataType + " value "
    {
      if labelText != "" then labelText
      else if placeholder.Some? && placeholder.value != "" then placeholder.value
      else dataType + " value "
    }

    /** The '*' notation of a required field without a not-value display. */
    function RequiredMark(): string
      reads this
    {
      if required && !notValueDisplay then "*" else ""
    }

    /** `displayPlaceholder`: '' in edit mode, an explicit placeholder (even '')
        as given, a null one replaced by the metadata element name, the label
        or ''; then the required mark. */
    function DisplayPlaceholder(isNotEditMode: bool): (r: string)
      reads this
      ensures !isNotEditMode ==> r == RequiredMark()
      ensures isNotEditMode && placeholder.Some? ==> r == placeholder.value + RequiredMark()
      ensures isNotEditMode && placeholder == None && meta.elementName != "" ==> r == meta.elementName + RequiredMark()
      ensures isNotEditMode && placeholder == None && meta.elementName == "" ==> r == labelText + RequiredMark()
      ensures |RequiredMark()| <= |r| && r[|r| - |RequiredMark()|..] == RequiredMark()
    {
      var shown := if isNotEditMode then placeholder else Some("");
      var text :=
        if shown.None? then
          if meta.elementName != "" then meta.elementName
          else if labelText != "" then labelText
          else ""
        else shown.value;
      text + RequiredMark()
    }

    /** `displayDescription`: the description, else the metadata description,
        else the display label; never empty. */
    function DisplayDescription(): (r: string)
      reads this
      ensures r != ""
      ensures description != "" ==> r == description
      ensures description == "" && meta.description != "" ==> r == meta.description
      ensures description == "" && meta.description == "" ==> r == DisplayLabel()
    {
      if description != "" then description
      else if meta.description != "" then meta.description
      else DisplayLabel()
    }

    /** `internalUsageType`: the usage type, else the metadata one, else null. */
    function InternalUsageType(): (r: Option<string>)
      reads this
      ensures r.Some? ==> r.value != ""
      ensures usageType != "" ==> r == Some(usageType)
      ensures usageType == "" && meta.usageType != "" ==> r == Some(meta.usageType)
      ensures r == None <==> usageType == "" && meta.usageType == ""
    {
      if usageType != "" then Some(usageType)
      else if meta.usageType != "" then Some(meta.usageType)
      else None
    }

    /** `componentHelp`: some kind of help (info or validation) is enabled.
        It is on when the field info is on or validation would run outside
        edit mode, and while it is off no validation runs in any mode. */
    function ComponentHelp(): (r: bool)
      reads this
      ensures componentInfo ==> r
      ensures r ==> componentInfo || ValidationTarget(true).Some?
      ensures !r ==> ValidationTarget(true) == None && ValidationTarget(false) == None
    {
      componentInfo || componentValidation
    }

    /** `helpMessage`: the status message only while the control is invalid;
        otherwise, and before the first validation, the description. */
    function HelpMessage(): (r: string)
      reads this
      ensures isValid == Some(false) ==> r == statusMessage
      ensures isValid != Some(false) ==> r == DisplayDescription() && r != ""
    {
      if isValid != Some(false) then DisplayDescription() else statusMessage
    }

    // -------------------------------------------------------------------------
    // The required-value rule

    /** When the required-value rule rejects `value`: a Mandatory field
        rejects a missing value outright; a Required field (or, under
        `allFieldsRequired`, a field flagged `required`) rejects it unless a
        not-value is set. */
    predicate RequiredMissing(value: JsValue, allFieldsRequired: bool)
      reads this
    {
      var usage := InternalUsageType();
      && IsMissing(value)
      && (|| usage == Some("Mandatory")
          || ((usage == Some("Required") || (allFieldsRequired && required)) && !Truthy(notValue)))
    }

    /** The verdict of the required-value rule. */
    function RequiredVerdict(value: JsValue, allFieldsRequired: bool): (v: Verdict)
      reads this
      ensures v.Fail? <==> RequiredMissing(value, allFieldsRequired)
      ensures v.Fail? ==> v.message == DisplayLabel() + " is required"
    {
      if RequiredMissing(value, allFieldsRequired) then Fail(DisplayLabel() + " is required") else Pass
    }

    /** The isValid observer: latch `hasFailed` when the control is invalid. */
    method TrackFailures()
      modifies this`hasFailed
      ensures isValid == Some(false) ==> hasFailed
      ensures hasFailed == (old(hasFailed) || isValid == Some(false))
    {
      if isValid == Some(false) {
        hasFailed := true;
      }
    }

    /** Set the status message and the validity, firing the isValid observer. */
    method SetValidity(message: string, valid: bool)
      requires Valid()
      modifies this`statusMessage, this`isValid, this`hasFailed
      ensures Valid()
      ensures statusMessage == message && isValid == Some(valid)
      ensures hasFailed == (old(hasFailed) || !valid)
    {
      statusMessage := message;
      isValid := Some(valid);
      TrackFailures();
    }

    /** `componentValidate` of the base class: every call sets both the status
        message and the validity, from the required-value rule. */
    method ComponentValidate(value: JsValue, allFieldsRequired: bool)
      requires Valid()
      modifies this`statusMessage, this`isValid, this`hasFailed
      ensures Valid()
      ensures statusMessage == RequiredVerdict(value, allFieldsRequired).StatusMessage()
      ensures isValid == Some(RequiredVerdict(value, allFieldsRequired).Pass?)
      ensures hasFailed == (old(hasFailed) || isValid == Some(false))
    {
      var usage := InternalUsageType();
      var missing := !Truthy(value) && !value.Num?;
      if allFieldsRequired {
        if usage == Some("Mandatory") && missing {
          SetValidity(DisplayLabel() + " is required", false);
        } else if (usage == Some("Required") || required) && missing && !Truthy(notValue) {
          SetValidity(DisplayLabel() + " is required", false);
        } else {
          SetValidity("", true);
        }
      } else {
        if usage == Some("Mandatory") && missing {
          SetValidity(DisplayLabel() + " is required", false);
        } else if usage == Some("Required") && missing && !Truthy(notValue) {
          SetValidity(DisplayLabel() + " is required", false);
        } else {
          SetValidity("", true);
        }
      }
    }

    /** What `triggerValidation` validates: nothing unless validation is on and
        the page is not in edit mode; then the custom value when it is truthy,
        else the value. */
    function ValidationTarget(isNotEditMode: bool): (t: Option<JsValue>)
      reads this
      ensures t.Some? <==> componentValidation && isNotEditMode
      ensures t.Some? && Truthy(customValue) ==> t.value == customValue
      ensures t.Some? && !Truthy(customValue) ==> t.value == value
    {
      if componentValidation && isNotEditMode then
        Some(if Truthy(customValue) then customValue else value)
      else None
    }

    /** `triggerValidation` on a control of the base class. */
    method TriggerValidation(isNotEditMode: bool, allFieldsRequired: bool)
      requires Valid()
      modifies this`statusMessage, this`isValid, this`hasFailed
      ensures Valid()
      ensures ValidationTarget(isNotEditMode) == None ==> unchanged(this)
      ensures ValidationTarget(isNotEditMode).Some? ==>
        var v := RequiredVerdict(ValidationTarget(isNotEditMode).value, allFieldsRequired);
        statusMessage == v.StatusMessage() && isValid == Some(v.Pass?)
    {
      var target := ValidationTarget(isNotEditMode);
      if target.Some? {
        ComponentValidate(target.value, allFieldsRequired);
      }
    }

    /** `initializeValidationProperties`: a control without validation is valid. */
    method InitializeValidationProperties()
      requires Valid()
      modifies this`isValid, this`hasFailed
      ensures Valid()
      ensures !componentValidation ==> isValid == Some(true) && hasFailed == old(hasFailed)
      ensures componentValidation ==> unchanged(this)
    {
      if !componentValidation {
        isValid := Some(true);
        TrackFailures();
      }
    }

    /** `setInitialHelpMessage`: the status message starts as the description. */
    method SetInitialHelpMessage()
      modifies this`statusMessage
      ensures statusMessage == description
    {
      statusMessage := description;
    }

    // -------------------------------------------------------------------------
    // Admin show/hide

    /** The state part of `adminShowHideToggle` (after the service is ready):
        'show' and 'hide' switch the two flags and notify the service, unless
        the field is already in that state. */
    method AdminShowHideToggle(action: string) returns (call: ServiceCall)
      requires Valid()
      modifies this`adminShow, this`adminHide
      ensures Valid()
      ensures action == "show" ==> adminShow && !adminHide
      ensures action == "hide" ==> !adminShow && adminHide
      ensures call == ShowField(meta.identifier) <==> action == "show" && !old(adminShow)
      ensures call == HideField(meta.identifier) <==> action == "hide" && !old(adminHide)
      ensures call == NoCall ==> unchanged(this)
      ensures call.ShowField? || call.HideField? ==> call.identifier == meta.identifier
    {
      if action == "show" && !adminShow {
        call := ShowField(meta.identifier);
        adminShow := true;
        adminHide := false;
      } else if action == "hide" && !adminHide {
        call := HideField(meta.identifier);
        adminShow := false;
        adminHide := true;
      } else {
        call := NoCall;
      }
    }

    /** The state part of `hideInNormalMode`, the adminHide observer: outside
        edit mode a hidden Mandatory field asks to be shown again; any other
        hidden field is hidden (ghosted or removed), stops validating and is
        left valid. */
    method HideInNormalMode(isNotEditMode: bool, shouldGhostHiddenFields: bool) returns (call: ServiceCall)
      requires Valid()
      modifies this`adminShow, this`adminHide, this`normalModeAdminHide, this`placeholder,
               this`componentInfo, this`allowNotValues, this`remove, this`componentValidation,
               this`isValid, this`hasFailed
      ensures Valid()
      ensures !(isNotEditMode && old(adminHide)) ==> unchanged(this) && call == NoCall
      ensures isNotEditMode && old(adminHide) && isMandatory ==>
        && adminShow && !adminHide && call == ShowField(meta.identifier)
        && unchanged(this`normalModeAdminHide, this`placeholder, this`componentInfo, this`allowNotValues)
        && unchanged(this`remove, this`componentValidation, this`isValid, this`hasFailed)
      ensures isNotEditMode && old(adminHide) && !isMandatory ==>
        && call == NoCall && normalModeAdminHide
        && !componentValidation && isValid == Some(true) && hasFailed == old(hasFailed)
        && unchanged(this`adminShow, this`adminHide)
        && (shouldGhostHiddenFields ==> !componentInfo && !allowNotValues && !ComponentHelp() && remove == old(remove))
        && (!shouldGhostHiddenFields ==>
              remove && componentInfo == old(componentInfo) && allowNotValues == old(allowNotValues)
              && placeholder == old(placeholder))
      ensures isNotEditMode && old(adminHide) && !isMandatory && shouldGhostHiddenFields ==>
        if old(DisplayPlaceholder(true)) in {"Not Applicable", "Not Reporting"}
        then placeholder == old(placeholder)
        else placeholder == Some("")
    {
      call := NoCall;
      if isNotEditMode && adminHide {
        if isMandatory {
          call := AdminShowHideToggle("show");
        } else {
          normalModeAdminHide := true;
          if shouldGhostHiddenFields {
            if DisplayPlaceholder(true) !in {"Not Applicable", "Not Reporting"} {
              placeholder := Some("");
            }
            componentInfo := false;
            allowNotValues := false;
          } else {
            remove := true;
          }
          componentValidation := false;
          if isValid != Some(true) {
            isValid := Some(true);
            TrackFailures();
          }
        }
      }
    }

    /** `setShowLabel`, the insideTable observer: a label not explicitly
        turned on is hidden inside a table outside edit mode; otherwise a
        label not explicitly turned off is shown. */
    method SetShowLabel(isEditMode: bool)
      modifies this`showLabel
      ensures showLabel.Some?
      ensures old(showLabel) == Some(true) ==> showLabel == Some(true)
      ensures old(showLabel) == Some(false) ==> showLabel == Some(false)
      ensures old(showLabel) == None ==> showLabel == Some(!(insideTable && !isEditMode))
    {
      if insideTable && showLabel != Some(true) && !isEditMode {
        showLabel := Some(false);
      } else if showLabel != Some(false) {
        showLabel := Some(true);
      }
    }
  }

  // ---------------------------------------------------------------------------
  // Properties of the required-value rule

  /** A Mandatory field with a missing value is invalid with the "is required"
      message, whatever the not-value and the debug flag. */
  lemma MandatoryMissingFails(c: Control, value: JsValue, allFieldsRequired: bool)
    requires c.InternalUsageType() == Some("Mandatory") && IsMissing(value)
    ensures c.RequiredVerdict(value, allFieldsRequired) == Fail(c.DisplayLabel() + " is required")
  {
  }

  /** A Required field with a missing value and no not-value is invalid. */
  lemma RequiredMissingFails(c: Control, value: JsValue, allFieldsRequired: bool)
    requires c.InternalUsageType() == Some("Required") && IsMissing(value) && !Truthy(c.notValue)
    ensures c.RequiredVerdict(value, allFieldsRequired) == Fail(c.DisplayLabel() + " is required")
  {
  }

  /** The `required` flag alone makes a missing value invalid only under the
      `allFieldsRequired` debug flag. */
  lemma RequiredFlagNeedsDebugFlag(c: Control, value: JsValue)
    requires c.InternalUsageType() == None && c.required && IsMissing(value) && !Truthy(c.notValue)
    ensures c.RequiredVerdict(value, true).Fail?
    ensures c.RequiredVerdict(value, false).Pass?
  {
  }

  /** A number, 0 included, always satisfies the required-value rule. */
  lemma NumbersSatisfyRequired(c: Control, n: int, allFieldsRequired: bool)
    ensures c.RequiredVerdict(Num(n), allFieldsRequired) == Pass
  {
  }
}
