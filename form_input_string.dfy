/**
 * The string input base component: the parent required-value rule, then the
 * string cascade pattern, type, length, in which the first failure decides the
 * status message. A select input skips the string cascade.
 *
 * The string validation mixin and the not-values mixin are not part of this
 * model; what they provide is passed in as `StringChecks`, with each
 * predicate an arbitrary function.
 */
module StringInput {
  import opened Js
  import opened Cascade
  import opened FormControl

  /** What the mixins provide to the string component. */
  datatype StringChecks = StringChecks(
    notValueList: bool,
    isNotValue: JsValue -> bool,
    isCorrectPattern: (string, JsValue) -> bool,
    isCorrectType: (string, JsValue) -> bool,
    isCorrectLength: JsValue -> bool,
    patternQualifierText: string,
    typeQualifierText: string,
    lengthQualifierText: string)

  /** A prescribed not-value is selected. */
  predicate NotValueSelected(m: StringChecks, value: JsValue)
  {
    m.notValueList && m.isNotValue(value)
  }

  /** The string checks in order; all of them look at the raw input. */
  function Checks(m: StringChecks, dataType: string, labelText: string, customMessage: string, value: JsValue): (checks: seq<Check>)
    ensures |checks| == 3
  {
    [ Check(m.isCorrectPattern(dataType, value),
            if customMessage != "" then customMessage else labelText + m.patternQualifierText),
      Check(m.isCorrectType(dataType, value), labelText + m.typeQualifierText),
      Check(m.isCorrectLength(value), labelText + m.lengthQualifierText) ]
  }

  /** The string checks run only for a truthy value that is not a selected
      not-value, that the parent rule accepted, on an input that is not a select. */
  predicate CascadeRuns(parent: Verdict, value: JsValue, m: StringChecks, inputType: string)
  {
    parent.Pass? && Truthy(value) && !NotValueSelected(m, value) && inputType != "select"
  }

  /** The verdict the string component leaves, given the parent's verdict. */
  function StringVerdict(parent: Verdict, value: JsValue, m: StringChecks, inputType: string,
                         dataType: string, labelText: string, customMessage: string): Verdict
  {
    if CascadeRuns(parent, value, m, inputType)
    then FirstFailure(Checks(m, dataType, labelText, customMessage, value))
    else parent
  }

  /** The verdict `componentValidate` leaves on a string control. */
  function Outcome(c: Control, value: JsValue, allFieldsRequired: bool, m: StringChecks): Verdict
    reads c
  {
    StringVerdict(c.RequiredVerdict(value, allFieldsRequired), value, m, c.inputType,
                  c.dataType, c.DisplayLabel(), c.customValidationMessage)
  }

  /** `componentValidate` of the string component. */
  method ComponentValidate(c: Control, value: JsValue, allFieldsRequired: bool, m: StringChecks)
    requires c.Valid()
    modifies c`statusMessage, c`isValid, c`hasFailed
    ensures c.Valid()
    ensures c.statusMessage == old(Outcome(c, value, allFieldsRequired, m)).StatusMessage()
    ensures c.isValid == Some(old(Outcome(c, value, allFieldsRequired, m)).Pass?)
    ensures c.hasFailed == (old(c.hasFailed) || c.isValid == Some(false))
  {
    ghost var parent := c.RequiredVerdict(value, allFieldsRequired);
    var dataType := c.dataType;
    var labelText := c.DisplayLabel();
    var customMessage := c.customValidationMessage;
    ghost var checks := Checks(m, dataType, labelText, customMessage, value);
    assert Outcome(c, value, allFieldsRequired, m)
      == StringVerdict(parent, value, m, c.inputType, dataType, labelText, customMessage);
    c.ComponentValidate(value, allFieldsRequired);
    var isNotValueSelected := m.notValueList && m.isNotValue(value);
    if Truthy(value) && !isNotValueSelected && c.isValid != Some(false) && c.inputType != "select" {
      if !m.isCorrectPattern(dataType, value) {
        FirstFailureAt(checks, 0);
        c.SetValidity(if customMessage != "" then customMessage else labelText + m.patternQualifierText, false);
      } else if !m.isCorrectType(dataType, value) {
        FirstFailureAt(checks, 1);
        c.SetValidity(labelText + m.typeQualifierText, false);
      } else if !m.isCorrectLength(value) {
        FirstFailureAt(checks, 2);
        c.SetValidity(labelText + m.lengthQualifierText, false);
      } else {
        FirstFailureIsFirst(checks);
        c.SetValidity("", true);
      }
    }
  }

  /** `triggerValidation` on a string control. */
  method TriggerValidation(c: Control, isNotEditMode: bool, allFieldsRequired: bool, m: StringChecks)
    requires c.Valid()
    modifies c`statusMessage, c`isValid, c`hasFailed
    ensures c.Valid()
    ensures c.ValidationTarget(isNotEditMode) == None ==> unchanged(c)
    ensures c.ValidationTarget(isNotEditMode).Some? ==>
      var v := old(Outcome(c, c.ValidationTarget(isNotEditMode).value, allFieldsRequired, m));
      c.statusMessage == v.StatusMessage() && c.isValid == Some(v.Pass?)
  {
    var target := c.ValidationTarget(isNotEditMode);
    if target.Some? {
      ComponentValidate(c, target.value, allFieldsRequired, m);
    }
  }

  /** `handleConstraintChanges`, observing minLength, maxLength, exactLength,
      enforceMaxLength and customRegexString: validate only when asked to on
      constraint changes. */
  method HandleConstraintChanges(c: Control, isNotEditMode: bool, allFieldsRequired: bool, m: StringChecks)
    requires c.Valid()
    modifies c`statusMessage, c`isValid, c`hasFailed
    ensures c.Valid()
    ensures !c.shouldValidateOnConstraintChange || c.ValidationTarget(isNotEditMode) == None ==> unchanged(c)
    ensures c.shouldValidateOnConstraintChange && c.ValidationTarget(isNotEditMode).Some? ==>
      var v := old(Outcome(c, c.ValidationTarget(isNotEditMode).value, allFieldsRequired, m));
      c.statusMessage == v.StatusMessage() && c.isValid == Some(v.Pass?)
  {
    if c.shouldValidateOnConstraintChange {
      TriggerValidation(c, isNotEditMode, allFieldsRequired, m);
    }
  }

  // ---------------------------------------------------------------------------
  // Properties of the cascade

  /** A select input keeps the parent's verdict whatever its value. */
  lemma SelectKeepsParent(parent: Verdict, value: JsValue, m: StringChecks,
                          dataType: string, labelText: string, customMessage: string)
    ensures StringVerdict(parent, value, m, "select", dataType, labelText, customMessage) == parent
  {
  }

  /** The string verdict is valid exactly when the parent passed and, for a
      value the cascade looks at, pattern, type and length all hold. */
  lemma {:induction false} PassExactlyWhenAllHold(parent: Verdict, value: JsValue, m: StringChecks, inputType: string,
                                                  dataType: string, labelText: string, customMessage: string)
    ensures StringVerdict(parent, value, m, inputType, dataType, labelText, customMessage).Pass? <==>
      && parent.Pass?
      && (CascadeRuns(parent, value, m, inputType) ==>
        m.isCorrectPattern(dataType, value) && m.isCorrectType(dataType, value) && m.isCorrectLength(value))
  {
    if CascadeRuns(parent, value, m, inputType) {
      var checks := Checks(m, dataType, labelText, customMessage, value);
      FirstFailureIsFirst(checks);
      assert checks[0].passes == m.isCorrectPattern(dataType, value);
      assert checks[1].passes == m.isCorrectType(dataType, value);
      assert checks[2].passes == m.isCorrectLength(value);
    }
  }

  /** A length failure is reported only when pattern and type hold. */
  lemma {:induction false} LengthFailureMeansEarlierPassed(parent: Verdict, value: JsValue, m: StringChecks, inputType: string,
                                                           dataType: string, labelText: string, customMessage: string)
    requires CascadeRuns(parent, value, m, inputType)
    requires labelText + m.lengthQualifierText != labelText + m.typeQualifierText
    requires labelText + m.lengthQualifierText != (if customMessage != "" then customMessage else labelText + m.patternQualifierText)
    requires StringVerdict(parent, value, m, inputType, dataType, labelText, customMessage)
      == Fail(labelText + m.lengthQualifierText)
    ensures m.isCorrectPattern(dataType, value) && m.isCorrectType(dataType, value) && !m.isCorrectLength(value)
  {
    var checks := Checks(m, dataType, labelText, customMessage, value);
    FirstFailureIsFirst(checks);
    var k :| 0 <= k < |checks| && !checks[k].passes
      && FirstFailure(checks).message == checks[k].message
      && forall i :: 0 <= i < k ==> checks[i].passes;
    assert k == 2;
  }
}
