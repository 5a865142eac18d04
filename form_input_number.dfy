/**
 * The number input base component: the parent required-value rule, then the
 * number cascade pattern, resolver, type, sign, range in which the first
 * failure decides the status message.
 *
 * The number validation mixin and the not-values mixin are not part of this
 * model; what they provide is passed in as `NumberChecks`, with each
 * predicate an arbitrary function.
 */
module NumberInput {
  import opened Js
  import opened Cascade
  import opened FormControl

  /** The result of `characterResolver`: whether it completed, and the number it made. */
  datatype Resolution = Resolution(completed: bool, value: JsValue)

  /** What the mixins provide to the number component. */
  datatype NumberChecks = NumberChecks(
    notValueList: bool,
    isNotValue: JsValue -> bool,
    isCorrectPattern: (string, JsValue) -> bool,
    characterResolver: JsValue -> Resolution,
    isCorrectType: (string, JsValue) -> bool,
    isCorrectSign: JsValue -> bool,
    isCorrectRange: JsValue -> bool,
    patternQualifierText: string,
    resolverQualifierText: string,
    typeQualifierText: string,
    signQualifierText: string,
    rangeQualifierText: string)

  /** A prescribed not-value is selected. */
  predicate NotValueSelected(m: NumberChecks, value: JsValue)
  {
    m.notValueList && m.isNotValue(value)
  }

  /** A pattern failure reports the custom message when one is set. */
  function PatternMessage(customMessage: string, labelText: string, qualifier: string): string
  {
    if customMessage != "" then customMessage else labelText + qualifier
  }

  /** The number checks in order. Type, sign and range look at the resolved
      number, not at the raw input. */
  function Checks(m: NumberChecks, dataType: string, labelText: string, customMessage: string, value: JsValue): (checks: seq<Check>)
    ensures |checks| == 5
  {
    var resolved := m.characterResolver(value);
    [ Check(m.isCorrectPattern(dataType, value), PatternMessage(customMessage, labelText, m.patternQualifierText)),
      Check(resolved.completed, labelText + m.resolverQualifierText),
      Check(m.isCorrectType(dataType, resolved.value), labelText + m.typeQualifierText),
      Check(m.isCorrectSign(resolved.value), labelText + m.signQualifierText),
      Check(m.isCorrectRange(resolved.value), labelText + m.rangeQualifierText) ]
  }

  /** The number checks run only for a truthy value that is not a selected
      not-value and that the parent rule accepted. */
  predicate CascadeRuns(parent: Verdict, value: JsValue, m: NumberChecks)
  {
    parent.Pass? && Truthy(value) && !NotValueSelected(m, value)
  }

  /** The verdict the number component leaves, given the parent's verdict. */
  function NumberVerdict(parent: Verdict, value: JsValue, m: NumberChecks,
                         dataType: string, labelText: string, customMessage: string): Verdict
  {
    if CascadeRuns(parent, value, m)
    then FirstFailure(Checks(m, dataType, labelText, customMessage, value))
    else parent
  }

  /** The verdict `componentValidate` leaves on a number control. */
  function Outcome(c: Control, value: JsValue, allFieldsRequired: bool, m: NumberChecks): Verdict
    reads c
  {
    NumberVerdict(c.RequiredVerdict(value, allFieldsRequired), value, m,
                  c.dataType, c.DisplayLabel(), c.customValidationMessage)
  }

  /** `componentValidate` of the number component. */
  method ComponentValidate(c: Control, value: JsValue, allFieldsRequired: bool, m: NumberChecks)
    requires c.Valid()
    modifies c`statusMessage, c`isValid, c`hasFailed
    ensures c.Valid()
    ensures c.statusMessage == old(Outcome(c, value, allFieldsRequired, m)).StatusMessage()
    ensures c.isValid == Some(old(Outcome(c, value, allFieldsRequired, m)).Pass?)
    ensures c.hasFailed == (old(c.hasFailed) || c.isValid == Some(false))
  {
    ghost var parent := c.RequiredVerdict(value, allFieldsRequired);
    var dataType := c.dataType;
    var labelText := c.DisplayLabel();
    var customMessage := c.customValidationMessage;
    ghost var checks := Checks(m, dataType, labelText, customMessage, value);
    assert Outcome(c, value, allFieldsRequired, m) == NumberVerdict(parent, value, m, dataType, labelText, customMessage);
    c.ComponentValidate(value, allFieldsRequired);
    var isNotValueSelected := m.notValueList && m.isNotValue(value);
    if Truthy(value) && !isNotValueSelected && c.isValid != Some(false) {
      if !m.isCorrectPattern(dataType, value) {
        FirstFailureAt(checks, 0);
        c.SetValidity(if customMessage != "" then customMessage else labelText + m.patternQualifierText, false);
      } else {
        var resolver := m.characterResolver(value);
        if resolver.completed {
          if !m.isCorrectType(dataType, resolver.value) {
            FirstFailureAt(checks, 2);
            c.SetValidity(labelText + m.typeQualifierText, false);
          } else if !m.isCorrectSign(resolver.value) {
            FirstFailureAt(checks, 3);
            c.SetValidity(labelText + m.signQualifierText, false);
          } else if !m.isCorrectRange(resolver.value) {
            FirstFailureAt(checks, 4);
            c.SetValidity(labelText + m.rangeQualifierText, false);
          } else {
            FirstFailureIsFirst(checks);
            c.SetValidity("", true);
          }
        } else {
          FirstFailureAt(checks, 1);
          c.SetValidity(labelText + m.resolverQualifierText, false);
        }
      }
    }
  }

  /** `triggerValidation` on a number control. */
  method TriggerValidation(c: Control, isNotEditMode: bool, allFieldsRequired: bool, m: NumberChecks)
    requires c.Valid()
    modifies c`statusMessage, c`isValid, c`hasFailed
    ensures c.Valid()
    ensures c.ValidationTarget(isNotEditMode) == None ==> unchanged(c)
    ensures c.ValidationTarget(isNotEditMode).Some? ==>
      var v := old(Outcome(c, c.ValidationTarget(isNotEditMode).value, allFieldsRequired, m));
      c.statusMessage == v.StatusMessage() && c.isValid == Some(v.Pass?)
  {
    var target := c.ValidationTarget(isNotEditMode);
    if target.Some? {
      ComponentValidate(c, target.value, allFieldsRequired, m);
    }
  }

  /** `handleConstraintChanges`, observing minValue, maxValue, exactValue,
      positiveOnly, negativeOnly, decimalPlaces, allowParens and
      customRegexString: validate only when asked to on constraint changes. */
  method HandleConstraintChanges(c: Control, isNotEditMode: bool, allFieldsRequired: bool, m: NumberChecks)
    requires c.Valid()
    modifies c`statusMessage, c`isValid, c`hasFailed
    ensures c.Valid()
    ensures !c.shouldValidateOnConstraintChange || c.ValidationTarget(isNotEditMode) == None ==> unchanged(c)
    ensures c.shouldValidateOnConstraintChange && c.ValidationTarget(isNotEditMode).Some? ==>
      var v := old(Outcome(c, c.ValidationTarget(isNotEditMode).value, allFieldsRequired, m));
      c.statusMessage == v.StatusMessage() && c.isValid == Some(v.Pass?)
  {
    if c.shouldValidateOnConstraintChange {
      TriggerValidation(c, isNotEditMode, allFieldsRequired, m);
    }
  }

  // ---------------------------------------------------------------------------
  // Properties of the cascade

  /** A falsy value, a selected not-value or a parent failure leaves the
      parent's verdict in place. */
  lemma SkippedKeepsParent(parent: Verdict, value: JsValue, m: NumberChecks,
                           dataType: string, labelText: string, customMessage: string)
    requires !Truthy(value) || NotValueSelected(m, value) || parent.Fail?
    ensures NumberVerdict(parent, value, m, dataType, labelText, customMessage) == parent
  {
  }

  /** The number verdict is valid exactly when the parent passed and, for a
      value the cascade looks at, the pattern holds of the input, the resolver
      completes, and type, sign and range hold of the resolved number. */
  lemma {:induction false} PassExactlyWhenAllHold(parent: Verdict, value: JsValue, m: NumberChecks,
                                                  dataType: string, labelText: string, customMessage: string)
    ensures var r := m.characterResolver(value);
      NumberVerdict(parent, value, m, dataType, labelText, customMessage).Pass? <==>
        && parent.Pass?
        && (CascadeRuns(parent, value, m) ==>
          && m.isCorrectPattern(dataType, value)
          && r.completed
          && m.isCorrectType(dataType, r.value)
          && m.isCorrectSign(r.value)
          && m.isCorrectRange(r.value))
  {
    if CascadeRuns(parent, value, m) {
      var checks := Checks(m, dataType, labelText, customMessage, value);
      var r := m.characterResolver(value);
      FirstFailureIsFirst(checks);
      assert checks[0].passes == m.isCorrectPattern(dataType, value);
      assert checks[1].passes == r.completed;
      assert checks[2].passes == m.isCorrectType(dataType, r.value);
      assert checks[3].passes == m.isCorrectSign(r.value);
      assert checks[4].passes == m.isCorrectRange(r.value);
    }
  }

  /** A failed number check that is not the pattern check reports the label
      with one of the qualifier texts; only the pattern check may use the
      custom message. */
  lemma {:induction false} CustomMessageOnlyForPattern(parent: Verdict, value: JsValue, m: NumberChecks,
                                                       dataType: string, labelText: string, customMessage: string)
    requires CascadeRuns(parent, value, m) && m.isCorrectPattern(dataType, value)
    requires NumberVerdict(parent, value, m, dataType, labelText, customMessage).Fail?
    ensures NumberVerdict(parent, value, m, dataType, labelText, customMessage).message in
      { labelText + m.resolverQualifierText, labelText + m.typeQualifierText,
        labelText + m.signQualifierText, labelText + m.rangeQualifierText }
  {
    var checks := Checks(m, dataType, labelText, customMessage, value);
    FirstFailureIsFirst(checks);
    var k :| 0 <= k < |checks| && !checks[k].passes
      && FirstFailure(checks).message == checks[k].message
      && forall i :: 0 <= i < k ==> checks[i].passes;
    assert k != 0;
  }

  /** When the resolver does not complete, type, sign and range are never
      consulted: the verdict is the resolver failure. */
  lemma {:induction false} ResolverFailureStops(parent: Verdict, value: JsValue, m: NumberChecks,
                                                dataType: string, labelText: string, customMessage: string)
    requires CascadeRuns(parent, value, m)
    requires m.isCorrectPattern(dataType, value) && !m.characterResolver(value).completed
    ensures NumberVerdict(parent, value, m, dataType, labelText, customMessage) == Fail(labelText + m.resolverQualifierText)
  {
    FirstFailureAt(Checks(m, dataType, labelText, customMessage, value), 1);
  }

  /** A pattern failure reports the custom message when set, else the label
      with the pattern qualifier. */
  lemma PatternFailureMessage(parent: Verdict, value: JsValue, m: NumberChecks,
                              dataType: string, labelText: string, customMessage: string)
    requires CascadeRuns(parent, value, m) && !m.isCorrectPattern(dataType, value)
    ensures NumberVerdict(parent, value, m, dataType, labelText, customMessage)
      == Fail(PatternMessage(customMessage, labelText, m.patternQualifierText))
  {
  }
}
