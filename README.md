# Starter-site UI rules in Dafny

This project models the rule sets underneath the starter site's Ember UI
library and proves properties of them:

- **The form control.** This is the base component of every form input (`Control`). It covers:
  - the required-value rule and the validation gate;
  - the tri-state `isValid` and the `hasFailed` latch;
  - the display-text fallback chains;
  - the admin show/hide state.
- **The typed inputs.** The number, string and date-time inputs each add a cascade of checks that runs after the parent rule. In each cascade the first failing check decides the status message.
- **The date-time input's time selector.** This covers:
  - the hour and minute/second option lists;
  - the 12-hour and 24-hour display of a parsed time;
  - splitting the time format into tokens;
  - assembling the time string;
  - rewriting the display formats into the plugin's tokens.
- **The table components.**
  - the sort flags and the asc/desc toggle of `tableSort`;
  - the sort configuration and the filtered data;
  - the column-width class parser;
  - the row-to-cell mapping and the cell formatter flags.
- **The buttons and the styleguide page.**
  - the buttons' default texts;
  - the styleguide page's row highlights;
  - the switch between its two mock data sets.

Modules follow the source files:

| module | file |
|---|---|
| `Js` | JavaScript values, truthiness, `String`/`Number`, `split`, `indexOf`, `replace`, Ember's `capitalize` |
| `Cascade` | The shared "first failure wins" check list |
| `FormControl` | `_form-control.js` |
| `NumberInput` | `_form-input-number.js` |
| `StringInput` | `_form-input-string.js` |
| `DatetimeInput` | `_form-input-date-time.js` |
| `TableColumnDefinition` | `table-column-definition.js` |
| `TableComponent` | `table-component.js` |
| `TableRow` | `table-row.js` and the cell definition it creates |
| `TableCell` | `table-cell.js` |
| `Buttons` | `_button.js` and the cancel, save and delete buttons |
| `Styleguide` | the styleguide controller and route |

How the source is encoded:

- **Component state.** Components whose properties are updated with `set` are classes: `Control`, `DatetimeControl`, `ColumnDef`, `Table`, `StyleguideController` and `StyleguideRoute`.
  - Computed properties are functions that read the object.
  - Actions are methods with field-level `modifies` frames.
- **Subclasses.**
  - The number and string subclasses add no state. Their `componentValidate` is a module-level method on a `Control`.
  - The date-time control has state of its own. It is a class with a `const base: Control`.
- **Specifications.** Every state-changing method is proved against a pure specification. Examples:
  - `NumberVerdict`, `StringVerdict` and `DatetimeVerdict`;
  - `AssembledTime`, `HourDisplay` and `NextSort`.
  - The properties the source promises are then lemmas about those functions.
- **JavaScript values.** `JsValue` has four cases: undefined, null, a string or an integer.
  - `Truthy` is JavaScript truthiness on these cases.
  - `IsMissing` is exactly `!value && typeof value !== 'number'`.
- **Services and mixins.**
  - The services the components consult are boolean parameters: edit mode, `allFieldsRequired` and ghosting of hidden fields.
  - The validation mixins are not part of this model. Their predicates, resolvers and qualifier texts are passed in as records of functions (`NumberChecks`, `StringChecks`, `DatetimeChecks`), so every result holds whatever they decide.
- **Observers.**
  - The `trackFailures` observer on `isValid` runs inside `SetValidity`, because it fires on every change of `isValid`.
  - Every other observer is an explicit method the caller invokes: `handleConstraintChanges`, `syncInputTime`, `updateDateAndTimeValues` and `setFilteredData`.
  - `setFilteredData` also runs on init, so the table's constructor calls it.

## Model

| member | source | states |
|---|---|---|
| Cascade.FirstFailureIsFirst | app/components/forms/_form-input-number.js:93-124 | An ordered check list passes exactly when every check passes, and a failure reports the message of the first failing check |
| Cascade.FirstFailureAt | app/components/forms/_form-input-number.js:93-124 | When check k is the first to fail, the verdict is check k's message |
| Cascade.LaterChecksIgnored | app/components/forms/_form-input-number.js:93-124 | Checks after the first failure cannot change the verdict |
| Cascade.FirstFailureExists | app/components/forms/_form-input-number.js:93-124 | Whenever some check fails, there is a first failing check at or before it |
| FormControl.Control.constructor | app/components/forms/_form-control.js:485-492 | A new control has an empty status message, `isValid` null, no failure recorded, validation and info on, and no admin show/hide state |
| FormControl.Control.DisplayLabel | app/components/forms/_form-control.js:341-357 | The label when set, else a non-empty placeholder, else the data type followed by " value "; never empty |
| FormControl.Control.DisplayPlaceholder | app/components/forms/_form-control.js:364-391 | Edit mode shows only the required mark. Otherwise an explicit placeholder (even '') is kept, and a null one falls back to the metadata element name, then the label. The required mark always ends the text |
| FormControl.Control.DisplayDescription | app/components/forms/_form-control.js:398-417 | The description, else the metadata description, else the display label; never empty |
| FormControl.Control.InternalUsageType | app/components/forms/_form-control.js:424-442 | The usage type, else the metadata usage type, else absent; absent exactly when both are empty |
| FormControl.Control.ComponentHelp | app/components/forms/_form-control.js:663-668 | On whenever the field info is on, or validation would run outside edit mode; while it is off, no validation runs in either mode |
| FormControl.Control.HelpMessage | app/components/forms/_form-control.js:677-687 | The status message exactly when `isValid` is false; otherwise the (non-empty) display description, including while `isValid` is still null |
| FormControl.Control.RequiredVerdict | app/components/forms/_form-control.js:508-533 | Invalid with "<display label> is required" exactly when the required rule for the usage type, the `required` flag, the not-value and the debug flag finds the value missing |
| FormControl.Control.TrackFailures | app/components/forms/_form-control.js:557-562 | `hasFailed` becomes true when `isValid` is false and is never reset |
| FormControl.Control.SetValidity | app/components/forms/_form-control.js:510-533 | Both the status message and `isValid` are set, and the failure latch follows |
| FormControl.Control.ComponentValidate | app/components/forms/_form-control.js:503-535 | Every call sets both the status message and `isValid` from the required rule, and keeps the failure latch |
| FormControl.Control.ValidationTarget | app/components/forms/_form-control.js:540-550 | Validation runs exactly when it is enabled and the component is not in edit mode, on `customValue` when truthy, else on `value` |
| FormControl.Control.TriggerValidation | app/components/forms/_form-control.js:540-550 | When the gate is closed nothing changes; otherwise the state is the required rule's verdict on the target value |
| FormControl.Control.InitializeValidationProperties | app/components/forms/_form-control.js:269-280 | With validation off the control starts valid; with validation on nothing changes |
| FormControl.Control.SetInitialHelpMessage | app/components/forms/_form-control.js:713-716 | The status message starts as the description |
| FormControl.Control.AdminShowHideToggle | app/components/forms/_form-control.js:569-588 | 'show' and 'hide' set opposite flags. The service is called only on a real change, with the metadata identifier. A call that changes nothing leaves the control untouched |
| FormControl.Control.HideInNormalMode | app/components/forms/_form-control.js:598-644 | **Outside normal mode, or when not admin-hidden:** nothing changes. **Mandatory fields** are shown again, and nothing else changes. **Other fields** are marked `normalModeAdminHide`, with validation off and `isValid` true, and the admin flags are kept. They are then either ghosted or removed. Ghosting turns info, help and not-values off, and empties the placeholder exactly when the displayed placeholder is not 'Not Applicable'/'Not Reporting'. Removing leaves the placeholder, info and not-values as they were. The frame names the only fields that may change |
| FormControl.Control.SetShowLabel | app/components/forms/_form-control.js:899-913 | An explicit `showLabel` is kept; an unset one becomes false only inside a table outside edit mode |
| FormControl.MandatoryMissingFails | app/components/forms/_form-control.js:510-512 | A Mandatory field with a missing value is invalid with "<label> is required", even with a not-value set |
| FormControl.RequiredMissingFails | app/components/forms/_form-control.js:513-528 | A Required field with a missing value and no not-value is invalid |
| FormControl.RequiredFlagNeedsDebugFlag | app/components/forms/_form-control.js:508-528 | The `required` flag alone makes a missing value invalid only under `allFieldsRequired` |
| FormControl.NumbersSatisfyRequired | app/components/forms/_form-control.js:510-533 | A number, 0 included, always passes the required rule |
| NumberInput.Checks | app/components/forms/_form-input-number.js:93-124 | The number cascade has five checks in the source's order |
| NumberInput.ComponentValidate | app/components/forms/_form-input-number.js:74-127 | After the parent rule, the status message and `isValid` are those of `NumberVerdict`, and the failure latch is kept |
| NumberInput.TriggerValidation | app/components/forms/_form-control.js:540-550 | The gate of the base control, with the number verdict on the target value |
| NumberInput.HandleConstraintChanges | app/components/forms/_form-input-number.js:36-49 | A constraint change validates only when `shouldValidateOnConstraintChange` is set |
| NumberInput.SkippedKeepsParent | app/components/forms/_form-input-number.js:81-87 | A falsy value, a selected not-value or a parent failure leaves the parent's verdict |
| NumberInput.PassExactlyWhenAllHold | app/components/forms/_form-input-number.js:93-118 | Valid exactly when the parent passed and, if the cascade runs, the pattern holds of the input, the resolver completes, and type, sign and range hold of the resolved number |
| NumberInput.CustomMessageOnlyForPattern | app/components/forms/_form-input-number.js:95-122 | Only a pattern failure can report the custom message; the others report the label with their qualifier text |
| NumberInput.ResolverFailureStops | app/components/forms/_form-input-number.js:102-123 | A resolver that does not complete gives the resolver message, whatever type, sign and range would say |
| NumberInput.PatternFailureMessage | app/components/forms/_form-input-number.js:93-96 | A pattern failure reports the custom message when set, else the label with the pattern qualifier |
| StringInput.Checks | app/components/forms/_form-input-string.js:97-108 | The string cascade has three checks: pattern, type, length |
| StringInput.ComponentValidate | app/components/forms/_form-input-string.js:79-115 | After the parent rule, the status message and `isValid` are those of `StringVerdict`, and the failure latch is kept |
| StringInput.TriggerValidation | app/components/forms/_form-control.js:540-550 | The gate of the base control, with the string verdict on the target value |
| StringInput.HandleConstraintChanges | app/components/forms/_form-input-string.js:51-61 | A constraint change validates only when `shouldValidateOnConstraintChange` is set |
| StringInput.SelectKeepsParent | app/components/forms/_form-input-string.js:91 | A select input never runs the string checks |
| StringInput.PassExactlyWhenAllHold | app/components/forms/_form-input-string.js:85-112 | Valid exactly when the parent passed and, if the cascade runs, pattern, type and length all hold |
| StringInput.LengthFailureMeansEarlierPassed | app/components/forms/_form-input-string.js:97-108 | A length message (when distinct from the others) means pattern and type passed and length failed |
| DatetimeInput.DatetimeControl.constructor | app/components/forms/_form-input-date-time.js:23-26 | The default display formats are 'MM/DD/YYYY' and 'HH:mm' |
| DatetimeInput.DatetimeDisplayFormat | app/components/forms/_form-input-date-time.js:29-33 | Split on ' ', a space-free date format is the first piece, followed by at least one piece of the time format |
| DatetimeInput.DatetimeDisplayFormatPieces | app/components/forms/_form-input-date-time.js:29-33 | The date-time format's first space-separated token is the date format's, and a space-free date format is followed by the time format's tokens |
| DatetimeInput.NormalizeDateFormat | app/components/forms/_form-input-date-time.js:95-109 | The plugin format is never longer than the display format, and text without 'Y', 'M' or 'D' passes through unchanged |
| DatetimeInput.DiscardedYearRewriteHarmless | app/components/forms/_form-input-date-time.js:95-109 | Discarding the YYYY→yy rewrite gives the same result as chaining it before YY→y |
| DatetimeInput.DefaultDatePluginFormat | app/components/forms/_form-input-date-time.js:95-109 | The default 'MM/DD/YYYY' becomes 'mm/dd/yy' |
| DatetimeInput.DatetimeHourFormat | app/components/forms/_form-input-date-time.js:117-146 | The hour token of a date-time format contains no ':' and no space |
| DatetimeInput.NormalizeDatetimeFormat | app/components/forms/_form-input-date-time.js:117-146 | Unchanged unless the hour token holds an 'h'; then only the first 'hh' becomes 'h' |
| DatetimeInput.DatetimePluginFormatShape | app/components/forms/_form-input-date-time.js:117-146 | The result is the input, or the input with its first 'hh' cut to 'h' at that very position |
| DatetimeInput.DefaultDatetimePluginFormat | app/components/forms/_form-input-date-time.js:117-146 | The default 'MM/DD/YYYY HH:mm' is left as it is |
| DatetimeInput.HoursOptionValues | app/components/forms/_form-input-date-time.js:610-634 | A 12-hour format gives exactly '1'..'12', unpadded; otherwise exactly '00'..'23', two characters each; value equals label |
| DatetimeInput.MinutesSecondsOptionValues | app/components/forms/_form-input-date-time.js:641-655 | Exactly '00'..'59' in order, two characters each, value equal to label |
| DatetimeInput.CanonicalNumeral | app/components/forms/_form-input-date-time.js:624-628 | An unpadded digit string is `String` of its value, so the 12-hour labels are the numerals of 1..12 |
| DatetimeInput.TwoDigitNumeral | app/components/forms/_form-input-date-time.js:624-628 | Two two-digit strings with the same value are equal, so the padded labels are unique |
| DatetimeInput.TwelveHour | app/components/forms/_form-input-date-time.js:569-576 | Hours 0..23 land in 1..12 with the same value modulo 12 |
| DatetimeInput.MeridiemNumFor | app/components/forms/_form-input-date-time.js:560-566 | 'AM' gives '0', 'PM' gives '1', anything else keeps the prior `meridiemNum` |
| DatetimeInput.TwelveHourDisplayRange | app/components/forms/_form-input-date-time.js:569-576 | With an 'h' in the time format, hours 0..23 show as 1..12 |
| DatetimeInput.TwentyFourHourDisplay | app/components/forms/_form-input-date-time.js:577-583 | Without an 'h', an hour 0..23 shows as two digits that read back as the hour |
| DatetimeInput.PaddedPartDisplay | app/components/forms/_form-input-date-time.js:585-597 | Minutes and seconds 0..59 show as two digits that read back as the number |
| DatetimeInput.TwoDigitsReadBack | app/components/forms/_form-input-date-time.js:577-597 | Zero padding below 10 writes every number below 100 as two digits that read back as it |
| DatetimeInput.DatetimeControl.SetInitialTimeDisplayValues | app/components/forms/_form-input-date-time.js:555-602 | Hour, minute, second, millisecond and `meridiemNum` are set from the parsed parts by the display rules above |
| DatetimeInput.AssembledTimeMissing | app/components/forms/_form-input-date-time.js:661-740 | The time string is empty exactly when a part whose format is set has no value, or a meridiem is expected and none is chosen |
| DatetimeInput.AssembledTimeSplits | app/components/forms/_form-input-date-time.js:661-740 | With hour, minute and second formats set, splitting the assembled time on ':' gives back the three parts |
| DatetimeInput.MeridiemSuffix | app/components/forms/_form-input-date-time.js:703-716 | An expected meridiem '0' or '1' ends the time with " AM" or " PM" |
| DatetimeInput.DatetimeControl.SyncInputTime | app/components/forms/_form-input-date-time.js:661-740 | The assembled time (or '' when a part is missing) goes to `displayProxy` when that is set, else to `timeValue` |
| DatetimeInput.DatetimeControl.SetTimeFormats | app/components/forms/_form-input-date-time.js:528-550 | The first space-separated token of the time format, split on ':', gives the hour, minute and second formats; `meridiemExpected` is set when the hour format holds an 'h' and never reset |
| DatetimeInput.TimeTokens | app/components/forms/_form-input-date-time.js:532-535 | The tokens rejoined with ':' are the first space-separated token of the format and hold no ':' |
| DatetimeInput.DefaultTimeTokens | app/components/forms/_form-input-date-time.js:528-550 | 'HH:mm' gives hour 'HH' and minute 'mm', with no meridiem |
| DatetimeInput.DatetimeControl.UpdateDateAndTimeValues | app/components/forms/_form-input-date-time.js:747-760 | The display proxy is copied into the value of the control's data type, and into no other |
| DatetimeInput.Checks | app/components/forms/_form-input-date-time.js:886-902 | The date-time cascade has three checks: pattern, type, range |
| DatetimeInput.DatetimeControl.ComponentValidate | app/components/forms/_form-input-date-time.js:871-904 | After the parent rule, the status message and `isValid` are those of `DatetimeVerdict`, and the failure latch is kept |
| DatetimeInput.DatetimeControl.TriggerValidation | app/components/forms/_form-control.js:540-550 | The gate of the base control, with the date-time verdict on the target value |
| DatetimeInput.DatetimeControl.HandleConstraintChanges | app/components/forms/_form-input-date-time.js:76-87 | A constraint change validates only when `shouldValidateOnConstraintChange` is set |
| DatetimeInput.SkippedKeepsParent | app/components/forms/_form-input-date-time.js:877-880 | A value that is not a non-empty string, or a parent failure, leaves the parent's verdict |
| DatetimeInput.PassExactlyWhenAllHold | app/components/forms/_form-input-date-time.js:877-902 | Valid exactly when the parent passed and, if the cascade runs, pattern, type and range all hold |
| DatetimeInput.CustomMessageOnlyForPattern | app/components/forms/_form-input-date-time.js:887-897 | Only a pattern failure can report the custom message |
| TableColumnDefinition.ColWidthCSSClass | app/components/tables/utilities/table-column-definition.js:25-41 | Defined only for a string of two or three digits and '%'. For those it is defined exactly when the value N is at most 100 and a multiple of 5, and it is then 'width-N-pct' with N written from the value |
| TableColumnDefinition.EveryMultipleOfFiveAccepted | app/components/tables/utilities/table-column-definition.js:31-36 | Every multiple of 5 up to 100 written with two or three digits gets the class of its value |
| TableColumnDefinition.WrongDigitCountRejected | app/components/tables/utilities/table-column-definition.js:31 | One digit or four or more digits give no class ('5%', '1000%') |
| TableColumnDefinition.LeadingZeroWidth | app/components/tables/utilities/table-column-definition.js:32-35 | '05%' gives 'width-5pct' |
| TableColumnDefinition.QuarterWidth | app/components/tables/utilities/table-column-definition.js:32-36 | '25%' gives 'width-25pct' |
| TableColumnDefinition.FullWidth | app/components/tables/utilities/table-column-definition.js:32-36 | '100%' gives 'width-100pct' |
| TableColumnDefinition.OffGridWidthsRejected | app/components/tables/utilities/table-column-definition.js:33 | '23%' and '105%' give no class |
| TableColumnDefinition.ColumnDef.constructor | app/components/tables/utilities/table-column-definition.js:25-41 | A column definition keeps its display settings and starts unsorted |
| TableComponent.CurrentSortKey | app/components/tables/table-component.js:23 | The sort key is `sort[0]`, absent when there is no sort or it is empty |
| TableComponent.FlagsExclusive | app/components/tables/table-component.js:22-31 | No column is marked ascending and descending at once |
| TableComponent.SortKey | app/components/tables/table-component.js:119-121 | Date columns sort on the property followed by '._i', others on the property |
| TableComponent.NextSort | app/components/tables/table-component.js:124-132 | The new sort is the single key when another (or no) key was in force, else the single key with ':desc' |
| TableComponent.SortCycle | app/components/tables/table-component.js:124-132 | Repeated clicks on one column alternate between ascending and descending |
| TableComponent.SortConfigAfterClick | app/components/tables/table-component.js:124-132 | After a click the sort is one key, ascending or descending |
| TableComponent.ClickAgreesWithMapping | app/components/tables/table-component.js:22-31 | For a column that is not a date, the flags `tableSort` sets are the ones the `fields` mapping computes from the new sort |
| TableComponent.DateColumnUnmarkedByMapping | app/components/tables/table-component.js:119-121 | For a date column the `fields` mapping, run on the new sort, marks the column neither way |
| TableComponent.ColWidths | app/components/tables/table-component.js:34 | One width class per column, in column order |
| TableComponent.Table.SortConfig | app/components/tables/table-component.js:66-88 | The sort passed in when truthy, else the default `['']` |
| TableComponent.Table.MarkSortFlags | app/components/tables/table-component.js:22-31 | Each column is ascending exactly when `sort[0]` is its property, and descending exactly when `sort[0]` is its property with ':desc' |
| TableComponent.Table.TableSort | app/components/tables/table-component.js:105-133 | Every other column's flags are cleared. `sort` becomes `NextSort`, and the clicked column gets the matching flag |
| TableComponent.Table.SetFilteredData | app/components/tables/table-component.js:40-57 | Without filter text the filtered data is exactly the data; with filter text it is undefined |
| TableComponent.Table.constructor | app/components/tables/table-component.js:40-57 | A table starts with its configuration and data and no filter. The init run of `setFilteredData` leaves the filtered data equal to the data |
| TableRow.Cells | app/components/tables/table-row.js:24-34 | One cell per column, in column order. Every cell shows the row's record, with the column's property, type and format |
| TableRow.CellsAppend | app/components/tables/table-row.js:24-34 | Mapping two column lists after each other gives their cells after each other |
| TableRow.CellsDependOnDisplaySettings | app/components/tables/table-row.js:27-30 | Columns that agree on property, type and format give the same cells |
| TableCell.IsDatetime | app/components/tables/table-cell.js:26-28 | Holds for a 'date' cell, never for a 'number' cell or a cell without a display type |
| TableCell.IsNumber | app/components/tables/table-cell.js:35-37 | Holds for a 'number' cell, never for a 'date' cell or a cell without a display type |
| TableCell.FormatterChoice | app/components/tables/table-cell.js:26-37 | The date and number formatters are never both chosen, and any other or absent type chooses neither |
| Buttons.DefaultDisplayText | app/components/buttons/_button.js:19 | Only the base button has an empty default |
| Buttons.DisplayText | app/components/buttons/_button.js:27-33 | A truthy text is shown as given, a falsy one shows the class default |
| Buttons.DefaultAndCustomText | tests/integration/components/buttons/cancel-button-test.js:14-21 | Cancel, Save and Delete buttons show 'Cancel', 'Save' and 'Delete' without text, and any given text overrides every default |
| Buttons.ShownTextTruthy | app/components/buttons/_button.js:27-33 | The shown text is empty only for a base button with no text |
| Styleguide.RowClass | app/controllers/styleguide.js:44-98 | '<row>-button-row-hightlight' when highlighted, else '<row>-button-row' |
| Styleguide.RowActionName | app/controllers/styleguide.js:56-110 | 'Remove' exactly when highlighted, else 'Add' |
| Styleguide.Table1DataAction | app/controllers/styleguide.js:121-127 | 'Update' exactly when the data set is 'set1', else 'Restore' |
| Styleguide.StyleguideController.constructor | app/controllers/styleguide.js:113-115 | All three row highlights start false |
| Styleguide.StyleguideController.RowClassOf | app/controllers/styleguide.js:44-98 | The row class follows the row's highlight property |
| Styleguide.StyleguideController.RowActionNameOf | app/controllers/styleguide.js:56-110 | The action name follows the row's highlight property |
| Styleguide.StyleguideController.UpdateRowBackground | app/controllers/styleguide.js:136-138 | Only 'is<Row>RowHighlighted' is flipped |
| Styleguide.ToggleFlipsOnlyThatProperty | app/controllers/styleguide.js:136-138 | A flip changes its own property only, and two flips restore it |
| Styleguide.SaveCancelDeleteProperties | app/controllers/styleguide.js:113-115 | The rows 'save', 'cancel' and 'delete' flip the three declared highlight properties |
| Styleguide.ToggledDataset | app/routes/styleguide.js:38-42 | 'set1' becomes 'set2' and anything else 'set1'; the result is always one of the two |
| Styleguide.ToggleTwiceRestores | app/routes/styleguide.js:38-42 | Two toggles from either data set return to it |
| Styleguide.StyleguideRoute.constructor | app/routes/styleguide.js:7 | The default data set is 'set1' |
| Styleguide.StyleguideRoute.SetupController | app/routes/styleguide.js:27 | The controller learns the route's data set |
| Styleguide.StyleguideRoute.ToggleData | app/routes/styleguide.js:37-44 | The route switches to the other data set |
| Styleguide.DataActionFollowsRoute | app/controllers/styleguide.js:121-127 | Once set up, the toggle label is 'Update' for 'set1' and 'Restore' for 'set2', and each toggle changes it |

## Left out

- **DOM, jQuery and CSS work in the form control.**
  - Not modelled: event binding, the help-message popups, `setAutoFocus`, `toggleStatusCSS`, the pixel arithmetic of `adjustHelpMessageDisplay` and its helpers, and `enableCSSOverflow`.
  - `lookForParentTable` is not modelled. Its result is the `insideTable` field.
  - From `hideInNormalMode`, only the property changes are modelled, not the tabindex and mask changes.
- **Admin show/hide service.**
  - The `waitForReady` promise in `adminShowHideToggle` is not modelled. The show/hide call it makes is returned as a `ServiceCall` value.
- **Picker widgets.**
  - `syncInputTime` also writes the hour, minute and second into the selector elements; only the value it sets is modelled.
  - The datepicker, timepicker and datetimepicker set-up, tear-down, min/max updates and `toggleTimeSelector` are plugin configuration and UI events.
  - The `viewSet*` helpers only return view values and are not modelled.
- **Dates and numbers.** moment.js and numeral.js are not part of this model.
  - For the same reason `updateDisplayProxy`, `updateComponentValue` and the format helpers are left out.
- **Mixins.** The validation mixins are not part of this model.
  - `init`'s `set*ValidationProperties` calls are left out.
  - The string input's character counter is left out.
  - Their predicates and texts are parameters, passed as pure functions. Every result holds for any results they return; side effects of the mixins are not modelled.
- `DatetimeControl.SetInitialTimeDisplayValues`: `partsResolver` belongs to a mixin that is not part of this model.
  - Its result is taken as integer hour, minute and second, each possibly absent, and the raw millisecond and meridiem.
  - `parseInt` of a non-integer part is not modelled.
- **Numbers.** Only integers are modelled. NaN, fractions and numeric strings compared with `<` are not.
- **Observers and computed-property caching.** These belong to the run loop.
  - Only the `isValid` observer (`trackFailures`) runs on its own, inside `SetValidity`. Every other observer is a method the caller invokes.
- **Sorting and the table data.** These are the framework's and are not modelled:
  - the ordering produced by `Ember.computed.sort`;
  - the mechanics of `computed.map`;
  - the async relationship resolution in the table cell definition.
- **The filter branch of `setFilteredData`.** Filtering is not written in the source. The model records what the code does: the filtered data becomes undefined.
- **Route data and button clicks.**
  - The route's `model` hook reads the sample data, and `refresh` re-runs it. Both are left out with the sample data.
  - The buttons' `click` handlers only log.

## Notes

- Line 101 of `_form-input-date-time.js` rewrites 'YYYY' to 'yy', but the next line starts again from the original format, so that result is discarded. `DiscardedYearRewriteHarmless` proves the final format is the same either way: every 'YYYY' also becomes 'yy' through the YY→y rewrite.
