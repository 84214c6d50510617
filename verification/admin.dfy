/** JavaScript numbers as the settings forms see them: `NaN` or a finite
    value. The infinities are not modelled. */
module JsNumbers {
  import opened Utils

  datatype JsNumber = NaN | Num(value: real)

  /** `!x` is false: neither `NaN` nor zero. */
  predicate Truthy(x: JsNumber)
  {
    x.Num? && x.value != 0.0
  }

  /** `x < 0`; false whenever `NaN` is involved. */
  predicate Negative(x: JsNumber)
  {
    x.Num? && x.value < 0.0
  }

  /** `a <= b`; false whenever `NaN` is involved. */
  predicate AtMost(a: JsNumber, b: JsNumber)
  {
    a.Num? && b.Num? && a.value <= b.value
  }

  /** `+value` on a form field: text goes through the string-to-number
      conversion `toNumber`, an uploaded file converts to `NaN`. */
  function FieldNumber(field: FormEntry, toNumber: string -> JsNumber): JsNumber
    requires !field.Missing?
  {
    match field
    case TextEntry(s) => toNumber(s)
    case Upload => NaN
  }
}

/** The admin settings page: threshold validation and the action that
    stores the user's settings. The settings page holds an identical copy
    of the two validators, so they are defined once, here. */
module AdminRoute {
  import opened Options
  import opened Utils
  import opened UserSettingsHook
  import opened JsNumbers

  const WarningRequired := "Warning is required"
  const WarningNotPositive := "Warning must be positive"
  const CriticalRequired := "Critical is required"
  const CriticalNotPositive := "Critical must be positive"
  const CriticalNotAboveWarning := "Critical must be greater than warning"

  /** `getWarningError(warning)`: required, then positive, else no error. */
  function GetWarningError(warning: JsNumber): (r: Option<string>)
    ensures r.None? <==> warning.Num? && warning.value > 0.0
    ensures r == Some(WarningRequired) <==> !Truthy(warning)
    ensures r == Some(WarningNotPositive) <==> Negative(warning)
  {
    if !Truthy(warning) then Some(WarningRequired)
    else if Negative(warning) then Some(WarningNotPositive)
    else None
  }

  /** `getCriticalError(critical, warning)`: required, then positive, then
      above the warning, else no error. */
  function GetCriticalError(critical: JsNumber, warning: JsNumber): (r: Option<string>)
    ensures r.None? <==> critical.Num? && critical.value > 0.0 && !AtMost(critical, warning)
    ensures r == Some(CriticalRequired) <==> !Truthy(critical)
    ensures r == Some(CriticalNotPositive) <==> Negative(critical)
    ensures r == Some(CriticalNotAboveWarning) <==>
      critical.Num? && critical.value > 0.0 && AtMost(critical, warning)
  {
    if !Truthy(critical) then Some(CriticalRequired)
    else if Negative(critical) then Some(CriticalNotPositive)
    else if AtMost(critical, warning) then Some(CriticalNotAboveWarning)
    else None
  }

  /** The `errors` object of the actions. */
  datatype ThresholdErrors = ThresholdErrors(warning: Option<string>, critical: Option<string>)

  function Validate(warning: JsNumber, critical: JsNumber): ThresholdErrors
  {
    ThresholdErrors(GetWarningError(warning), GetCriticalError(critical, warning))
  }

  /** `Object.values(errors).some(...)`: every message is a non-empty
      string, so any message counts. */
  predicate HasErrors(e: ThresholdErrors)
  {
    e.warning.Some? || e.critical.Some?
  }

  /** The validators accept exactly the pairs with 0 < warning < critical. */
  lemma ValidationAcceptsOrderedThresholds(warning: JsNumber, critical: JsNumber)
    ensures !HasErrors(Validate(warning, critical)) <==>
      warning.Num? && critical.Num? && 0.0 < warning.value < critical.value
  {
  }

  /** When the warning is invalid the "greater than warning" message never
      appears, although the critical value is still compared with it. */
  lemma InvalidWarningHidesOrderError(warning: JsNumber, critical: JsNumber)
    requires GetWarningError(warning).Some?
    ensures GetCriticalError(critical, warning) != Some(CriticalNotAboveWarning)
  {
  }

  /** The built-in defaults (warning 5, critical 10) pass validation. */
  lemma DefaultsPassValidation()
    ensures !HasErrors(Validate(Num(Defaults.warning), Num(Defaults.critical)))
    ensures Defaults == AsUserSettings(UseUserSettings(None)).value
  {
    NoRootSettingsGivesDefaults();
  }

  /** The admin form: two number fields and the expand-pass-log toggle. */
  datatype AdminForm = AdminForm(warning: FormEntry, critical: FormEntry, expandPassLog: FormEntry)

  /** What the action does: return the errors, or store the settings. */
  datatype AdminOutcome = AdminRejected(errors: ThresholdErrors) | AdminSaved(settings: UserSettings)

  /** `+(formData.get(name) ?? "")`: a missing field reads as `+""`, 0. */
  function FormNumber(field: FormEntry, toNumber: string -> JsNumber): JsNumber
  {
    if field.Missing? then Num(0.0) else FieldNumber(field, toNumber)
  }

  /** The admin `action` after authentication. */
  function AdminAction(form: AdminForm, toNumber: string -> JsNumber): (r: AdminOutcome)
    ensures var e := Validate(FormNumber(form.warning, toNumber), FormNumber(form.critical, toNumber));
      && (r.AdminRejected? <==> HasErrors(e))
      && (r.AdminRejected? ==> r.errors == e)
    ensures r.AdminSaved? ==>
      && FormNumber(form.warning, toNumber) == Num(r.settings.warning)
      && FormNumber(form.critical, toNumber) == Num(r.settings.critical)
      && 0.0 < r.settings.warning < r.settings.critical
      && (r.settings.expandPassLog <==> form.expandPassLog == TextEntry("true"))
  {
    var warning := FormNumber(form.warning, toNumber);
    var critical := FormNumber(form.critical, toNumber);
    var expandPassLog := form.expandPassLog == TextEntry("true");
    var errors := Validate(warning, critical);
    if HasErrors(errors) then AdminRejected(errors)
    else
      ValidationAcceptsOrderedThresholds(warning, critical);
      AdminSaved(UserSettings(warning.value, critical.value, expandPassLog))
  }

  /** What a successful save hands to `upsertSetting`: an object with
      exactly the three setting keys, holding the accepted thresholds and
      flag, which reads back as the saved settings. */
  lemma SavedSettingsStored(form: AdminForm, toNumber: string -> JsNumber)
    requires AdminAction(form, toNumber).AdminSaved?
    ensures var s := AdminAction(form, toNumber).settings;
      var v := AsRecord(s);
      && v.Keys == {WarningKey, CriticalKey, ExpandPassLogKey}
      && v[WarningKey] == Number(s.warning) && FormNumber(form.warning, toNumber) == Num(s.warning)
      && v[CriticalKey] == Number(s.critical) && FormNumber(form.critical, toNumber) == Num(s.critical)
      && v[ExpandPassLogKey] == Flag(form.expandPassLog == TextEntry("true"))
      && AsUserSettings(v) == Some(s)
  {
  }

  /** A form without a warning or without a critical value is always
      sent back with the "required" message. */
  lemma MissingFieldIsRequired(form: AdminForm, toNumber: string -> JsNumber)
    requires form.warning.Missing? || form.critical.Missing?
    ensures AdminAction(form, toNumber).AdminRejected?
    ensures form.warning.Missing? ==> AdminAction(form, toNumber).errors.warning == Some(WarningRequired)
    ensures form.critical.Missing? ==> AdminAction(form, toNumber).errors.critical == Some(CriticalRequired)
  {
  }
}
