/** The older settings page: the same threshold validation, then one
    write per threshold of the text the user typed. */
module SettingsRoute {
  import opened Utils
  import opened JsNumbers
  import opened AdminRoute

  /** The settings form: the two threshold fields. */
  datatype SettingsForm = SettingsForm(warning: FormEntry, critical: FormEntry)

  /** What the action does: fail an `invariant`, return the errors, or
      issue the writes, in order, as (setting name, text) pairs. */
  datatype SettingsOutcome =
    | InvariantFailed(message: string)
    | SettingsRejected(errors: ThresholdErrors)
    | Upserted(writes: seq<(string, string)>)

  /** The settings `action` after authentication. */
  function SettingsAction(form: SettingsForm, toNumber: string -> JsNumber): (r: SettingsOutcome)
    ensures !form.warning.TextEntry? ==> r == InvariantFailed("warning must be a string")
    ensures form.warning.TextEntry? && !form.critical.TextEntry? ==>
      r == InvariantFailed("critical must be a string")
    ensures form.warning.TextEntry? && form.critical.TextEntry? ==>
      var e := Validate(toNumber(form.warning.s), toNumber(form.critical.s));
      && (r.SettingsRejected? <==> HasErrors(e))
      && (r.SettingsRejected? ==> r.errors == e)
    ensures r.Upserted? ==>
      && r.writes == [("warning", form.warning.s), ("critical", form.critical.s)]
      && toNumber(form.warning.s).Num? && toNumber(form.critical.s).Num?
      && 0.0 < toNumber(form.warning.s).value < toNumber(form.critical.s).value
  {
    if !form.warning.TextEntry? then InvariantFailed("warning must be a string")
    else if !form.critical.TextEntry? then InvariantFailed("critical must be a string")
    else
      var warningNumber := toNumber(form.warning.s);
      var criticalNumber := toNumber(form.critical.s);
      var errors := Validate(warningNumber, criticalNumber);
      if HasErrors(errors) then SettingsRejected(errors)
      else
        ValidationAcceptsOrderedThresholds(warningNumber, criticalNumber);
        Upserted([("warning", form.warning.s), ("critical", form.critical.s)])
  }

  /** On the same two texts the settings page and the admin page reach
      the same verdict with the same messages. */
  lemma SettingsAgreesWithAdmin(w: string, c: string, toggle: FormEntry, toNumber: string -> JsNumber)
    ensures var s := SettingsAction(SettingsForm(TextEntry(w), TextEntry(c)), toNumber);
      var a := AdminAction(AdminForm(TextEntry(w), TextEntry(c), toggle), toNumber);
      && (s.SettingsRejected? <==> a.AdminRejected?)
      && (s.SettingsRejected? ==> s.errors == a.errors)
      && (s.Upserted? ==> toNumber(w) == Num(a.settings.warning) && toNumber(c) == Num(a.settings.critical))
  {
  }
}
