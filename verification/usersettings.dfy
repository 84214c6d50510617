/** The per-user settings hook: built-in defaults overridden, key by key,
    by whatever settings the root loader supplied (the object spread
    `{ ...DEFAULT_USER_SETTINGS, ...rootData?.userSettings }`). */
module UserSettingsHook {
  import opened Options

  /** A stored setting value as the spread copies it. */
  datatype SettingValue = Number(n: real) | Flag(b: bool) | Text(s: string)

  /** A settings object: property name to value. */
  type SettingsRecord = map<string, SettingValue>

  /** The typed view the rest of the application reads. */
  datatype UserSettings = UserSettings(warning: real, critical: real, expandPassLog: bool)

  const WarningKey := "warning"
  const CriticalKey := "critical"
  const ExpandPassLogKey := "expandPassLog"

  const DefaultUserSettings: SettingsRecord :=
    map[WarningKey := Number(5.0), CriticalKey := Number(10.0), ExpandPassLogKey := Flag(false)]

  /** `useUserSettings()`: the defaults, with every key the root settings
      carry taking the root value. A missing root object contributes
      nothing. */
  function UseUserSettings(root: Option<SettingsRecord>): (r: SettingsRecord)
    ensures root.None? ==> r == DefaultUserSettings
    ensures root.Some? ==> r.Keys == DefaultUserSettings.Keys + root.value.Keys
    ensures root.Some? ==> forall k :: k in root.value ==> r[k] == root.value[k]
    ensures forall k :: k in DefaultUserSettings && (root.None? || k !in root.value) ==>
              r[k] == DefaultUserSettings[k]
  {
    match root
    case None => DefaultUserSettings
    case Some(overrides) => DefaultUserSettings + overrides
  }

  /** Reads the three known keys when each holds a value of its declared
      type. */
  function AsUserSettings(r: SettingsRecord): (s: Option<UserSettings>)
    ensures s.Some? <==>
      && WarningKey in r && r[WarningKey].Number?
      && CriticalKey in r && r[CriticalKey].Number?
      && ExpandPassLogKey in r && r[ExpandPassLogKey].Flag?
    ensures s.Some? ==>
      s.value.warning == r[WarningKey].n && s.value.critical == r[CriticalKey].n
      && s.value.expandPassLog == r[ExpandPassLogKey].b
  {
    if && WarningKey in r && r[WarningKey].Number?
       && CriticalKey in r && r[CriticalKey].Number?
       && ExpandPassLogKey in r && r[ExpandPassLogKey].Flag?
    then Some(UserSettings(r[WarningKey].n, r[CriticalKey].n, r[ExpandPassLogKey].b))
    else None
  }

  const Defaults := UserSettings(5.0, 10.0, false)

  /** The settings object `{ warning, critical, expandPassLog }` built from
      a typed view, as the admin action hands it to `upsertSetting`. */
  function AsRecord(s: UserSettings): (r: SettingsRecord)
    ensures r.Keys == DefaultUserSettings.Keys
  {
    map[WarningKey := Number(s.warning), CriticalKey := Number(s.critical),
        ExpandPassLogKey := Flag(s.expandPassLog)]
  }

  /** `AsUserSettings` inverts `AsRecord`: the record of a view reads back
      as that view, and a record that reads as a view agrees with that
      view's record on every known key. */
  lemma AsUserSettingsRoundTrip(s: UserSettings, r: SettingsRecord)
    ensures AsUserSettings(AsRecord(s)) == Some(s)
    ensures AsUserSettings(r) == Some(s) ==>
      forall k :: k in AsRecord(s) ==> k in r && r[k] == AsRecord(s)[k]
  {
  }

  /** With no root settings the hook yields warning 5, critical 10 and a
      collapsed pass log. */
  lemma NoRootSettingsGivesDefaults()
    ensures AsUserSettings(UseUserSettings(None)) == Some(Defaults)
  {
  }

  /** The merge always carries the three known keys, whatever the root
      settings hold. */
  lemma MergeKeepsKnownKeys(root: Option<SettingsRecord>)
    ensures WarningKey in UseUserSettings(root)
    ensures CriticalKey in UseUserSettings(root)
    ensures ExpandPassLogKey in UseUserSettings(root)
  {
  }

  /** Overriding only some keys keeps the defaults of the others: a root
      object that sets just the warning threshold yields that warning with
      the default critical threshold and pass-log flag. */
  lemma PartialOverride(w: real)
    ensures AsUserSettings(UseUserSettings(Some(map[WarningKey := Number(w)])))
            == Some(UserSettings(w, 10.0, false))
  {
    var r := UseUserSettings(Some(map[WarningKey := Number(w)]));
    assert r[CriticalKey] == Number(10.0);
    assert r[ExpandPassLogKey] == Flag(false);
  }
}
