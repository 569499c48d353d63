/** The combat simulator's encounter list page: its own six-row settings
    table, decoding the settings from browser storage when the page loads and
    when the settings dialog is closed, saving them back, changing one,
    creating an encounter and ordering the fetched list
    (src/routes/combat/combatSimulatorEncounters.jsx). */
module Encounters {
  import opened JsCore
  import opened SimSettings

  /** `MAX_ENCOUNTERS`. */
  const MaxEncounters := 100

  /** The page's local `SETTINGS_CONFIG`. */
  const LocalConfig: seq<ConfigEntry> := [
    ConfigEntry("autoUseMP", "combatSimAutoUseMP", Bool(true)),
    ConfigEntry("autoOpenLogs", "combatSimAutoOpenLogs", Bool(true)),
    ConfigEntry("useDragAndDrop", "combatSimUseDragAndDrop", Bool(true)),
    ConfigEntry("autosaveEnabled", "combatSimAutosave", Bool(false)),
    ConfigEntry("autosaveInterval", "combatSimAutosaveInterval", Num(30)),
    ConfigEntry("showSaveSnackbar", "combatSimShowSaveSnackbar", Bool(true))
  ]

  /** The local table is the first six rows of the shared one, so the page and
      the rest of the simulator agree on those keys and defaults. */
  lemma LocalConfigIsPrefix()
    ensures LocalConfig == SettingsConfig[..6]
    ensures Distinct(LocalConfig)
  {
    SettingsConfigDistinct();
  }

  /** Browser storage: key to stored string; a missing key reads as `null`. */
  type Storage = map<string, string>

  const IntervalName := "autosaveInterval"

  /** The initial-state decoder for one row: a missing value gives the default;
      the interval is read with `parseInt`, the others as `stored === "true"`. */
  function LoadEntry(storage: Storage, e: ConfigEntry): (v: JsValue)
    ensures e.key !in storage ==> v == e.defaultValue
    ensures e.key in storage && e.name == IntervalName ==> v == ParseInt(storage[e.key])
    ensures e.key in storage && e.name != IntervalName ==> v == Bool(storage[e.key] == "true")
  {
    if e.name == IntervalName then
      if e.key !in storage then e.defaultValue else ParseInt(storage[e.key])
    else
      if e.key !in storage then e.defaultValue else Bool(storage[e.key] == "true")
  }

  /** The decoder `handleCloseSettings` uses: the interval as on load, but every
      other row as `stored === "true"` even when nothing is stored. */
  function RestoreEntry(storage: Storage, e: ConfigEntry): (v: JsValue)
    ensures e.name == IntervalName ==> v == LoadEntry(storage, e)
    ensures e.name != IntervalName ==> v == Bool(e.key in storage && storage[e.key] == "true")
  {
    if e.name == IntervalName then
      if e.key !in storage then e.defaultValue else ParseInt(storage[e.key])
    else
      Bool(e.key in storage && storage[e.key] == "true")
  }

  /** The two decoders differ exactly on the switches that have nothing stored
      and default to on: closing the dialog turns those off. */
  lemma RestoreDiffersFromLoad(storage: Storage)
    ensures forall i :: 0 <= i < |LocalConfig| ==>
      (RestoreEntry(storage, LocalConfig[i]) != LoadEntry(storage, LocalConfig[i]) <==>
         LocalConfig[i].key !in storage && LocalConfig[i].defaultValue == Bool(true))
  {
  }

  /** On a fresh browser, loading turns "auto use MP" on and closing the dialog turns it off. */
  lemma FreshBrowserRestoreTurnsOff()
    ensures LoadEntry(map[], LocalConfig[0]) == Bool(true)
    ensures RestoreEntry(map[], LocalConfig[0]) == Bool(false)
  {
  }

  /** One row decoded the way the initialiser (`restore` false) or
      `handleCloseSettings` (`restore` true) does. */
  function DecodeEntry(storage: Storage, e: ConfigEntry, restore: bool): JsValue {
    if restore then RestoreEntry(storage, e) else LoadEntry(storage, e)
  }

  /** `settings` holds exactly the rows' names, each decoded from `storage`. */
  predicate Decoded(config: seq<ConfigEntry>, storage: Storage, settings: map<string, JsValue>, restore: bool) {
    && settings.Keys == Names(config)
    && forall i :: 0 <= i < |config| ==> settings[config[i].name] == DecodeEntry(storage, config[i], restore)
  }

  /** The `forEach` over the rows that fills the decoded settings object. */
  method DecodeWith(config: seq<ConfigEntry>, storage: Storage, restore: bool) returns (settings: map<string, JsValue>)
    requires DistinctNames(config)
    ensures Decoded(config, storage, settings, restore)
  {
    settings := map[];
    var i := 0;
    while i < |config|
      invariant 0 <= i <= |config|
      invariant settings.Keys == Names(config[..i])
      invariant forall j :: 0 <= j < i ==> settings[config[j].name] == DecodeEntry(storage, config[j], restore)
    {
      assert config[..i + 1] == config[..i] + [config[i]];
      settings := settings[config[i].name := DecodeEntry(storage, config[i], restore)];
      i := i + 1;
    }
    assert config[..i] == config;
  }

  /** The settings state's initialiser. */
  method LoadSettings(storage: Storage) returns (settings: map<string, JsValue>)
    ensures Decoded(LocalConfig, storage, settings, false)
  {
    LocalConfigIsPrefix();
    settings := DecodeWith(LocalConfig, storage, false);
  }

  /** The settings `handleCloseSettings` puts back. */
  method RestoreSettings(storage: Storage) returns (settings: map<string, JsValue>)
    ensures Decoded(LocalConfig, storage, settings, true)
  {
    LocalConfigIsPrefix();
    settings := DecodeWith(LocalConfig, storage, true);
  }

  // ---------------------------------------------------------------------------
  // Saving

  /** `value.toString()`; `null` and `undefined` have no `toString` and throw. */
  function ToStr(v: JsValue): (r: Option<string>)
    ensures r.None? <==> v.Undefined? || v.Null?
  {
    match v
    case Undefined => None
    case Null => None
    case Bool(b) => Some(if b then "true" else "false")
    case Num(n) => Some(IntToString(n))
    case NaN => Some("NaN")
    case Str(s) => Some(s)
  }

  /** `SETTINGS_CONFIG[settingName]?.key`: the storage key of a configured name. */
  function KeyOf(name: string): (k: Option<string>)
    ensures k.Some? <==> exists i :: 0 <= i < |LocalConfig| && LocalConfig[i].name == name
    ensures forall i :: 0 <= i < |LocalConfig| && LocalConfig[i].name == name ==> k == Some(LocalConfig[i].key)
  {
    LocalConfigIsPrefix();
    KeyIn(LocalConfig, name)
  }

  function KeyIn(config: seq<ConfigEntry>, name: string): (k: Option<string>)
    requires DistinctNames(config)
    ensures k.Some? <==> exists i :: 0 <= i < |config| && config[i].name == name
    ensures forall i :: 0 <= i < |config| && config[i].name == name ==> k == Some(config[i].key)
  {
    if config == [] then None
    else if config[0].name == name then Some(config[0].key)
    else
      assert forall i :: 1 <= i < |config| ==> config[i] == config[1..][i - 1];
      KeyIn(config[1..], name)
  }

  /** Some configured setting holds `null` or `undefined`, whose `toString` throws. */
  predicate HasUnprintable(config: seq<ConfigEntry>, settings: map<string, JsValue>) {
    exists i :: 0 <= i < |config| && config[i].name in settings && ToStr(settings[config[i].name]).None?
  }

  /** `after` is `before` with every configured setting of `settings` written
      under its key as its `toString`, and nothing else changed. */
  ghost predicate SavedFrom(config: seq<ConfigEntry>, settings: map<string, JsValue>, before: Storage, after: Storage) {
    && (forall i :: 0 <= i < |config| && config[i].name in settings ==>
          config[i].key in after && Some(after[config[i].key]) == ToStr(settings[config[i].name]))
    && (forall i :: 0 <= i < |config| && config[i].name !in settings ==>
          (config[i].key in after <==> config[i].key in before)
          && (config[i].key in before ==> after[config[i].key] == before[config[i].key]))
    && Untouched(config, before, after)
  }

  /** Keys outside the table are left as they were. */
  ghost predicate Untouched(config: seq<ConfigEntry>, before: Storage, after: Storage) {
    forall k :: (forall i :: 0 <= i < |config| ==> config[i].key != k) ==>
      (k in after <==> k in before) && (k in before ==> after[k] == before[k])
  }

  /** The walk over the settings object behind `handleSaveSettings`, for a
      table with distinct names and keys. */
  method SaveWith(config: seq<ConfigEntry>, settings: map<string, JsValue>, storage: Storage)
    returns (after: Storage, thrown: bool)
    requires Distinct(config)
    ensures thrown <==> HasUnprintable(config, settings)
    ensures !thrown ==> SavedFrom(config, settings, storage, after)
    ensures Untouched(config, storage, after)
  {
    after := storage;
    thrown := false;
    var remaining := settings.Keys;
    while remaining != {}
      invariant remaining <= settings.Keys
      invariant forall i :: 0 <= i < |config| && config[i].name in settings.Keys - remaining ==>
        config[i].key in after && Some(after[config[i].key]) == ToStr(settings[config[i].name])
      invariant forall i :: 0 <= i < |config| && config[i].name !in settings.Keys - remaining ==>
        (config[i].key in after <==> config[i].key in storage)
        && (config[i].key in storage ==> after[config[i].key] == storage[config[i].key])
      invariant Untouched(config, storage, after)
      decreases |remaining|
    {
      var settingName :| settingName in remaining;
      var key := KeyIn(config, settingName);
      if key.Some? {
        var text := ToStr(settings[settingName]);
        if text.None? {
          thrown := true;
          return;
        }
        after := after[key.value := text.value];
      }
      remaining := remaining - {settingName};
    }
  }

  /** `handleSaveSettings()`: writes every setting that has a configured key
      (`SETTINGS_CONFIG[settingName]?.key`, see `KeyOf`). The settings object
      is walked in some order; `thrown` reports a `toString` on `null` or
      `undefined`, in which case the writes made before it stay but only
      configured keys are touched. */
  method SaveSettings(settings: map<string, JsValue>, storage: Storage) returns (after: Storage, thrown: bool)
    ensures thrown <==> HasUnprintable(LocalConfig, settings)
    ensures !thrown ==> SavedFrom(LocalConfig, settings, storage, after)
    ensures Untouched(LocalConfig, storage, after)
  {
    LocalConfigIsPrefix();
    after, thrown := SaveWith(LocalConfig, settings, storage);
  }

  /** Well-formed settings: every row present, the switches booleans and the
      interval an integer. */
  predicate WellTyped(settings: map<string, JsValue>) {
    forall i :: 0 <= i < |LocalConfig| ==>
      && LocalConfig[i].name in settings
      && (if LocalConfig[i].name == IntervalName then settings[LocalConfig[i].name].Num?
          else settings[LocalConfig[i].name].Bool?)
  }

  /** Loading what was saved gives back every well-typed setting: the switches'
      booleans and the interval's integer. */
  lemma SaveThenLoad(settings: map<string, JsValue>, before: Storage, after: Storage)
    requires WellTyped(settings) && SavedFrom(LocalConfig, settings, before, after)
    ensures forall i :: 0 <= i < |LocalConfig| ==>
      LoadEntry(after, LocalConfig[i]) == settings[LocalConfig[i].name]
  {
    forall i | 0 <= i < |LocalConfig|
      ensures LoadEntry(after, LocalConfig[i]) == settings[LocalConfig[i].name]
    {
      var e := LocalConfig[i];
      var v := settings[e.name];
      if e.name == IntervalName {
        ParseIntOfIntToString(v.n);
      } else {
        assert "false" != "true";
      }
    }
  }

  /** Well-typed settings have nothing unprintable, so saving them does not throw. */
  lemma WellTypedSaves(settings: map<string, JsValue>)
    requires WellTyped(settings)
    ensures !HasUnprintable(LocalConfig, settings)
  {
  }

  // ---------------------------------------------------------------------------
  // Changing a setting

  /** `handleSettingChange(name, value)`: `{...prev, [name]: value}`. */
  function SettingChange(settings: map<string, JsValue>, name: string, value: JsValue): (r: map<string, JsValue>)
    ensures r.Keys == settings.Keys + {name}
    ensures r[name] == value
    ensures forall k :: k in settings && k != name ==> r[k] == settings[k]
  {
    settings[name := value]
  }

  /** Changing a setting back to its previous value restores the settings. */
  lemma SettingChangeUndo(settings: map<string, JsValue>, name: string, value: JsValue)
    requires name in settings
    ensures SettingChange(SettingChange(settings, name, value), name, settings[name]) == settings
  {
    var r := SettingChange(SettingChange(settings, name, value), name, settings[name]);
    assert r.Keys == settings.Keys;
  }

  // ---------------------------------------------------------------------------
  // Creating an encounter and ordering the list

  /** The record `handleSaveEncounter` hands to `addEncounter`; the two times
      are the two `new Date()` readings, as integer timestamps. */
  datatype NewEncounter = NewEncounter(name: string, round: int, createdAt: int, updatedAt: int)

  /** `handleSaveEncounter()`: nothing when the trimmed name is empty or the
      list is full; otherwise a record with the trimmed name, at round 1. */
  function SaveEncounter(encounterName: string, count: nat, createdNow: int, updatedNow: int): (r: Option<NewEncounter>)
    ensures r.None? <==> AllBlank(encounterName) || count >= MaxEncounters
    ensures r.Some? ==> && r.value.name == Trim(encounterName) && r.value.name != ""
                        && r.value.round == 1
                        && r.value.createdAt == createdNow && r.value.updatedAt == updatedNow
  {
    TrimEmptyIffBlank(encounterName);
    if Trim(encounterName) == "" || count >= MaxEncounters then None
    else Some(NewEncounter(Trim(encounterName), 1, createdNow, updatedNow))
  }

  /** A fetched encounter; only `updatedAt` matters for the order. */
  datatype Encounter = Encounter(id: int, name: string, round: int, createdAt: int, updatedAt: int)

  /** Newest first: `updatedAt` never increases along the list. */
  predicate NewestFirst(s: seq<Encounter>) {
    forall i, j :: 0 <= i < j < |s| ==> s[i].updatedAt >= s[j].updatedAt
  }

  /** The first `n` entries of `a` are newest first. */
  predicate NewestFirstUpTo(a: array<Encounter>, n: int)
    reads a
  {
    forall k, l :: 0 <= k < l < n && l < a.Length ==> a[k].updatedAt >= a[l].updatedAt
  }

  /** Exchanges the entries at `j - 1` and `j`. */
  method SwapDown(a: array<Encounter>, j: int)
    requires 0 < j < a.Length
    modifies a
    ensures a[j - 1] == old(a[j]) && a[j] == old(a[j - 1])
    ensures forall m :: 0 <= m < a.Length && m != j - 1 && m != j ==> a[m] == old(a[m])
    ensures multiset(a[..]) == multiset(old(a[..]))
  {
    a[j - 1], a[j] := a[j], a[j - 1];
  }

  /** Moves the entry at `i` left past every older entry, so that the first
      `i + 1` entries are newest first. */
  method SinkNewest(a: array<Encounter>, i: int)
    requires 0 <= i < a.Length && NewestFirstUpTo(a, i)
    modifies a
    ensures NewestFirstUpTo(a, i + 1)
    ensures forall m :: i < m < a.Length ==> a[m] == old(a[m])
    ensures multiset(a[..]) == multiset(old(a[..]))
  {
    var j := i;
    while j > 0 && a[j - 1].updatedAt < a[j].updatedAt
      invariant 0 <= j <= i
      invariant forall k, l :: 0 <= k < l <= i && k != j && l != j ==> a[k].updatedAt >= a[l].updatedAt
      invariant forall l :: j < l <= i ==> a[j].updatedAt > a[l].updatedAt
      invariant forall m :: i < m < a.Length ==> a[m] == old(a[m])
      invariant multiset(a[..]) == multiset(old(a[..]))
    {
      SwapDown(a, j);
      j := j - 1;
    }
  }

  /** The sort of the fetched list by descending update time, which compares
      the two `updatedAt` values as dates. Here `updatedAt` is an integer
      timestamp, and the sort is an insertion sort in place. */
  method SortNewestFirst(a: array<Encounter>)
    modifies a
    ensures NewestFirst(a[..])
    ensures multiset(a[..]) == multiset(old(a[..]))
  {
    var i := 0;
    while i < a.Length
      invariant 0 <= i <= a.Length
      invariant NewestFirstUpTo(a, i)
      invariant multiset(a[..]) == multiset(old(a[..]))
    {
      SinkNewest(a, i);
      i := i + 1;
    }
  }
}
