/** The combat simulator's settings table: for each setting its name, the
    browser-storage key it is kept under and its default value, and the
    defaults object built from it (src/utility/combatSimSettings.js). */
module SimSettings {
  import opened JsCore

  /** One row of `SETTINGS_CONFIG`: the setting's name, its storage key and its default. */
  datatype ConfigEntry = ConfigEntry(name: string, key: string, defaultValue: JsValue)

  /** `SETTINGS_CONFIG`, in declaration order. */
  const SettingsConfig: seq<ConfigEntry> := [
    ConfigEntry("autoUseMP", "combatSimAutoUseMP", Bool(true)),
    ConfigEntry("autoOpenLogs", "combatSimAutoOpenLogs", Bool(true)),
    ConfigEntry("useDragAndDrop", "combatSimUseDragAndDrop", Bool(true)),
    ConfigEntry("autosaveEnabled", "combatSimAutosave", Bool(false)),
    ConfigEntry("autosaveInterval", "combatSimAutosaveInterval", Num(30)),
    ConfigEntry("showSaveSnackbar", "combatSimShowSaveSnackbar", Bool(true)),
    ConfigEntry("hideLogs", "combatSimHideLogs", Bool(false)),
    ConfigEntry("showBaseAttackEffect", "combatSimShowBaseAttackEffect", Bool(true)),
    ConfigEntry("showWeaponAttackEffect", "combatSimShowWeaponAttackEffect", Bool(true)),
    ConfigEntry("showSpellEffect", "combatSimShowSpellEffect", Bool(true)),
    ConfigEntry("autoCheckTurnAfterRoll", "combatSimAutoCheckTurnAfterRoll", Bool(false)),
    ConfigEntry("askBeforeRemove", "combatSimAskBeforeRemove", Bool(true)),
    ConfigEntry("autoRemoveNPCFaint", "combatSimAutoRemoveNPCFaint", Bool(false)),
    ConfigEntry("autoRollSpellOneTarget", "combatSimAutoRollSpellOneTarget", Bool(false))
  ]

  /** No two rows share a name. */
  predicate DistinctNames(config: seq<ConfigEntry>) {
    forall i, j :: 0 <= i < j < |config| ==> config[i].name != config[j].name
  }

  /** No two rows share a name, and no two rows share a storage key. */
  predicate Distinct(config: seq<ConfigEntry>) {
    && DistinctNames(config)
    && (forall i, j :: 0 <= i < j < |config| ==> config[i].key != config[j].key)
  }

  /** The names of a table's rows. */
  function Names(config: seq<ConfigEntry>): set<string> {
    set i | 0 <= i < |config| :: config[i].name
  }

  /** `m` is a defaults object of `config`: its keys are exactly the setting
      names, and each maps to its row's default. */
  predicate IsDefaults(config: seq<ConfigEntry>, m: map<string, JsValue>) {
    && m.Keys == Names(config)
    && forall i :: 0 <= i < |config| ==> m[config[i].name] == config[i].defaultValue
  }

  /** Walks the rows in order, setting `defaults[name] = defaultValue`. */
  method DefaultsOf(config: seq<ConfigEntry>) returns (defaults: map<string, JsValue>)
    requires DistinctNames(config)
    ensures IsDefaults(config, defaults)
  {
    defaults := map[];
    var i := 0;
    while i < |config|
      invariant 0 <= i <= |config|
      invariant defaults.Keys == Names(config[..i])
      invariant forall j :: 0 <= j < i ==> defaults[config[j].name] == config[j].defaultValue
    {
      assert config[..i + 1] == config[..i] + [config[i]];
      defaults := defaults[config[i].name := config[i].defaultValue];
      i := i + 1;
    }
    assert config[..i] == config;
  }

  /** The rows of `SETTINGS_CONFIG` have distinct names and distinct storage
      keys: their signatures already differ. */
  lemma SettingsConfigDistinct()
    ensures Distinct(SettingsConfig)
  {
    var c := SettingsConfig;
    NameSignaturesMatch();
    KeySignaturesMatch();
    SignaturesDiffer();
    forall i, j | 0 <= i < j < |c| ensures c[i].name != c[j].name && c[i].key != c[j].key {
      assert Signature(c[i].name, 0, 4) != Signature(c[j].name, 0, 4);
      assert Signature(c[i].key, 9, 13) != Signature(c[j].key, 9, 13);
    }
  }

  lemma NameSignaturesMatch()
    ensures |NameSignatures| == |SettingsConfig|
    ensures forall i :: 0 <= i < |SettingsConfig| ==> Signature(SettingsConfig[i].name, 0, 4) == NameSignatures[i]
  {
    NameSignaturesMatchFirst();
    NameSignaturesMatchLast();
  }

  lemma NameSignaturesMatchFirst()
    ensures forall i :: 0 <= i < 7 ==> Signature(SettingsConfig[i].name, 0, 4) == NameSignatures[i]
  {
  }

  lemma NameSignaturesMatchLast()
    ensures forall i :: 7 <= i < 14 ==> Signature(SettingsConfig[i].name, 0, 4) == NameSignatures[i]
  {
  }

  lemma KeySignaturesMatch()
    ensures |KeySignatures| == |SettingsConfig|
    ensures forall i :: 0 <= i < |SettingsConfig| ==> Signature(SettingsConfig[i].key, 9, 13) == KeySignatures[i]
  {
    KeySignaturesMatchFirst();
    KeySignaturesMatchLast();
  }

  lemma KeySignaturesMatchFirst()
    ensures forall i :: 0 <= i < 7 ==> Signature(SettingsConfig[i].key, 9, 13) == KeySignatures[i]
  {
  }

  lemma KeySignaturesMatchLast()
    ensures forall i :: 7 <= i < 14 ==> Signature(SettingsConfig[i].key, 9, 13) == KeySignatures[i]
  {
  }

  lemma SignaturesDiffer()
    ensures forall i, j :: 0 <= i < j < |NameSignatures| ==> NameSignatures[i] != NameSignatures[j]
    ensures forall i, j :: 0 <= i < j < |KeySignatures| ==> KeySignatures[i] != KeySignatures[j]
  {
  }

  /** A string's length and its characters at positions `a` and `b` (a blank
      where the string is too short). */
  function Signature(s: string, a: nat, b: nat): (int, char, char) {
    (|s|, if a < |s| then s[a] else ' ', if b < |s| then s[b] else ' ')
  }

  /** The rows' name signatures at positions 0 and 4: pairwise different. */
  const NameSignatures: seq<(int, char, char)> := [(9, 'a', 'U'), (12, 'a', 'O'), (14, 'u', 'r'), (15, 'a', 's'), (16, 'a', 's'), (16, 's', 'S'), (8, 'h', 'L'), (20, 's', 'B'), (22, 's', 'W'), (15, 's', 'S'), (22, 'a', 'C'), (15, 'a', 'e'), (18, 'a', 'R'), (22, 'a', 'R')]

  /** The rows' key signatures at positions 9 and 13: pairwise different. */
  const KeySignatures: seq<(int, char, char)> := [(18, 'A', 'U'), (21, 'A', 'O'), (23, 'U', 'r'), (17, 'A', 's'), (25, 'A', 's'), (25, 'S', 'S'), (17, 'H', 'L'), (29, 'S', 'B'), (31, 'S', 'W'), (24, 'S', 'S'), (31, 'A', 'C'), (24, 'A', 'e'), (27, 'A', 'R'), (31, 'A', 'R')]

  /** `getDefaultSettings()`: the defaults of `SETTINGS_CONFIG`. */
  method GetDefaultSettings() returns (defaults: map<string, JsValue>)
    ensures IsDefaults(SettingsConfig, defaults)
  {
    SettingsConfigDistinct();
    defaults := DefaultsOf(SettingsConfig);
  }

  /** A defaults object is determined by its table: two calls give equal objects. */
  lemma DefaultsUnique(config: seq<ConfigEntry>, m1: map<string, JsValue>, m2: map<string, JsValue>)
    requires IsDefaults(config, m1) && IsDefaults(config, m2)
    ensures m1 == m2
  {
    forall name | name in m1.Keys ensures m1[name] == m2[name] {
      var i :| 0 <= i < |config| && config[i].name == name;
    }
  }

  /** The value a settings object holds under `name`; a missing name reads as `undefined`. */
  function Get(m: map<string, JsValue>, name: string): JsValue {
    if name in m then m[name] else Undefined
  }

  /** The defaults of `SETTINGS_CONFIG` hold fourteen settings. */
  lemma DefaultsCount(m: map<string, JsValue>)
    requires IsDefaults(SettingsConfig, m)
    ensures |m.Keys| == 14
  {
    SettingsConfigDistinct();
    NamesCount(SettingsConfig);
  }

  /** Autosave starts off with a 30-second interval, and four more switches start off. */
  lemma DefaultsOff(m: map<string, JsValue>)
    requires IsDefaults(SettingsConfig, m)
    ensures Get(m, "autosaveInterval") == Num(30) && Get(m, "autosaveEnabled") == Bool(false)
    ensures Get(m, "hideLogs") == Get(m, "autoCheckTurnAfterRoll") == Get(m, "autoRemoveNPCFaint")
         == Get(m, "autoRollSpellOneTarget") == Bool(false)
  {
    var c := SettingsConfig;
    assert c[3].name == "autosaveEnabled" && c[4].name == "autosaveInterval";
    assert c[6].name == "hideLogs" && c[10].name == "autoCheckTurnAfterRoll";
    assert c[12].name == "autoRemoveNPCFaint" && c[13].name == "autoRollSpellOneTarget";
  }

  /** The other eight switches start on. */
  lemma DefaultsOn(m: map<string, JsValue>)
    requires IsDefaults(SettingsConfig, m)
    ensures Get(m, "autoUseMP") == Get(m, "autoOpenLogs") == Get(m, "useDragAndDrop")
         == Get(m, "showSaveSnackbar") == Get(m, "showBaseAttackEffect") == Get(m, "showWeaponAttackEffect")
         == Get(m, "showSpellEffect") == Get(m, "askBeforeRemove") == Bool(true)
  {
    var c := SettingsConfig;
    assert c[0].name == "autoUseMP" && c[1].name == "autoOpenLogs" && c[2].name == "useDragAndDrop";
    assert c[5].name == "showSaveSnackbar" && c[7].name == "showBaseAttackEffect";
    assert c[8].name == "showWeaponAttackEffect" && c[9].name == "showSpellEffect";
    assert c[11].name == "askBeforeRemove";
  }

  /** A table with distinct names has as many names as rows. */
  lemma {:induction false} NamesCount(config: seq<ConfigEntry>)
    requires DistinctNames(config)
    ensures |Names(config)| == |config|
  {
    if config != [] {
      var init := config[..|config| - 1];
      NamesCount(init);
      assert Names(config) == Names(init) + {config[|config| - 1].name};
      assert config[|config| - 1].name !in Names(init);
    }
  }
}
