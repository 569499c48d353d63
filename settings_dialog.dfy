/** The combat simulator's settings dialog: the switch and autosave-interval
    handlers, which only forward a value to the owner, and the items the dialog
    lists with the rule that colours their icons
    (src/components/combatSim/SettingsDialog.jsx). */
module SettingsDialog {
  import opened JsCore

  /** One `onSettingChange(name, value)` call. */
  datatype SettingUpdate = SettingUpdate(name: string, value: JsValue)

  /** `handleSwitchChange(name)(event)`: forwards the switch's `checked` state. */
  function SwitchChange(name: string, checked: bool): (u: SettingUpdate)
    ensures u.name == name && u.value.Bool? && u.value.b == checked
  {
    SettingUpdate(name, Bool(checked))
  }

  /** `handleIntervalChange(event)` on the text `value` of the field: an empty
      field is forwarded as `""`, a field that `parseInt` reads as a number is
      forwarded as that number, anything else is not forwarded. */
  function IntervalChange(value: string): (u: Option<SettingUpdate>)
    ensures u.Some? ==> u.value.name == "autosaveInterval"
    ensures value == "" ==> u == Some(SettingUpdate("autosaveInterval", Str("")))
    ensures value != "" ==> (u.None? <==> Unsigned(value) == [] || !IsDigit(Unsigned(value)[0]))
    ensures value != "" && u.Some? ==> u.value.value.Num? && u.value.value == ParseInt(value)
  {
    if value == "" then Some(SettingUpdate("autosaveInterval", Str("")))
    else
      var parsedValue := ParseInt(value);
      if !IsNaN(parsedValue) then Some(SettingUpdate("autosaveInterval", parsedValue)) else None
  }

  /** Typing the numeral of an integer forwards that integer. */
  lemma IntervalChangeOfNumeral(n: int)
    ensures IntervalChange(IntToString(n)) == Some(SettingUpdate("autosaveInterval", Num(n)))
  {
    ParseIntOfIntToString(n);
  }

  function Max(a: int, b: int): int { if a < b then b else a }
  function Min(a: int, b: int): int { if a < b then a else b }

  /** The highest autosave interval the dialog lets through. */
  const MaxInterval := 300

  /** `handleIntervalBlur()` on the current `settings.autosaveInterval`: an empty
      or non-numeric value becomes 0; the number is then clamped to [0, 300]. */
  function IntervalBlur(v: JsValue): (r: int)
    ensures 0 <= r <= MaxInterval
    ensures v == Str("") || IsNaN(v) ==> r == 0
    ensures !(v == Str("") || IsNaN(v)) ==>
      var x := ToNumber(v).n;
      && (x <= 0 ==> r == 0)
      && (x >= MaxInterval ==> r == MaxInterval)
      && (0 <= x <= MaxInterval ==> r == x)
  {
    var value := if v == Str("") || IsNaN(v) then Num(0) else v;
    Min(Max(ToNumber(value).n, 0), MaxInterval)
  }

  /** An in-range integer survives the blur, so blurring twice is blurring once. */
  lemma IntervalBlurIdempotent(v: JsValue)
    ensures IntervalBlur(Num(IntervalBlur(v))) == IntervalBlur(v)
    ensures forall n :: 0 <= n <= MaxInterval ==> IntervalBlur(Num(n)) == n
  {
  }

  /** The field kinds of the dialog. */
  datatype ItemType = Switch | Number

  /** One listed setting: its key, current value, kind and whether it is disabled
      (`disabled` is given only for the number field). */
  datatype Item = Item(name: string, value: JsValue, itemType: ItemType, disabled: bool)

  /** The value the dialog destructures from `settings`; a missing key is `undefined`. */
  function Setting(settings: map<string, JsValue>, name: string): JsValue {
    if name in settings then settings[name] else Undefined
  }

  /** The items of both categories, in the order the dialog lists them. */
  function Items(settings: map<string, JsValue>): seq<Item> {
    [ Item("autoUseMP", Setting(settings, "autoUseMP"), Switch, false),
      Item("autoOpenLogs", Setting(settings, "autoOpenLogs"), Switch, false),
      Item("autosaveEnabled", Setting(settings, "autosaveEnabled"), Switch, false),
      Item("autosaveInterval", Setting(settings, "autosaveInterval"), Number, !Truthy(Setting(settings, "autosaveEnabled"))),
      Item("useDragAndDrop", Setting(settings, "useDragAndDrop"), Switch, false),
      Item("showSaveSnackbar", Setting(settings, "showSaveSnackbar"), Switch, false),
      Item("hideLogs", Setting(settings, "hideLogs"), Switch, false) ]
  }

  /** The icon is coloured (rather than greyed out) for a switch that is on and
      for a number field that is enabled. */
  predicate IconActive(item: Item) {
    (item.itemType == Switch && Truthy(item.value)) || (item.itemType == Number && !item.disabled)
  }

  /** Every item shows its own setting; exactly one item is the interval field,
      which is disabled exactly when autosave is off; a switch's icon is active
      exactly when its setting is on, and the interval's icon exactly when
      autosave is on. */
  lemma ItemsRule(settings: map<string, JsValue>)
    ensures var items := Items(settings);
      && |items| == 7
      && (forall i :: 0 <= i < |items| ==> items[i].value == Setting(settings, items[i].name))
      && (forall i :: 0 <= i < |items| ==> (items[i].itemType == Number <==> items[i].name == "autosaveInterval"))
      && (forall i :: 0 <= i < |items| && items[i].itemType == Number ==>
            (items[i].disabled <==> !Truthy(Setting(settings, "autosaveEnabled"))))
      && (forall i :: 0 <= i < |items| ==>
            (IconActive(items[i]) <==>
               if items[i].itemType == Switch then Truthy(Setting(settings, items[i].name))
               else Truthy(Setting(settings, "autosaveEnabled"))))
      && (forall i, j :: 0 <= i < j < |items| ==> items[i].name != items[j].name)
  {
  }
}
