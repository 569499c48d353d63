# Clocks, notes and combat-simulator settings of Fultimator Desktop

This project is a Dafny model of the clock widget of Fultimator Desktop and of
the screens around it. Fultimator Desktop is a character-sheet and
combat-simulator companion for the *Fabula Ultima* tabletop game. The model
covers:

- **Clock** (`clock.dfy`): the circular progress clock. A clock is an array of
  `numSections` booleans, one per wedge. The model covers:
  - the click toggle, which fills every wedge up to the clicked one or clears
    it and every wedge after it;
  - the mouse-press, drag, hover and touch handlers, which decide when a
    toggle is committed;
  - the right-click reset to all-empty;
  - the wedge colour table and the wedge angles.

  The widget is a class. Its interaction fields (`hoveredIndex`,
  `isMouseDown`, `touchedIndex`) are updated in place, and every array it
  hands to its owner is recorded.
- **CombatClocks** (`combat_clocks.dfy`): the combat simulator's clock list.
  Covered are the increment and decrement buttons, the "log current state"
  entry, and the per-clock menu with its open, close and action handlers.
- **PlayerNotes** (`player_notes.dfy`): notes on the compact player sheet.
  Covered are:
  - the update of one clock of one note;
  - the reset of one clock;
  - which notes are shown, and the dividers between them;
  - the split of a note's clocks into a left and a right column.
- **AttributeModifiers** and **AttributeSection** (`attribute_modifiers.dfy`,
  `attribute_section.dfy`): the per-attribute ±2 modifiers of an NPC.
  - Adding a modifier cancels positives against negatives.
  - A modifier can be removed by its index.
  - The NPC list is rewritten with the new modifiers, and the value is tinted
    by comparison with the original value.
- **SettingsDialog**, **SimSettings** and **Encounters** (`settings_dialog.dfy`,
  `sim_settings.dfy`, `encounter_settings.dfy`): the combat simulator's
  settings.
  - The dialog forwards switch and interval input, and clamps the interval
    when the field loses focus.
  - Each settings table gives a setting's name, its storage key and its
    default; the defaults object is built from the table.
  - Settings are loaded from, saved to and restored from browser storage,
    which is modelled as a map from strings to strings.
  - The encounter screen creates new encounters and sorts its encounter list
    newest first.
- **PlayerBonds** (`player_bonds.dfy`): the bond table. A bond's strength is
  the number of its emotion flags. Its label line lists the shown emotions
  with comma separators. The star appears exactly when a label does.
- **PlayerSpells** and **EntropistGamble** (`player_spells.dfy`,
  `entropist_gamble.dfy`): the compact spell section.
  - It has two class groups, one for default and gamble spells and one for
    arcana.
  - Each block has its rows and its column header.
  - An entropist gamble's table has range labels, alternating backgrounds and
    second-roll blocks.
- **JsCore** (`js_core.dfy`): the few JavaScript built-ins whose behaviour the
  components depend on:
  - truthiness;
  - `parseInt(s, 10)`, and integer printing;
  - `Number` conversion for `isNaN` and `Math.min`/`Math.max`;
  - `String.prototype.trim`;
  - `Array.prototype.filter` and `some`.

Values that JavaScript leaves dynamically typed (a setting, a
`showInPlayerSheet` flag, a bond's emotion flag) are `JsValue`s, and the
model decides them by `Truthy` exactly as the components do. Colours are
tokens: a theme's palette is not modelled.

### Behaviours of the code worth knowing

- **Clicking does not make a clock contiguous.** A clock is contiguous when its
  filled wedges form one run starting at wedge 0. A click does not restore
  that shape when it is already broken (`Clock.jsx:56-66`). Clicking an empty wedge fills everything up to it but
  leaves later wedges alone. So `[false, false, true]`, clicked at 0, becomes
  `[true, false, true]`; `Clock.ToggleKeepsGap` shows this. The model follows
  the code.
  - `Clock.ToggleKeepsPrefix` proves that a click keeps a clock contiguous
    when it already was.
  - `Clock.ClockWidget.Click` and the other handlers carry the same guarantee
    as `old(Canonical()) ==> Canonical()`.
- **The notes' filtered index reaches the wrong note.** The notes list is
  indexed after hidden notes are filtered out (`PlayerNotes.jsx:87-89`). The
  clock handlers then use that index into the unfiltered `player.notes`
  (`PlayerNotes.jsx:37`, `:55`), so a clock click can edit a hidden note. The
  model keeps this behaviour:
  - `PlayerNotes.FilteredIndexEditsHiddenNote` gives a concrete instance;
  - `PlayerNotes.FilteredIndexThrowsOnClocklessNote` shows that when the
    hidden note has no clocks list, the same click makes the update throw;
  - `PlayerNotes.NoHiddenNoteIndicesAgree` shows that the two indices agree
    when no note is hidden.
- **The encounter screen has its own settings table.** It holds only the
  first six rows of the shared table (`combatSimulatorEncounters.jsx:37-62`).
  The model keeps the two tables apart and proves the prefix relation
  (`Encounters.LocalConfigIsPrefix`).
- **Restoring settings is not the same as loading them.** Restoring decodes a
  missing switch as `false` rather than as its default
  (`combatSimulatorEncounters.jsx:177`). `Encounters.RestoreDiffersFromLoad`
  characterises exactly when the two disagree.

## Model

| member | source | states |
|---|---|---|
| JsCore.ParseInt | src/components/combatSim/SettingsDialog.jsx:60 | `parseInt(s, 10)` is a number or `NaN`, and it is `NaN` exactly when no digit follows the optional sign |
| JsCore.ParseIntOfIntToString | src/components/combatSim/SettingsDialog.jsx:60-62 | parsing the printed form of any integer gives that integer back |
| JsCore.ParseIntOfPrefix | src/components/player/playerSheet/compact/spells/SpellEntropistGamble.jsx:46 | a printed integer followed by a non-digit still parses as that integer, so the first end of a `from-to` label reads back |
| JsCore.IntToString | src/components/player/playerSheet/compact/spells/SpellEntropistGamble.jsx:44-46 | an integer prints as a non-empty run of digits, led by `-` exactly for a negative integer |
| JsCore.ToNumber | src/components/combatSim/SettingsDialog.jsx:70-75 | the numeric conversion behind `isNaN` and `Math.max` gives a number or `NaN` and leaves a number unchanged |
| JsCore.Trim | src/routes/combat/combatSimulatorEncounters.jsx:189 | `trim()` returns a contiguous slice of its input that neither starts nor ends with white space, and everything cut off before and after it is white space |
| JsCore.TrimEmptyIffBlank | src/routes/combat/combatSimulatorEncounters.jsx:189 | a name trims to the empty string exactly when it is all white space |
| JsCore.TrimIdempotent | src/routes/combat/combatSimulatorEncounters.jsx:193 | trimming an already trimmed name changes nothing |
| JsCore.Filter | src/components/player/playerSheet/compact/PlayerNotes.jsx:87-88 | `filter` keeps only elements of its input that pass the test and is never longer than its input |
| JsCore.FilterIsOrderedSelection | src/components/player/playerSheet/compact/PlayerNotes.jsx:87-88 | the filtered list is the input read at the kept positions, in increasing order |
| JsCore.KeptPositions | src/components/player/playerSheet/compact/PlayerNotes.jsx:87-88 | the kept positions are increasing, each passes the test, and every passing position is among them |
| JsCore.FilterEmptyIff | src/components/player/playerSheet/compact/PlayerNotes.jsx:62-63 | a filter is empty exactly when no element passes |
| JsCore.FilterAppend | src/components/combatSim/npcDetail/AttributeModifierDialog.jsx:13-14 | filtering a concatenation is concatenating the filters |
| JsCore.FilterAll | src/components/player/playerSheet/compact/PlayerNotes.jsx:87-88 | a filter that every element passes returns its input |
| JsCore.Any | src/components/player/playerSheet/compact/PlayerSpells.jsx:21-26 | `some` holds exactly when some element passes |
| Clock.Run | src/components/player/playerSheet/Clock.jsx:123 | the `k`-filled clock of `n` wedges has `n` entries and is contiguous |
| Clock.CountFilledOfRun | src/components/player/playerSheet/Clock.jsx:142 | a clock whose first `k` wedges are filled has `k` filled wedges |
| Clock.PrefixFilledIsRun | src/components/player/playerSheet/Clock.jsx:142 | a contiguous clock is the run of its filled count |
| Clock.PrefixFilledIff | src/components/player/playerSheet/Clock.jsx:142 | a clock is contiguous exactly when it is some run of filled wedges |
| Clock.SectionClick | src/components/player/playerSheet/Clock.jsx:52-68 | the copy-and-overwrite loops produce the toggled state: a filled wedge clears itself and every later wedge up to `numSections`, an empty wedge fills itself and every earlier wedge |
| Clock.Toggled | src/components/player/playerSheet/Clock.jsx:52-66 | the state a click leaves; specified by `Clock.SectionClick`, `Clock.ToggleOnRun`, `Clock.ToggleKeepsPrefix`, `Clock.ToggleFrame` and `Clock.ToggleKeepsGap` |
| Clock.ToggleOnRun | src/components/player/playerSheet/Clock.jsx:56-66 | on a contiguous clock of `k` filled wedges, clicking wedge `i` leaves `i` filled wedges when `i < k`, and `i + 1` otherwise |
| Clock.ToggleKeepsPrefix | src/components/player/playerSheet/Clock.jsx:56-66 | a click keeps a contiguous clock contiguous and of the same length, with the clicked wedge as the new boundary |
| Clock.ToggleFrame | src/components/player/playerSheet/Clock.jsx:53-66 | a click on a filled wedge keeps the wedges before it and clears the rest; a click on an empty wedge fills up to it and keeps the wedges after it; the array never shrinks |
| Clock.ToggleKeepsGap | src/components/player/playerSheet/Clock.jsx:61-66 | clicking an empty wedge before a gap leaves the gap: `[false, false, true]` clicked at 0 becomes `[true, false, true]`, which is not contiguous |
| Clock.WedgeFill | src/components/player/playerSheet/Clock.jsx:142-168 | a wedge's colour; specified by `Clock.WedgeFillTable` and `Clock.TouchPreviewMatchesCommit` |
| Clock.ClockWidget.FillOf | src/components/player/playerSheet/Clock.jsx:142-168 | the colour of a wedge of the widget, the colour `Clock.WedgeFillTable` describes for the widget's own mode, hover, touch and press |
| Clock.StartAngle | src/components/player/playerSheet/Clock.jsx:129 | where a wedge starts; specified by `Clock.WedgesTileTheCircle` and `Clock.LargeArcIffSingleWedge` |
| Clock.EndAngle | src/components/player/playerSheet/Clock.jsx:130 | where a wedge ends; specified by `Clock.WedgesTileTheCircle` and `Clock.LargeArcIffSingleWedge` |
| Clock.WedgeFillTable | src/components/player/playerSheet/Clock.jsx:142-168 | a wedge looks filled exactly when it is filled, in every mode, and it is highlighted exactly when it is previewed outside character-sheet mode |
| Clock.TouchPreviewMatchesCommit | src/components/player/playerSheet/Clock.jsx:150-158 | on a touch device, touching an empty wedge of a contiguous clock highlights exactly the wedges that releasing on it will leave filled |
| Clock.LargeArcIffSingleWedge | src/components/player/playerSheet/Clock.jsx:138 | a wedge is drawn with the large-arc flag exactly when the clock has a single wedge |
| Clock.WedgesTileTheCircle | src/components/player/playerSheet/Clock.jsx:128-131 | the wedge spans add up to each wedge's start angle, and all of them to 360 degrees |
| Clock.ClockWidget.constructor | src/components/player/playerSheet/Clock.jsx:23-26 | a widget starts with no hover, no press and no touch, and it has committed nothing |
| Clock.ClockWidget.Commit | src/components/player/playerSheet/Clock.jsx:67 | `setState` records the array as the new state and changes no interaction field |
| Clock.ClockWidget.Click | src/components/player/playerSheet/Clock.jsx:52-68 | a click commits the toggled state, touches nothing else, and keeps a contiguous clock contiguous |
| Clock.ClockWidget.MouseDown | src/components/player/playerSheet/Clock.jsx:76-81 | on a desktop outside character-sheet mode, pressing marks the mouse down and commits the toggle; otherwise nothing changes |
| Clock.ClockWidget.MouseEnter | src/components/player/playerSheet/Clock.jsx:83-90 | on a desktop, entering a wedge records the hover and, while the mouse is down, commits the toggle of that wedge; otherwise nothing changes |
| Clock.ClockWidget.MouseLeave | src/components/player/playerSheet/Clock.jsx:92-96 | on a desktop, leaving clears the hover and nothing else |
| Clock.ClockWidget.GlobalMouseUp | src/components/player/playerSheet/Clock.jsx:42-50 | releasing the mouse anywhere clears the press flag and nothing else |
| Clock.ClockWidget.TouchStart | src/components/player/playerSheet/Clock.jsx:99-103 | on a touch device, touching records the touched wedge and nothing else |
| Clock.ClockWidget.TouchEnd | src/components/player/playerSheet/Clock.jsx:105-112 | on a touch device, releasing clears the touch and commits the toggle exactly when the release is on the touched wedge |
| Clock.ClockWidget.TouchCancel | src/components/player/playerSheet/Clock.jsx:114-118 | on a touch device, a cancelled touch clears the touch and commits nothing |
| Clock.ClockWidget.ContextMenu | src/components/player/playerSheet/Clock.jsx:120-125 | outside character-sheet mode the context menu commits an all-empty clock of `numSections` wedges |
| Clock.ClockWidget.RightClick | src/components/player/playerSheet/Clock.jsx:70-74 | the intended right-click handler calls `onReset` once when it is given and the widget is not in character-sheet mode |
| Clock.DragExample | src/components/player/playerSheet/Clock.jsx:76-90 | pressing on wedge 1 of an empty four-wedge clock and dragging to wedge 3 fills all four wedges |
| Clock.TouchExample | src/components/player/playerSheet/Clock.jsx:105-112 | a tap on wedge 2 fills three wedges; a touch that ends on another wedge commits nothing |
| CombatClocks.FirstEmpty | src/components/combatSim/LeftPaneTabs.jsx:80 | `findIndex(s => !s)` finds the first empty wedge, or none exactly when every wedge is filled |
| CombatClocks.LastFilled | src/components/combatSim/LeftPaneTabs.jsx:91 | `lastIndexOf(true)` finds the last filled wedge, or none exactly when no wedge is filled |
| CombatClocks.SteppedUp | src/components/combatSim/LeftPaneTabs.jsx:74-86 | the state after one increment; specified by `CombatClocks.IncrementClock`, `CombatClocks.StepsOnRun` and `CombatClocks.StepsUndoEachOther` |
| CombatClocks.SteppedDown | src/components/combatSim/LeftPaneTabs.jsx:88-97 | the state after one decrement; specified by `CombatClocks.DecrementClock`, `CombatClocks.StepsOnRun` and `CombatClocks.StepsUndoEachOther` |
| CombatClocks.CountFilledAfterSet | src/components/combatSim/LeftPaneTabs.jsx:82 | setting one wedge changes the filled count by exactly that wedge's change |
| CombatClocks.IncrementClock | src/components/combatSim/LeftPaneTabs.jsx:74-86 | an update happens exactly when the filled count is below `sections` and an empty wedge exists; it fills the first empty wedge and raises the count by one |
| CombatClocks.DecrementClock | src/components/combatSim/LeftPaneTabs.jsx:88-97 | an update happens exactly when some wedge is filled; it clears the last filled wedge and lowers the count by one |
| CombatClocks.StepsOnRun | src/components/combatSim/LeftPaneTabs.jsx:74-97 | on a contiguous clock the buttons move the boundary by one, and they do nothing at full or at empty |
| CombatClocks.StepsUndoEachOther | src/components/combatSim/LeftPaneTabs.jsx:74-97 | on a contiguous clock, incrementing then decrementing (or the reverse) gives the clock back, and each step stays contiguous |
| CombatClocks.ClockLog | src/components/combatSim/LeftPaneTabs.jsx:63-72 | a log entry is written exactly when clock logging is on; it gives the clock's name, its `sections` as maximum and its filled count as current value |
| CombatClocks.ClockLogCountsRun | src/components/combatSim/LeftPaneTabs.jsx:69 | a contiguous clock with `k` filled wedges logs `k` as its current value |
| CombatClocks.ClockMenu.constructor | src/components/combatSim/LeftPaneTabs.jsx:51-52 | the menu starts closed with no clock selected |
| CombatClocks.ClockMenu.MenuOpen | src/components/combatSim/LeftPaneTabs.jsx:99-102 | opening anchors the menu on the chosen clock |
| CombatClocks.ClockMenu.MenuClose | src/components/combatSim/LeftPaneTabs.jsx:104-107 | closing clears the anchor and the selection |
| CombatClocks.ClockMenu.MenuAction | src/components/combatSim/LeftPaneTabs.jsx:109-126 | without a selection nothing happens; otherwise the chosen action's call is made on the selected clock and the menu closes; a log on a missing clock throws |
| PlayerNotes.ReplaceClockState | src/components/player/playerSheet/compact/PlayerNotes.jsx:39-44 | only the clock at `clockIndex` gets the new state; the other clocks are unchanged |
| PlayerNotes.ClockStateChange | src/components/player/playerSheet/compact/PlayerNotes.jsx:35-51 | the edit throws exactly when the note at `noteIndex` exists and has no clocks list; otherwise only the one clock's state changes, every other note, clock and field is kept, and indices that match no clock change nothing |
| PlayerNotes.ClockStateChangeUndo | src/components/player/playerSheet/compact/PlayerNotes.jsx:35-51 | on an existing clock the edit does not throw, and writing the clock's old state back restores the player |
| PlayerNotes.ClockStateChangeLastWins | src/components/player/playerSheet/compact/PlayerNotes.jsx:35-51 | whether the edit throws does not depend on the state written, and of two writes to the same clock only the second one counts |
| PlayerNotes.ResetClockState | src/components/player/playerSheet/compact/PlayerNotes.jsx:53-58 | a reset exists exactly when the note, its clocks list and the clock all exist, and it is the state change that writes an all-empty state of `sections` wedges to that clock |
| PlayerNotes.VisibleNotesSelection | src/components/player/playerSheet/compact/PlayerNotes.jsx:87-88 | the shown notes are exactly the notes not marked `false`, in their order |
| PlayerNotes.IsShown | src/components/player/playerSheet/compact/PlayerNotes.jsx:88 | only a literal `false` hides a note; specified by `PlayerNotes.VisibleNotesSelection` |
| PlayerNotes.VisibleNotes | src/components/player/playerSheet/compact/PlayerNotes.jsx:87-89 | the shown notes; specified by `PlayerNotes.VisibleNotesSelection` and `PlayerNotes.NoHiddenNoteIndicesAgree` |
| PlayerNotes.SectionShownIff | src/components/player/playerSheet/compact/PlayerNotes.jsx:62-63 | the notes section renders exactly when some note is not marked `false` |
| PlayerNotes.DividersBetween | src/components/player/playerSheet/compact/PlayerNotes.jsx:285-289 | with `v` shown notes there are `v - 1` dividers, one after every shown note except the last |
| PlayerNotes.Dividers | src/components/player/playerSheet/compact/PlayerNotes.jsx:285-289 | which shown notes get a divider; specified by `PlayerNotes.DividersBetween` |
| PlayerNotes.FilteredIndexEditsHiddenNote | src/components/player/playerSheet/compact/PlayerNotes.jsx:89 | with a hidden note first, the clock shown at filtered index 0 belongs to the shown note, but the update writes to the hidden note |
| PlayerNotes.FilteredIndexThrowsOnClocklessNote | src/components/player/playerSheet/compact/PlayerNotes.jsx:37-39 | with a hidden note without a clocks list first, clicking the clock of the shown note at filtered index 0 makes the update throw |
| PlayerNotes.NoHiddenNoteIndicesAgree | src/components/player/playerSheet/compact/PlayerNotes.jsx:87-89 | when no note is hidden, the filtered list is the note list, so the two indices agree |
| PlayerNotes.HalfUp | src/components/player/playerSheet/compact/PlayerNotes.jsx:120 | `Math.ceil(n / 2)` is the smallest `h` with `2h >= n` |
| PlayerNotes.LeftColumn | src/components/player/playerSheet/compact/PlayerNotes.jsx:120 | the left clock column with its indices; specified by `PlayerNotes.ColumnsCoverClocks` |
| PlayerNotes.RightColumn | src/components/player/playerSheet/compact/PlayerNotes.jsx:203-204 | the right clock column with its indices; specified by `PlayerNotes.ColumnsCoverClocks` |
| PlayerNotes.ColumnsCoverClocks | src/components/player/playerSheet/compact/PlayerNotes.jsx:203-204 | read left then right, the two columns list every clock once, in order, with its own index; the left column is never shorter |
| AttributeModifiers.ModifiersOf | src/components/combatSim/npcDetail/AttributeModifierDialog.jsx:8 | an attribute's modifiers are read through the optional chain, and a missing link gives the empty list |
| AttributeModifiers.DialogModifiers | src/components/combatSim/npcDetail/AttributeModifierDialog.jsx:6-8 | the dialog renders nothing without an attribute, and otherwise shows that attribute's modifiers |
| AttributeModifiers.AddModifier | src/components/combatSim/npcDetail/AttributeModifierDialog.jsx:10-23 | the pop loop leaves the positives and the negatives each shortened by the smaller of the two counts |
| AttributeModifiers.SignsOfParts | src/components/combatSim/npcDetail/AttributeModifierDialog.jsx:13-14 | the split gives only positives on one side and only negatives on the other |
| AttributeModifiers.Positives | src/components/combatSim/npcDetail/AttributeModifierDialog.jsx:13 | the positive modifiers in order; specified by `AttributeModifiers.SignsOfParts` and `AttributeModifiers.SplitSigned` |
| AttributeModifiers.Negatives | src/components/combatSim/npcDetail/AttributeModifierDialog.jsx:14 | the negative modifiers in order; specified by `AttributeModifiers.SignsOfParts` and `AttributeModifiers.SplitSigned` |
| AttributeModifiers.Cancelled | src/components/combatSim/npcDetail/AttributeModifierDialog.jsx:13-21 | the simplified list; specified by `AttributeModifiers.CancelledShape`, `AttributeModifiers.CancelledKeepsSum` and `AttributeModifiers.CancelledIdempotent` |
| AttributeModifiers.SplitSigned | src/components/combatSim/npcDetail/AttributeModifierDialog.jsx:21 | re-splitting a list of positives followed by negatives gives the two parts back |
| AttributeModifiers.CancelledShape | src/components/combatSim/npcDetail/AttributeModifierDialog.jsx:16-21 | after cancelling, the list has a single sign and no zeros, and its length is the difference of the two counts |
| AttributeModifiers.CancelledKeepsEarliest | src/components/combatSim/npcDetail/AttributeModifierDialog.jsx:16-19 | `pop` drops the latest entries: each side keeps a prefix, both sides lose the same number, and one side is emptied |
| AttributeModifiers.AddToSingleSign | src/components/combatSim/npcDetail/AttributeModifierDialog.jsx:10-22 | on a single-sign list, adding a zero drops it, adding a same-sign value appends it, and adding an opposite value removes the last entry |
| AttributeModifiers.SplitOfAppend | src/components/combatSim/npcDetail/AttributeModifierDialog.jsx:11-14 | appending a value adds it to the end of exactly the part of its sign |
| AttributeModifiers.AddToPositives | src/components/combatSim/npcDetail/AttributeModifierDialog.jsx:10-22 | adding to an all-positive list appends a positive, drops a zero, and lets a negative cancel the last positive |
| AttributeModifiers.AddToNegatives | src/components/combatSim/npcDetail/AttributeModifierDialog.jsx:10-22 | adding to an all-negative list appends a negative, drops a zero, and lets a positive cancel the last negative |
| AttributeModifiers.CancelledIdempotent | src/components/combatSim/npcDetail/AttributeModifierDialog.jsx:13-21 | cancelling an already cancelled list changes nothing |
| AttributeModifiers.SumAppend | src/components/combatSim/npcDetail/AttributeModifierDialog.jsx:11 | the total of a concatenation is the sum of the totals |
| AttributeModifiers.SumSplitsBySign | src/components/combatSim/npcDetail/AttributeModifierDialog.jsx:13-14 | the total is the positives' total plus the negatives' total, since zeros add nothing |
| AttributeModifiers.PartsAreConstant | src/components/combatSim/npcDetail/AttributeModifierDialog.jsx:55-56 | with only `+c` and `-c` entries, the positives are all `c` and the negatives all `-c` |
| AttributeModifiers.DropPairs | src/components/combatSim/npcDetail/AttributeModifierDialog.jsx:16-19 | popping `m` pairs of `c` and `-c` leaves the total unchanged |
| AttributeModifiers.CancelledKeepsSum | src/components/combatSim/npcDetail/AttributeModifierDialog.jsx:16-21 | with only `+c` and `-c` entries, cancelling keeps the total |
| AttributeModifiers.AddModifierMovesSum | src/components/combatSim/npcDetail/AttributeModifierDialog.jsx:55-56 | pressing +2 or -2 moves the net modifier by exactly that amount, and the list stays made of ±2 |
| AttributeModifiers.KeptExceptIsSplice | src/components/combatSim/npcDetail/AttributeModifierDialog.jsx:26 | `filter((_, i) => i !== index)` is the list with that one position cut out |
| AttributeModifiers.KeptExcept | src/components/combatSim/npcDetail/AttributeModifierDialog.jsx:26 | the list without one position; specified by `AttributeModifiers.KeptExceptIsSplice` |
| AttributeModifiers.RemoveModifier | src/components/combatSim/npcDetail/AttributeModifierDialog.jsx:25-28 | removing an index in range drops exactly that entry; an index out of range changes nothing |
| AttributeModifiers.RemoveUndoesAppend | src/components/combatSim/npcDetail/AttributeModifierDialog.jsx:25-28 | removing the last index undoes an append |
| AttributeSection.WithModifiers | src/components/combatSim/npcDetail/AttributeSection.jsx:27-36 | the rewritten NPC has the new modifiers for the chosen attribute and keeps its id, name, attributes, other modifiers and other combat stats |
| AttributeSection.WithModifiersIdempotent | src/components/combatSim/npcDetail/AttributeSection.jsx:27-36 | rewriting twice with the same modifiers is rewriting once |
| AttributeSection.Matched | src/components/combatSim/npcDetail/AttributeSection.jsx:37 | every NPC handed to `setSelectedNPC` has the selected id and the new modifiers |
| AttributeSection.UpdateModifiers | src/components/combatSim/npcDetail/AttributeSection.jsx:24-43 | the list keeps its length; each NPC with the selected id is rewritten and every other NPC is kept; the `setSelectedNPC` calls are the rewritten NPCs in order |
| AttributeSection.Rewrite | src/components/combatSim/npcDetail/AttributeSection.jsx:26-37 | one NPC after the update; specified by `AttributeSection.UpdateModifiers` and `AttributeSection.NoMatchChangesNothing` |
| AttributeSection.MatchedEmptyIff | src/components/combatSim/npcDetail/AttributeSection.jsx:26 | `setSelectedNPC` is never called exactly when no NPC has the selected id |
| AttributeSection.NoMatchChangesNothing | src/components/combatSim/npcDetail/AttributeSection.jsx:25-41 | when no NPC has the selected id, the list comes back unchanged and no call is made |
| AttributeSection.AttributeDialog.constructor | src/components/combatSim/npcDetail/AttributeSection.jsx:11-12 | the dialog starts closed with no attribute chosen |
| AttributeSection.AttributeDialog.AttributeClick | src/components/combatSim/npcDetail/AttributeSection.jsx:14-17 | clicking an attribute opens the dialog on it |
| AttributeSection.AttributeDialog.CloseDialog | src/components/combatSim/npcDetail/AttributeSection.jsx:19-22 | closing shuts the dialog and forgets the attribute |
| AttributeSection.ColourOf | src/components/combatSim/npcDetail/AttributeSection.jsx:121-126 | the value is uncoloured exactly when it equals the original, green exactly when above it, and red when below it or when there is no original |
| SettingsDialog.SwitchChange | src/components/combatSim/SettingsDialog.jsx:46-48 | a switch forwards its own name with its checked state |
| SettingsDialog.IntervalChange | src/components/combatSim/SettingsDialog.jsx:50-64 | an empty field forwards `""`; otherwise a value is forwarded exactly when `parseInt` reads a number, and the value forwarded is that number |
| SettingsDialog.IntervalChangeOfNumeral | src/components/combatSim/SettingsDialog.jsx:60-62 | typing an integer's numeral forwards that integer |
| SettingsDialog.IntervalBlur | src/components/combatSim/SettingsDialog.jsx:66-77 | on blur the interval becomes an integer in [0, 300]: 0 for an empty or non-numeric value, otherwise the value clamped to that range |
| SettingsDialog.IntervalBlurIdempotent | src/components/combatSim/SettingsDialog.jsx:66-77 | blurring twice is blurring once, and an interval already in range is kept |
| SettingsDialog.ItemsRule | src/components/combatSim/SettingsDialog.jsx:79-140 | the dialog lists seven distinct settings, each showing its own value; the interval field, and only it, is disabled exactly when autosave is off; a switch's icon is active exactly when its setting is on, and the interval's icon exactly when autosave is on |
| SettingsDialog.Items | src/components/combatSim/SettingsDialog.jsx:79-140 | the dialog's items; specified by `SettingsDialog.ItemsRule` |
| SettingsDialog.IconActive | src/components/combatSim/SettingsDialog.jsx:218-221 | whether an item's icon is active; specified by `SettingsDialog.ItemsRule` |
| SimSettings.DefaultsOf | src/utility/combatSimSettings.js:61-67 | walking a table whose rows have distinct names gives an object whose keys are exactly the names, each mapped to its row's default |
| SimSettings.SettingsConfig | src/utility/combatSimSettings.js:1-58 | the shared table; specified by `SimSettings.SettingsConfigDistinct`, `SimSettings.DefaultsCount`, `SimSettings.DefaultsOff` and `SimSettings.DefaultsOn` |
| SimSettings.SettingsConfigDistinct | src/utility/combatSimSettings.js:1-58 | the fourteen rows of the shared table have distinct names and distinct storage keys |
| SimSettings.GetDefaultSettings | src/utility/combatSimSettings.js:61-67 | `getDefaultSettings()` is the defaults object of the shared table |
| SimSettings.DefaultsUnique | src/utility/combatSimSettings.js:61-67 | two defaults objects of one table are equal |
| SimSettings.DefaultsCount | src/utility/combatSimSettings.js:1-58 | the defaults hold fourteen settings |
| SimSettings.DefaultsOff | src/utility/combatSimSettings.js:14-21 | autosave starts off with a 30-second interval, and four more switches start off |
| SimSettings.DefaultsOn | src/utility/combatSimSettings.js:2-13 | the other eight switches start on |
| SimSettings.NamesCount | src/utility/combatSimSettings.js:63-65 | a table with distinct names has as many names as rows |
| Encounters.LocalConfigIsPrefix | src/routes/combat/combatSimulatorEncounters.jsx:37-62 | the encounter screen's table is the first six rows of the shared table, and its names and keys are distinct |
| Encounters.LocalConfig | src/routes/combat/combatSimulatorEncounters.jsx:37-62 | the encounter screen's own table; specified by `Encounters.LocalConfigIsPrefix` |
| Encounters.LoadEntry | src/routes/combat/combatSimulatorEncounters.jsx:89-100 | a missing key loads the row's default, the interval loads `parseInt` of the stored text, and a switch loads whether the text is `"true"` |
| Encounters.RestoreEntry | src/routes/combat/combatSimulatorEncounters.jsx:170-178 | restoring decodes the interval as loading does, but a switch is on only if its key is stored as `"true"` |
| Encounters.RestoreDiffersFromLoad | src/routes/combat/combatSimulatorEncounters.jsx:169-179 | restoring and loading disagree on a setting exactly when its key is missing and its default is `true` |
| Encounters.FreshBrowserRestoreTurnsOff | src/routes/combat/combatSimulatorEncounters.jsx:177 | with an empty storage, "auto use MP" loads as on but restores as off |
| Encounters.DecodeWith | src/routes/combat/combatSimulatorEncounters.jsx:88-101 | walking the table gives an object whose keys are exactly the setting names, each decoded from storage |
| Encounters.LoadSettings | src/routes/combat/combatSimulatorEncounters.jsx:84-104 | the initial settings are exactly the loaded entries of the screen's table |
| Encounters.RestoreSettings | src/routes/combat/combatSimulatorEncounters.jsx:169-181 | the restored settings are exactly the restored entries of the screen's table |
| Encounters.ToStr | src/routes/combat/combatSimulatorEncounters.jsx:156 | `value.toString()` fails exactly on `undefined` and `null` |
| Encounters.KeyOf | src/routes/combat/combatSimulatorEncounters.jsx:154 | `SETTINGS_CONFIG[name]?.key` is found exactly for a configured name, and it is that row's key |
| Encounters.KeyIn | src/routes/combat/combatSimulatorEncounters.jsx:154 | in any table whose rows have distinct names, the lookup finds a key exactly when some row has the name, and then it is that row's key |
| Encounters.SaveWith | src/routes/combat/combatSimulatorEncounters.jsx:153-158 | the save walk throws exactly when a configured setting has no `toString`; otherwise every configured setting is stored under its key as its text; keys outside the table are never touched |
| Encounters.SaveSettings | src/routes/combat/combatSimulatorEncounters.jsx:152-162 | `handleSaveSettings` is the save walk over the screen's table |
| Encounters.SaveThenLoad | src/routes/combat/combatSimulatorEncounters.jsx:153-158 | loading what was saved gives back every well-typed setting |
| Encounters.WellTypedSaves | src/routes/combat/combatSimulatorEncounters.jsx:156 | saving well-typed settings does not throw |
| Encounters.SettingChange | src/routes/combat/combatSimulatorEncounters.jsx:107-112 | a setting change writes one name and keeps every other setting |
| Encounters.SettingChangeUndo | src/routes/combat/combatSimulatorEncounters.jsx:107-112 | writing the old value back restores the settings |
| Encounters.SaveEncounter | src/routes/combat/combatSimulatorEncounters.jsx:188-197 | no encounter is made exactly when the name is blank or 100 encounters exist; otherwise it has the trimmed, non-empty name, round 1 and the given timestamps |
| Encounters.SwapDown | src/routes/combat/combatSimulatorEncounters.jsx:119 | one step of the sort swaps two neighbours and keeps the same encounters |
| Encounters.SinkNewest | src/routes/combat/combatSimulatorEncounters.jsx:119 | one pass of the sort extends the sorted prefix by one entry and keeps the same encounters |
| Encounters.SortNewestFirst | src/routes/combat/combatSimulatorEncounters.jsx:119 | the encounter list is sorted newest first by `updatedAt` and its encounters are the same ones |
| PlayerBonds.BondStrength | src/components/player/playerSheet/compact/PlayerBonds.jsx:45-54 | a bond's strength is at most six |
| PlayerBonds.StrengthIsLabelCount | src/components/player/playerSheet/compact/PlayerBonds.jsx:45-146 | a bond's strength is the number of emotion labels shown for it |
| PlayerBonds.LabelsInOrder | src/components/player/playerSheet/compact/PlayerBonds.jsx:96-146 | the shown labels keep the fixed emotion order |
| PlayerBonds.TableToneRule | src/components/player/playerSheet/compact/PlayerBonds.jsx:96-145 | admiration, loyalty and affection are positive-coloured, and the other three are negative-coloured |
| PlayerBonds.LabelsShownAndTone | src/components/player/playerSheet/compact/PlayerBonds.jsx:96-146 | a label is shown exactly when its emotion flag is truthy, and it has its emotion's tone |
| PlayerBonds.Labels | src/components/player/playerSheet/compact/PlayerBonds.jsx:96-146 | the labels shown for a bond; specified by `PlayerBonds.StrengthIsLabelCount`, `PlayerBonds.LabelsInOrder`, `PlayerBonds.LabelsShownAndTone` and `PlayerBonds.StarIffLabels` |
| PlayerBonds.EmotionIndex | src/components/player/playerSheet/compact/PlayerBonds.jsx:96-145 | every emotion has its own entry in the label list |
| PlayerBonds.Joined | src/components/player/playerSheet/compact/PlayerBonds.jsx:147-153 | the reduce emits two pieces per label |
| PlayerBonds.ReduceFromShape | src/components/player/playerSheet/compact/PlayerBonds.jsx:147-153 | each reduce step appends the label, then `", "` unless it is the last label, to the accumulated pieces |
| PlayerBonds.JoinedShape | src/components/player/playerSheet/compact/PlayerBonds.jsx:147-153 | the line alternates labels and separators, in order |
| PlayerBonds.JoinedCommas | src/components/player/playerSheet/compact/PlayerBonds.jsx:151 | `n` labels get `n - 1` commas and end with an empty separator |
| PlayerBonds.StarIffLabels | src/components/player/playerSheet/compact/PlayerBonds.jsx:159 | the strength star shows exactly when some label shows, that is when some emotion flag is truthy |
| PlayerBonds.BondTableRule | src/components/player/playerSheet/compact/PlayerBonds.jsx:61-165 | nothing renders without bonds; otherwise there is one row per bond, in order, with its labels and their separators, and a star giving the label count exactly when there is a label |
| PlayerBonds.RowOf | src/components/player/playerSheet/compact/PlayerBonds.jsx:88-171 | one bond's row; specified by `PlayerBonds.BondTableRule` |
| PlayerBonds.BondTable | src/components/player/playerSheet/compact/PlayerBonds.jsx:61-165 | the rendered table; specified by `PlayerBonds.BondTableRule` |
| PlayerSpells.VisibleIff | src/components/player/playerSheet/compact/PlayerSpells.jsx:25 | a spell is hidden exactly by a falsy flag other than `undefined` |
| PlayerSpells.Visible | src/components/player/playerSheet/compact/PlayerSpells.jsx:25 | whether a spell is listed; specified by `PlayerSpells.VisibleIff` |
| PlayerSpells.RenderedIff | src/components/player/playerSheet/compact/PlayerSpells.jsx:20-27 | the section renders exactly when some class has a visible default or gamble spell |
| PlayerSpells.Render | src/components/player/playerSheet/compact/PlayerSpells.jsx:20-38 | the spell section; specified by `PlayerSpells.RenderedIff`, `PlayerSpells.GroupMembership` and `PlayerSpells.ArcanaOnlyRendersNothing` |
| PlayerSpells.ArcanaOnlyRendersNothing | src/components/player/playerSheet/compact/PlayerSpells.jsx:20-27 | a player with only arcana sees no spell section, not even the arcana |
| PlayerSpells.GroupMembership | src/components/player/playerSheet/compact/PlayerSpells.jsx:29-38 | a class gets a block in the first group exactly when it has a visible default or gamble spell, and in the arcanist group exactly when it has a visible arcanum |
| PlayerSpells.GroupIff | src/components/player/playerSheet/compact/PlayerSpells.jsx:144-153 | a class owns a block of a filtered group exactly when it passes the group's test |
| PlayerSpells.DefaultRowsShape | src/components/player/playerSheet/compact/PlayerSpells.jsx:61-70 | the default spells' rows are the header, shown only before spell 0, then each default spell in order |
| PlayerSpells.BlockRowsShape | src/components/player/playerSheet/compact/PlayerSpells.jsx:61-140 | a block is the header when there are default spells, then the default rows, then the gamble rows, and has no other header |
| PlayerSpells.ClassRowsShape | src/components/player/playerSheet/compact/PlayerSpells.jsx:61-140 | a class's block is built from its visible default spells and its visible gambles |
| PlayerSpells.ClassRows | src/components/player/playerSheet/compact/PlayerSpells.jsx:61-140 | a class's block; specified by `PlayerSpells.ClassRowsShape` |
| PlayerSpells.FilterKeepsOrder | src/components/player/playerSheet/compact/PlayerSpells.jsx:127-133 | a class's filtered spells are its spells at increasing positions |
| PlayerSpells.ArcanumRowsRule | src/components/player/playerSheet/compact/PlayerSpells.jsx:156-171 | the arcanist block lists the class's visible arcana in order, each marked as a rework exactly when it is `arcanist-rework` |
| PlayerSpells.ArcanumRows | src/components/player/playerSheet/compact/PlayerSpells.jsx:156-171 | a class's arcanist block; specified by `PlayerSpells.ArcanumRowsRule` |
| EntropistGamble.RangeLabelReadsBack | src/components/player/playerSheet/compact/spells/SpellEntropistGamble.jsx:44-46 | every range label reads back as its range, and it is a single numeral exactly when both ends agree |
| EntropistGamble.RangeLabel | src/components/player/playerSheet/compact/spells/SpellEntropistGamble.jsx:44-46 | a range's label; specified by `EntropistGamble.RangeLabelReadsBack` |
| EntropistGamble.PairLabelReadsBack | src/components/player/playerSheet/compact/spells/SpellEntropistGamble.jsx:46 | a `from-to` label reads back as its two ends |
| EntropistGamble.BackgroundsAlternate | src/components/player/playerSheet/compact/spells/SpellEntropistGamble.jsx:41 | target rows alternate backgrounds, starting with the gradient |
| EntropistGamble.RowsRule | src/components/player/playerSheet/compact/spells/SpellEntropistGamble.jsx:40-65 | there is one row per target, in order; the second-roll block appears exactly when `secondRoll` is truthy and there are second effects, and it lists them in order with labels that read back |
| EntropistGamble.SecondBlock | src/components/player/playerSheet/compact/spells/SpellEntropistGamble.jsx:54-65 | a target's second-roll block; specified by `EntropistGamble.RowsRule` |
| EntropistGamble.Rows | src/components/player/playerSheet/compact/spells/SpellEntropistGamble.jsx:40-65 | the table's rows; specified by `EntropistGamble.RowsRule` |

## Left out

- Wedge geometry: the trigonometry of `calculateCoordinates` and the SVG path strings are left out because they are floating-point drawing code. The angles and the large-arc flag are modelled over real numbers.
- The platform test that sets `isMobile` from the user agent on every window resize (`Clock.jsx:28-40`) is left out. `isMobile` is a constant of the widget, because a browser's identity is outside the model.
- Event objects, `preventDefault` and DOM bubbling are left out. A right-click fires both handlers in the browser; the model offers them as separate methods.
- Clock.ClockWidget.RightClick: it models the handler its authors evidently intended. As written, the `};` at `Clock.jsx:74` closes the `if` rather than the handler. The handlers and the render that follow then sit inside `handleRightClick`, and the component function is left unclosed at the end of the file.
- React's asynchronous `setState` batching is left out. Each handler reads the state left by the previous one, so two toggles in one event see each other.
- Browser storage, the encounter database, navigation, snackbars and `async` error handling are outside the model. Storage is a `map<string, string>` passed in and returned; the encounter list and the new encounter's timestamps are parameters.
- The storage-seeding effect (`combatSimulatorEncounters.jsx:130-139`) is left out because it only touches storage. Its destructuring `[config]` binds the setting name, so `config.key` is `undefined`.
- Encounters.SortNewestFirst: it sorts by an integer `updatedAt`. The source subtracts `Date` objects built from the stored values, and date parsing is not modelled.
- Encounters.SortNewestFirst: its contract does not state stability. ECMAScript 2019 and later require `Array.prototype.sort` to be stable, and the insertion sort is stable because it only moves an entry past a strictly older one, but the contract promises only the order and the permutation.
- Encounters.SaveWith: it visits the settings object's keys in an unspecified order, because a JavaScript object's key order is not modelled. The saved storage does not depend on the order; only which setting throws first could differ.
- JsCore.IntToString: numbers are unbounded integers. In JavaScript they are IEEE-754 doubles, which print in exponent form from `1e21` in magnitude (`"1e+21"`) and lose integer precision above 2^53. So printing and `parseInt` match the source only for safe integers. `JsCore.ParseIntOfIntToString`, `JsCore.ParseIntOfPrefix`, `SettingsDialog.IntervalChangeOfNumeral`, `Encounters.SaveThenLoad`, `EntropistGamble.RangeLabelReadsBack` and `EntropistGamble.PairLabelReadsBack` rest on this round trip and hold in the source only within that range.
- SettingsDialog.IntervalChangeOfNumeral: a typed numeral forwards its own value only for a safe integer. JavaScript's `parseInt` rounds a numeral above 2^53 to the nearest double.
- Encounters.SaveThenLoad: a saved interval loads back unchanged only below `1e21` in magnitude. In JavaScript an interval of `1e21` is saved as `"1e+21"` and loads back as 1.
- EntropistGamble.RangeLabelReadsBack: a label reads back as its range only for ends below `1e21` in magnitude. Larger ends print in exponent form and do not read back.
- EntropistGamble.PairLabelReadsBack: a `from-to` label reads back as its two ends only when both are below `1e21` in magnitude, for the same reason.
- PlayerNotes.ResetClockState: a clock's `sections` is a `nat`. This rules out the `RangeError` that `new Array(sections)` throws for a negative or fractional count (`PlayerNotes.jsx:54-56`).
- `parseInt`'s skipping of leading white space and its non-decimal forms are left out. The `Number` conversion models numbers, booleans, `null`, `undefined` and decimal-integer strings; other numeric string syntaxes read as `NaN`.
- JsCore.Trim: it removes the common white-space characters and line terminators only, not every Unicode space separator.
- The attribute calculator `calcAttr`, the combat-simulator store, translations and theme colours are outside the model. A modified and an original attribute value are given as parameters, and colours are tokens.
- `SpellDefault`, `SpellArcanist` and the markdown renderer of note descriptions are not part of this model. Only which rows they are given is modelled.
- Only the fields the components read are modelled: a player's notes and classes, a clock's name, sections and state, a spell's type and visibility flag, and an NPC's id, name, attributes and combat stats.
- PlayerNotes.ResetClockState: a missing note, clocks list or clock makes the source throw a `TypeError` at `PlayerNotes.jsx:55`. The function returns `None` instead.
- PlayerNotes.ClockStateChange: the `TypeError` that `note.clocks.map` throws inside the state updater (`PlayerNotes.jsx:39`) is returned as `None`. What React then does with the failed update is not modelled.
- CombatClocks.ClockMenu.MenuAction: the reset and remove callbacks are recorded as calls, because their effect belongs to the parent component.
