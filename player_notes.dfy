/** The notes block of the compact player sheet: editing and resetting a
    note's clock, which notes are shown, the dividers between them, and the
    split of a note's clocks into a left and a right column
    (src/components/player/playerSheet/compact/PlayerNotes.jsx). */
module PlayerNotes {
  import opened JsCore
  import opened Clock

  datatype NoteClock = NoteClock(name: string, sections: nat, state: seq<bool>)

  /** `showInPlayerSheet` is kept as the JavaScript value it is, since only the
      literal `false` hides a note. `clocks` is `None` for a note without a
      clocks list, which the render tolerates (`note.clocks && ...`). */
  datatype Note = Note(name: string, description: string, showInPlayerSheet: JsValue, clocks: Option<seq<NoteClock>>)

  /** The player record; `name` stands for every field other than `notes`. */
  datatype Player = Player(name: string, notes: seq<Note>)

  /** Note `noteIndex` exists, has a clocks list, and that list has a clock `clockIndex`. */
  predicate HasClock(p: Player, noteIndex: int, clockIndex: int) {
    && 0 <= noteIndex < |p.notes|
    && p.notes[noteIndex].clocks.Some?
    && 0 <= clockIndex < |p.notes[noteIndex].clocks.value|
  }

  /** The inner `clocks.map`: the clock at `clockIndex` gets `newState`. */
  function ReplaceClockState(clocks: seq<NoteClock>, clockIndex: int, newState: seq<bool>): (r: seq<NoteClock>)
    ensures |r| == |clocks|
    ensures forall c :: 0 <= c < |clocks| && c != clockIndex ==> r[c] == clocks[c]
    ensures 0 <= clockIndex < |clocks| ==> r[clockIndex] == clocks[clockIndex].(state := newState)
    ensures !(0 <= clockIndex < |clocks|) ==> r == clocks
  {
    seq(|clocks|, c requires 0 <= c < |clocks| =>
      if c == clockIndex then clocks[c].(state := newState) else clocks[c])
  }

  /** `handleClockStateChange(noteIndex, clockIndex, newState)`: only that
      clock's `state` is replaced; with no matching note or clock the player is
      returned as it was. `note.clocks.map` on a note at `noteIndex` that has
      no clocks list throws a `TypeError`, which is `None` here. */
  function ClockStateChange(p: Player, noteIndex: int, clockIndex: int, newState: seq<bool>): (r: Option<Player>)
    ensures r.None? <==> 0 <= noteIndex < |p.notes| && p.notes[noteIndex].clocks.None?
    ensures r.Some? ==> r.value.name == p.name && |r.value.notes| == |p.notes|
    ensures r.Some? ==> forall i :: 0 <= i < |p.notes| && i != noteIndex ==> r.value.notes[i] == p.notes[i]
    ensures r.Some? && 0 <= noteIndex < |p.notes| ==>
      var before := p.notes[noteIndex];
      var after := r.value.notes[noteIndex];
      && after.name == before.name && after.description == before.description
      && after.showInPlayerSheet == before.showInPlayerSheet
      && after.clocks.Some? && |after.clocks.value| == |before.clocks.value|
      && (forall c :: 0 <= c < |before.clocks.value| && c != clockIndex ==> after.clocks.value[c] == before.clocks.value[c])
      && (0 <= clockIndex < |before.clocks.value| ==>
            && after.clocks.value[clockIndex].state == newState
            && after.clocks.value[clockIndex].name == before.clocks.value[clockIndex].name
            && after.clocks.value[clockIndex].sections == before.clocks.value[clockIndex].sections)
    ensures r.Some? && !HasClock(p, noteIndex, clockIndex) ==> r.value == p
  {
    if 0 <= noteIndex < |p.notes| && p.notes[noteIndex].clocks.None? then None
    else
      var notes := seq(|p.notes|, i requires 0 <= i < |p.notes| =>
        if i == noteIndex then p.notes[i].(clocks := Some(ReplaceClockState(p.notes[i].clocks.value, clockIndex, newState)))
        else p.notes[i]);
      assert !HasClock(p, noteIndex, clockIndex) ==> notes == p.notes;
      Some(p.(notes := notes))
  }

  /** Writing a clock's previous state back undoes an edit. */
  lemma ClockStateChangeUndo(p: Player, noteIndex: int, clockIndex: int, newState: seq<bool>)
    requires HasClock(p, noteIndex, clockIndex)
    ensures ClockStateChange(p, noteIndex, clockIndex, newState).Some?
    ensures ClockStateChange(ClockStateChange(p, noteIndex, clockIndex, newState).value,
                             noteIndex, clockIndex, p.notes[noteIndex].clocks.value[clockIndex].state) == Some(p)
  {
    var q := ClockStateChange(p, noteIndex, clockIndex, newState).value;
    var r := ClockStateChange(q, noteIndex, clockIndex, p.notes[noteIndex].clocks.value[clockIndex].state).value;
    assert r.notes[noteIndex].clocks.value == p.notes[noteIndex].clocks.value;
    assert r.notes[noteIndex] == p.notes[noteIndex];
    assert r.notes == p.notes;
  }

  /** Whether an edit throws does not depend on the state written, and of two
      edits of the same clock the later one wins. */
  lemma ClockStateChangeLastWins(p: Player, noteIndex: int, clockIndex: int, s1: seq<bool>, s2: seq<bool>)
    ensures ClockStateChange(p, noteIndex, clockIndex, s1).None? <==> ClockStateChange(p, noteIndex, clockIndex, s2).None?
    ensures ClockStateChange(p, noteIndex, clockIndex, s1).Some? ==>
      ClockStateChange(ClockStateChange(p, noteIndex, clockIndex, s1).value, noteIndex, clockIndex, s2)
        == ClockStateChange(p, noteIndex, clockIndex, s2)
  {
    if ClockStateChange(p, noteIndex, clockIndex, s1).Some? {
      var a := ClockStateChange(ClockStateChange(p, noteIndex, clockIndex, s1).value, noteIndex, clockIndex, s2).value;
      var b := ClockStateChange(p, noteIndex, clockIndex, s2).value;
      if HasClock(p, noteIndex, clockIndex) {
        assert a.notes[noteIndex].clocks.value == b.notes[noteIndex].clocks.value;
        assert a.notes[noteIndex] == b.notes[noteIndex];
        assert a.notes == b.notes;
      }
    }
  }

  /** `resetClockState(noteIndex, clockIndex)`: the clock gets `sections`
      falses. Reading `clocks` or `sections` of a note, a clocks list or a
      clock that does not exist throws, which is `None` here. */
  function ResetClockState(p: Player, noteIndex: int, clockIndex: int): (r: Option<Player>)
    ensures r.Some? <==> HasClock(p, noteIndex, clockIndex)
    ensures r.Some? ==>
      && (exists s :: r == ClockStateChange(p, noteIndex, clockIndex, s))
      && |r.value.notes| == |p.notes|
      && r.value.notes[noteIndex].clocks.Some?
      && |r.value.notes[noteIndex].clocks.value| == |p.notes[noteIndex].clocks.value|
      && var reset := r.value.notes[noteIndex].clocks.value[clockIndex].state;
         |reset| == p.notes[noteIndex].clocks.value[clockIndex].sections && CountFilled(reset) == 0 && PrefixFilled(reset)
  {
    if HasClock(p, noteIndex, clockIndex) then
      var sections := p.notes[noteIndex].clocks.value[clockIndex].sections;
      var resetState := seq(sections, _ => false);
      assert resetState == Run(0, sections);
      CountFilledOfRun(0, sections);
      ClockStateChange(p, noteIndex, clockIndex, resetState)
    else None
  }

  // ---------------------------------------------------------------------------
  // Which notes are shown

  /** `note.showInPlayerSheet !== false`: anything but the literal `false` shows the note. */
  predicate IsShown(note: Note) { note.showInPlayerSheet != Bool(false) }

  function VisibleNotes(notes: seq<Note>): seq<Note> { Filter(notes, IsShown) }

  /** The shown notes are the notes not marked `false`, in their order, each once. */
  lemma VisibleNotesSelection(notes: seq<Note>)
    ensures var k := KeptPositions(notes, IsShown, 0);
      && |VisibleNotes(notes)| == |k|
      && (forall j :: 0 <= j < |k| ==> VisibleNotes(notes)[j] == notes[k[j]] && IsShown(notes[k[j]]))
      && (forall i :: 0 <= i < |notes| && IsShown(notes[i]) ==> i in k)
  {
    FilterIsOrderedSelection(notes, IsShown, 0);
    assert notes[0..] == notes;
  }

  /** The notes section renders only when at least one note is shown. */
  predicate SectionShown(notes: seq<Note>) { |VisibleNotes(notes)| > 0 }

  lemma SectionShownIff(notes: seq<Note>)
    ensures SectionShown(notes) <==> exists i :: 0 <= i < |notes| && notes[i].showInPlayerSheet != Bool(false)
  {
    FilterEmptyIff(notes, IsShown);
  }

  /** An entry per shown note: whether a divider follows it
      (`noteIndex < visible.length - 1`). */
  function Dividers(notes: seq<Note>): seq<bool> {
    var v := |VisibleNotes(notes)|;
    seq(v, noteIndex => noteIndex < v - 1)
  }

  /** With `v` shown notes there are `v - 1` dividers, one after each shown note
      but the last. */
  lemma DividersBetween(notes: seq<Note>)
    requires SectionShown(notes)
    ensures var d := Dividers(notes);
      && |d| == |VisibleNotes(notes)|
      && CountFilled(d) == |d| - 1
      && !d[|d| - 1]
      && PrefixFilled(d)
  {
    var v := |VisibleNotes(notes)|;
    assert Dividers(notes) == Run(v - 1, v);
    CountFilledOfRun(v - 1, v);
  }

  /** The widgets of the visible note at position `noteIndex` of the shown list
      receive `noteIndex` itself, and the handlers index the full `notes` list
      with it. Here the first note is hidden and the second is shown: the clock
      of the shown note writes into the hidden one. */
  lemma FilteredIndexEditsHiddenNote()
    ensures var hidden := Note("hidden", "", Bool(false), Some([NoteClock("a", 4, [false, false, false, false])]));
      var shown := Note("shown", "", Undefined, Some([NoteClock("b", 4, [false, false, false, false])]));
      var p := Player("p", [hidden, shown]);
      var noteIndex := 0;
      var r := ClockStateChange(p, noteIndex, 0, [true, false, false, false]);
      && VisibleNotes(p.notes) == [shown]
      && VisibleNotes(p.notes)[noteIndex] == shown
      && r.Some?
      && r.value.notes[0].clocks == Some([NoteClock("a", 4, [true, false, false, false])])
      && r.value.notes[1] == shown
  {
    var hidden := Note("hidden", "", Bool(false), Some([NoteClock("a", 4, [false, false, false, false])]));
    var shown := Note("shown", "", Undefined, Some([NoteClock("b", 4, [false, false, false, false])]));
    assert [hidden, shown][1..] == [shown];
    assert [shown][1..] == [];
    var r := ClockStateChange(Player("p", [hidden, shown]), 0, 0, [true, false, false, false]);
    assert r.value.notes[0].clocks.value == [NoteClock("a", 4, [true, false, false, false])];
  }

  /** When the hidden first note has no clocks list, clicking the clock shown
      at filtered position 0 makes `handleClockStateChange` throw. */
  lemma FilteredIndexThrowsOnClocklessNote()
    ensures var hidden := Note("hidden", "", Bool(false), None);
      var shown := Note("shown", "", Undefined, Some([NoteClock("b", 4, [false, false, false, false])]));
      var p := Player("p", [hidden, shown]);
      && VisibleNotes(p.notes) == [shown]
      && HasClock(p, 1, 0)
      && ClockStateChange(p, 0, 0, [true, false, false, false]).None?
  {
    var hidden := Note("hidden", "", Bool(false), None);
    var shown := Note("shown", "", Undefined, Some([NoteClock("b", 4, [false, false, false, false])]));
    assert [hidden, shown][1..] == [shown];
    assert [shown][1..] == [];
  }

  /** When no note is hidden the shown list is the full list, so the positions agree. */
  lemma NoHiddenNoteIndicesAgree(notes: seq<Note>)
    requires forall i :: 0 <= i < |notes| ==> IsShown(notes[i])
    ensures VisibleNotes(notes) == notes
  {
    FilterAll(notes, IsShown);
  }

  // ---------------------------------------------------------------------------
  // Left and right clock columns

  /** `Math.ceil(n / 2)`: the least integer whose double is at least `n`. */
  function HalfUp(n: nat): (h: nat)
    ensures 2 * h >= n && 2 * h <= n + 1
  {
    (n + 1) / 2
  }

  /** The left column: `clocks.slice(0, ceil(n/2))`, each with the index its handlers receive. */
  function LeftColumn(clocks: seq<NoteClock>): seq<(NoteClock, nat)> {
    var slice := clocks[..HalfUp(|clocks|)];
    seq(|slice|, clockIndex requires 0 <= clockIndex < |slice| => (slice[clockIndex], clockIndex))
  }

  /** The right column: `clocks.slice(ceil(n/2))`, each with
      `actualClockIndex = sliceIndex + ceil(n/2)`. */
  function RightColumn(clocks: seq<NoteClock>): seq<(NoteClock, nat)> {
    var half := HalfUp(|clocks|);
    var slice := clocks[half..];
    seq(|slice|, sliceIndex requires 0 <= sliceIndex < |slice| => (slice[sliceIndex], sliceIndex + half))
  }

  /** Read left then right, the columns hold every clock exactly once, in order,
      each paired with its own index; the left column is never the shorter one. */
  lemma ColumnsCoverClocks(clocks: seq<NoteClock>)
    ensures LeftColumn(clocks) + RightColumn(clocks) == seq(|clocks|, i requires 0 <= i < |clocks| => (clocks[i], i))
    ensures |RightColumn(clocks)| <= |LeftColumn(clocks)| <= |RightColumn(clocks)| + 1
  {
    var all := seq(|clocks|, i requires 0 <= i < |clocks| => (clocks[i], i));
    var both := LeftColumn(clocks) + RightColumn(clocks);
    assert |both| == |all|;
    forall i | 0 <= i < |all| ensures both[i] == all[i] {
      if i >= |LeftColumn(clocks)| {
        assert both[i] == RightColumn(clocks)[i - HalfUp(|clocks|)];
      }
    }
  }
}
