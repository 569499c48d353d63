/** The segmented "clock" widget: a circle cut into `numSections` equal wedges
    whose fill state is a boolean array owned by the caller
    (src/components/player/playerSheet/Clock.jsx). */
module Clock {
  import opened JsCore

  function Max(a: int, b: int): int { if a < b then b else a }

  // ---------------------------------------------------------------------------
  // Fill states

  /** `state[i]` read as a boolean: an entry past the end of the array is
      `undefined`, which reads as an empty wedge. */
  function At(state: seq<bool>, i: int): bool { 0 <= i < |state| && state[i] }

  predicate IsFilled(b: bool) { b }

  /** Number of filled wedges, `state.filter(Boolean).length`. */
  function CountFilled(state: seq<bool>): nat { |Filter(state, IsFilled)| }

  /** Prefix-contiguity: no empty wedge comes before a filled one. */
  predicate PrefixFilled(state: seq<bool>) {
    forall i, j :: 0 <= i < j < |state| && state[j] ==> state[i]
  }

  /** The fill state of `n` wedges whose first `k` are filled. */
  function Run(k: nat, n: nat): (r: seq<bool>)
    ensures |r| == n && PrefixFilled(r)
  {
    seq(n, i => i < k)
  }

  lemma {:induction false} CountFilledOfRun(k: nat, n: nat)
    requires k <= n
    ensures CountFilled(Run(k, n)) == k
    decreases n
  {
    if n > 0 {
      var r := Run(k, n);
      assert r == Run(if k == n then k - 1 else k, n - 1) + [n - 1 < k];
      CountFilledOfRun(if k == n then k - 1 else k, n - 1);
      FilterAppend(Run(if k == n then k - 1 else k, n - 1), [n - 1 < k], IsFilled);
    }
  }

  /** A prefix-contiguous state is exactly the run of its filled count. */
  lemma {:induction false} PrefixFilledIsRun(state: seq<bool>)
    requires PrefixFilled(state)
    ensures CountFilled(state) <= |state| && state == Run(CountFilled(state), |state|)
    decreases |state|
  {
    if state != [] {
      var n := |state|;
      var init := state[..n - 1];
      assert PrefixFilled(init);
      PrefixFilledIsRun(init);
      var c := CountFilled(init);
      assert state == init + [state[n - 1]];
      FilterAppend(init, [state[n - 1]], IsFilled);
      if state[n - 1] {
        if n >= 2 {
          assert init[n - 2];
          assert Run(c, n - 1)[n - 2];
        }
      }
    }
  }

  /** Prefix-contiguity holds exactly of the runs. */
  lemma PrefixFilledIff(state: seq<bool>)
    ensures PrefixFilled(state) <==> exists k :: 0 <= k <= |state| && state == Run(k, |state|)
  {
    if PrefixFilled(state) {
      PrefixFilledIsRun(state);
    }
  }

  // ---------------------------------------------------------------------------
  // handleSectionClick

  /** The array `handleSectionClick(index)` hands to `setState`, worked out on a copy
      of `state`: when wedge `index` is filled, the wedges from `index` up to
      `numSections - 1` are cleared; otherwise the wedges `0 .. index` are filled.
      All other entries are copied, and writing past the end extends the array. */
  function Toggled(state: seq<bool>, numSections: nat, index: nat): seq<bool> {
    if At(state, index) then
      seq(Max(|state|, numSections), j => if index <= j < numSections then false else At(state, j))
    else
      seq(Max(|state|, index + 1), j => if j <= index then true else At(state, j))
  }

  /** `handleSectionClick`: copies the array and overwrites one range with a loop. */
  method SectionClick(state: seq<bool>, numSections: nat, index: nat) returns (updated: seq<bool>)
    ensures updated == Toggled(state, numSections, index)
  {
    updated := state;
    var isCurrentlyFilled := At(updated, index);
    if isCurrentlyFilled {
      var i := index;
      while i < numSections
        invariant index <= i && (i == index || i <= numSections)
        invariant |updated| == Max(|state|, i)
        invariant forall j :: 0 <= j < |updated| ==>
          updated[j] == if index <= j < i then false else At(state, j)
      {
        if i < |updated| {
          updated := updated[i := false];
        } else {
          updated := updated + [false];
        }
        i := i + 1;
      }
    } else {
      var i := 0;
      while i <= index
        invariant i <= index + 1
        invariant |updated| == Max(|state|, i)
        invariant forall j :: 0 <= j < |updated| ==>
          updated[j] == if j < i then true else At(state, j)
      {
        if i < |updated| {
          updated := updated[i := true];
        } else {
          updated := updated + [true];
        }
        i := i + 1;
      }
    }
  }

  /** On a prefix-contiguous state of the right length, a wedge of the clock
      toggles to a run again: clicking a filled wedge leaves exactly `index`
      filled wedges, clicking an empty one exactly `index + 1`. */
  lemma ToggleOnRun(k: nat, numSections: nat, index: nat)
    requires k <= numSections && index < numSections
    ensures Toggled(Run(k, numSections), numSections, index)
         == Run(if index < k then index else index + 1, numSections)
  {
  }

  /** The prefix invariant: toggling any wedge of a prefix-contiguous state of
      length `numSections` gives a prefix-contiguous state of the same length,
      with `index` filled wedges if wedge `index` was filled and `index + 1` if not. */
  lemma ToggleKeepsPrefix(state: seq<bool>, numSections: nat, index: nat)
    requires PrefixFilled(state) && |state| == numSections && index < numSections
    ensures var r := Toggled(state, numSections, index);
      && PrefixFilled(r) && |r| == numSections
      && CountFilled(r) == if state[index] then index else index + 1
  {
    PrefixFilledIsRun(state);
    var k := CountFilled(state);
    ToggleOnRun(k, numSections, index);
    CountFilledOfRun(if index < k then index else index + 1, numSections);
  }

  /** What the toggle leaves alone: clearing never touches the wedges before
      `index`, filling never touches the wedges after it, and the array keeps
      (at least) its length; an entry past the end reads as empty, so it fills. */
  lemma ToggleFrame(state: seq<bool>, numSections: nat, index: nat)
    ensures var r := Toggled(state, numSections, index);
      && |r| >= |state|
      && (At(state, index) ==>
            |r| == Max(|state|, numSections)
            && (forall j :: 0 <= j < index ==> r[j] == state[j])
            && (forall j :: index <= j < numSections ==> !r[j]))
      && (!At(state, index) ==>
            |r| == Max(|state|, index + 1)
            && (forall j :: index < j < |r| ==> r[j] == state[j])
            && (forall j :: 0 <= j <= index ==> r[j]))
  {
  }

  /** The toggle does not repair a state that was not prefix-contiguous: in
      `[empty, empty, filled]`, clicking wedge 0 fills it and leaves the gap. */
  lemma ToggleKeepsGap()
    ensures Toggled([false, false, true], 3, 0) == [true, false, true]
    ensures !PrefixFilled(Toggled([false, false, true], 3, 0))
  {
    var r := Toggled([false, false, true], 3, 0);
    assert r[0] && !r[1] && r[2];
    assert [true, false, true] == r;
  }

  // ---------------------------------------------------------------------------
  // Wedge colour

  /** Theme colours, as tokens. */
  datatype Fill = Transparent | Primary | Secondary | Info

  /** The fill of wedge `i`: character-sheet mode shows the state only; on a touch
      device the wedges up to the touched one are highlighted; on a desktop the
      wedges up to the hovered one while the mouse is held, or the hovered one
      alone otherwise. A highlighted wedge is info-coloured when filled and
      secondary when empty; any other wedge is primary when filled, else transparent. */
  function WedgeFill(i: nat, active: bool, isCharacterSheet: bool, isMobile: bool,
                     touchedIndex: Option<nat>, hoveredIndex: Option<nat>, isMouseDown: bool): Fill
  {
    var isHoveredOrDragged :=
      (isMouseDown && hoveredIndex.Some? && i <= hoveredIndex.value) || (hoveredIndex == Some(i) && !isMouseDown);
    if isCharacterSheet then
      (if active then Primary else Transparent)
    else if isMobile then
      var isCurrentlyTouched := touchedIndex.Some? && i <= touchedIndex.value;
      if isCurrentlyTouched && active then Info
      else if active then Primary
      else if isCurrentlyTouched then Secondary
      else Transparent
    else if isHoveredOrDragged && active then Info
    else if isHoveredOrDragged then Secondary
    else if active then Primary
    else Transparent
  }

  /** The wedge a user would commit to: every wedge up to the touched one on a
      touch device, up to the hovered one while dragging, the hovered one alone
      while merely hovering. */
  predicate Previewed(i: nat, isMobile: bool, touchedIndex: Option<nat>,
                      hoveredIndex: Option<nat>, isMouseDown: bool)
  {
    if isMobile then touchedIndex.Some? && i <= touchedIndex.value
    else if isMouseDown then hoveredIndex.Some? && i <= hoveredIndex.value
    else hoveredIndex == Some(i)
  }

  /** The colour decision table: a wedge looks filled (primary or info) exactly
      when it is filled, in every mode; it is highlighted (info or secondary)
      exactly when it is previewed outside character-sheet mode; the highlight
      is info on a filled wedge and secondary on an empty one. */
  lemma WedgeFillTable(i: nat, active: bool, isCharacterSheet: bool, isMobile: bool,
                       touchedIndex: Option<nat>, hoveredIndex: Option<nat>, isMouseDown: bool)
    ensures var f := WedgeFill(i, active, isCharacterSheet, isMobile, touchedIndex, hoveredIndex, isMouseDown);
      && ((f == Primary || f == Info) <==> active)
      && ((f == Info || f == Secondary) <==>
            !isCharacterSheet && Previewed(i, isMobile, touchedIndex, hoveredIndex, isMouseDown))
  {
  }

  /** While the user is touching wedge `t` of a prefix-contiguous clock whose wedge
      `t` is empty, the coloured wedges are exactly the ones that releasing on `t`
      will fill. */
  lemma TouchPreviewMatchesCommit(state: seq<bool>, numSections: nat, t: nat, i: nat)
    requires PrefixFilled(state) && |state| == numSections && t < numSections && !state[t]
    requires i < numSections
    ensures (WedgeFill(i, state[i], false, true, Some(t), None, false) != Transparent)
        <==> Toggled(state, numSections, t)[i]
  {
    PrefixFilledIsRun(state);
    ToggleOnRun(CountFilled(state), numSections, t);
  }

  // ---------------------------------------------------------------------------
  // Wedge geometry: angles only (the trigonometry of the path points is left out)

  function StartAngle(numSections: nat, i: nat): real
    requires numSections >= 1
  {
    360.0 / numSections as real * i as real
  }

  function EndAngle(numSections: nat, i: nat): real
    requires numSections >= 1
  {
    360.0 / numSections as real * (i + 1) as real
  }

  /** The SVG large-arc flag of wedge `i`. */
  predicate LargeArc(numSections: nat, i: nat)
    requires numSections >= 1
  {
    EndAngle(numSections, i) - StartAngle(numSections, i) > 180.0
  }

  /** Only a clock of one wedge draws its arc the long way round. */
  lemma LargeArcIffSingleWedge(numSections: nat, i: nat)
    requires numSections >= 1
    ensures LargeArc(numSections, i) <==> numSections == 1
  {
    var w := 360.0 / numSections as real;
    assert EndAngle(numSections, i) - StartAngle(numSections, i) == w;
    if numSections >= 2 {
      assert w * numSections as real == 360.0;
      assert w <= 180.0;
    }
  }

  /** Sum of the angular spans of the first `k` wedges. */
  function SpanSum(numSections: nat, k: nat): real
    requires numSections >= 1
  {
    if k == 0 then 0.0
    else SpanSum(numSections, k - 1) + (EndAngle(numSections, k - 1) - StartAngle(numSections, k - 1))
  }

  /** Each wedge ends where the next begins, and the wedges together turn
      once: their spans add up to 360 degrees. */
  lemma {:induction false} WedgesTileTheCircle(numSections: nat, k: nat)
    requires numSections >= 1 && k <= numSections
    ensures SpanSum(numSections, k) == StartAngle(numSections, k)
    ensures k == numSections ==> SpanSum(numSections, k) == 360.0
  {
    var w := 360.0 / numSections as real;
    if k > 0 {
      WedgesTileTheCircle(numSections, k - 1);
      assert EndAngle(numSections, k - 1) == StartAngle(numSections, k);
    }
    assert w * numSections as real == 360.0;
  }

  // ---------------------------------------------------------------------------
  // The widget and its input handlers

  /** One mounted clock: the props it was rendered with, its four interaction
      fields, and what it has handed back to its owner. The owner is assumed to
      feed every committed array back as the next `state` prop. */
  class ClockWidget {
    const numSections: nat
    const isCharacterSheet: bool
    /** The platform test's verdict; fixed for the life of the widget here. */
    const isMobile: bool
    /** Whether an `onReset` callback was passed. */
    const hasOnReset: bool
    var state: seq<bool>
    var hoveredIndex: Option<nat>
    var isMouseDown: bool
    var touchedIndex: Option<nat>
    /** Every array handed to `setState`, oldest first. */
    var commits: seq<seq<bool>>
    /** How many times `onReset` was called. */
    var resetCalls: nat

    /** The interaction fields only ever record gestures the mode allows:
        nothing in character-sheet mode, no hover or press on a touch device,
        no touch on a desktop. */
    predicate Valid()
      reads this
    {
      && (isCharacterSheet ==> hoveredIndex.None? && !isMouseDown && touchedIndex.None?)
      && (isMobile ==> hoveredIndex.None? && !isMouseDown)
      && (!isMobile ==> touchedIndex.None?)
    }

    /** The state has one entry per wedge and is prefix-contiguous. */
    predicate Canonical()
      reads this
    {
      |state| == numSections && PrefixFilled(state)
    }

    constructor (numSections: nat, state: seq<bool>, isCharacterSheet: bool, isMobile: bool, hasOnReset: bool)
      ensures Valid()
      ensures this.numSections == numSections && this.state == state
      ensures this.isCharacterSheet == isCharacterSheet && this.isMobile == isMobile
      ensures this.hasOnReset == hasOnReset
      ensures hoveredIndex.None? && !isMouseDown && touchedIndex.None?
      ensures commits == [] && resetCalls == 0
    {
      this.numSections := numSections;
      this.state := state;
      this.isCharacterSheet := isCharacterSheet;
      this.isMobile := isMobile;
      this.hasOnReset := hasOnReset;
      hoveredIndex := None;
      isMouseDown := false;
      touchedIndex := None;
      commits := [];
      resetCalls := 0;
    }

    /** The fill colour of wedge `i` in the current render. */
    function FillOf(i: nat): Fill
      reads this
    {
      WedgeFill(i, At(state, i), isCharacterSheet, isMobile, touchedIndex, hoveredIndex, isMouseDown)
    }

    /** `setState(updated)`, with the owner writing it back. */
    method Commit(updated: seq<bool>)
      modifies this
      ensures state == updated && commits == old(commits) + [updated]
      ensures hoveredIndex == old(hoveredIndex) && isMouseDown == old(isMouseDown)
      ensures touchedIndex == old(touchedIndex) && resetCalls == old(resetCalls)
    {
      state := updated;
      commits := commits + [updated];
    }

    /** `handleSectionClick(index)` and its commit. */
    method Click(index: nat)
      requires Valid()
      modifies this
      ensures Valid()
      ensures state == Toggled(old(state), numSections, index) && commits == old(commits) + [state]
      ensures hoveredIndex == old(hoveredIndex) && isMouseDown == old(isMouseDown)
      ensures touchedIndex == old(touchedIndex) && resetCalls == old(resetCalls)
      ensures old(Canonical()) && index < numSections ==> Canonical()
    {
      if Canonical() && index < numSections {
        ToggleKeepsPrefix(state, numSections, index);
      }
      var updated := SectionClick(state, numSections, index);
      Commit(updated);
    }

    /** `handleMouseDown(index)`: on the desktop, press and toggle at once. */
    method MouseDown(index: nat)
      requires Valid()
      modifies this
      ensures Valid()
      ensures if !isCharacterSheet && !isMobile then
          && isMouseDown
          && state == Toggled(old(state), numSections, index) && commits == old(commits) + [state]
          && hoveredIndex == old(hoveredIndex) && touchedIndex == old(touchedIndex)
          && resetCalls == old(resetCalls)
        else unchanged(this)
      ensures old(Canonical()) && index < numSections ==> Canonical()
    {
      if !isCharacterSheet && !isMobile {
        isMouseDown := true;
        Click(index);
      }
    }

    /** `handleMouseEnter(index)`: on the desktop, toggle while the mouse is held
        (a drag), and always record the hovered wedge. */
    method MouseEnter(index: nat)
      requires Valid()
      modifies this
      ensures Valid()
      ensures if !isCharacterSheet && !isMobile then
          && hoveredIndex == Some(index) && isMouseDown == old(isMouseDown)
          && touchedIndex == old(touchedIndex) && resetCalls == old(resetCalls)
          && (if old(isMouseDown)
              then state == Toggled(old(state), numSections, index) && commits == old(commits) + [state]
              else state == old(state) && commits == old(commits))
        else unchanged(this)
      ensures old(Canonical()) && index < numSections ==> Canonical()
    {
      if !isCharacterSheet && !isMobile {
        if isMouseDown {
          Click(index);
        }
        hoveredIndex := Some(index);
      }
    }

    /** `handleMouseLeave`: on the desktop, forget the hovered wedge. */
    method MouseLeave()
      requires Valid()
      modifies this
      ensures Valid()
      ensures if !isCharacterSheet && !isMobile then
          && hoveredIndex.None? && state == old(state) && commits == old(commits)
          && isMouseDown == old(isMouseDown) && touchedIndex == old(touchedIndex)
          && resetCalls == old(resetCalls)
        else unchanged(this)
    {
      if !isCharacterSheet && !isMobile {
        hoveredIndex := None;
      }
    }

    /** The window-level `mouseup` listener: releases the press wherever the
        mouse is, in every mode. */
    method GlobalMouseUp()
      requires Valid()
      modifies this
      ensures Valid()
      ensures !isMouseDown
      ensures state == old(state) && commits == old(commits) && resetCalls == old(resetCalls)
      ensures hoveredIndex == old(hoveredIndex) && touchedIndex == old(touchedIndex)
      ensures isCharacterSheet || isMobile ==> unchanged(this)
    {
      isMouseDown := false;
    }

    /** `handleTouchStart(index)`: on a touch device, only remember the wedge. */
    method TouchStart(index: nat)
      requires Valid()
      modifies this
      ensures Valid()
      ensures if !isCharacterSheet && isMobile then
          && touchedIndex == Some(index) && state == old(state) && commits == old(commits)
          && hoveredIndex == old(hoveredIndex) && isMouseDown == old(isMouseDown)
          && resetCalls == old(resetCalls)
        else unchanged(this)
    {
      if !isCharacterSheet && isMobile {
        touchedIndex := Some(index);
      }
    }

    /** `handleTouchEnd(index)`: on a touch device, toggle only when the finger
        lifts from the wedge it touched, then forget the touch. */
    method TouchEnd(index: nat)
      requires Valid()
      modifies this
      ensures Valid()
      ensures if !isCharacterSheet && isMobile then
          && touchedIndex.None?
          && hoveredIndex == old(hoveredIndex) && isMouseDown == old(isMouseDown)
          && resetCalls == old(resetCalls)
          && (if old(touchedIndex) == Some(index)
              then state == Toggled(old(state), numSections, index) && commits == old(commits) + [state]
              else state == old(state) && commits == old(commits))
        else unchanged(this)
      ensures old(Canonical()) && index < numSections ==> Canonical()
    {
      if !isCharacterSheet && isMobile {
        if touchedIndex == Some(index) {
          Click(index);
        }
        touchedIndex := None;
      }
    }

    /** `handleTouchCancel`: on a touch device, forget the touch. */
    method TouchCancel()
      requires Valid()
      modifies this
      ensures Valid()
      ensures if !isCharacterSheet && isMobile then
          && touchedIndex.None? && state == old(state) && commits == old(commits)
          && hoveredIndex == old(hoveredIndex) && isMouseDown == old(isMouseDown)
          && resetCalls == old(resetCalls)
        else unchanged(this)
    {
      if !isCharacterSheet && isMobile {
        touchedIndex := None;
      }
    }

    /** `handleContextMenu` on a wedge: outside character-sheet mode, commit
        `numSections` empty wedges. */
    method ContextMenu()
      requires Valid()
      modifies this
      ensures Valid()
      ensures if !isCharacterSheet then
          && state == Run(0, numSections) && commits == old(commits) + [state]
          && hoveredIndex == old(hoveredIndex) && isMouseDown == old(isMouseDown)
          && touchedIndex == old(touchedIndex) && resetCalls == old(resetCalls)
        else unchanged(this)
      ensures !isCharacterSheet ==> Canonical() && CountFilled(state) == 0
    {
      if !isCharacterSheet {
        var cleared := seq(numSections, _ => false);
        assert cleared == Run(0, numSections);
        CountFilledOfRun(0, numSections);
        Commit(cleared);
      }
    }

    /** `handleRightClick` on the whole clock, as evidently intended: call
        `onReset` when one was given, outside character-sheet mode. */
    method RightClick()
      requires Valid()
      modifies this
      ensures Valid()
      ensures resetCalls == old(resetCalls) + (if hasOnReset && !isCharacterSheet then 1 else 0)
      ensures state == old(state) && commits == old(commits)
      ensures hoveredIndex == old(hoveredIndex) && isMouseDown == old(isMouseDown)
      ensures touchedIndex == old(touchedIndex)
    {
      if hasOnReset && !isCharacterSheet {
        resetCalls := resetCalls + 1;
      }
    }
  }

  /** The drag example: from four empty wedges, pressing wedge 1 fills two, and
      dragging into wedge 3 fills all four; the last wedge entered decides. */
  method DragExample() returns (afterPress: seq<bool>, afterDrag: seq<bool>)
    ensures afterPress == [true, true, false, false]
    ensures afterDrag == [true, true, true, true]
  {
    var clock := new ClockWidget(4, [false, false, false, false], false, false, false);
    clock.MouseDown(1);
    afterPress := clock.state;
    assert afterPress == Toggled([false, false, false, false], 4, 1);
    assert afterPress == [true, true, false, false];
    clock.MouseEnter(3);
    afterDrag := clock.state;
    assert afterDrag == Toggled([true, true, false, false], 4, 3);
  }

  /** The touch example: touching and releasing wedge 2 commits a toggle there;
      releasing on another wedge commits nothing. */
  method TouchExample() returns (tapped: seq<bool>, slipped: seq<seq<bool>>)
    ensures tapped == [true, true, true, false]
    ensures slipped == []
  {
    var clock := new ClockWidget(4, [false, false, false, false], false, true, false);
    clock.TouchStart(2);
    clock.TouchEnd(2);
    tapped := clock.state;
    assert tapped == Toggled([false, false, false, false], 4, 2);
    var other := new ClockWidget(4, [false, false, false, false], false, true, false);
    other.TouchStart(2);
    other.TouchEnd(3);
    slipped := other.commits;
  }
}
