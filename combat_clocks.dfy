/** The clock list of the combat simulator's left pane: the +1 / -1 buttons,
    the clock log entry and the per-clock menu
    (src/components/combatSim/LeftPaneTabs.jsx). */
module CombatClocks {
  import opened JsCore
  import opened Clock

  /** A clock of the encounter: a name, the number of wedges and their fill state. */
  datatype EncounterClock = EncounterClock(name: string, sections: int, state: seq<bool>)

  /** `state.findIndex(section => !section)`: the first empty wedge, if any. */
  function FirstEmpty(state: seq<bool>): (r: Option<nat>)
    ensures r.None? <==> forall i :: 0 <= i < |state| ==> state[i]
    ensures r.Some? ==> r.value < |state| && !state[r.value]
                        && forall i :: 0 <= i < r.value ==> state[i]
  {
    if state == [] then None
    else if !state[0] then Some(0)
    else match FirstEmpty(state[1..])
      case None => None
      case Some(i) => Some(i + 1)
  }

  /** `state.lastIndexOf(true)`: the last filled wedge, if any. */
  function LastFilled(state: seq<bool>): (r: Option<nat>)
    ensures r.None? <==> forall i :: 0 <= i < |state| ==> !state[i]
    ensures r.Some? ==> r.value < |state| && state[r.value]
                        && forall i :: r.value < i < |state| ==> !state[i]
  {
    if state == [] then None
    else if state[|state| - 1] then Some(|state| - 1)
    else LastFilled(state[..|state| - 1])
  }

  /** Setting one entry changes the filled count by one at most, as the entry says. */
  lemma CountFilledAfterSet(state: seq<bool>, i: nat, v: bool)
    requires i < |state|
    ensures CountFilled(state[i := v]) + (if state[i] then 1 else 0)
         == CountFilled(state) + (if v then 1 else 0)
  {
    var s' := state[i := v];
    assert state == state[..i] + [state[i]] + state[i + 1..];
    assert s' == state[..i] + [v] + state[i + 1..];
    FilterAppend(state[..i] + [state[i]], state[i + 1..], IsFilled);
    FilterAppend(state[..i], [state[i]], IsFilled);
    FilterAppend(state[..i] + [v], state[i + 1..], IsFilled);
    FilterAppend(state[..i], [v], IsFilled);
  }

  /** What `handleIncrementClock` hands to `handleUpdateClock`: the state with
      its first empty wedge filled, or nothing when `sections` wedges are
      already filled or no wedge is empty. */
  function SteppedUp(clock: EncounterClock): Option<seq<bool>> {
    if CountFilled(clock.state) < clock.sections then
      match FirstEmpty(clock.state)
      case Some(i) => Some(clock.state[i := true])
      case None => None
    else None
  }

  /** What `handleDecrementClock` hands to `handleUpdateClock`: the state with
      its last filled wedge cleared, or nothing when no wedge is filled. */
  function SteppedDown(clock: EncounterClock): Option<seq<bool>> {
    match LastFilled(clock.state)
    case Some(i) => Some(clock.state[i := false])
    case None => None
  }

  /** `handleIncrementClock(index)`: works on a copy of the clock's state. */
  method IncrementClock(clocks: seq<EncounterClock>, index: nat) returns (update: Option<seq<bool>>)
    requires index < |clocks|
    ensures update == SteppedUp(clocks[index])
    ensures var s := clocks[index].state;
      && (update.None? <==> CountFilled(s) >= clocks[index].sections || forall i :: 0 <= i < |s| ==> s[i])
      && (update.Some? ==>
            && |update.value| == |s|
            && CountFilled(update.value) == CountFilled(s) + 1
            && exists i :: 0 <= i < |s| && !s[i] && (forall j :: 0 <= j < i ==> s[j]) && update.value == s[i := true])
  {
    var clock := clocks[index];
    var currentFilled := CountFilled(clock.state);
    update := None;
    if currentFilled < clock.sections {
      var newState := clock.state;
      var nextEmptyIndex := FirstEmpty(newState);
      if nextEmptyIndex.Some? {
        var i := nextEmptyIndex.value;
        CountFilledAfterSet(newState, i, true);
        newState := newState[i := true];
        update := Some(newState);
      }
    }
  }

  /** `handleDecrementClock(index)`: works on a copy of the clock's state. */
  method DecrementClock(clocks: seq<EncounterClock>, index: nat) returns (update: Option<seq<bool>>)
    requires index < |clocks|
    ensures update == SteppedDown(clocks[index])
    ensures var s := clocks[index].state;
      && (update.None? <==> forall i :: 0 <= i < |s| ==> !s[i])
      && (update.Some? ==>
            && |update.value| == |s|
            && CountFilled(update.value) + 1 == CountFilled(s)
            && exists i :: 0 <= i < |s| && s[i] && (forall j :: i < j < |s| ==> !s[j]) && update.value == s[i := false])
  {
    var clock := clocks[index];
    var newState := clock.state;
    var lastFilledIndex := LastFilled(newState);
    update := None;
    if lastFilledIndex.Some? {
      var i := lastFilledIndex.value;
      CountFilledAfterSet(newState, i, false);
      newState := newState[i := false];
      update := Some(newState);
    }
  }

  /** On a prefix-contiguous clock with one entry per wedge, +1 fills the wedge
      just after the filled run (unless all are filled), -1 clears the last one
      of the run (unless none is filled): both keep prefix-contiguity. */
  lemma StepsOnRun(name: string, k: nat, n: nat)
    requires k <= n
    ensures SteppedUp(EncounterClock(name, n, Run(k, n))) == if k < n then Some(Run(k + 1, n)) else None
    ensures SteppedDown(EncounterClock(name, n, Run(k, n))) == if k > 0 then Some(Run(k - 1, n)) else None
  {
    StepUpOnRun(EncounterClock(name, n, Run(k, n)), k);
    StepDownOnRun(EncounterClock(name, n, Run(k, n)), k);
  }

  lemma StepUpOnRun(clock: EncounterClock, k: nat)
    requires k <= clock.sections && clock.state == Run(k, clock.sections)
    ensures SteppedUp(clock) == if k < clock.sections then Some(Run(k + 1, clock.sections)) else None
  {
    var n := clock.sections;
    CountFilledOfRun(k, n);
    var s := clock.state;
    if k < n {
      assert !s[k];
      assert FirstEmpty(s) == Some(k);
      assert s[k := true] == Run(k + 1, n);
    }
  }

  lemma StepDownOnRun(clock: EncounterClock, k: nat)
    requires k <= |clock.state| && clock.state == Run(k, |clock.state|)
    ensures SteppedDown(clock) == if k > 0 then Some(Run(k - 1, |clock.state|)) else None
  {
    var s := clock.state;
    if k > 0 {
      assert s[k - 1];
      assert LastFilled(s) == Some(k - 1);
      assert s[k - 1 := false] == Run(k - 1, |s|);
    } else {
      assert forall i :: 0 <= i < |s| ==> !s[i];
    }
  }

  /** On a prefix-contiguous clock with one entry per wedge, -1 undoes +1 and
      +1 undoes -1. */
  lemma StepsUndoEachOther(clock: EncounterClock)
    requires PrefixFilled(clock.state) && |clock.state| == clock.sections
    ensures SteppedUp(clock).Some? ==>
      && PrefixFilled(SteppedUp(clock).value)
      && SteppedDown(clock.(state := SteppedUp(clock).value)) == Some(clock.state)
    ensures SteppedDown(clock).Some? ==>
      && PrefixFilled(SteppedDown(clock).value)
      && SteppedUp(clock.(state := SteppedDown(clock).value)) == Some(clock.state)
  {
    UpThenDown(clock);
    DownThenUp(clock);
  }

  lemma UpThenDown(clock: EncounterClock)
    requires PrefixFilled(clock.state) && |clock.state| == clock.sections
    ensures SteppedUp(clock).Some? ==>
      && PrefixFilled(SteppedUp(clock).value)
      && SteppedDown(clock.(state := SteppedUp(clock).value)) == Some(clock.state)
  {
    var n := |clock.state|;
    PrefixFilledIsRun(clock.state);
    var k := CountFilled(clock.state);
    StepUpOnRun(clock, k);
    if k < n {
      StepDownOnRun(clock.(state := Run(k + 1, n)), k + 1);
    }
  }

  lemma DownThenUp(clock: EncounterClock)
    requires PrefixFilled(clock.state) && |clock.state| == clock.sections
    ensures SteppedDown(clock).Some? ==>
      && PrefixFilled(SteppedDown(clock).value)
      && SteppedUp(clock.(state := SteppedDown(clock).value)) == Some(clock.state)
  {
    var n := |clock.state|;
    PrefixFilledIsRun(clock.state);
    var k := CountFilled(clock.state);
    StepDownOnRun(clock, k);
    if k > 0 {
      StepUpOnRun(clock.(state := Run(k - 1, n)), k - 1);
    }
  }

  /** The payload of the "current state" log line. */
  datatype ClockLogEntry = ClockLogEntry(name: string, current: nat, max: int)

  /** `logCurrentClock`: the entry handed to `addLog`, only when clock logging is on. */
  function ClockLog(logClockCurrentState: bool, clock: EncounterClock): (r: Option<ClockLogEntry>)
    ensures r.Some? <==> logClockCurrentState
    ensures r.Some? ==> r.value.name == clock.name && r.value.max == clock.sections
                        && r.value.current == CountFilled(clock.state) <= |clock.state|
  {
    if logClockCurrentState then
      Some(ClockLogEntry(clock.name, CountFilled(clock.state), clock.sections))
    else None
  }

  /** On a prefix-contiguous clock the logged count is the length of the filled run. */
  lemma ClockLogCountsRun(name: string, k: nat, n: nat)
    requires k <= n
    ensures ClockLog(true, EncounterClock(name, n, Run(k, n))) == Some(ClockLogEntry(name, k, n))
  {
    CountFilledOfRun(k, n);
  }

  /** The entries of the per-clock menu; `Other` stands for any other action string. */
  datatype MenuChoice = Reset | Log | Remove | Other

  /** The parent callbacks the menu can reach. */
  datatype ParentCall = ResetClock(index: nat) | RemoveClock(index: nat) | AddLog(entry: ClockLogEntry)

  /** The per-clock menu: whether it is anchored (open), which clock it is for,
      and the parent callbacks it has made. */
  class ClockMenu {
    const logClockCurrentState: bool
    var anchored: bool
    var selectedClockIndex: Option<nat>
    var calls: seq<ParentCall>

    constructor (logClockCurrentState: bool)
      ensures this.logClockCurrentState == logClockCurrentState
      ensures !anchored && selectedClockIndex.None? && calls == []
    {
      this.logClockCurrentState := logClockCurrentState;
      anchored := false;
      selectedClockIndex := None;
      calls := [];
    }

    /** `handleMenuOpen(event, index)`. */
    method MenuOpen(index: nat)
      modifies this
      ensures anchored && selectedClockIndex == Some(index) && calls == old(calls)
    {
      anchored := true;
      selectedClockIndex := Some(index);
    }

    /** `handleMenuClose`. */
    method MenuClose()
      modifies this
      ensures !anchored && selectedClockIndex.None? && calls == old(calls)
    {
      anchored := false;
      selectedClockIndex := None;
    }

    /** `handleMenuAction(action)`: nothing without a selected clock; otherwise
        at most one parent call, then the menu closes. Logging a clock index that
        no longer exists throws (reading `name` of `undefined`) before the menu
        closes; `thrown` reports that case. */
    method MenuAction(action: MenuChoice, clocks: seq<EncounterClock>) returns (thrown: bool)
      modifies this
      ensures old(selectedClockIndex).None? ==> !thrown && unchanged(this)
      ensures thrown <==> old(selectedClockIndex).Some? && action == Log && logClockCurrentState
                          && old(selectedClockIndex).value >= |clocks|
      ensures thrown ==> unchanged(this)
      ensures old(selectedClockIndex).Some? && !thrown ==>
        var i := old(selectedClockIndex).value;
        && !anchored && selectedClockIndex.None?
        && calls == old(calls) + match action
          case Reset => [ResetClock(i)]
          case Remove => [RemoveClock(i)]
          case Log => (if logClockCurrentState then [AddLog(ClockLog(true, clocks[i]).value)] else [])
          case Other => []
    {
      thrown := false;
      if selectedClockIndex.None? {
        return;
      }
      var i := selectedClockIndex.value;
      match action {
        case Reset =>
          calls := calls + [ResetClock(i)];
        case Log =>
          if logClockCurrentState {
            if i >= |clocks| {
              thrown := true;
              return;
            }
            calls := calls + [AddLog(ClockLog(true, clocks[i]).value)];
          }
        case Remove =>
          calls := calls + [RemoveClock(i)];
        case Other =>
      }
      MenuClose();
    }
  }
}
