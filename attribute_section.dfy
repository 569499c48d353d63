/** The attribute row of the NPC detail pane: selecting an attribute opens the
    modifier dialog, an update from the dialog is written into every selected
    NPC with the same combat id, and each value is coloured against the NPC's
    base value (src/components/combatSim/npcDetail/AttributeSection.jsx). */
module AttributeSection {
  import opened JsCore
  import opened AttributeModifiers

  /** The NPC `handleUpdateModifiers` builds: `combatStats` and its
      `attributeModifiers` are spread (a missing one spreads as `{}`) and the one
      attribute's list is replaced. */
  function WithModifiers(n: Npc, attribute: string, newModifiers: seq<int>): (r: Npc)
    ensures r.combatId == n.combatId && r.name == n.name && r.attributes == n.attributes
    ensures ModifiersOf(r, attribute) == newModifiers
    ensures forall b :: b != attribute ==> ModifiersOf(r, b) == ModifiersOf(n, b)
    ensures r.combatStats.Some?
    ensures n.combatStats.Some? ==> r.combatStats.value.others == n.combatStats.value.others
  {
    var stats := if n.combatStats.Some? then n.combatStats.value else CombatStats(None, map[]);
    var table := if stats.attributeModifiers.Some? then stats.attributeModifiers.value else map[];
    n.(combatStats := Some(stats.(attributeModifiers := Some(table[attribute := newModifiers]))))
  }

  /** Writing the same list twice is writing it once. */
  lemma WithModifiersIdempotent(n: Npc, attribute: string, newModifiers: seq<int>)
    ensures WithModifiers(WithModifiers(n, attribute, newModifiers), attribute, newModifiers)
         == WithModifiers(n, attribute, newModifiers)
  {
    var once := WithModifiers(n, attribute, newModifiers);
    var table := once.combatStats.value.attributeModifiers.value;
    assert table[attribute := newModifiers] == table;
  }

  /** The NPCs handed to `setSelectedNPC`, in order: the rewritten form of each
      NPC whose combat id matches. */
  function Matched(npcs: seq<Npc>, selectedId: string, attribute: string, newModifiers: seq<int>): (r: seq<Npc>)
    ensures |r| <= |npcs|
    ensures forall i :: 0 <= i < |r| ==> r[i].combatId == selectedId && ModifiersOf(r[i], attribute) == newModifiers
  {
    if npcs == [] then []
    else
      var last := npcs[|npcs| - 1];
      Matched(npcs[..|npcs| - 1], selectedId, attribute, newModifiers)
      + (if last.combatId == selectedId then [WithModifiers(last, attribute, newModifiers)] else [])
  }

  /** The map callback of `handleUpdateModifiers`: an NPC with the selected
      combat id is rewritten, any other is kept as it is. */
  function Rewrite(n: Npc, selectedId: string, attribute: string, newModifiers: seq<int>): Npc {
    if n.combatId == selectedId then WithModifiers(n, attribute, newModifiers) else n
  }

  /** `handleUpdateModifiers(attribute, newModifiers)`: maps over the selected
      NPCs, rewriting those with the current NPC's combat id and calling
      `setSelectedNPC` with each rewritten one; `selectedCalls` lists those calls. */
  method UpdateModifiers(selectedNpcs: seq<Npc>, selectedId: string, attribute: string, newModifiers: seq<int>)
    returns (updatedNpcs: seq<Npc>, selectedCalls: seq<Npc>)
    ensures |updatedNpcs| == |selectedNpcs|
    ensures forall i :: 0 <= i < |selectedNpcs| ==>
      updatedNpcs[i] == Rewrite(selectedNpcs[i], selectedId, attribute, newModifiers)
    ensures selectedCalls == Matched(selectedNpcs, selectedId, attribute, newModifiers)
  {
    updatedNpcs := [];
    selectedCalls := [];
    var i := 0;
    while i < |selectedNpcs|
      invariant 0 <= i <= |selectedNpcs|
      invariant |updatedNpcs| == i
      invariant forall j :: 0 <= j < i ==> updatedNpcs[j] == Rewrite(selectedNpcs[j], selectedId, attribute, newModifiers)
      invariant selectedCalls == Matched(selectedNpcs[..i], selectedId, attribute, newModifiers)
    {
      var n := selectedNpcs[i];
      MatchedSnoc(selectedNpcs, i, selectedId, attribute, newModifiers);
      var newNpc := Rewrite(n, selectedId, attribute, newModifiers);
      selectedCalls := selectedCalls + if n.combatId == selectedId then [newNpc] else [];
      updatedNpcs := updatedNpcs + [newNpc];
      i := i + 1;
    }
    assert selectedNpcs[..i] == selectedNpcs;
  }

  /** One more NPC read adds its rewritten form when its combat id matches. */
  lemma MatchedSnoc(npcs: seq<Npc>, i: nat, selectedId: string, attribute: string, newModifiers: seq<int>)
    requires i < |npcs|
    ensures Matched(npcs[..i + 1], selectedId, attribute, newModifiers)
         == Matched(npcs[..i], selectedId, attribute, newModifiers)
            + (if npcs[i].combatId == selectedId then [Rewrite(npcs[i], selectedId, attribute, newModifiers)] else [])
  {
    assert npcs[..i + 1][..i] == npcs[..i];
  }

  /** `setSelectedNPC` is called at all exactly when some NPC has the combat id. */
  lemma {:induction false} MatchedEmptyIff(npcs: seq<Npc>, selectedId: string, attribute: string, newModifiers: seq<int>)
    ensures Matched(npcs, selectedId, attribute, newModifiers) == []
        <==> forall i :: 0 <= i < |npcs| ==> npcs[i].combatId != selectedId
  {
    if npcs != [] {
      var init := npcs[..|npcs| - 1];
      MatchedEmptyIff(init, selectedId, attribute, newModifiers);
      assert forall i :: 0 <= i < |init| ==> init[i] == npcs[i];
    }
  }

  /** When no selected NPC has the combat id, nothing is rewritten and
      `setSelectedNPC` is never called. */
  lemma NoMatchChangesNothing(selectedNpcs: seq<Npc>, selectedId: string, attribute: string, newModifiers: seq<int>)
    requires forall i :: 0 <= i < |selectedNpcs| ==> selectedNpcs[i].combatId != selectedId
    ensures seq(|selectedNpcs|, i requires 0 <= i < |selectedNpcs| => Rewrite(selectedNpcs[i], selectedId, attribute, newModifiers))
         == selectedNpcs
    ensures Matched(selectedNpcs, selectedId, attribute, newModifiers) == []
  {
    MatchedEmptyIff(selectedNpcs, selectedId, attribute, newModifiers);
  }

  /** The dialog's open flag and the attribute it edits. */
  class AttributeDialog {
    var dialogOpen: bool
    var selectedAttribute: Option<string>

    constructor ()
      ensures !dialogOpen && selectedAttribute.None?
    {
      dialogOpen := false;
      selectedAttribute := None;
    }

    /** `handleAttributeClick(attribute)`. */
    method AttributeClick(attribute: string)
      modifies this
      ensures dialogOpen && selectedAttribute == Some(attribute)
    {
      selectedAttribute := Some(attribute);
      dialogOpen := true;
    }

    /** `handleCloseDialog`. */
    method CloseDialog()
      modifies this
      ensures !dialogOpen && selectedAttribute.None?
    {
      dialogOpen := false;
      selectedAttribute := None;
    }
  }

  /** Colour tokens of an attribute value. */
  datatype ValueColour = Inherit | Green | Red

  /** The value's colour against the base value (`originalValue`, which may be
      `undefined`): equal is plain, above is green, below is red. A value compared
      with `undefined` is neither equal nor greater, so it is red. */
  function ColourOf(value: int, originalValue: Option<int>): (c: ValueColour)
    ensures c == Inherit <==> originalValue == Some(value)
    ensures c == Green <==> originalValue.Some? && value > originalValue.value
    ensures c == Red <==> originalValue.None? || value < originalValue.value
  {
    if originalValue == Some(value) then Inherit
    else if originalValue.Some? && value > originalValue.value then Green
    else Red
  }
}
