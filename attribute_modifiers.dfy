/** The attribute-modifier dialog of the combat simulator: the list of
    modifiers an NPC carries on one attribute, adding a modifier with pairwise
    cancellation of opposite signs, and removing one by position
    (src/components/combatSim/npcDetail/AttributeModifierDialog.jsx). */
module AttributeModifiers {
  import opened JsCore

  /** The parts of `npc.combatStats` the dialog and its owner read and write;
      `others` stands for the remaining fields, which updates carry along. */
  datatype CombatStats = CombatStats(attributeModifiers: Option<map<string, seq<int>>>, others: map<string, int>)

  datatype Npc = Npc(combatId: string, name: string, attributes: map<string, int>, combatStats: Option<CombatStats>)

  /** `npc.combatStats?.attributeModifiers?.[attribute] || []`: a missing stats
      record, modifier table or entry reads as the empty list. */
  function ModifiersOf(npc: Npc, attribute: string): (r: seq<int>)
    ensures npc.combatStats.None? ==> r == []
    ensures npc.combatStats.Some? && npc.combatStats.value.attributeModifiers.None? ==> r == []
    ensures npc.combatStats.Some? && npc.combatStats.value.attributeModifiers.Some? ==>
      var table := npc.combatStats.value.attributeModifiers.value;
      r == if attribute in table then table[attribute] else []
  {
    match npc.combatStats
    case None => []
    case Some(stats) =>
      match stats.attributeModifiers
      case None => []
      case Some(table) => if attribute in table then table[attribute] else []
  }

  /** The dialog renders nothing for a `null` or empty attribute; otherwise it
      lists that attribute's modifiers. */
  function DialogModifiers(attribute: Option<string>, npc: Npc): (r: Option<seq<int>>)
    ensures r.None? <==> attribute.None? || attribute.value == ""
    ensures r.Some? ==> r.value == ModifiersOf(npc, attribute.value)
  {
    if attribute.None? || attribute.value == "" then None else Some(ModifiersOf(npc, attribute.value))
  }

  // ---------------------------------------------------------------------------
  // Adding a modifier

  predicate IsPositive(m: int) { m > 0 }
  predicate IsNegative(m: int) { m < 0 }

  function Positives(s: seq<int>): seq<int> { Filter(s, IsPositive) }
  function Negatives(s: seq<int>): seq<int> { Filter(s, IsNegative) }

  function Min(a: int, b: int): int { if a < b then a else b }

  /** The cancelled list: the positives and the negatives of `t`, each with as
      many entries dropped from its end as the shorter of the two has; zeros
      are in neither. */
  function Cancelled(t: seq<int>): seq<int> {
    PopPairs(Positives(t), Negatives(t))
  }

  /** Both lists with as many entries dropped from their ends as the shorter has. */
  function PopPairs(p: seq<int>, n: seq<int>): seq<int> {
    var m := Min(|p|, |n|);
    p[..|p| - m] + n[..|n| - m]
  }

  /** Popping pairs against a list of at most one entry. */
  lemma PopAgainstOne(s: seq<int>, v: int)
    ensures PopPairs(s, []) == s && PopPairs([], s) == s
    ensures PopPairs(s, [v]) == (if s == [] then [v] else s[..|s| - 1])
    ensures PopPairs([v], s) == (if s == [] then [v] else s[..|s| - 1])
  {
    assert s[..|s|] == s;
  }

  /** `handleAddModifier(value)`: append, split by sign, pop one of each while
      both are non-empty, then concatenate. */
  method AddModifier(modifiers: seq<int>, value: int) returns (simplified: seq<int>)
    ensures simplified == Cancelled(modifiers + [value])
  {
    var newModifiers := modifiers + [value];
    var positives := Filter(newModifiers, IsPositive);
    var negatives := Filter(newModifiers, IsNegative);
    while |positives| > 0 && |negatives| > 0
      invariant |positives| <= |Positives(newModifiers)| && positives == Positives(newModifiers)[..|positives|]
      invariant |negatives| <= |Negatives(newModifiers)| && negatives == Negatives(newModifiers)[..|negatives|]
      invariant |Positives(newModifiers)| - |positives| == |Negatives(newModifiers)| - |negatives|
      decreases |positives|
    {
      positives := positives[..|positives| - 1];
      negatives := negatives[..|negatives| - 1];
    }
    simplified := positives + negatives;
  }

  /** All entries share one sign (the form every simplified list has). */
  predicate SingleSign(s: seq<int>) {
    (forall i :: 0 <= i < |s| ==> s[i] > 0) || (forall i :: 0 <= i < |s| ==> s[i] < 0)
  }

  /** Every kept positive is positive and every kept negative is negative. */
  lemma SignsOfParts(t: seq<int>)
    ensures forall i :: 0 <= i < |Positives(t)| ==> Positives(t)[i] > 0
    ensures forall i :: 0 <= i < |Negatives(t)| ==> Negatives(t)[i] < 0
  {
    var p := Positives(t);
    var n := Negatives(t);
    forall i | 0 <= i < |p| ensures p[i] > 0 { assert p[i] in p; }
    forall i | 0 <= i < |n| ensures n[i] < 0 { assert n[i] in n; }
  }

  /** Splitting positives-then-negatives by sign gives the two parts back. */
  lemma SplitSigned(pp: seq<int>, nn: seq<int>)
    requires forall i :: 0 <= i < |pp| ==> pp[i] > 0
    requires forall i :: 0 <= i < |nn| ==> nn[i] < 0
    ensures Positives(pp + nn) == pp && Negatives(pp + nn) == nn
  {
    FilterAppend(pp, nn, IsPositive);
    FilterAll(pp, IsPositive);
    FilterEmptyIff(nn, IsPositive);
    FilterAppend(pp, nn, IsNegative);
    FilterAll(nn, IsNegative);
    FilterEmptyIff(pp, IsNegative);
  }

  /** The cancelled list never mixes signs and holds no zero; its length is the
      difference between the counts of positive and negative entries. */
  lemma CancelledShape(t: seq<int>)
    ensures SingleSign(Cancelled(t))
    ensures forall i :: 0 <= i < |Cancelled(t)| ==> Cancelled(t)[i] != 0
    ensures var p := |Positives(t)|; var n := |Negatives(t)|;
      |Cancelled(t)| == if p >= n then p - n else n - p
  {
    var p := Positives(t);
    var n := Negatives(t);
    var m := Min(|p|, |n|);
    var r := Cancelled(t);
    SignsOfParts(t);
    if |p| <= |n| {
      assert r == n[..|n| - m];
    } else {
      assert r == p[..|p| - m];
    }
  }

  /** The survivors are the earliest positives and the earliest negatives of
      `t`, in their original order: filtering the result by sign gives a prefix
      of each, and dropping the same number from both. */
  lemma CancelledKeepsEarliest(t: seq<int>)
    ensures var p := Positives(t); var n := Negatives(t); var r := Cancelled(t);
      && |Positives(r)| <= |p| && Positives(r) == p[..|Positives(r)|]
      && |Negatives(r)| <= |n| && Negatives(r) == n[..|Negatives(r)|]
      && |p| - |Positives(r)| == |n| - |Negatives(r)|
      && (Positives(r) == [] || Negatives(r) == [])
  {
    var p := Positives(t);
    var n := Negatives(t);
    var m := Min(|p|, |n|);
    var pp := p[..|p| - m];
    var nn := n[..|n| - m];
    assert Cancelled(t) == pp + nn;
    SignsOfParts(t);
    assert forall i :: 0 <= i < |pp| ==> pp[i] > 0;
    assert forall i :: 0 <= i < |nn| ==> nn[i] < 0;
    SplitSigned(pp, nn);
    assert Positives(Cancelled(t)) == pp;
    assert Negatives(Cancelled(t)) == nn;
  }

  /** Adding to a single-signed list: a zero is dropped, a same-signed value (or
      any value on the empty list) is appended, an opposite-signed value
      removes the last entry. */
  lemma AddToSingleSign(s: seq<int>, v: int)
    requires SingleSign(s)
    ensures v == 0 ==> Cancelled(s + [v]) == s
    ensures v != 0 && (s == [] || (v > 0 <==> s[0] > 0)) ==> Cancelled(s + [v]) == s + [v]
    ensures v != 0 && s != [] && (v > 0 <==> s[0] < 0) ==> Cancelled(s + [v]) == s[..|s| - 1]
  {
    if forall i :: 0 <= i < |s| ==> s[i] > 0 {
      AddToPositives(s, v);
    } else {
      AddToNegatives(s, v);
    }
  }

  /** The sign split of an append: the value joins the part of its sign. */
  lemma SplitOfAppend(s: seq<int>, v: int)
    ensures Positives(s + [v]) == Positives(s) + (if v > 0 then [v] else [])
    ensures Negatives(s + [v]) == Negatives(s) + (if v < 0 then [v] else [])
  {
    assert Filter([v], IsPositive) == (if v > 0 then [v] else []) by { assert [v][1..] == []; }
    assert Filter([v], IsNegative) == (if v < 0 then [v] else []) by { assert [v][1..] == []; }
    FilterAppend(s, [v], IsPositive);
    FilterAppend(s, [v], IsNegative);
  }

  lemma AddToPositives(s: seq<int>, v: int)
    requires forall i :: 0 <= i < |s| ==> s[i] > 0
    ensures Cancelled(s + [v]) == if v > 0 || (v < 0 && s == []) then s + [v] else if v == 0 then s else s[..|s| - 1]
  {
    var p := Positives(s + [v]);
    var n := Negatives(s + [v]);
    assert p == s + (if v > 0 then [v] else []) && n == (if v < 0 then [v] else []) by {
      SplitOfAppend(s, v);
      FilterAll(s, IsPositive);
      FilterEmptyIff(s, IsNegative);
    }
    assert Cancelled(s + [v]) == PopPairs(p, n);
    PopAgainstOne(s + (if v > 0 then [v] else []), v);
  }

  lemma AddToNegatives(s: seq<int>, v: int)
    requires forall i :: 0 <= i < |s| ==> s[i] < 0
    ensures Cancelled(s + [v]) == if v < 0 || (v > 0 && s == []) then s + [v] else if v == 0 then s else s[..|s| - 1]
  {
    var p := Positives(s + [v]);
    var n := Negatives(s + [v]);
    assert n == s + (if v < 0 then [v] else []) && p == (if v > 0 then [v] else []) by {
      SplitOfAppend(s, v);
      FilterAll(s, IsNegative);
      FilterEmptyIff(s, IsPositive);
    }
    assert Cancelled(s + [v]) == PopPairs(p, n);
    PopAgainstOne(s + (if v < 0 then [v] else []), v);
  }

  /** A single-signed list is already simplified, so simplifying twice is simplifying once. */
  lemma CancelledIdempotent(t: seq<int>)
    ensures Cancelled(Cancelled(t)) == Cancelled(t)
  {
    var p := Positives(t);
    var n := Negatives(t);
    var m := Min(|p|, |n|);
    var pp := p[..|p| - m];
    var nn := n[..|n| - m];
    assert Cancelled(t) == pp + nn;
    assert Positives(pp + nn) == pp && Negatives(pp + nn) == nn by {
      SignsOfParts(t);
      assert forall i :: 0 <= i < |pp| ==> pp[i] > 0;
      assert forall i :: 0 <= i < |nn| ==> nn[i] < 0;
      SplitSigned(pp, nn);
    }
    assert Min(|pp|, |nn|) == 0;
    assert Cancelled(pp + nn) == pp[..|pp|] + nn[..|nn|];
    assert pp[..|pp|] == pp && nn[..|nn|] == nn;
  }

  // ---------------------------------------------------------------------------
  // Sums

  function Sum(s: seq<int>): int {
    if s == [] then 0 else s[0] + Sum(s[1..])
  }

  lemma {:induction false} SumAppend(s: seq<int>, t: seq<int>)
    ensures Sum(s + t) == Sum(s) + Sum(t)
  {
    if s == [] {
      assert s + t == t;
    } else {
      assert (s + t)[1..] == s[1..] + t;
      SumAppend(s[1..], t);
    }
  }

  /** Zeros add nothing: the sum is the sum of the positives plus the sum of the negatives. */
  lemma {:induction false} SumSplitsBySign(t: seq<int>)
    ensures Sum(t) == Sum(Positives(t)) + Sum(Negatives(t))
  {
    if t != [] {
      SumSplitsBySign(t[1..]);
      SumAppend(if t[0] > 0 then [t[0]] else [], Positives(t[1..]));
      SumAppend(if t[0] < 0 then [t[0]] else [], Negatives(t[1..]));
    }
  }

  /** Every entry is `c` or `-c`, the only values the +2 / -2 buttons add (with `c` = 2). */
  predicate AllPlusMinus(s: seq<int>, c: int) {
    forall i :: 0 <= i < |s| ==> s[i] == c || s[i] == -c
  }

  /** When every entry is `c` or `-c`, the positives are all `c` and the negatives all `-c`. */
  lemma PartsAreConstant(t: seq<int>, c: int)
    requires c > 0 && AllPlusMinus(t, c)
    ensures forall i :: 0 <= i < |Positives(t)| ==> Positives(t)[i] == c
    ensures forall i :: 0 <= i < |Negatives(t)| ==> Negatives(t)[i] == -c
  {
    var p := Positives(t);
    var n := Negatives(t);
    forall i | 0 <= i < |p| ensures p[i] == c {
      assert p[i] in p;
    }
    forall i | 0 <= i < |n| ensures n[i] == -c {
      assert n[i] in n;
    }
  }

  /** When every entry is `c` or `-c`, cancellation keeps the sum. */
  lemma CancelledKeepsSum(t: seq<int>, c: int)
    requires c > 0 && AllPlusMinus(t, c)
    ensures Sum(Cancelled(t)) == Sum(t)
  {
    var p := Positives(t);
    var n := Negatives(t);
    var m := Min(|p|, |n|);
    assert Cancelled(t) == p[..|p| - m] + n[..|n| - m];
    PartsAreConstant(t, c);
    DropPairs(p, n, c, m);
    SumSplitsBySign(t);
    SumAppend(p[..|p| - m], n[..|n| - m]);
  }

  /** Dropping `m` copies of `c` and `m` copies of `-c` keeps the sum. */
  lemma {:induction false} DropPairs(p: seq<int>, n: seq<int>, c: int, m: nat)
    requires forall i :: 0 <= i < |p| ==> p[i] == c
    requires forall i :: 0 <= i < |n| ==> n[i] == -c
    requires m <= |p| && m <= |n|
    ensures Sum(p[..|p| - m]) + Sum(n[..|n| - m]) == Sum(p) + Sum(n)
    decreases m
  {
    if m == 0 {
      assert p[..|p|] == p && n[..|n|] == n;
    } else {
      DropPairs(p, n, c, m - 1);
      var a := p[..|p| - m];
      var b := n[..|n| - m];
      assert p[..|p| - (m - 1)] == a + [c];
      assert n[..|n| - (m - 1)] == b + [-c];
      SumAppend(a, [c]);
      SumAppend(b, [-c]);
      assert [c][1..] == [] && [-c][1..] == [];
    }
  }

  /** Pressing +2 or -2 on a list of +2 / -2 entries moves the sum by exactly that value. */
  lemma AddModifierMovesSum(modifiers: seq<int>, value: int)
    requires AllPlusMinus(modifiers, 2) && (value == 2 || value == -2)
    ensures Sum(Cancelled(modifiers + [value])) == Sum(modifiers) + value
    ensures AllPlusMinus(Cancelled(modifiers + [value]), 2)
  {
    var t := modifiers + [value];
    assert AllPlusMinus(t, 2);
    CancelledKeepsSum(t, 2);
    SumAppend(modifiers, [value]);
    assert [value][1..] == [];
    var p := Positives(t);
    var n := Negatives(t);
    var m := Min(|p|, |n|);
    var r := Cancelled(t);
    forall i | 0 <= i < |r| ensures r[i] == 2 || r[i] == -2 {
      if i < |p| - m {
        assert r[i] == p[i] && p[i] in p;
      } else {
        assert r[i] == n[i - (|p| - m)] && n[i - (|p| - m)] in n;
      }
    }
  }

  // ---------------------------------------------------------------------------
  // Removing a modifier

  /** `modifiers.filter((_, i) => i !== index)`, read from position `i` on. */
  function KeptExcept(s: seq<int>, index: int, i: nat): seq<int>
    requires i <= |s|
    decreases |s| - i
  {
    if i == |s| then [] else (if i != index then [s[i]] else []) + KeptExcept(s, index, i + 1)
  }

  lemma {:induction false} KeptExceptIsSplice(s: seq<int>, index: int, i: nat)
    requires i <= |s|
    ensures KeptExcept(s, index, i) == if i <= index < |s| then s[i..index] + s[index + 1..] else s[i..]
    decreases |s| - i
  {
    if i < |s| {
      KeptExceptIsSplice(s, index, i + 1);
      assert s[i..] == [s[i]] + s[i + 1..];
      if i < index < |s| {
        assert s[i..index] == [s[i]] + s[i + 1..index];
      }
    }
  }

  /** `handleRemoveModifier(index)`: exactly position `index` is removed and the
      rest keep their order; an index outside the list removes nothing. */
  function RemoveModifier(modifiers: seq<int>, index: int): (r: seq<int>)
    ensures 0 <= index < |modifiers| ==> r == modifiers[..index] + modifiers[index + 1..]
    ensures !(0 <= index < |modifiers|) ==> r == modifiers
  {
    KeptExceptIsSplice(modifiers, index, 0);
    assert modifiers[0..] == modifiers;
    KeptExcept(modifiers, index, 0)
  }

  /** Removing the entry just added restores the list it was added to. */
  lemma RemoveUndoesAppend(modifiers: seq<int>, value: int)
    ensures RemoveModifier(modifiers + [value], |modifiers|) == modifiers
  {
    assert (modifiers + [value])[..|modifiers|] == modifiers;
  }
}
