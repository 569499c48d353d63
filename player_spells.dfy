/** The spells section of the compact player sheet: which spells are visible,
    which classes appear in the default/gamble group and in the arcanist group,
    where the column header goes, and the `rework` flag of an arcanum
    (src/components/player/playerSheet/compact/PlayerSpells.jsx). */
module PlayerSpells {
  import opened JsCore

  /** A spell: its name, its `spellType` tag and its `showInPlayerSheet` flag,
      kept as the JavaScript value it is. The other fields are only passed on to
      the presentational spell rows. */
  datatype Spell = Spell(name: string, spellType: string, showInPlayerSheet: JsValue)

  datatype PlayerClass = PlayerClass(name: string, spells: seq<Spell>)

  /** `spell.showInPlayerSheet || spell.showInPlayerSheet === undefined`. */
  predicate Visible(spell: Spell) {
    Truthy(spell.showInPlayerSheet) || spell.showInPlayerSheet == Undefined
  }

  /** A spell is hidden exactly by a falsy flag other than `undefined`: `false`,
      `null`, `0`, `NaN` or `""`. */
  lemma VisibleIff(spell: Spell)
    ensures !Visible(spell) <==> spell.showInPlayerSheet in {Bool(false), Null, Num(0), NaN, Str("")}
  {
  }

  predicate IsDefault(spell: Spell) { spell.spellType == "default" && Visible(spell) }
  predicate IsGamble(spell: Spell) { spell.spellType == "gamble" && Visible(spell) }

  /** The test of the first group: a visible default or gamble spell. */
  predicate IsDefaultOrGamble(spell: Spell) {
    (spell.spellType == "default" || spell.spellType == "gamble") && Visible(spell)
  }

  /** The test of the arcanist group: a visible arcanum, in either version. */
  predicate IsArcanum(spell: Spell) {
    (spell.spellType == "arcanist" || spell.spellType == "arcanist-rework") && Visible(spell)
  }

  predicate InFirstGroup(c: PlayerClass) { Any(c.spells, IsDefaultOrGamble) }
  predicate InArcanistGroup(c: PlayerClass) { Any(c.spells, IsArcanum) }

  /** One row of a class's block in the first group. */
  datatype SpellRow = Header | DefaultRow(spell: Spell) | GambleRow(spell: Spell)

  /** The visible default spells from position `i` on, each preceded by the
      column header when its index in the filtered list is 0. */
  function DefaultRowsFrom(defaults: seq<Spell>, i: nat): seq<SpellRow>
    requires i <= |defaults|
    decreases |defaults| - i
  {
    if i == |defaults| then []
    else (if i == 0 then [Header] else []) + [DefaultRow(defaults[i])] + DefaultRowsFrom(defaults, i + 1)
  }

  /** The rows of a class in the first group: its visible default spells (with
      the header before the first), then its visible gambles. */
  function ClassRows(c: PlayerClass): seq<SpellRow> {
    BlockRows(Filter(c.spells, IsDefault), Filter(c.spells, IsGamble))
  }

  /** The default spells' rows, then one row per gamble. */
  function BlockRows(defaults: seq<Spell>, gambles: seq<Spell>): seq<SpellRow> {
    DefaultRowsFrom(defaults, 0) + seq(|gambles|, j requires 0 <= j < |gambles| => GambleRow(gambles[j]))
  }

  /** One `SpellArcanist` row: the arcanum and its `rework` flag. */
  datatype ArcanumRow = ArcanumRow(spell: Spell, rework: bool)

  function ArcanumRows(c: PlayerClass): seq<ArcanumRow> {
    var arcana := Filter(c.spells, IsArcanum);
    seq(|arcana|, j requires 0 <= j < |arcana| => ArcanumRow(arcana[j], arcana[j].spellType == "arcanist-rework"))
  }

  /** What the section renders: the blocks of the first group, then those of the
      arcanist group. */
  datatype SpellSection = SpellSection(first: seq<(PlayerClass, seq<SpellRow>)>, arcanist: seq<(PlayerClass, seq<ArcanumRow>)>)

  /** The section is rendered only when some class has a visible default or
      gamble spell; nothing is rendered otherwise. */
  function Render(classes: seq<PlayerClass>): Option<SpellSection> {
    if |classes| > 0 && Any(classes, InFirstGroup) then
      var first := Filter(classes, InFirstGroup);
      var arcanist := Filter(classes, InArcanistGroup);
      Some(SpellSection(Blocks(first, ClassRows), Blocks(arcanist, ArcanumRows)))
    else None
  }

  /** Each class of a group with the block drawn for it. */
  function Blocks<R>(group: seq<PlayerClass>, rows: PlayerClass -> R): seq<(PlayerClass, R)> {
    seq(|group|, i requires 0 <= i < |group| => (group[i], rows(group[i])))
  }

  /** The section renders exactly when some class has a visible default or gamble spell. */
  lemma RenderedIff(classes: seq<PlayerClass>)
    ensures Render(classes).Some? <==>
      exists i, j :: 0 <= i < |classes| && 0 <= j < |classes[i].spells| && IsDefaultOrGamble(classes[i].spells[j])
  {
    if Render(classes).Some? {
      var i :| 0 <= i < |classes| && InFirstGroup(classes[i]);
      var j :| 0 <= j < |classes[i].spells| && IsDefaultOrGamble(classes[i].spells[j]);
    } else if exists i, j :: 0 <= i < |classes| && 0 <= j < |classes[i].spells| && IsDefaultOrGamble(classes[i].spells[j]) {
      var i, j :| 0 <= i < |classes| && 0 <= j < |classes[i].spells| && IsDefaultOrGamble(classes[i].spells[j]);
      assert InFirstGroup(classes[i]);
    }
  }

  /** A sheet whose spells are all arcana renders nothing, its arcanist group included. */
  lemma ArcanaOnlyRendersNothing(classes: seq<PlayerClass>)
    requires forall i, j :: 0 <= i < |classes| && 0 <= j < |classes[i].spells| ==>
      classes[i].spells[j].spellType in {"arcanist", "arcanist-rework"}
    ensures Render(classes) == None
  {
    RenderedIff(classes);
  }

  /** A class of the sheet appears in the first group exactly when it has a
      visible default or gamble spell, and in the arcanist group exactly when it
      has a visible arcanum. */
  lemma GroupMembership(classes: seq<PlayerClass>, c: PlayerClass)
    requires Render(classes).Some?
    requires c in classes
    ensures (exists i :: 0 <= i < |Render(classes).value.first| && Render(classes).value.first[i].0 == c)
        <==> exists j :: 0 <= j < |c.spells| && IsDefaultOrGamble(c.spells[j])
    ensures (exists i :: 0 <= i < |Render(classes).value.arcanist| && Render(classes).value.arcanist[i].0 == c)
        <==> exists j :: 0 <= j < |c.spells| && IsArcanum(c.spells[j])
  {
    GroupIff(classes, InFirstGroup, ClassRows, c);
    GroupIff(classes, InArcanistGroup, ArcanumRows, c);
  }

  /** A class of the sheet has a block in a group exactly when it passes the group's test. */
  lemma GroupIff<R>(classes: seq<PlayerClass>, test: PlayerClass -> bool, rows: PlayerClass -> R, c: PlayerClass)
    requires c in classes
    ensures var b := Blocks(Filter(classes, test), rows);
      (exists i :: 0 <= i < |b| && b[i].0 == c) <==> test(c)
  {
    var group := Filter(classes, test);
    var b := Blocks(group, rows);
    if exists i :: 0 <= i < |b| && b[i].0 == c {
      var i :| 0 <= i < |b| && b[i].0 == c;
      assert group[i] in group;
    }
    if test(c) {
      var k :| 0 <= k < |classes| && classes[k] == c;
      FilterKeeps(classes, test, k);
      var i :| 0 <= i < |group| && group[i] == c;
      assert b[i].0 == c;
    }
  }

  /** Shape of the default rows from `i` on: header at the front exactly when
      `i` is 0 and the list is non-empty, then the spells in order. */
  lemma {:induction false} DefaultRowsShape(defaults: seq<Spell>, i: nat)
    requires i <= |defaults|
    ensures var r := DefaultRowsFrom(defaults, i);
      var h := if i == 0 && i < |defaults| then 1 else 0;
      && |r| == h + |defaults| - i
      && (h == 1 ==> r[0] == Header)
      && (forall j :: i <= j < |defaults| ==> r[h + j - i] == DefaultRow(defaults[j]))
    decreases |defaults| - i
  {
    if i < |defaults| {
      DefaultRowsShape(defaults, i + 1);
    }
  }

  /** In each class's block the column header appears exactly once when the
      class has a visible default spell, and then as the first row, followed by
      the visible default spells in their original order and then the visible
      gambles in theirs; without a visible default spell there is no header. */
  lemma ClassRowsShape(c: PlayerClass)
    ensures var defaults := Filter(c.spells, IsDefault);
      var gambles := Filter(c.spells, IsGamble);
      var h := if defaults != [] then 1 else 0;
      var r := ClassRows(c);
      && |r| == h + |defaults| + |gambles|
      && (defaults != [] ==> r[0] == Header)
      && (forall j :: h <= j < |r| ==> r[j] != Header)
      && (forall j :: 0 <= j < |defaults| ==> r[h + j] == DefaultRow(defaults[j]))
      && (forall j :: 0 <= j < |gambles| ==> r[h + |defaults| + j] == GambleRow(gambles[j]))
  {
    BlockRowsShape(Filter(c.spells, IsDefault), Filter(c.spells, IsGamble));
  }

  /** The shape of a block, for any lists of default spells and gambles. */
  lemma BlockRowsShape(defaults: seq<Spell>, gambles: seq<Spell>)
    ensures var h := if defaults != [] then 1 else 0;
      var r := BlockRows(defaults, gambles);
      && |r| == h + |defaults| + |gambles|
      && (defaults != [] ==> r[0] == Header)
      && (forall j :: h <= j < |r| ==> r[j] != Header)
      && (forall j :: 0 <= j < |defaults| ==> r[h + j] == DefaultRow(defaults[j]))
      && (forall j :: 0 <= j < |gambles| ==> r[h + |defaults| + j] == GambleRow(gambles[j]))
  {
    var h := if defaults != [] then 1 else 0;
    var d := DefaultRowsFrom(defaults, 0);
    var g := seq(|gambles|, j requires 0 <= j < |gambles| => GambleRow(gambles[j]));
    var r := BlockRows(defaults, gambles);
    assert r == d + g;
    assert |d| == h + |defaults| && (h == 1 ==> d[0] == Header)
      && forall j :: 0 <= j < |defaults| ==> d[h + j] == DefaultRow(defaults[j])
    by {
      DefaultRowsShape(defaults, 0);
    }
    forall j | 0 <= j < |defaults| ensures r[h + j] == DefaultRow(defaults[j]) {
      assert r[h + j] == d[h + j];
    }
    forall j | 0 <= j < |gambles| ensures r[h + |defaults| + j] == GambleRow(gambles[j]) {
      assert r[|d| + j] == g[j];
    }
    forall j | h <= j < |r| ensures r[j] != Header {
      if j < |d| {
        assert r[j] == d[h + (j - h)] == DefaultRow(defaults[j - h]);
      } else {
        assert r[j] == g[j - |d|];
      }
    }
  }

  /** Each group's filter keeps the class's own order of spells: the visible
      spells of a type are a selection of the class's spells at increasing
      positions. */
  lemma FilterKeepsOrder(c: PlayerClass, p: Spell -> bool)
    ensures var k := KeptPositions(c.spells, p, 0);
      && |Filter(c.spells, p)| == |k|
      && (forall j :: 0 <= j < |k| ==> Filter(c.spells, p)[j] == c.spells[k[j]])
      && (forall j, m :: 0 <= j < m < |k| ==> k[j] < k[m])
  {
    FilterIsOrderedSelection(c.spells, p, 0);
    assert c.spells[0..] == c.spells;
  }

  /** The arcanist rows are the class's visible arcana in order, and `rework`
      is set exactly for the reworked version. */
  lemma ArcanumRowsRule(c: PlayerClass)
    ensures var k := KeptPositions(c.spells, IsArcanum, 0);
      var r := ArcanumRows(c);
      && |r| == |k|
      && (forall j :: 0 <= j < |r| ==> r[j].spell == c.spells[k[j]] && IsArcanum(r[j].spell))
      && (forall j :: 0 <= j < |r| ==> (r[j].rework <==> r[j].spell.spellType == "arcanist-rework"))
      && (forall j :: 0 <= j < |r| ==> (!r[j].rework ==> r[j].spell.spellType == "arcanist"))
  {
    FilterKeepsOrder(c, IsArcanum);
    var arcana := Filter(c.spells, IsArcanum);
    forall j | 0 <= j < |arcana| ensures IsArcanum(arcana[j]) {
      assert arcana[j] in arcana;
    }
  }
}
