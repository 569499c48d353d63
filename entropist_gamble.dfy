/** The table of an entropist gamble: one row per target effect with its
    range label and alternating background, and an optional second-roll block
    (src/components/player/playerSheet/compact/spells/SpellEntropistGamble.jsx). */
module EntropistGamble {
  import opened JsCore

  /** A second-roll effect: a die range and its text. */
  datatype SecondEffect = SecondEffect(rangeFrom: int, rangeTo: int, effect: string)

  /** A target effect; `secondEffects` may be missing. */
  datatype Target = Target(rangeFrom: int, rangeTo: int, effect: string,
                           secondRoll: JsValue, secondEffects: Option<seq<SecondEffect>>)

  /** A gamble: only its (possibly missing) target list matters to the rows. */
  datatype Gamble = Gamble(spellName: string, targets: Option<seq<Target>>)

  /** The range label: the single number when both ends agree, otherwise
      `from-to`. */
  function RangeLabel(rangeFrom: int, rangeTo: int): string {
    if rangeFrom == rangeTo then IntToString(rangeFrom)
    else IntToString(rangeFrom) + "-" + IntToString(rangeTo)
  }

  /** Reads a range label back: the leading integer, then either the end of the
      label or a `-` and the second integer. */
  function ReadRange(text: string): Option<(int, int)> {
    var from := ParseInt(text);
    if from.NaN? then None
    else
      var n := |IntToString(from.n)|;
      if n == |text| then Some((from.n, from.n))
      else if n < |text| && text[n] == '-' then
        var to := ParseInt(text[n + 1..]);
        if to.NaN? then None else Some((from.n, to.n))
      else None
  }

  /** Every range label reads back as the range it was made from, and it is a
      single numeral exactly when the two ends agree. */
  lemma RangeLabelReadsBack(rangeFrom: int, rangeTo: int)
    ensures ReadRange(RangeLabel(rangeFrom, rangeTo)) == Some((rangeFrom, rangeTo))
    ensures RangeLabel(rangeFrom, rangeTo) == IntToString(rangeFrom) <==> rangeFrom == rangeTo
  {
    if rangeFrom == rangeTo {
      ParseIntOfIntToString(rangeFrom);
    } else {
      PairLabelReadsBack(rangeFrom, rangeTo);
    }
  }

  /** A two-ended label reads back as its two ends. */
  lemma PairLabelReadsBack(rangeFrom: int, rangeTo: int)
    requires rangeFrom != rangeTo
    ensures ReadRange(IntToString(rangeFrom) + "-" + IntToString(rangeTo)) == Some((rangeFrom, rangeTo))
  {
    var a := IntToString(rangeFrom);
    var rest := "-" + IntToString(rangeTo);
    var text := a + rest;
    assert IntToString(rangeFrom) + "-" + IntToString(rangeTo) == text;
    ParseIntOfPrefix(rangeFrom, rest);
    assert text[|a|] == '-';
    assert text[|a| + 1..] == IntToString(rangeTo);
    ParseIntOfIntToString(rangeTo);
  }

  /** Background tokens of a target row. */
  datatype Background = Gradient | White

  /** `index % 2 === 0 ? gradient : '#fff'`. */
  function RowBackground(index: nat): Background {
    if index % 2 == 0 then Gradient else White
  }

  /** Backgrounds alternate, starting with the gradient. */
  lemma BackgroundsAlternate(index: nat)
    ensures RowBackground(0) == Gradient
    ensures RowBackground(index + 1) != RowBackground(index)
    ensures RowBackground(index + 2) == RowBackground(index)
  {
  }

  /** One line of the second-roll block. */
  datatype SecondLine = SecondLine(rangeText: string, effect: string)

  /** One target row. */
  datatype Row = Row(rangeText: string, background: Background, effect: string, second: Option<seq<SecondLine>>)

  /** `target.secondRoll && target.secondEffects?.length > 0`: the block, with
      one line per second effect in order, or nothing. */
  function SecondBlock(t: Target): Option<seq<SecondLine>> {
    if Truthy(t.secondRoll) && t.secondEffects.Some? && |t.secondEffects.value| > 0 then
      var es := t.secondEffects.value;
      Some(seq(|es|, k requires 0 <= k < |es| => SecondLine(RangeLabel(es[k].rangeFrom, es[k].rangeTo), es[k].effect)))
    else None
  }

  /** `gamble.targets?.map(...)`: no rows when the list is missing. */
  function Rows(g: Gamble): seq<Row> {
    match g.targets
    case None => []
    case Some(ts) =>
      seq(|ts|, i requires 0 <= i < |ts| =>
        Row(RangeLabel(ts[i].rangeFrom, ts[i].rangeTo), RowBackground(i), ts[i].effect, SecondBlock(ts[i])))
  }

  /** One row per target, in order, with its own range label and effect and
      the alternating background; the second-roll block is there exactly when
      `secondRoll` is truthy and there are second effects, and then it lists
      them in order, each with a label that reads back as its range. */
  lemma RowsRule(g: Gamble)
    ensures g.targets.None? ==> Rows(g) == []
    ensures g.targets.Some? ==>
      var ts := g.targets.value;
      var rows := Rows(g);
      && |rows| == |ts|
      && (forall i :: 0 <= i < |ts| ==>
            && ReadRange(rows[i].rangeText) == Some((ts[i].rangeFrom, ts[i].rangeTo))
            && rows[i].effect == ts[i].effect
            && (rows[i].background == Gradient <==> i % 2 == 0))
      && (forall i :: 0 <= i < |ts| ==>
            (rows[i].second.Some? <==>
               Truthy(ts[i].secondRoll) && ts[i].secondEffects.Some? && ts[i].secondEffects.value != []))
      && (forall i :: 0 <= i < |ts| && rows[i].second.Some? ==>
            var es := ts[i].secondEffects.value;
            var lines := rows[i].second.value;
            && |lines| == |es|
            && forall k :: 0 <= k < |es| ==>
                 ReadRange(lines[k].rangeText) == Some((es[k].rangeFrom, es[k].rangeTo)) && lines[k].effect == es[k].effect)
  {
    if g.targets.Some? {
      var ts := g.targets.value;
      var rows := Rows(g);
      forall i | 0 <= i < |ts|
        ensures ReadRange(rows[i].rangeText) == Some((ts[i].rangeFrom, ts[i].rangeTo))
      {
        RangeLabelReadsBack(ts[i].rangeFrom, ts[i].rangeTo);
      }
      forall i, k | 0 <= i < |ts| && rows[i].second.Some? && 0 <= k < |ts[i].secondEffects.value|
        ensures ReadRange(rows[i].second.value[k].rangeText)
             == Some((ts[i].secondEffects.value[k].rangeFrom, ts[i].secondEffects.value[k].rangeTo))
      {
        var e := ts[i].secondEffects.value[k];
        RangeLabelReadsBack(e.rangeFrom, e.rangeTo);
      }
    }
  }
}
