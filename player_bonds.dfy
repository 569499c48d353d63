/** The bonds table of the compact player sheet: a bond's strength, the
    emotion labels shown for it and the separators between them, and when the
    strength star appears
    (src/components/player/playerSheet/compact/PlayerBonds.jsx). */
module PlayerBonds {
  import opened JsCore
  import opened Clock

  datatype Emotion = Admiration | Loyality | Affection | Inferiority | Mistrust | Hatred

  /** A bond; each emotion flag is kept as the JavaScript value it is, since
      only its truthiness is read. */
  datatype Bond = Bond(name: string, admiration: JsValue, loyality: JsValue, affection: JsValue,
                       inferiority: JsValue, mistrust: JsValue, hatred: JsValue)

  function Flag(bond: Bond, e: Emotion): JsValue {
    match e
    case Admiration => bond.admiration
    case Loyality => bond.loyality
    case Affection => bond.affection
    case Inferiority => bond.inferiority
    case Mistrust => bond.mistrust
    case Hatred => bond.hatred
  }

  function Ind(b: bool): nat { if b then 1 else 0 }

  /** `calculateBondStrength(bond)`: one point per truthy emotion flag. */
  function BondStrength(bond: Bond): (s: nat)
    ensures s <= 6
  {
    Ind(Truthy(bond.admiration)) + Ind(Truthy(bond.loyality)) + Ind(Truthy(bond.affection))
    + Ind(Truthy(bond.inferiority)) + Ind(Truthy(bond.mistrust)) + Ind(Truthy(bond.hatred))
  }

  /** The colour tokens of the labels: the theme's success colour and `"red"`. */
  datatype Tone = Positive | Negative

  datatype Label = Label(emotion: Emotion, tone: Tone)

  /** The six candidate labels in the order the table lists them. */
  const AllLabels: seq<Label> := [
    Label(Admiration, Positive), Label(Loyality, Positive), Label(Affection, Positive),
    Label(Inferiority, Negative), Label(Mistrust, Negative), Label(Hatred, Negative)
  ]

  /** Whether a candidate survives `filter(Boolean)`: `bond.X && <span>` is the
      label when the flag is truthy and a falsy value when it is not. */
  function ShownIn(bond: Bond): Label -> bool {
    (l: Label) => Truthy(Flag(bond, l.emotion))
  }

  /** The labels left after `filter(Boolean)`. */
  function Labels(bond: Bond): seq<Label> {
    Filter(AllLabels, ShownIn(bond))
  }

  lemma FilterLengthStep<T>(s: seq<T>, p: T -> bool)
    requires s != []
    ensures |Filter(s, p)| == Ind(p(s[0])) + |Filter(s[1..], p)|
  {
  }

  /** How many of six elements a filter keeps. */
  lemma FilterLengthOfSix<T>(s: seq<T>, p: T -> bool)
    requires |s| == 6
    ensures |Filter(s, p)| == Ind(p(s[0])) + Ind(p(s[1])) + Ind(p(s[2])) + Ind(p(s[3])) + Ind(p(s[4])) + Ind(p(s[5]))
  {
    var s1 := s[1..]; var s2 := s1[1..]; var s3 := s2[1..];
    var s4 := s3[1..]; var s5 := s4[1..];
    FilterLengthStep(s, p); FilterLengthStep(s1, p); FilterLengthStep(s2, p);
    FilterLengthStep(s3, p); FilterLengthStep(s4, p); FilterLengthStep(s5, p);
    assert s5[1..] == [];
    assert s1[0] == s[1] && s2[0] == s[2] && s3[0] == s[3] && s4[0] == s[4] && s5[0] == s[5];
  }

  /** The strength is the number of labels shown. */
  lemma StrengthIsLabelCount(bond: Bond)
    ensures BondStrength(bond) == |Labels(bond)|
  {
    CountOfSix(bond, AllLabels);
  }

  /** The count for any six labels listed in the table's emotion order. */
  lemma CountOfSix(bond: Bond, s: seq<Label>)
    requires |s| == 6
    requires s[0].emotion == Admiration && s[1].emotion == Loyality && s[2].emotion == Affection
    requires s[3].emotion == Inferiority && s[4].emotion == Mistrust && s[5].emotion == Hatred
    ensures |Filter(s, ShownIn(bond))| == BondStrength(bond)
  {
    FilterLengthOfSix(s, ShownIn(bond));
  }

  /** The labels appear in the fixed emotion order, each at most once. */
  lemma LabelsInOrder(bond: Bond)
    ensures var k := KeptPositions(AllLabels, ShownIn(bond), 0);
      && |Labels(bond)| == |k|
      && (forall j :: 0 <= j < |k| ==> Labels(bond)[j] == AllLabels[k[j]])
      && (forall j, m :: 0 <= j < m < |k| ==> k[j] < k[m])
  {
    FilterIsOrderedSelection(AllLabels, ShownIn(bond), 0);
    assert AllLabels[0..] == AllLabels;
  }

  /** The three positive emotions carry the positive tone, the three negative
      ones the negative tone. */
  predicate ToneRule(l: Label) {
    l.tone == Positive <==> (l.emotion.Admiration? || l.emotion.Loyality? || l.emotion.Affection?)
  }

  lemma TableToneRule()
    ensures forall l :: l in AllLabels ==> ToneRule(l)
  {
    forall l | l in AllLabels ensures ToneRule(l) {
      var i :| 0 <= i < |AllLabels| && AllLabels[i] == l;
    }
  }

  /** A label is shown exactly when its emotion's flag is truthy, and it
      carries its emotion's tone. */
  lemma LabelsShownAndTone(bond: Bond)
    ensures forall l :: l in Labels(bond) ==> Truthy(Flag(bond, l.emotion)) && ToneRule(l)
    ensures forall e :: Truthy(Flag(bond, e)) ==> exists l :: l in Labels(bond) && l.emotion == e
  {
    TableToneRule();
    forall e | Truthy(Flag(bond, e)) ensures exists l :: l in Labels(bond) && l.emotion == e {
      var i := EmotionIndex(e);
      FilterKeeps(AllLabels, ShownIn(bond), i);
      assert AllLabels[i] in Labels(bond);
    }
  }

  /** Where an emotion's label sits in the table. */
  function EmotionIndex(e: Emotion): (i: nat)
    ensures i < |AllLabels| && AllLabels[i].emotion == e
  {
    match e
    case Admiration => 0 case Loyality => 1 case Affection => 2
    case Inferiority => 3 case Mistrust => 4 case Hatred => 5
  }

  /** The pieces of the rendered label line: a label, or a separator text. */
  datatype Piece = Span(shown: Label) | Text(text: string)

  /** The `reduce((acc, curr, i, arr) => [...acc, curr, i < arr.length - 1 ? ", " : ""], [])`
      from position `i` on, with accumulator `acc`. */
  function ReduceFrom(arr: seq<Label>, i: nat, acc: seq<Piece>): seq<Piece>
    requires i <= |arr|
    decreases |arr| - i
  {
    if i == |arr| then acc
    else ReduceFrom(arr, i + 1, acc + [Span(arr[i]), Text(if i < |arr| - 1 then ", " else "")])
  }

  function Joined(arr: seq<Label>): (r: seq<Piece>)
    ensures |r| == 2 * |arr|
  {
    ReduceFromShape(arr, 0, []);
    ReduceFrom(arr, 0, [])
  }

  lemma {:induction false} ReduceFromShape(arr: seq<Label>, i: nat, acc: seq<Piece>)
    requires i <= |arr|
    ensures var r := ReduceFrom(arr, i, acc);
      && |r| == |acc| + 2 * (|arr| - i)
      && r[..|acc|] == acc
      && (forall j :: i <= j < |arr| ==>
            r[|acc| + 2 * (j - i)] == Span(arr[j])
            && r[|acc| + 2 * (j - i) + 1] == Text(if j < |arr| - 1 then ", " else ""))
    decreases |arr| - i
  {
    if i < |arr| {
      var acc' := acc + [Span(arr[i]), Text(if i < |arr| - 1 then ", " else "")];
      ReduceFromShape(arr, i + 1, acc');
      var r := ReduceFrom(arr, i, acc);
      assert r[..|acc'|] == acc';
      assert r[..|acc|] == acc'[..|acc|] == acc;
      forall j | i <= j < |arr|
        ensures r[|acc| + 2 * (j - i)] == Span(arr[j])
        ensures r[|acc| + 2 * (j - i) + 1] == Text(if j < |arr| - 1 then ", " else "")
      {
        if j == i {
          assert r[|acc|] == acc'[|acc|] && r[|acc| + 1] == acc'[|acc| + 1];
        } else {
          assert |acc| + 2 * (j - i) == |acc'| + 2 * (j - (i + 1));
        }
      }
    }
  }

  /** Label, separator, label, separator, ...: the separator after every label
      but the last is ", " and the one after the last is empty. */
  lemma JoinedShape(arr: seq<Label>)
    ensures var r := Joined(arr);
      && |r| == 2 * |arr|
      && (forall j :: 0 <= j < |arr| ==>
            r[2 * j] == Span(arr[j]) && r[2 * j + 1] == Text(if j < |arr| - 1 then ", " else ""))
  {
    ReduceFromShape(arr, 0, []);
    var r := Joined(arr);
    forall j | 0 <= j < |arr|
      ensures r[2 * j] == Span(arr[j]) && r[2 * j + 1] == Text(if j < |arr| - 1 then ", " else "")
    {
      assert r[0 + 2 * (j - 0)] == Span(arr[j]);
    }
  }

  /** So `k` labels are joined by `k - 1` commas, and nothing follows the last label. */
  lemma JoinedCommas(arr: seq<Label>)
    requires |arr| > 0
    ensures var commas := seq(|arr|, j requires 0 <= j < |arr| => Joined(arr)[2 * j + 1] == Text(", "));
      && CountFilled(commas) == |arr| - 1
      && Joined(arr)[2 * |arr| - 1] == Text("")
  {
    JoinedShape(arr);
    var r := Joined(arr);
    var commas := seq(|arr|, j requires 0 <= j < |arr| => r[2 * j + 1] == Text(", "));
    forall j | 0 <= j < |arr| ensures commas[j] == (j < |arr| - 1) {
      var l := arr[j];
    }
    assert commas == Run(|arr| - 1, |arr|);
    CountFilledOfRun(|arr| - 1, |arr|);
    var l := arr[|arr| - 1];
    assert r[2 * (|arr| - 1) + 1] == Text("");
  }

  /** The star with the strength appears exactly when some label is shown. */
  predicate StarShown(bond: Bond) { BondStrength(bond) > 0 }

  lemma StarIffLabels(bond: Bond)
    ensures StarShown(bond) <==> Labels(bond) != []
    ensures StarShown(bond) <==> exists e :: Truthy(Flag(bond, e))
  {
    StrengthIsLabelCount(bond);
    if StarShown(bond) {
      var l := Labels(bond)[0];
      assert l in Labels(bond);
      assert Truthy(Flag(bond, l.emotion));
    }
    LabelsShownAndTone(bond);
  }

  /** One row of the bonds table: the name, the joined label line and the star
      with the strength, when it is shown. */
  datatype BondRow = BondRow(name: string, pieces: seq<Piece>, star: Option<nat>)

  function RowOf(bond: Bond): BondRow {
    BondRow(bond.name, Joined(Labels(bond)), if StarShown(bond) then Some(BondStrength(bond)) else None)
  }

  /** The table, rendered only when the player has bonds. */
  function BondTable(bonds: seq<Bond>): Option<seq<BondRow>> {
    if |bonds| > 0 then Some(seq(|bonds|, i requires 0 <= i < |bonds| => RowOf(bonds[i]))) else None
  }

  /** Nothing renders without bonds; otherwise one row per bond, in order, whose
      label line holds each shown label followed by its separator and whose star
      shows the number of labels exactly when there is one. */
  lemma BondTableRule(bonds: seq<Bond>)
    ensures BondTable(bonds).None? <==> bonds == []
    ensures BondTable(bonds).Some? ==>
      var rows := BondTable(bonds).value;
      && |rows| == |bonds|
      && forall i :: 0 <= i < |bonds| ==>
           && rows[i].name == bonds[i].name
           && |rows[i].pieces| == 2 * |Labels(bonds[i])|
           && (rows[i].star.Some? <==> Labels(bonds[i]) != [])
           && (rows[i].star.Some? ==> rows[i].star.value == |Labels(bonds[i])|)
  {
    if bonds != [] {
      forall i | 0 <= i < |bonds|
        ensures |Joined(Labels(bonds[i]))| == 2 * |Labels(bonds[i])|
        ensures StarShown(bonds[i]) <==> Labels(bonds[i]) != []
        ensures BondStrength(bonds[i]) == |Labels(bonds[i])|
      {
        JoinedShape(Labels(bonds[i]));
        StarIffLabels(bonds[i]);
        StrengthIsLabelCount(bonds[i]);
      }
    }
  }
}
