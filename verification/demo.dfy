/**
 * The demonstration auto-fill: the same registration transition folded over
 * a fixed list of 21 readings, and the outcome that list is documented to
 * produce.
 */
module Demo {
  import opened Quality
  import opened Inventory
  import opened Reporting

  /** Ten readings inside every criterion: they fill and seal one box. */
  const FIRST_TEN: seq<Reading> := [
    Reading(100.0, "azul", 15.0),
    Reading(98.5, "verde", 12.5),
    Reading(102.0, "azul", 18.0),
    Reading(96.0, "verde", 14.0),
    Reading(104.0, "azul", 16.5),
    Reading(99.0, "verde", 11.0),
    Reading(101.5, "azul", 19.0),
    Reading(97.0, "verde", 13.5),
    Reading(103.0, "azul", 17.0),
    Reading(100.5, "verde", 15.5)
  ]

  /** Three more good readings, left in the open box. */
  const NEXT_THREE: seq<Reading> := [
    Reading(98.0, "azul", 12.0),
    Reading(102.5, "verde", 14.5),
    Reading(99.5, "azul", 16.0)
  ]

  /** Two readings failing each criterion in turn: weight, colour, length. */
  const SIX_FAILING: seq<Reading> := [
    Reading(90.0, "azul", 15.0),
    Reading(110.0, "verde", 12.0),
    Reading(100.0, "vermelho", 15.0),
    Reading(98.0, "amarelo", 14.0),
    Reading(100.0, "azul", 8.0),
    Reading(99.0, "verde", 25.0)
  ]

  /** Two readings exactly on the bounds. */
  const ON_BOUNDS: seq<Reading> := [
    Reading(95.0, "verde", 10.0),
    Reading(105.0, "azul", 20.0)
  ]

  /** The 21 demonstration readings in order, ids 1..21 when registered from the empty state. */
  const DEMO_PARTS: seq<Reading> := FIRST_TEN + NEXT_THREE + SIX_FAILING + ON_BOUNDS

  /**
   * Registers every demonstration reading in order: 21 fresh identifiers are
   * consumed, 21 parts are added, and the lists already held are kept as
   * prefixes. Where each part lands is `AutoFillOutcome`.
   */
  function AutoFill(s: State): (r: State)
    ensures r.idCounter == s.idCounter + 21
    ensures |r.approved| + |r.rejected| == |s.approved| + |s.rejected| + 21
    ensures s.approved <= r.approved && s.rejected <= r.rejected
  {
    InspectAll(s, DEMO_PARTS)
  }

  lemma SixIds(rs: seq<Rejection>, base: int)
    requires |rs| == 6 && forall k :: 0 <= k < 6 ==> rs[k].id == base + k
    ensures RejectionIds(rs) == [base, base + 1, base + 2, base + 3, base + 4, base + 5]
  {
  }

  lemma SixReasons(rs: seq<Rejection>)
    requires |rs| == 6
    requires rs[0].reason == WeightOutOfRange && rs[1].reason == WeightOutOfRange
    requires rs[2].reason == ColourNotConforming && rs[3].reason == ColourNotConforming
    requires rs[4].reason == LengthOutOfRange && rs[5].reason == LengthOutOfRange
    ensures Reasons(rs) == [WeightOutOfRange, WeightOutOfRange, ColourNotConforming,
                            ColourNotConforming, LengthOutOfRange, LengthOutOfRange]
  {
  }

  /** The first ten demonstration parts are approved and seal the open box. */
  lemma FirstTenSealBox(s: State)
    requires s.currentBox == []
    ensures var r := InspectAll(s, FIRST_TEN);
      && |r.approved| == |s.approved| + 10 && r.rejected == s.rejected
      && |r.closedBoxes| == |s.closedBoxes| + 1 && |r.closedBoxes[|s.closedBoxes|]| == BOX_CAPACITY
      && r.currentBox == []
  {
    var g := FIRST_TEN;
    assert forall k :: 0 <= k < |g| ==> Validate(g[k].weight, g[k].colour, g[k].length).Accepted?;
    AcceptedRunFillsBox(s, g);
  }

  /** The next three are approved and stay in the open box. */
  lemma NextThreeOpenBox(s: State)
    requires s.currentBox == []
    ensures var r := InspectAll(s, NEXT_THREE);
      && |r.approved| == |s.approved| + 3 && r.rejected == s.rejected
      && r.closedBoxes == s.closedBoxes && |r.currentBox| == 3
  {
    var g := NEXT_THREE;
    assert forall k :: 0 <= k < |g| ==> Validate(g[k].weight, g[k].colour, g[k].length).Accepted?;
    AcceptedRunFillsBox(s, g);
  }

  /** The next six are rejected, two for each reason, in check order. */
  lemma SixRejected(s: State)
    ensures var r := InspectAll(s, SIX_FAILING);
      && r.approved == s.approved && r.closedBoxes == s.closedBoxes && r.currentBox == s.currentBox
      && |r.rejected| == |s.rejected| + 6
      && RejectionIds(r.rejected[|s.rejected|..])
         == [s.idCounter + 1, s.idCounter + 2, s.idCounter + 3, s.idCounter + 4, s.idCounter + 5, s.idCounter + 6]
      && Reasons(r.rejected[|s.rejected|..])
         == [WeightOutOfRange, WeightOutOfRange, ColourNotConforming,
             ColourNotConforming, LengthOutOfRange, LengthOutOfRange]
  {
    var g := SIX_FAILING;
    assert Validate(g[0].weight, g[0].colour, g[0].length) == Rejected(WeightOutOfRange);
    assert Validate(g[1].weight, g[1].colour, g[1].length) == Rejected(WeightOutOfRange);
    assert Validate(g[2].weight, g[2].colour, g[2].length) == Rejected(ColourNotConforming);
    assert Validate(g[3].weight, g[3].colour, g[3].length) == Rejected(ColourNotConforming);
    assert Validate(g[4].weight, g[4].colour, g[4].length) == Rejected(LengthOutOfRange);
    assert Validate(g[5].weight, g[5].colour, g[5].length) == Rejected(LengthOutOfRange);
    RejectedRunKeepsBoxes(s, g);
    var added := InspectAll(s, g).rejected[|s.rejected|..];
    SixIds(added, s.idCounter + 1);
    SixReasons(added);
  }

  /** The last two sit exactly on the bounds and are approved into the open box. */
  lemma LastTwoOnBounds(s: State)
    requires |s.currentBox| == 3
    ensures var r := InspectAll(s, ON_BOUNDS);
      && |r.approved| == |s.approved| + 2 && r.rejected == s.rejected
      && r.closedBoxes == s.closedBoxes && |r.currentBox| == 5
  {
    var g := ON_BOUNDS;
    assert forall k :: 0 <= k < |g| ==> Validate(g[k].weight, g[k].colour, g[k].length).Accepted?;
    AcceptedRunFillsBox(s, g);
  }

  /** The demonstration run as its four stages. */
  lemma AutoFillStages(s: State)
    ensures AutoFill(s)
      == InspectAll(InspectAll(InspectAll(InspectAll(s, FIRST_TEN), NEXT_THREE),
                               SIX_FAILING), ON_BOUNDS)
  {
    InspectAllConcat(s, FIRST_TEN + NEXT_THREE + SIX_FAILING, ON_BOUNDS);
    InspectAllConcat(s, FIRST_TEN + NEXT_THREE, SIX_FAILING);
    InspectAllConcat(s, FIRST_TEN, NEXT_THREE);
  }

  /** The four stages' shapes, added up. */
  lemma StageTotals(s: State, s1: State, s2: State, s3: State, r: State)
    requires |s1.approved| == |s.approved| + 10 && s1.rejected == s.rejected
    requires |s1.closedBoxes| == |s.closedBoxes| + 1 && |s1.closedBoxes[|s.closedBoxes|]| == BOX_CAPACITY
    requires |s2.approved| == |s1.approved| + 3 && s2.rejected == s1.rejected && s2.closedBoxes == s1.closedBoxes
    requires s3.approved == s2.approved && s3.closedBoxes == s2.closedBoxes && |s3.rejected| == |s2.rejected| + 6
    requires |r.approved| == |s3.approved| + 2 && r.rejected == s3.rejected && r.closedBoxes == s3.closedBoxes
    ensures |r.approved| == |s.approved| + 15 && |r.rejected| == |s.rejected| + 6
    ensures |r.closedBoxes| == |s.closedBoxes| + 1 && |r.closedBoxes[|s.closedBoxes|]| == BOX_CAPACITY
  {
  }

  /**
   * From any state with an empty open box, the demonstration adds 15
   * approved and 6 rejected parts, seals one box of 10 and leaves 5 parts in
   * the open box.
   */
  lemma AutoFillOutcome(s: State)
    requires s.currentBox == []
    ensures var r := AutoFill(s);
      && |r.approved| == |s.approved| + 15
      && |r.rejected| == |s.rejected| + 6
      && |r.closedBoxes| == |s.closedBoxes| + 1
      && |r.closedBoxes[|s.closedBoxes|]| == BOX_CAPACITY
      && |r.currentBox| == 5
  {
    AutoFillStages(s);
    var s1 := InspectAll(s, FIRST_TEN);
    var s2 := InspectAll(s1, NEXT_THREE);
    var s3 := InspectAll(s2, SIX_FAILING);
    FirstTenSealBox(s);
    NextThreeOpenBox(s1);
    SixRejected(s2);
    LastTwoOnBounds(s3);
    StageTotals(s, s1, s2, s3, InspectAll(s3, ON_BOUNDS));
  }

  /** Rejections added by the third of four stages, seen from the start of the first. */
  lemma ThirdStageRejections(s: State, s2: State, s3: State, r: State)
    requires s2.rejected == s.rejected && s2.idCounter == s.idCounter + 13
    requires |s3.rejected| == |s2.rejected| + 6 && r.rejected == s3.rejected
    requires RejectionIds(s3.rejected[|s2.rejected|..])
      == [s2.idCounter + 1, s2.idCounter + 2, s2.idCounter + 3, s2.idCounter + 4, s2.idCounter + 5, s2.idCounter + 6]
    ensures RejectionIds(r.rejected[|s.rejected|..])
      == [s.idCounter + 14, s.idCounter + 15, s.idCounter + 16,
          s.idCounter + 17, s.idCounter + 18, s.idCounter + 19]
    ensures Reasons(r.rejected[|s.rejected|..]) == Reasons(s3.rejected[|s2.rejected|..])
  {
    assert r.rejected[|s.rejected|..] == s3.rejected[|s2.rejected|..];
  }

  /**
   * The six rejections of the demonstration carry the 14th to 19th new ids
   * and two reasons of each kind, in check order.
   */
  lemma AutoFillRejections(s: State)
    requires s.currentBox == []
    ensures var r := AutoFill(s);
      && RejectionIds(r.rejected[|s.rejected|..])
         == [s.idCounter + 14, s.idCounter + 15, s.idCounter + 16,
             s.idCounter + 17, s.idCounter + 18, s.idCounter + 19]
      && Reasons(r.rejected[|s.rejected|..])
         == [WeightOutOfRange, WeightOutOfRange, ColourNotConforming,
             ColourNotConforming, LengthOutOfRange, LengthOutOfRange]
  {
    AutoFillStages(s);
    var s1 := InspectAll(s, FIRST_TEN);
    var s2 := InspectAll(s1, NEXT_THREE);
    var s3 := InspectAll(s2, SIX_FAILING);
    FirstTenSealBox(s);
    NextThreeOpenBox(s1);
    SixRejected(s2);
    LastTwoOnBounds(s3);
    ThirdStageRejections(s, s2, s3, InspectAll(s3, ON_BOUNDS));
  }

  /** The demonstration's outcome, read off a start with no parts, no boxes and counter zero. */
  lemma FreshStart(s: State, r: State)
    requires s.approved == [] && s.rejected == [] && s.closedBoxes == [] && s.idCounter == 0
    requires |r.approved| == |s.approved| + 15 && |r.rejected| == |s.rejected| + 6
    requires |r.closedBoxes| == |s.closedBoxes| + 1 && |r.closedBoxes[|s.closedBoxes|]| == BOX_CAPACITY
    requires RejectionIds(r.rejected[|s.rejected|..])
      == [s.idCounter + 14, s.idCounter + 15, s.idCounter + 16,
          s.idCounter + 17, s.idCounter + 18, s.idCounter + 19]
    ensures |r.approved| == 15 && |r.rejected| == 6
    ensures |r.closedBoxes| == 1 && |r.closedBoxes[0]| == BOX_CAPACITY
    ensures RejectionIds(r.rejected) == [14, 15, 16, 17, 18, 19]
    ensures Reasons(r.rejected) == Reasons(r.rejected[|s.rejected|..])
  {
    assert r.rejected[|s.rejected|..] == r.rejected;
  }

  /** The documented outcome of the demonstration on a freshly started program: no parts, no boxes, counter zero. */
  lemma AutoFillFromEmpty(s: State)
    requires s.approved == [] && s.rejected == [] && s.closedBoxes == [] && s.currentBox == []
    requires s.idCounter == 0
    ensures var r := AutoFill(s);
      && |r.approved| == 15 && |r.rejected| == 6
      && |r.closedBoxes| == 1 && |r.closedBoxes[0]| == BOX_CAPACITY
      && |r.currentBox| == 5
      && RejectionIds(r.rejected) == [14, 15, 16, 17, 18, 19]
      && Reasons(r.rejected) == [WeightOutOfRange, WeightOutOfRange, ColourNotConforming,
                                 ColourNotConforming, LengthOutOfRange, LengthOutOfRange]
  {
    AutoFillOutcome(s);
    AutoFillRejections(s);
    FreshStart(s, AutoFill(s));
  }

  /**
   * One good part and one too heavy: ids 1 and 2, and a report of two parts
   * with half of them approved and a single weight rejection.
   */
  lemma OneGoodOneHeavy(s: State)
    requires s.approved == [] && s.rejected == [] && s.closedBoxes == [] && s.currentBox == []
    requires s.idCounter == 0
    ensures var r := InspectAll(s, [Reading(100.0, "azul", 15.0), Reading(200.0, "azul", 15.0)]);
      var rep := GenerateReport(r);
      && PartIds(r.approved) == [1] && RejectionIds(r.rejected) == [2]
      && rep.totalParts == 2 && rep.approvedCount == 1 && rep.rejectedCount == 1
      && rep.approvalRate == 50.0
      && rep.byReason == [ReasonCount(WeightOutOfRange, 1)]
  {
    var s1 := Inspect(s, Reading(100.0, "azul", 15.0));
    var r := Inspect(s1, Reading(200.0, "azul", 15.0));
    assert Validate(100.0, "azul", 15.0) == Accepted;
    assert Validate(200.0, "azul", 15.0) == Rejected(WeightOutOfRange);
    assert r.rejected == [Rejection(2, 200.0, "azul", 15.0, WeightOutOfRange)];
    assert Reasons(r.rejected) == [WeightOutOfRange];
    assert Tally([WeightOutOfRange]) == Bump([], WeightOutOfRange);
  }
}
