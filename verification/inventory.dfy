/**
 * The inventory state of the inspection line and the registration
 * transition: allocate the next identifier, validate, then either store the
 * part as approved and pack it into the open box (sealing the box when it is
 * full) or record it as rejected with its reason.
 */
module Inventory {
  import opened Wrappers
  import opened Seqs
  import opened Quality

  const BOX_CAPACITY: nat := 10

  /** An approved part, as stored in the approved list and in boxes. */
  datatype Part = Part(id: int, weight: real, colour: string, length: real)

  /** A rejected part with the reason of the first failed check. */
  datatype Rejection = Rejection(id: int, weight: real, colour: string, length: real, reason: Reason)

  /** The parsed measurements of one registration attempt (colour already lower-cased and trimmed). */
  datatype Reading = Reading(weight: real, colour: string, length: real)

  /** The five program-wide variables, as one immutable record. */
  datatype State = State(
    approved: seq<Part>,
    rejected: seq<Rejection>,
    closedBoxes: seq<seq<Part>>,
    currentBox: seq<Part>,
    idCounter: nat)

  /** The state at program start. */
  const EMPTY: State := State([], [], [], [], 0)

  function PartIds(ps: seq<Part>): seq<int>
  {
    seq(|ps|, k requires 0 <= k < |ps| => ps[k].id)
  }

  function RejectionIds(rs: seq<Rejection>): seq<int>
  {
    seq(|rs|, k requires 0 <= k < |rs| => rs[k].id)
  }

  /** The parts of all sealed boxes, box after box. */
  function Flatten(boxes: seq<seq<Part>>): seq<Part>
  {
    if |boxes| == 0 then [] else Flatten(boxes[..|boxes| - 1]) + boxes[|boxes| - 1]
  }

  /** Parts currently stored in boxes, sealed boxes first. */
  function Stored(s: State): seq<Part>
  {
    Flatten(s.closedBoxes) + s.currentBox
  }

  /**
   * The structural invariant of the inventory:
   * identifiers are strictly increasing within each list, never shared
   * between the lists, and all lie in 1..idCounter; the open box is below
   * capacity and no sealed box exceeds it; and the boxes hold exactly the
   * approved parts, in approval order.
   */
  predicate Valid(s: State)
  {
    && Increasing(PartIds(s.approved))
    && Increasing(RejectionIds(s.rejected))
    && (forall i :: i in PartIds(s.approved) ==> i !in RejectionIds(s.rejected))
    && (forall i :: i in PartIds(s.approved) ==> 1 <= i <= s.idCounter)
    && (forall i :: i in RejectionIds(s.rejected) ==> 1 <= i <= s.idCounter)
    && |s.currentBox| < BOX_CAPACITY
    && (forall b :: b in s.closedBoxes ==> |b| <= BOX_CAPACITY)
    && Stored(s) == s.approved
  }

  lemma EmptyValid()
    ensures Valid(EMPTY)
  {
  }

  lemma FlattenAppend(boxes: seq<seq<Part>>, box: seq<Part>)
    ensures Flatten(boxes + [box]) == Flatten(boxes) + box
  {
    assert (boxes + [box])[..|boxes|] == boxes;
  }

  /**
   * One registration attempt whose input parsed: the shared body of
   * interactive registration and of the demonstration auto-fill.
   */
  function Inspect(s: State, rd: Reading): (r: State)
    ensures r.idCounter == s.idCounter + 1
    ensures Validate(rd.weight, rd.colour, rd.length).Accepted? ==>
      && r.approved == s.approved + [Part(r.idCounter, rd.weight, rd.colour, rd.length)]
      && r.rejected == s.rejected
      && Stored(r) == Stored(s) + [Part(r.idCounter, rd.weight, rd.colour, rd.length)]
    ensures Validate(rd.weight, rd.colour, rd.length).Rejected? ==>
      && r.rejected == s.rejected
           + [Rejection(r.idCounter, rd.weight, rd.colour, rd.length,
                        Validate(rd.weight, rd.colour, rd.length).reason)]
      && r.approved == s.approved
      && r.closedBoxes == s.closedBoxes && r.currentBox == s.currentBox
    ensures r.closedBoxes == s.closedBoxes
            || (&& r.closedBoxes == s.closedBoxes + [s.currentBox + [r.approved[|r.approved| - 1]]]
                && |r.closedBoxes[|r.closedBoxes| - 1]| == BOX_CAPACITY
                && r.currentBox == [])
    ensures |s.currentBox| < BOX_CAPACITY ==> |r.currentBox| < BOX_CAPACITY
  {
    var id := s.idCounter + 1;
    match Validate(rd.weight, rd.colour, rd.length)
    case Accepted =>
      var part := Part(id, rd.weight, rd.colour, rd.length);
      var box := s.currentBox + [part];
      if |box| == BOX_CAPACITY then
        FlattenAppend(s.closedBoxes, box);
        s.(approved := s.approved + [part], closedBoxes := s.closedBoxes + [box],
           currentBox := [], idCounter := id)
      else
        s.(approved := s.approved + [part], currentBox := box, idCounter := id)
    case Rejected(reason) =>
      s.(rejected := s.rejected + [Rejection(id, rd.weight, rd.colour, rd.length, reason)],
         idCounter := id)
  }

  /**
   * Interactive registration. `None` is an attempt whose weight or length
   * did not parse: the tentative identifier is given back and nothing else
   * changes.
   */
  function Register(s: State, input: Option<Reading>): (r: State)
    ensures input.None? ==> r == s
    ensures input.Some? ==>
      && r.idCounter == s.idCounter + 1
      && |r.approved| + |r.rejected| == |s.approved| + |s.rejected| + 1
      && (|r.approved| == |s.approved| + 1 <==> Validate(input.value.weight, input.value.colour, input.value.length).Accepted?)
      && (|r.rejected| == |s.rejected| + 1 <==> Validate(input.value.weight, input.value.colour, input.value.length).Rejected?)
  {
    match input
    case None => s
    case Some(rd) => Inspect(s, rd)
  }

  /** Registering a sequence of parsed readings in order (the auto-fill loop). */
  function InspectAll(s: State, rds: seq<Reading>): (r: State)
    ensures r.idCounter == s.idCounter + |rds|
    ensures |r.approved| + |r.rejected| == |s.approved| + |s.rejected| + |rds|
    ensures s.approved <= r.approved && s.rejected <= r.rejected
    decreases |rds|
  {
    if |rds| == 0 then s else InspectAll(Inspect(s, rds[0]), rds[1..])
  }

  lemma PartIdsAppend(ps: seq<Part>, qs: seq<Part>)
    ensures PartIds(ps + qs) == PartIds(ps) + PartIds(qs)
  {
  }

  lemma RejectionIdsAppend(rs: seq<Rejection>, qs: seq<Rejection>)
    ensures RejectionIds(rs + qs) == RejectionIds(rs) + RejectionIds(qs)
  {
  }

  /**
   * Registration keeps the invariant, and the fresh identifier ends up in
   * exactly one of the two lists: the approved list when the part passes,
   * the rejected list otherwise.
   */
  lemma {:induction false} InspectPreservesValid(s: State, rd: Reading)
    requires Valid(s)
    ensures Valid(Inspect(s, rd))
    ensures var r := Inspect(s, rd);
      && (r.idCounter in PartIds(r.approved) <==> Validate(rd.weight, rd.colour, rd.length).Accepted?)
      && (r.idCounter in RejectionIds(r.rejected) <==> Validate(rd.weight, rd.colour, rd.length).Rejected?)
  {
    var r := Inspect(s, rd);
    var id := r.idCounter;
    match Validate(rd.weight, rd.colour, rd.length)
    case Accepted =>
      var part := Part(id, rd.weight, rd.colour, rd.length);
      PartIdsAppend(s.approved, [part]);
      assert PartIds(r.approved) == PartIds(s.approved) + [id];
      IncreasingAppend(PartIds(s.approved), id);
    case Rejected(reason) =>
      var rej := Rejection(id, rd.weight, rd.colour, rd.length, reason);
      RejectionIdsAppend(s.rejected, [rej]);
      assert RejectionIds(r.rejected) == RejectionIds(s.rejected) + [id];
      IncreasingAppend(RejectionIds(s.rejected), id);
  }

  /** The same for interactive registration, including the attempt that did not parse. */
  lemma RegisterPreservesValid(s: State, input: Option<Reading>)
    requires Valid(s)
    ensures Valid(Register(s, input))
  {
    if input.Some? {
      InspectPreservesValid(s, input.value);
    }
  }

  /** Any sequence of registrations keeps the invariant. */
  lemma {:induction false} InspectAllPreservesValid(s: State, rds: seq<Reading>)
    requires Valid(s)
    ensures Valid(InspectAll(s, rds))
    decreases |rds|
  {
    if |rds| > 0 {
      InspectPreservesValid(s, rds[0]);
      InspectAllPreservesValid(Inspect(s, rds[0]), rds[1..]);
    }
  }

  /** Every reading of the run passes validation. */
  predicate AllAccepted(rds: seq<Reading>)
  {
    forall k :: 0 <= k < |rds| ==> Validate(rds[k].weight, rds[k].colour, rds[k].length).Accepted?
  }

  /** One accepted registration, case by case on whether it fills the open box. */
  lemma AcceptedStep(s: State, rd: Reading)
    requires Validate(rd.weight, rd.colour, rd.length).Accepted?
    requires |s.currentBox| < BOX_CAPACITY
    ensures var r := Inspect(s, rd);
      var part := Part(r.idCounter, rd.weight, rd.colour, rd.length);
      && r.approved == s.approved + [part]
      && r.rejected == s.rejected
      && (|s.currentBox| + 1 < BOX_CAPACITY ==>
            r.closedBoxes == s.closedBoxes && r.currentBox == s.currentBox + [part])
      && (|s.currentBox| + 1 == BOX_CAPACITY ==>
            r.closedBoxes == s.closedBoxes + [s.currentBox + [part]] && r.currentBox == [])
  {
  }

  /**
   * Consecutive accepted registrations fill the open box: while it stays
   * below capacity nothing is sealed, and the registration that brings it to
   * capacity seals exactly the open box plus the new parts and leaves an
   * empty open box.
   */
  lemma {:induction false} AcceptedRunFillsBox(s: State, rds: seq<Reading>)
    requires |s.currentBox| < BOX_CAPACITY
    requires |s.currentBox| + |rds| <= BOX_CAPACITY
    requires AllAccepted(rds)
    ensures var r := InspectAll(s, rds);
      && |r.approved| == |s.approved| + |rds|
      && r.rejected == s.rejected
      && (|s.currentBox| + |rds| < BOX_CAPACITY ==>
            r.closedBoxes == s.closedBoxes && r.currentBox == s.currentBox + r.approved[|s.approved|..])
      && (|s.currentBox| + |rds| == BOX_CAPACITY ==>
            && r.closedBoxes == s.closedBoxes + [s.currentBox + r.approved[|s.approved|..]]
            && r.currentBox == [])
    decreases |rds|
  {
    if |rds| > 0 {
      assert Validate(rds[0].weight, rds[0].colour, rds[0].length).Accepted?;
      AcceptedStep(s, rds[0]);
      var s1 := Inspect(s, rds[0]);
      assert AllAccepted(rds[1..]) by {
        forall k | 0 <= k < |rds[1..]|
          ensures Validate(rds[1..][k].weight, rds[1..][k].colour, rds[1..][k].length).Accepted?
        {
          assert rds[1..][k] == rds[k + 1];
        }
      }
      if |s.currentBox| + 1 == BOX_CAPACITY {
        assert rds[1..] == [];
      } else {
        AcceptedRunFillsBox(s1, rds[1..]);
        ExtendRun(s, s1, InspectAll(s1, rds[1..]), s1.approved[|s1.approved| - 1]);
      }
    }
  }

  /** One accepted step into a non-full open box followed by a run: the run's shape seen from before the step. */
  lemma ExtendRun(s: State, s1: State, r: State, part: Part)
    requires s1.approved == s.approved + [part] && s1.rejected == s.rejected
    requires s1.closedBoxes == s.closedBoxes && s1.currentBox == s.currentBox + [part]
    requires s1.approved <= r.approved
    ensures r.approved[|s.approved|..] == [part] + r.approved[|s1.approved|..]
    ensures s1.currentBox + r.approved[|s1.approved|..] == s.currentBox + r.approved[|s.approved|..]
  {
  }

  /** Registering two batches one after the other is registering their concatenation. */
  lemma {:induction false} InspectAllConcat(s: State, xs: seq<Reading>, ys: seq<Reading>)
    ensures InspectAll(s, xs + ys) == InspectAll(InspectAll(s, xs), ys)
    decreases |xs|
  {
    if |xs| > 0 {
      assert (xs + ys)[0] == xs[0];
      assert (xs + ys)[1..] == xs[1..] + ys;
      InspectAllConcat(Inspect(s, xs[0]), xs[1..], ys);
    } else {
      assert xs + ys == ys;
    }
  }

  /**
   * A run of rejected registrations leaves the approved list and all boxes
   * alone and records each part, with consecutive fresh ids and its reason,
   * at the end of the rejected list.
   */
  lemma {:induction false} RejectedRunKeepsBoxes(s: State, rds: seq<Reading>)
    requires forall k :: 0 <= k < |rds| ==> Validate(rds[k].weight, rds[k].colour, rds[k].length).Rejected?
    ensures var r := InspectAll(s, rds);
      && r.approved == s.approved
      && r.closedBoxes == s.closedBoxes && r.currentBox == s.currentBox
      && |r.rejected| == |s.rejected| + |rds|
      && r.rejected[..|s.rejected|] == s.rejected
      && (forall k :: 0 <= k < |rds| ==>
            && r.rejected[|s.rejected|..][k].id == s.idCounter + 1 + k
            && r.rejected[|s.rejected|..][k].reason == Validate(rds[k].weight, rds[k].colour, rds[k].length).reason)
    decreases |rds|
  {
    if |rds| > 0 {
      var s1 := Inspect(s, rds[0]);
      assert Validate(rds[0].weight, rds[0].colour, rds[0].length).Rejected?;
      forall k | 0 <= k < |rds[1..]|
        ensures Validate(rds[1..][k].weight, rds[1..][k].colour, rds[1..][k].length).Rejected?
      {
        assert rds[1..][k] == rds[k + 1];
      }
      RejectedRunKeepsBoxes(s1, rds[1..]);
      var r := InspectAll(s1, rds[1..]);
      assert r == InspectAll(s, rds);
      var added, added1 := r.rejected[|s.rejected|..], r.rejected[|s1.rejected|..];
      assert added == [s1.rejected[|s.rejected|]] + added1;
      assert r.rejected[..|s.rejected|] == s1.rejected[..|s.rejected|];
      forall k | 0 <= k < |rds|
        ensures added[k].id == s.idCounter + 1 + k
        ensures added[k].reason == Validate(rds[k].weight, rds[k].colour, rds[k].length).reason
      {
        if k > 0 {
          assert rds[1..][k - 1] == rds[k];
          assert added[k] == added1[k - 1];
        }
      }
    }
  }
}
