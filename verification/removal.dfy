/**
 * Removing a registered part by identifier. The approved list is searched
 * first; a hit there also takes the part out of the open box and out of
 * every sealed box (first match in each). Only when the approved list has
 * no such part is the rejected list searched. Boxes are never re-sealed or
 * reordered, so a sealed box may end up below capacity.
 */
module Removal {
  import opened Wrappers
  import opened Seqs
  import opened Inventory

  /** The answer of a removal: whether some part was removed, and the new state. */
  datatype Outcome = Outcome(found: bool, state: State)

  /** `ps` without its first part carrying `id`; unchanged when there is none. */
  function DropId(ps: seq<Part>, id: int): (r: seq<Part>)
    ensures id !in PartIds(ps) ==> r == ps
    ensures id in PartIds(ps) ==> |r| == |ps| - 1
    ensures id in PartIds(ps) ==>
      exists i :: 0 <= i < |ps| && ps[i].id == id && id !in PartIds(ps[..i]) && r == ps[..i] + ps[i + 1..]
    ensures multiset(r) <= multiset(ps)
    ensures forall p :: p in ps && p.id != id ==> p in r
  {
    match IndexOf(PartIds(ps), id)
    case None => ps
    case Some(i) =>
      assert ps == ps[..i] + [ps[i]] + ps[i + 1..];
      assert PartIds(ps)[..i] == PartIds(ps[..i]);
      assert forall j :: 0 <= j < |ps| && j != i ==> ps[j] in DeleteAt(ps, i) by {
        forall j | 0 <= j < |ps| && j != i
          ensures ps[j] in DeleteAt(ps, i)
        {
          if j < i { assert DeleteAt(ps, i)[j] == ps[j]; }
          else { assert DeleteAt(ps, i)[j - 1] == ps[j]; }
        }
      }
      DeleteAt(ps, i)
  }

  /** Every sealed box with its first part carrying `id` taken out. */
  function DropFromEach(boxes: seq<seq<Part>>, id: int): (r: seq<seq<Part>>)
    ensures |r| == |boxes|
    ensures forall b :: 0 <= b < |boxes| ==> r[b] == DropId(boxes[b], id)
  {
    seq(|boxes|, b requires 0 <= b < |boxes| => DropId(boxes[b], id))
  }

  /** The removal transition; `id` is the already-parsed identifier typed by the operator. */
  function Remove(s: State, id: int): (o: Outcome)
    ensures o.found <==> id in PartIds(s.approved) || id in RejectionIds(s.rejected)
    ensures o.state.idCounter == s.idCounter
    ensures !o.found ==> o.state == s
    ensures id in PartIds(s.approved) ==>
      && o.state.approved == DropId(s.approved, id)
      && o.state.rejected == s.rejected
      && o.state.currentBox == DropId(s.currentBox, id)
      && o.state.closedBoxes == DropFromEach(s.closedBoxes, id)
    ensures id !in PartIds(s.approved) && id in RejectionIds(s.rejected) ==>
      && o.state.approved == s.approved
      && o.state.currentBox == s.currentBox
      && o.state.closedBoxes == s.closedBoxes
      && |o.state.rejected| == |s.rejected| - 1
      && multiset(o.state.rejected) <= multiset(s.rejected)
      && (forall x :: x in s.rejected && x.id != id ==> x in o.state.rejected)
  {
    match IndexOf(PartIds(s.approved), id)
    case Some(i) =>
      Outcome(true, s.(approved := DeleteAt(s.approved, i),
                       currentBox := DropId(s.currentBox, id),
                       closedBoxes := DropFromEach(s.closedBoxes, id)))
    case None =>
      match IndexOf(RejectionIds(s.rejected), id)
      case Some(j) =>
        var rs := s.rejected;
        assert rs == rs[..j] + [rs[j]] + rs[j + 1..];
        assert forall k :: 0 <= k < |rs| && k != j ==> rs[k] in DeleteAt(rs, j) by {
          forall k | 0 <= k < |rs| && k != j
            ensures rs[k] in DeleteAt(rs, j)
          {
            if k < j { assert DeleteAt(rs, j)[k] == rs[k]; }
            else { assert DeleteAt(rs, j)[k - 1] == rs[k]; }
          }
        }
        Outcome(true, s.(rejected := DeleteAt(rs, j)))
      case None => Outcome(false, s)
  }

  lemma PartIdsDeleteAt(ps: seq<Part>, i: nat)
    requires i < |ps|
    ensures PartIds(DeleteAt(ps, i)) == DeleteAt(PartIds(ps), i)
  {
  }

  lemma RejectionIdsDeleteAt(rs: seq<Rejection>, i: nat)
    requires i < |rs|
    ensures RejectionIds(DeleteAt(rs, i)) == DeleteAt(RejectionIds(rs), i)
  {
  }

  /** Dropping an identifier found in the first half leaves the second half alone. */
  lemma {:induction false} DropIdAppendLeft(a: seq<Part>, b: seq<Part>, id: int)
    requires id in PartIds(a)
    ensures DropId(a + b, id) == DropId(a, id) + b
  {
    PartIdsAppend(a, b);
    IndexOfExtend(PartIds(a), PartIds(b), id);
    var i := IndexOf(PartIds(a), id).value;
    assert DeleteAt(a + b, i) == DeleteAt(a, i) + b;
  }

  /** Dropping an identifier absent from the first half acts on the second half only. */
  lemma {:induction false} DropIdAppendRight(a: seq<Part>, b: seq<Part>, id: int)
    requires id !in PartIds(a)
    ensures DropId(a + b, id) == a + DropId(b, id)
  {
    PartIdsAppend(a, b);
    if id in PartIds(b) {
      IndexOfShift(PartIds(a), PartIds(b), id);
      DeleteAtShift(a, b, IndexOf(PartIds(b), id).value);
    }
  }

  /** Dropping an identifier that occurs in at most one half acts on that half only. */
  lemma DropIdAppend(a: seq<Part>, b: seq<Part>, id: int)
    requires id !in PartIds(a) || id !in PartIds(b)
    ensures DropId(a + b, id) == DropId(a, id) + DropId(b, id)
  {
    if id in PartIds(a) {
      DropIdAppendLeft(a, b, id);
    } else {
      DropIdAppendRight(a, b, id);
    }
  }

  /**
   * When no identifier is stored twice, taking the first match out of every
   * sealed box is the same as taking it out of their concatenation: at most
   * one part leaves the boxes.
   */
  lemma {:induction false} FlattenDropFromEach(boxes: seq<seq<Part>>, id: int)
    requires Unique(PartIds(Flatten(boxes)))
    ensures Flatten(DropFromEach(boxes, id)) == DropId(Flatten(boxes), id)
  {
    if |boxes| > 0 {
      var n := |boxes|;
      var init, last := boxes[..n - 1], boxes[n - 1];
      PartIdsAppend(Flatten(init), last);
      UniqueSplit(PartIds(Flatten(init)), PartIds(last));
      FlattenDropFromEach(init, id);
      assert DropFromEach(boxes, id)[..n - 1] == DropFromEach(init, id);
      DropIdAppend(Flatten(init), last, id);
    }
  }

  /** A strictly increasing sequence loses its only copy of a value at deletion. */
  lemma DeleteAtRemovesValue(xs: seq<int>, i: nat)
    requires i < |xs| && Increasing(xs)
    ensures xs[i] !in DeleteAt(xs, i)
    ensures forall x :: x in DeleteAt(xs, i) ==> x in xs
  {
  }

  /**
   * Taking an approved part out of the approved list and, first match each,
   * out of every box keeps the boxes equal to the approved list.
   */
  lemma {:induction false} DropKeepsStored(s: State, id: int)
    requires Unique(PartIds(s.approved)) && Stored(s) == s.approved
    ensures Flatten(DropFromEach(s.closedBoxes, id)) + DropId(s.currentBox, id) == DropId(s.approved, id)
  {
    PartIdsAppend(Flatten(s.closedBoxes), s.currentBox);
    UniqueSplit(PartIds(Flatten(s.closedBoxes)), PartIds(s.currentBox));
    FlattenDropFromEach(s.closedBoxes, id);
    DropIdAppend(Flatten(s.closedBoxes), s.currentBox, id);
  }

  /** Sealed boxes only shrink when a part is taken out of each. */
  lemma DropFromEachBounded(boxes: seq<seq<Part>>, id: int)
    requires forall b :: b in boxes ==> |b| <= BOX_CAPACITY
    ensures forall b :: b in DropFromEach(boxes, id) ==> |b| <= BOX_CAPACITY
  {
    var r := DropFromEach(boxes, id);
    forall b | b in r
      ensures |b| <= BOX_CAPACITY
    {
      var k :| 0 <= k < |r| && r[k] == b;
      assert boxes[k] in boxes;
    }
  }

  /** The identifier lists after deleting the approved entry at `i`. */
  lemma {:induction false} ApprovedIdsAfterDelete(s: State, r: State, i: nat)
    requires Valid(s) && i < |s.approved|
    requires r.approved == DeleteAt(s.approved, i) && r.rejected == s.rejected && r.idCounter == s.idCounter
    ensures Increasing(PartIds(r.approved)) && Increasing(RejectionIds(r.rejected))
    ensures forall x :: x in PartIds(r.approved) ==> x !in RejectionIds(r.rejected)
    ensures forall x :: x in PartIds(r.approved) ==> 1 <= x <= r.idCounter
    ensures forall x :: x in RejectionIds(r.rejected) ==> 1 <= x <= r.idCounter
    ensures s.approved[i].id !in PartIds(r.approved)
  {
    var ids := PartIds(s.approved);
    PartIdsDeleteAt(s.approved, i);
    DeleteAtIncreasing(ids, i);
    DeleteAtRemovesValue(ids, i);
  }

  lemma {:induction false} RemoveApprovedPreservesValid(s: State, id: int, i: nat)
    requires Valid(s)
    requires IndexOf(PartIds(s.approved), id) == Some(i)
    ensures var r := Remove(s, id).state;
      && Valid(r)
      && id !in PartIds(r.approved) && id !in RejectionIds(r.rejected)
      && |Stored(r)| == |Stored(s)| - 1
  {
    var r := Remove(s, id).state;
    assert r.approved == DeleteAt(s.approved, i);
    ApprovedIdsAfterDelete(s, r, i);
    DropFromEachBounded(s.closedBoxes, id);
    IncreasingUnique(PartIds(s.approved));
    DropKeepsStored(s, id);
  }

  /** The identifier lists after deleting the rejected entry at `j`. */
  lemma {:induction false} RejectedIdsAfterDelete(s: State, r: State, j: nat)
    requires Valid(s) && j < |s.rejected|
    requires r.rejected == DeleteAt(s.rejected, j) && r.approved == s.approved && r.idCounter == s.idCounter
    ensures Increasing(PartIds(r.approved)) && Increasing(RejectionIds(r.rejected))
    ensures forall x :: x in PartIds(r.approved) ==> x !in RejectionIds(r.rejected)
    ensures forall x :: x in PartIds(r.approved) ==> 1 <= x <= r.idCounter
    ensures forall x :: x in RejectionIds(r.rejected) ==> 1 <= x <= r.idCounter
    ensures s.rejected[j].id !in RejectionIds(r.rejected)
  {
    var rids := RejectionIds(s.rejected);
    RejectionIdsDeleteAt(s.rejected, j);
    DeleteAtIncreasing(rids, j);
    DeleteAtRemovesValue(rids, j);
  }

  lemma {:induction false} RemoveRejectedPreservesValid(s: State, id: int, j: nat)
    requires Valid(s)
    requires id !in PartIds(s.approved)
    requires IndexOf(RejectionIds(s.rejected), id) == Some(j)
    ensures var r := Remove(s, id).state;
      && Valid(r)
      && id !in PartIds(r.approved) && id !in RejectionIds(r.rejected)
      && Stored(r) == Stored(s)
  {
    var r := Remove(s, id).state;
    assert r.rejected == DeleteAt(s.rejected, j);
    RejectedIdsAfterDelete(s, r, j);
  }


  /**
   * Removal keeps the inventory invariant; afterwards no part with that
   * identifier remains anywhere, and the boxes lose exactly one part when
   * the identifier was approved and none otherwise.
   */
  lemma RemovePreservesValid(s: State, id: int)
    requires Valid(s)
    ensures var o := Remove(s, id);
      && Valid(o.state)
      && id !in PartIds(o.state.approved) && id !in RejectionIds(o.state.rejected)
      && |Stored(o.state)| == |Stored(s)| - (if id in PartIds(s.approved) then 1 else 0)
  {
    match IndexOf(PartIds(s.approved), id)
    case Some(i) => RemoveApprovedPreservesValid(s, id, i);
    case None =>
      match IndexOf(RejectionIds(s.rejected), id)
      case Some(j) => RemoveRejectedPreservesValid(s, id, j);
      case None =>
  }

  lemma {:induction false} FlattenMember(boxes: seq<seq<Part>>, b: nat, id: int)
    requires b < |boxes| && id in PartIds(boxes[b])
    ensures id in PartIds(Flatten(boxes))
  {
    var n := |boxes|;
    PartIdsAppend(Flatten(boxes[..n - 1]), boxes[n - 1]);
    if b < n - 1 {
      assert boxes[..n - 1][b] == boxes[b];
      FlattenMember(boxes[..n - 1], b, id);
    }
  }

  /** With no identifier stored twice, two different sealed boxes never share an identifier. */
  lemma {:induction false} FlattenSeparate(boxes: seq<seq<Part>>, b1: nat, b2: nat, id: int)
    requires Unique(PartIds(Flatten(boxes)))
    requires b1 < |boxes| && b2 < |boxes| && b1 != b2
    requires id in PartIds(boxes[b1])
    ensures id !in PartIds(boxes[b2])
  {
    var n := |boxes|;
    var init := boxes[..n - 1];
    PartIdsAppend(Flatten(init), boxes[n - 1]);
    UniqueSplit(PartIds(Flatten(init)), PartIds(boxes[n - 1]));
    if b1 < n - 1 && b2 < n - 1 {
      assert init[b1] == boxes[b1] && init[b2] == boxes[b2];
      FlattenSeparate(init, b1, b2, id);
    } else if b1 < n - 1 {
      assert init[b1] == boxes[b1];
      FlattenMember(init, b1, id);
    } else {
      assert init[b2] == boxes[b2];
      if id in PartIds(boxes[b2]) {
        FlattenMember(init, b2, id);
      }
    }
  }

  /**
   * Removing a part that sits in a sealed box takes it out of that box only:
   * the box shrinks by one and is not re-sealed, every other box and the
   * open box are unchanged, and the number of sealed boxes stays the same.
   */
  lemma RemoveFromSealedBox(s: State, id: int, b: nat)
    requires Valid(s)
    requires b < |s.closedBoxes| && id in PartIds(s.closedBoxes[b])
    ensures var o := Remove(s, id);
      && o.found
      && |o.state.closedBoxes| == |s.closedBoxes|
      && |o.state.closedBoxes[b]| == |s.closedBoxes[b]| - 1
      && (forall c :: 0 <= c < |s.closedBoxes| && c != b ==> o.state.closedBoxes[c] == s.closedBoxes[c])
      && o.state.currentBox == s.currentBox
  {
    var ids := PartIds(s.approved);
    IncreasingUnique(ids);
    PartIdsAppend(Flatten(s.closedBoxes), s.currentBox);
    UniqueSplit(PartIds(Flatten(s.closedBoxes)), PartIds(s.currentBox));
    FlattenMember(s.closedBoxes, b, id);
    forall c | 0 <= c < |s.closedBoxes| && c != b
      ensures id !in PartIds(s.closedBoxes[c])
    {
      FlattenSeparate(s.closedBoxes, b, c, id);
    }
  }
}
