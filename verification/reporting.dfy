/**
 * The consolidated report: totals, approval rate, box occupancy and the
 * rejection histogram. The histogram lists each reason that occurs once,
 * in order of first occurrence (the order a Python dict keeps), with its
 * count.
 */
module Reporting {
  import opened Wrappers
  import opened Seqs
  import opened Quality
  import opened Inventory

  datatype ReasonCount = ReasonCount(reason: Reason, count: nat)

  datatype Report = Report(
    totalParts: nat,
    approvedCount: nat,
    rejectedCount: nat,
    approvalRate: real,
    closedBoxCount: nat,
    currentBoxCount: nat,
    byReason: seq<ReasonCount>)

  function Keys(t: seq<ReasonCount>): seq<Reason>
  {
    seq(|t|, k requires 0 <= k < |t| => t[k].reason)
  }

  predicate DistinctKeys(t: seq<ReasonCount>)
  {
    forall a, b :: 0 <= a < b < |t| ==> t[a].reason != t[b].reason
  }

  /** Sum of the counts of a histogram. */
  function Total(t: seq<ReasonCount>): nat
  {
    if |t| == 0 then 0 else t[0].count + Total(t[1..])
  }

  /** The reasons of the rejected parts, in registration order. */
  function Reasons(rs: seq<Rejection>): seq<Reason>
  {
    seq(|rs|, k requires 0 <= k < |rs| => rs[k].reason)
  }

  lemma {:induction false} TotalAppend(t: seq<ReasonCount>, c: ReasonCount)
    ensures Total(t + [c]) == Total(t) + c.count
  {
    if |t| > 0 {
      assert (t + [c])[1..] == t[1..] + [c];
      TotalAppend(t[1..], c);
    }
  }

  lemma {:induction false} TotalUpdate(t: seq<ReasonCount>, i: nat, c: ReasonCount)
    requires i < |t|
    ensures Total(t[i := c]) == Total(t) - t[i].count + c.count
  {
    if i > 0 {
      assert t[i := c][1..] == t[1..][i - 1 := c];
      TotalUpdate(t[1..], i - 1, c);
    }
  }

  /** One step of the counting loop: increment the reason's entry, or add it with count 1. */
  function Bump(t: seq<ReasonCount>, r: Reason): (u: seq<ReasonCount>)
    requires DistinctKeys(t)
    ensures DistinctKeys(u)
    ensures r in Keys(t) ==> Keys(u) == Keys(t)
    ensures r !in Keys(t) ==> Keys(u) == Keys(t) + [r] && u[|t|].count == 1
    ensures forall k :: 0 <= k < |t| ==> u[k].count == t[k].count + (if t[k].reason == r then 1 else 0)
    ensures Total(u) == Total(t) + 1
  {
    match IndexOf(Keys(t), r)
    case Some(i) =>
      TotalUpdate(t, i, ReasonCount(r, t[i].count + 1));
      t[i := ReasonCount(r, t[i].count + 1)]
    case None =>
      assert forall k :: 0 <= k < |t| ==> t[k].reason == Keys(t)[k];
      TotalAppend(t, ReasonCount(r, 1));
      t + [ReasonCount(r, 1)]
  }

  /** The reason histogram of the counting loop over the rejected reasons. */
  function Tally(rs: seq<Reason>): (t: seq<ReasonCount>)
    ensures DistinctKeys(t)
    ensures Total(t) == |rs|
  {
    if |rs| == 0 then [] else Bump(Tally(rs[..|rs| - 1]), rs[|rs| - 1])
  }

  /**
   * The histogram has an entry exactly for the reasons that occur, and each
   * entry's count is the number of rejected parts with that reason.
   */
  lemma {:induction false} TallyCounts(rs: seq<Reason>)
    ensures forall r :: r in Keys(Tally(rs)) <==> r in rs
    ensures forall k :: 0 <= k < |Tally(rs)| ==> Tally(rs)[k].count == multiset(rs)[Tally(rs)[k].reason]
  {
    if |rs| > 0 {
      var n := |rs| - 1;
      var x := rs[n];
      assert rs == rs[..n] + [x];
      TallyCounts(rs[..n]);
      var prev := Tally(rs[..n]);
      var t := Tally(rs);
      assert t == Bump(prev, x);
      forall k | 0 <= k < |t|
        ensures t[k].count == multiset(rs)[t[k].reason]
      {
        if k < |prev| {
          assert Keys(t)[k] == Keys(prev)[k];
        } else {
          assert Keys(t)[k] == x;
          assert x !in rs[..n];
        }
      }
    }
  }

  /** Position of the first occurrence of `r` in `rs` (`|rs|` when it does not occur). */
  function FirstSeen(rs: seq<Reason>, r: Reason): nat
  {
    match IndexOf(rs, r)
    case Some(i) => i
    case None => |rs|
  }

  /** The histogram lists reasons in the order in which they first occur. */
  lemma {:induction false} TallyFirstOccurrenceOrder(rs: seq<Reason>)
    ensures forall a, b :: 0 <= a < b < |Tally(rs)| ==>
      FirstSeen(rs, Tally(rs)[a].reason) < FirstSeen(rs, Tally(rs)[b].reason)
  {
    if |rs| > 0 {
      var n := |rs| - 1;
      var pre, x := rs[..n], rs[n];
      assert rs == pre + [x];
      TallyFirstOccurrenceOrder(pre);
      TallyCounts(pre);
      var prev := Tally(pre);
      var t := Tally(rs);
      assert t == Bump(prev, x);
      forall a | 0 <= a < |prev|
        ensures t[a].reason == prev[a].reason
        ensures FirstSeen(rs, t[a].reason) == FirstSeen(pre, prev[a].reason) < n
      {
        assert Keys(t)[a] == Keys(prev)[a];
        assert prev[a].reason in Keys(prev);
        IndexOfExtend(pre, [x], prev[a].reason);
      }
      if x !in Keys(prev) {
        assert Keys(t)[|prev|] == x;
        IndexOfIsFirst(rs, x, n);
      }
    }
  }

  /** `part` as a percentage of `whole`, and 0 when `whole` is 0. */
  function Percentage(part: nat, whole: nat): (p: real)
    ensures whole == 0 ==> p == 0.0
    ensures whole > 0 ==> p * whole as real == 100.0 * part as real
    ensures part <= whole ==> 0.0 <= p <= 100.0
    ensures p == 0.0 <==> part == 0 || whole == 0
    ensures p == 100.0 <==> part == whole && whole > 0
  {
    if whole > 0 then part as real / whole as real * 100.0 else 0.0
  }

  /** Sum of the per-reason percentages of a histogram over `whole` rejected parts. */
  function ShareSum(t: seq<ReasonCount>, whole: nat): real
  {
    if |t| == 0 then 0.0 else Percentage(t[0].count, whole) + ShareSum(t[1..], whole)
  }

  lemma {:induction false} ShareSumScaled(t: seq<ReasonCount>, whole: nat)
    requires whole > 0
    ensures ShareSum(t, whole) * whole as real == 100.0 * Total(t) as real
  {
    if |t| > 0 {
      ShareSumScaled(t[1..], whole);
      var a, b, w := Percentage(t[0].count, whole), ShareSum(t[1..], whole), whole as real;
      assert (a + b) * w == a * w + b * w;
    }
  }

  /** The per-reason percentages of a histogram over all its parts add up to 100. */
  lemma SharesSumToHundred(t: seq<ReasonCount>)
    requires Total(t) > 0
    ensures ShareSum(t, Total(t)) == 100.0
  {
    ShareSumScaled(t, Total(t));
    CancelFactor(ShareSum(t, Total(t)), Total(t) as real);
  }

  lemma CancelFactor(x: real, n: real)
    requires n > 0.0 && x * n == 100.0 * n
    ensures x == 100.0
  {
    assert (x - 100.0) * n == 0.0;
  }

  /** The report figures computed from a state. */
  function GenerateReport(s: State): (rep: Report)
    ensures rep.totalParts == rep.approvedCount + rep.rejectedCount
    ensures rep.approvedCount == |s.approved| && rep.rejectedCount == |s.rejected|
    ensures rep.approvalRate == Percentage(rep.approvedCount, rep.totalParts)
    ensures 0.0 <= rep.approvalRate <= 100.0
    ensures Total(rep.byReason) == rep.rejectedCount
  {
    var approved := |s.approved|;
    var rejected := |s.rejected|;
    var total := approved + rejected;
    var rate := Percentage(approved, total);
    Report(total, approved, rejected, rate,
           |s.closedBoxes|, |s.currentBox|,
           if rejected > 0 then Tally(Reasons(s.rejected)) else [])
  }

  /**
   * The histogram of the report has an entry for exactly the reasons some
   * rejected part carries, in order of first occurrence, each counting the
   * rejected parts with that reason; it is empty when nothing was rejected.
   */
  lemma ReportHistogram(s: State)
    ensures var rep := GenerateReport(s);
      && (forall r :: r in Keys(rep.byReason) <==> r in Reasons(s.rejected))
      && (forall k :: 0 <= k < |rep.byReason| ==>
            rep.byReason[k].count == multiset(Reasons(s.rejected))[rep.byReason[k].reason])
      && (forall a, b :: 0 <= a < b < |rep.byReason| ==>
            FirstSeen(Reasons(s.rejected), rep.byReason[a].reason)
              < FirstSeen(Reasons(s.rejected), rep.byReason[b].reason))
  {
    TallyCounts(Reasons(s.rejected));
    TallyFirstOccurrenceOrder(Reasons(s.rejected));
  }

  /** When something was rejected, the per-reason percentages of the report add up to 100. */
  lemma ReportSharesSumToHundred(s: State)
    requires |s.rejected| > 0
    ensures var rep := GenerateReport(s);
      ShareSum(rep.byReason, rep.rejectedCount) == 100.0
  {
    SharesSumToHundred(GenerateReport(s).byReason);
  }

  /**
   * On a consistent inventory the box figures account for every approved
   * part: sealed boxes plus the open box hold exactly the approved count,
   * and the open box is below capacity.
   */
  lemma ReportBoxesHoldApproved(s: State)
    requires Valid(s)
    ensures var rep := GenerateReport(s);
      && |Flatten(s.closedBoxes)| + rep.currentBoxCount == rep.approvedCount
      && rep.currentBoxCount < BOX_CAPACITY
      && rep.closedBoxCount == |s.closedBoxes|
  {
  }
}
