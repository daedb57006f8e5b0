/**
 What passing the checks means for the wall reads nobody saw: each may sit anywhere in its monotonic
 bracket, and wherever they sat, an accepted plan (scripts/pi_lab_clock.py:115-187) and an overlap within
 bounds (scripts/pi_lab_results.py:132-250) keep their policies.
 */
module Placements {
  import opened Aggregates
  import opened ClockExchange
  import S = StartPlan
  import W = WindowOverlap
  import O = OverlapSoundness
  import M = Measurement

  /** Wall and monotonic time moved alike between two reads, for one placement of each. */
  ghost predicate Agrees(first: Stamp, last: Stamp, s: int, t: int, mapping: int) {
    Abs((last.unix - first.unix) - (t - s)) <= mapping
  }

  // ---- Start proposals ----

  /** The policy of one exchange at planning time, for one placement of its two reads and of the planning read. */
  ghost predicate MeetsStartPolicy(x: Exchange, now: Stamp, p: S.Policy, sent: int, received: int, planned: int) {
    && MeetsLimits(x, S.ChecksOf(p), sent, received)
    && planned - sent <= p.maxAge
    && Agrees(x.after, now, received, planned, p.maxWallChange)
  }

  ghost predicate MeetsStartPolicyEverywhere(x: Exchange, now: Stamp, p: S.Policy) {
    forall sent, received, planned :: Placed(x.before, sent) && Placed(x.after, received) && Placed(now, planned) ==>
      MeetsStartPolicy(x, now, p, sent, received, planned)
  }

  /** A genuine exchange of this run, already over, is usable exactly when every placement meets the policy. */
  lemma UsableIffEveryPlacementMeetsPolicy(x: Exchange, runId: Identifier, now: Stamp, p: S.Policy)
    requires Genuine(x) && ValidStamp(now) && x.runId == runId
    requires x.after.monoAfter <= now.monoBefore && x.before.unix <= now.unix + p.lead
    ensures S.Usable(x, runId, now, p) <==> MeetsStartPolicyEverywhere(x, now, p)
  {
    hide Issues, Derive, Genuine, MeetsLimits, Disagreement;
    assert ValidStamp(x.before) && ValidStamp(x.after) by { GenuineStamps(x); }
    NoIssueIffEveryPlacementMeetsLimits(x, S.ChecksOf(p));
    DisagreementOverPlacements(x.after, now, p.maxWallChange);
    if S.Usable(x, runId, now, p) {
      forall sent, received, planned | Placed(x.before, sent) && Placed(x.after, received) && Placed(now, planned)
        ensures MeetsStartPolicy(x, now, p, sent, received, planned)
      {
      }
    } else if MeetsStartPolicyEverywhere(x, now, p) {
      EveryPlacementSuffices(x, now, p);
    }
  }

  lemma GenuineStamps(x: Exchange)
    requires Genuine(x)
    ensures ValidStamp(x.before) && ValidStamp(x.after) && ValidStamp(x.node)
  {
  }

  lemma EveryPlacementSuffices(x: Exchange, now: Stamp, p: S.Policy)
    requires ValidStamp(now) && ValidStamp(x.before) && ValidStamp(x.after) && MeetsStartPolicyEverywhere(x, now, p)
    ensures forall s, r :: Placed(x.before, s) && Placed(x.after, r) ==> MeetsLimits(x, S.ChecksOf(p), s, r)
    ensures forall r, t :: Placed(x.after, r) && Placed(now, t) ==> Agrees(x.after, now, r, t, p.maxWallChange)
    ensures now.monoAfter - x.before.monoBefore <= p.maxAge
  {
    hide MeetsLimits;
    assert Placed(x.before, x.before.monoBefore) && Placed(x.after, x.after.monoBefore) && Placed(now, now.monoAfter);
    forall s, r | Placed(x.before, s) && Placed(x.after, r) ensures MeetsLimits(x, S.ChecksOf(p), s, r) {
      assert MeetsStartPolicy(x, now, p, s, r, now.monoAfter);
    }
    forall r, t | Placed(x.after, r) && Placed(now, t) ensures Agrees(x.after, now, r, t, p.maxWallChange) {
      assert MeetsStartPolicy(x, now, p, x.before.monoBefore, r, t);
    }
    assert MeetsStartPolicy(x, now, p, x.before.monoBefore, x.after.monoBefore, now.monoAfter);
  }

  /** Every exchange of every node of an accepted cohort meets the policy, wherever the wall reads sat. */
  lemma AcceptedMeetsPolicyEverywhere(rows: seq<S.Observation>, runId: Identifier, now: Stamp, p: S.Policy, role: nat,
                                      i: nat)
    requires S.Accepted(rows, runId, now, p) && role < |rows| && i < |rows[role].exchanges|
    ensures MeetsStartPolicyEverywhere(rows[role].exchanges[i], now, p)
  {
    var x := rows[role].exchanges[i];
    assert ValidStamp(now);
    assert S.RoleAccepted(rows[role], role, runId, now, p, S.Seen(rows, role));
    assert S.Usable(x, runId, now, p);
    hide S.Accepted, S.RoleAccepted, MeetsStartPolicyEverywhere, Genuine;
    UsableIffEveryPlacementMeetsPolicy(x, runId, now, p);
  }

  // ---- Overlap reviews ----

  ghost predicate ExchangeMeetsLimits(x: Exchange, p: W.Policy) {
    forall sent, received :: Placed(x.before, sent) && Placed(x.after, received) ==>
      MeetsLimits(x, W.ChecksOf(p), sent, received)
  }

  ghost predicate AgreeEverywhere(first: Stamp, last: Stamp, mapping: int) {
    forall s, t :: Placed(first, s) && Placed(last, t) ==> Agrees(first, last, s, t, mapping)
  }

  /** A node's two exchanges, its wall between them and its probe marks meet the policy for every placement. */
  ghost predicate NodeMeetsPolicy(row: W.Row, p: W.Policy) {
    && ExchangeMeetsLimits(row.before, p) && ExchangeMeetsLimits(row.after, p)
    && AgreeEverywhere(row.before.node, row.after.node, p.maxWallChange)
    && ProbeMeetsPolicy(row.measurement.load.timing, p)
  }

  ghost predicate ProbeMeetsPolicy(t: M.Timing, p: W.Policy) {
    forall first, last :: M.InMark(t.start, first) && M.InMark(t.endMarker, last) ==>
      Abs(last - first - t.endMarkerElapsed) <= p.maxWallChange
  }

  lemma NoIssueMeansPolicy(row: W.Row, p: W.Policy)
    requires Genuine(row.before) && Genuine(row.after) && M.ValidTiming(row.measurement.load.timing)
    requires W.LocalIssues(row, p) == {}
    ensures NodeMeetsPolicy(row, p)
  {
    ClockIssuesAreLocal(row, p);
    assert W.NodeWallChange !in W.LocalIssues(row, p) && W.ProbeWallChange !in W.LocalIssues(row, p);
    hide Issues;
    NoIssueIffEveryPlacementMeetsLimits(row.before, W.ChecksOf(p));
    NoIssueIffEveryPlacementMeetsLimits(row.after, W.ChecksOf(p));
    DisagreementOverPlacements(row.before.node, row.after.node, p.maxWallChange);
    M.WallChangeIsTight(row.measurement.load.timing, p.maxWallChange);
  }

  lemma ClockIssuesAreLocal(row: W.Row, p: W.Policy)
    ensures Issues(row.before, W.ChecksOf(p)) + Issues(row.after, W.ChecksOf(p)) != [] ==> W.LocalIssues(row, p) != {}
  {
    hide Issues;
    var both := Issues(row.before, W.ChecksOf(p)) + Issues(row.after, W.ChecksOf(p));
    if both != [] { assert W.Clock(both[0]) in W.LocalIssues(row, p); }
  }

  lemma {:induction false} NobodyFlagged(rows: seq<W.Row>, k: nat, p: W.Policy)
    requires k <= |rows| && W.FlaggedTo(rows, k, p) == []
    ensures forall r :: 0 <= r < k ==> W.LocalIssues(rows[r], p) == {}
  {
    hide W.LocalIssues;
    if k == 0 {
    } else {
      NobodyFlagged(rows, k - 1, p);
    }
  }

  /** Within bounds, every node meets the policy, whatever the placements. */
  lemma WithinMeetsPolicyEverywhere(rows: seq<W.Row>, expected: seq<M.Config>, runId: Identifier, p: W.Policy,
                                    o: W.Overlap, r: nat)
    requires W.Reviewable(rows, expected, runId, p) && W.IsOverlap(o, rows, runId, p) && o.within && r < |rows|
    ensures NodeMeetsPolicy(rows[r], p)
  {
    hide W.LocalIssues, W.FlaggedTo, W.IsSkew, W.CommonOf, W.Judged, Genuine, NodeMeetsPolicy;
    NobodyFlagged(rows, |rows|, p);
    assert W.RowReviewable(rows[r], r, expected[r], runId);
    ReviewableRow(rows[r], r, expected[r], runId);
    hide W.RowReviewable, W.Reviewable, W.IsOverlap;
    NoIssueMeansPolicy(rows[r], p);
  }

  lemma ReviewableRow(row: W.Row, role: int, config: M.Config, runId: Identifier)
    requires W.RowReviewable(row, role, config, runId)
    ensures Genuine(row.before) && Genuine(row.after) && M.ValidTiming(row.measurement.load.timing)
  {
    hide Genuine, M.ValidTiming;
  }

  /**
   Within bounds, all coordinator reads fall in the allowed span and agree with the first of them, pairwise within twice
   that.
   */
  lemma WithinKeepsOneCoordinatorClock(rows: seq<W.Row>, expected: seq<M.Config>, runId: Identifier, p: W.Policy,
                                       o: W.Overlap,
                                       i: nat, j: nat, s: int, t: int)
    returns (anchor: nat)
    requires W.Reviewable(rows, expected, runId, p) && W.IsOverlap(o, rows, runId, p) && o.within
    requires i < |W.StampsTo(rows, |rows|)| && j < |W.StampsTo(rows, |rows|)|
    requires Placed(W.StampsTo(rows, |rows|)[i], s) && Placed(W.StampsTo(rows, |rows|)[j], t)
    ensures var stamps := W.StampsTo(rows, |rows|);
            && W.IsAnchor(stamps, anchor) && AgreeEverywhere(stamps[anchor], stamps[j], p.maxWallChange)
            && Agrees(stamps[i], stamps[j], s, t, 2 * p.maxWallChange)
            && t - s <= p.maxCollectionSpan
  {
    StampsValid(rows, expected, runId, p);
    assert W.Judged(o, W.StampsTo(rows, |rows|), p) && o.cohortIssues == [];
    hide W.Reviewable, W.StampsTo, W.IsOverlap, W.Judged;
    anchor := OneClock(W.StampsTo(rows, |rows|), o, p, i, j, s, t);
  }

  lemma OneClock(stamps: seq<Stamp>, o: W.Overlap, p: W.Policy, i: nat, j: nat, s: int, t: int) returns (anchor: nat)
    requires |stamps| > 0 && W.Judged(o, stamps, p) && o.cohortIssues == []
    requires forall k :: 0 <= k < |stamps| ==> ValidStamp(stamps[k])
    requires i < |stamps| && j < |stamps| && Placed(stamps[i], s) && Placed(stamps[j], t)
    ensures W.IsAnchor(stamps, anchor) && AgreeEverywhere(stamps[anchor], stamps[j], p.maxWallChange)
    ensures Agrees(stamps[i], stamps[j], s, t, 2 * p.maxWallChange) && t - s <= p.maxCollectionSpan
  {
    anchor := JudgedClean(o, stamps, p);
    hide W.Judged;
    DisagreementOverPlacements(stamps[anchor], stamps[j], p.maxWallChange);
    O.CohortMappingPairwise(stamps, stamps[anchor], p.maxWallChange, i, j, stamps[anchor].monoBefore, s, t);
    hide W.IsAnchor, Disagreement;
  }

  lemma JudgedClean(o: W.Overlap, stamps: seq<Stamp>, p: W.Policy) returns (anchor: nat)
    requires |stamps| > 0 && W.Judged(o, stamps, p) && o.cohortIssues == []
    ensures W.IsAnchor(stamps, anchor) && !W.Changed(stamps, stamps[anchor], p.maxWallChange)
    ensures forall i, j :: 0 <= i < |stamps| && 0 <= j < |stamps| ==>
      stamps[j].monoAfter - stamps[i].monoBefore <= p.maxCollectionSpan
  {
    hide W.Changed;
    anchor :| W.IsAnchor(stamps, anchor) && W.JudgedFrom(o, stamps, stamps[anchor], p);
    assert o.span <= p.maxCollectionSpan && !W.Changed(stamps, stamps[anchor], p.maxWallChange) by {
      assert W.CohortIssuesOf(W.Changed(stamps, stamps[anchor], p.maxWallChange), o, p) == [];
    }
    var ends := W.Ends(stamps);
    forall i, j | 0 <= i < |stamps| && 0 <= j < |stamps|
      ensures stamps[j].monoAfter - stamps[i].monoBefore <= p.maxCollectionSpan {
      assert ends[j] <= MaxOf(ends);
    }
  }

  lemma StampsValid(rows: seq<W.Row>, expected: seq<M.Config>, runId: Identifier, p: W.Policy)
    requires W.Reviewable(rows, expected, runId, p)
    ensures forall k :: 0 <= k < |W.StampsTo(rows, |rows|)| ==> ValidStamp(W.StampsTo(rows, |rows|)[k])
  {
    hide M.Reviewed;
    forall r | 0 <= r < |rows| ensures RowStampsValid(rows[r]) {
      assert W.RowReviewable(rows[r], r, expected[r], runId);
    }
    hide W.Reviewable, W.RowReviewable;
    StampsValidTo(rows, |rows|);
  }

  ghost predicate RowStampsValid(row: W.Row) {
    ValidStamp(row.before.before) && ValidStamp(row.before.after) && ValidStamp(row.after.before)
      && ValidStamp(row.after.after)
  }

  lemma {:induction false} StampsValidTo(rows: seq<W.Row>, n: nat)
    requires n <= |rows| && forall r :: 0 <= r < |rows| ==> RowStampsValid(rows[r])
    ensures forall k :: 0 <= k < |W.StampsTo(rows, n)| ==> ValidStamp(W.StampsTo(rows, n)[k])
  {
    hide ValidStamp;
    if n == 0 {
    } else {
      StampsValidTo(rows, n - 1);
    }
  }
}
